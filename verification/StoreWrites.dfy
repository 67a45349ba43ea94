/** What writers commit together is, to the database, one write of the operations of the group, under a comparator that
    ranks their keys. */
module StoreWrites {
  import opened Primitives
  import opened InternalKeys
  import Store
  import GroupCommit

  // A comparator on user keys, as the rank it gives each.
  type Ranking = Bytes -> UserKey

  function Ranked(rank: Ranking, op: GroupCommit.Op): Store.Op {
    match op
    case Put(key, value) => Store.Op(rank(key), VALUE, value)
    case Delete(key) => Store.Op(rank(key), DELETION, [])
  }

  function RankedAll(rank: Ranking, ops: seq<GroupCommit.Op>): (r: seq<Store.Op>)
    ensures |r| == |ops| && forall i :: 0 <= i < |ops| ==> r[i] == Ranked(rank, ops[i])
  {
    seq(|ops|, i requires 0 <= i < |ops| => Ranked(rank, ops[i]))
  }

  function EntryOf(rank: Ranking, number: SequenceNumber, op: GroupCommit.Op): Entry {
    Entry(InternalKey(Ranked(rank, op).user, number, Ranked(rank, op).kind), Ranked(rank, op).value)
  }

  // What readers see of the memtable while writers come and go.
  ghost function Seen(rank: Ranking, mem: seq<(nat, GroupCommit.Op)>): set<Entry> {
    set numbered | numbered in mem && numbered.0 <= MAX_SEQUENCE :: EntryOf(rank, numbered.0, numbered.1)
  }

  /** The database has written what readers see. */
  ghost predicate Agrees(rank: Ranking, s: GroupCommit.State, db: Store.State) {
    && s.lastSequence <= |s.mem|
    && db.lastSequence == s.lastSequence && db.history == Seen(rank, GroupCommit.Visible(s))
  }

  lemma SeenOneBatchMore(rank: Ranking, mem: seq<(nat, GroupCommit.Op)>, more: seq<(nat, GroupCommit.Op)>,
                         ops: seq<GroupCommit.Op>, first: nat)
    requires |more| == |ops| && first + |ops| <= MAX_SEQUENCE
    requires forall i :: 0 <= i < |ops| ==> more[i] == (first + i, ops[i])
    ensures Seen(rank, mem + more) == Seen(rank, mem) + Elements(Store.BatchEntries(RankedAll(rank, ops), first))
  {
    var es := Store.BatchEntries(RankedAll(rank, ops), first);
    assert forall i :: 0 <= i < |ops| ==> es[i] == EntryOf(rank, more[i].0, more[i].1);
    forall e | e in Elements(es)
      ensures e in Seen(rank, mem + more)
    {
      var i :| 0 <= i < |es| && es[i] == e;
      assert more[i] in mem + more;
    }
    forall e | e in Seen(rank, mem + more)
      ensures e in Seen(rank, mem) + Elements(es)
    {
      var numbered :| numbered in mem + more && numbered.0 <= MAX_SEQUENCE && e == EntryOf(rank, numbered.0, numbered.1);
      if numbered !in mem {
        var i :| 0 <= i < |more| && more[i] == numbered;
        assert e == es[i];
      }
    }
  }

  // ----- One step -----

  // The memtable ends with the operations of a group, numbered from the last that readers see.
  ghost predicate EndsWithGroup(s: GroupCommit.State, ops: seq<GroupCommit.Op>) {
    && |s.mem| == s.lastSequence + |ops|
    && forall i :: 0 <= i < |ops| ==> s.mem[s.lastSequence..][i] == (s.lastSequence + 1 + i, ops[i])
  }

  lemma GroupIsApplied(s: GroupCommit.State, c: GroupCommit.Commit)
    requires GroupCommit.Inv(s) && s.commit == Some(c) && c.logged && c.applied == |c.ops|
    ensures EndsWithGroup(s, c.ops)
  {
    GroupCommit.InvGives(s, c);
    assert c.ops[..|c.ops|] == c.ops;
    NumberedTail(s, GroupCommit.Ops(s.arrived[..s.done]), c.ops);
  }

  lemma NumberedTail(s: GroupCommit.State, before: seq<GroupCommit.Op>, ops: seq<GroupCommit.Op>)
    requires GroupCommit.Numbered(s.mem, before + ops) && s.lastSequence == |before|
    ensures EndsWithGroup(s, ops)
  {
  }

  lemma SeenWithGroup(rank: Ranking, s: GroupCommit.State, t: GroupCommit.State, ops: seq<GroupCommit.Op>)
    requires EndsWithGroup(s, ops) && s.lastSequence + |ops| + 1 < MAX_SEQUENCE
    requires t.mem == s.mem && t.lastSequence == s.lastSequence + |ops|
    ensures Seen(rank, GroupCommit.Visible(t))
         == Seen(rank, GroupCommit.Visible(s)) + Elements(Store.BatchEntries(RankedAll(rank, ops), s.lastSequence + 1))
  {
    assert GroupCommit.Visible(t) == GroupCommit.Visible(s) + s.mem[s.lastSequence..];
    SeenOneBatchMore(rank, GroupCommit.Visible(s), s.mem[s.lastSequence..], ops, s.lastSequence + 1);
  }

  // A write of these operations makes of the database what readers see.
  ghost predicate IsWrite(rank: Ranking, t: GroupCommit.State, ops: seq<Store.Op>, db: Store.State) {
    && (forall op :: op in ops ==> op.kind <= VALUE) && db.lastSequence + |ops| + 1 < MAX_SEQUENCE
    && forall db2 :: Store.Write(db, db2, ops) ==> Agrees(rank, t, db2)
  }

  lemma RankedKinds(rank: Ranking, ops: seq<GroupCommit.Op>)
    ensures forall op :: op in RankedAll(rank, ops) ==> op.kind <= VALUE
  {
  }

  /** When a group is done readers see what a write of its operations makes of the database. */
  lemma FinishIsWrite(rank: Ranking, s: GroupCommit.State, c: GroupCommit.Commit, db: Store.State)
    requires GroupCommit.Inv(s) && s.commit == Some(c) && c.logged && c.applied == |c.ops| && Agrees(rank, s, db)
    requires s.lastSequence + |c.ops| + 1 < MAX_SEQUENCE
    ensures IsWrite(rank, GroupCommit.AfterFinish(s, c), RankedAll(rank, c.ops), db)
  {
    GroupIsApplied(s, c);
    SeenWithGroup(rank, s, GroupCommit.AfterFinish(s, c), c.ops);
    RankedKinds(rank, c.ops);
    ShownIsWritten(rank, s, GroupCommit.AfterFinish(s, c), RankedAll(rank, c.ops), db);
  }

  lemma ShownIsWritten(rank: Ranking, s: GroupCommit.State, t: GroupCommit.State, ops: seq<Store.Op>, db: Store.State)
    requires Agrees(rank, s, db) && t.lastSequence == s.lastSequence + |ops| <= |t.mem| && t.lastSequence + 1 < MAX_SEQUENCE
    requires forall op :: op in ops ==> op.kind <= VALUE
    requires Seen(rank, GroupCommit.Visible(t))
          == Seen(rank, GroupCommit.Visible(s)) + Elements(Store.BatchEntries(ops, s.lastSequence + 1))
    ensures IsWrite(rank, t, ops, db)
  {
  }

  /** Until then they see nothing of it. */
  lemma OtherStepsShowNothing(rank: Ranking, sizes: GroupCommit.Sizes, s: GroupCommit.State, step: GroupCommit.Step, db: Store.State)
    requires GroupCommit.Enabled(s, step) && !step.Finish? && Agrees(rank, s, db)
    ensures Agrees(rank, GroupCommit.Next(sizes, s, step), db)
  {
    var t := GroupCommit.Next(sizes, s, step);
    assert t.lastSequence == s.lastSequence && s.mem <= t.mem;
    assert GroupCommit.Visible(t) == GroupCommit.Visible(s);
  }

  // ----- Runs -----

  lemma InsertSorted(es: seq<Entry>, e: Entry) returns (r: seq<Entry>)
    requires Sorted(es) && forall x :: x in es ==> x.key.sequence != e.key.sequence
    ensures Sorted(r) && Elements(r) == Elements(es) + {e}
  {
    var i := FirstAtOrAfter(es, e.key);
    r := es[..i] + [e] + es[i..];
    assert forall x :: x in es <==> x in es[..i] || x in es[i..];
  }

  lemma {:induction false} InsertAll(es: seq<Entry>, more: seq<Entry>) returns (r: seq<Entry>)
    requires Sorted(es) && forall x, y :: x in es && y in more ==> x.key.sequence != y.key.sequence
    requires forall i, j :: 0 <= i < j < |more| ==> more[i].key.sequence != more[j].key.sequence
    ensures Sorted(r) && Elements(r) == Elements(es) + Elements(more)
  {
    r := es;
    if more != [] {
      var front, e := more[..|more| - 1], more[|more| - 1];
      assert forall x :: x in more <==> x in front || x == e;
      r := InsertAll(es, front);
      forall x | x in r
        ensures x.key.sequence != e.key.sequence
      {
        assert x in Elements(es) + Elements(front);
      }
      r := InsertSorted(r, e);
    }
  }

  // The memtable can take what is written.
  lemma WriteIsPossible(db: Store.State, ops: seq<Store.Op>) returns (db2: Store.State)
    requires Sorted(db.mem) && forall e :: e in db.mem ==> e.key.sequence <= db.lastSequence
    requires (forall op :: op in ops ==> op.kind <= VALUE) && db.lastSequence + |ops| + 1 < MAX_SEQUENCE
    ensures Store.Write(db, db2, ops)
  {
    var es := Store.BatchEntries(ops, db.lastSequence + 1);
    var mem := InsertAll(db.mem, es);
    db2 := db.(mem := mem, lastSequence := db.lastSequence + |ops|, history := db.history + Elements(es));
  }

  // A run of the database that only writes.
  ghost predicate OnlyWrites(run: seq<Store.State>, writes: seq<Store.Step>) {
    && Store.IsRun(run, writes) && Sorted(run[|run| - 1].mem)
    && forall i :: 0 <= i < |writes| ==> writes[i].WriteStep?
  }

  lemma OneWriteMore(run: seq<Store.State>, writes: seq<Store.Step>, ops: seq<Store.Op>, db2: Store.State)
    requires OnlyWrites(run, writes) && Store.Write(run[|run| - 1], db2, ops)
    ensures OnlyWrites(run + [db2], writes + [Store.WriteStep(ops)])
  {
    var run2, writes2 := run + [db2], writes + [Store.WriteStep(ops)];
    forall i | 0 <= i < |writes2|
      ensures Store.Next(run2[i], run2[i + 1], writes2[i])
    {
      assert i < |writes| ==> Store.Next(run[i], run[i + 1], writes[i]);
    }
  }

  lemma NextWrite(run: seq<Store.State>, writes: seq<Store.Step>, ops: seq<Store.Op>) returns (db2: Store.State)
    requires OnlyWrites(run, writes) && run[|run| - 1].lastSequence + |ops| + 1 < MAX_SEQUENCE
    requires forall op :: op in ops ==> op.kind <= VALUE
    ensures Store.Write(run[|run| - 1], db2, ops) && OnlyWrites(run + [db2], writes + [Store.WriteStep(ops)])
  {
    var db := run[|run| - 1];
    Store.RunBase(run, writes, |run| - 1);
    assert forall e :: e in db.mem ==> e in Store.All(db);
    db2 := WriteIsPossible(db, ops);
    OneWriteMore(run, writes, ops, db2);
  }

  lemma StartsEmpty(rank: Ranking) returns (db: Store.State)
    ensures OnlyWrites([db], []) && Agrees(rank, GroupCommit.INIT, db)
  {
    db := Store.State([], None, Store.EmptyVersion, 0, [], 2, None, {});
  }

  lemma GoesOn(rank: Ranking, sizes: GroupCommit.Sizes, s: GroupCommit.State, step: GroupCommit.Step,
               run: seq<Store.State>, writes: seq<Store.Step>)
    returns (run2: seq<Store.State>, writes2: seq<Store.Step>)
    requires GroupCommit.Inv(s) && GroupCommit.Enabled(s, step)
    requires GroupCommit.Next(sizes, s, step).lastSequence + 1 < MAX_SEQUENCE
    requires OnlyWrites(run, writes) && Agrees(rank, s, run[|run| - 1])
    ensures OnlyWrites(run2, writes2) && Agrees(rank, GroupCommit.Next(sizes, s, step), run2[|run2| - 1])
  {
    run2, writes2 := run, writes;
    if step.Finish? {
      FinishIsWrite(rank, s, s.commit.value, run[|run| - 1]);
      var ops := RankedAll(rank, s.commit.value.ops);
      var db2 := NextWrite(run, writes, ops);
      run2, writes2 := run + [db2], writes + [Store.WriteStep(ops)];
    } else {
      OtherStepsShowNothing(rank, sizes, s, step, run[|run| - 1]);
    }
  }

  lemma RunGoesOn(rank: Ranking, sizes: GroupCommit.Sizes, states: seq<GroupCommit.State>, steps: seq<GroupCommit.Step>, i: nat,
                  run: seq<Store.State>, writes: seq<Store.Step>)
    returns (run2: seq<Store.State>, writes2: seq<Store.Step>)
    requires GroupCommit.Run(sizes, states, steps) && i < |steps| && states[i + 1].lastSequence + 1 < MAX_SEQUENCE
    requires OnlyWrites(run, writes) && Agrees(rank, states[i], run[|run| - 1])
    ensures OnlyWrites(run2, writes2) && Agrees(rank, states[i + 1], run2[|run2| - 1])
  {
    GroupCommit.RunKeepsInv(sizes, states, steps, i);
    run2, writes2 := GoesOn(rank, sizes, states[i], steps[i], run, writes);
  }

  lemma NumbersGrow(sizes: GroupCommit.Sizes, states: seq<GroupCommit.State>, steps: seq<GroupCommit.Step>, i: nat)
    requires GroupCommit.Run(sizes, states, steps) && i < |steps|
    ensures states[i].lastSequence <= states[i + 1].lastSequence
  {
    assert states[i + 1] == GroupCommit.Next(sizes, states[i], steps[i]);
  }

  /** However writers come and go, and wherever they are interrupted: at every moment readers see what some run of
      writes of whole groups has made of the database. */
  lemma {:induction false} RunIsWrites(rank: Ranking, sizes: GroupCommit.Sizes, states: seq<GroupCommit.State>,
                                       steps: seq<GroupCommit.Step>, i: nat)
    returns (run: seq<Store.State>, writes: seq<Store.Step>)
    requires GroupCommit.Run(sizes, states, steps) && i <= |steps| && states[i].lastSequence + 1 < MAX_SEQUENCE
    ensures OnlyWrites(run, writes) && Agrees(rank, states[i], run[|run| - 1])
  {
    if i == 0 {
      var db := StartsEmpty(rank);
      run, writes := [db], [];
    } else {
      NumbersGrow(sizes, states, steps, i - 1);
      run, writes := RunIsWrites(rank, sizes, states, steps, i - 1);
      run, writes := RunGoesOn(rank, sizes, states, steps, i - 1, run, writes);
    }
  }
}
