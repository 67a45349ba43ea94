/** Writers that wait in a queue, and a leader that commits a group of them at a time. */
module GroupCommit {
  import opened Primitives

  datatype Op = Put(key: Bytes, value: Bytes) | Delete(key: Bytes)

  // A writer with no batch only forces a compaction.
  datatype Writer = Writer(batch: Option<seq<Op>>, sync: bool)

  // ----- Choosing a group -----

  function OpsOf(w: Writer): seq<Op> {
    if w.batch.Some? then w.batch.value else []
  }

  // The batches of some writers, one after the other.
  function Ops(ws: seq<Writer>): seq<Op> {
    if ws == [] then [] else Ops(ws[..|ws| - 1]) + OpsOf(ws[|ws| - 1])
  }

  lemma {:induction false} OpsConcat(a: seq<Writer>, b: seq<Writer>)
    ensures Ops(a + b) == Ops(a) + Ops(b)
  {
    if b == [] {
      assert a + b == a && Ops(a) + [] == Ops(a);
    } else {
      assert (a + b)[..|a + b| - 1] == a + b[..|b| - 1];
      OpsConcat(a, b[..|b| - 1]);
      assert Ops(a) + (Ops(b[..|b| - 1]) + OpsOf(b[|b| - 1])) == (Ops(a) + Ops(b[..|b| - 1])) + OpsOf(b[|b| - 1]);
    }
  }

  // Size of a batch in bytes.
  type Sizes = seq<Op> -> nat

  const SMALL: nat := 0x2_0000
  const LARGE: nat := 0x10_0000

  // How large a group may grow: not much larger than a small first write.
  function MaxSize(first: nat): nat {
    if first <= SMALL then first + SMALL else LARGE
  }

  // May w be carried by a leader, if the group has grown to size with it?
  predicate Admits(leader: Writer, w: Writer, size: nat, max: nat) {
    (w.sync ==> leader.sync) && (w.batch.Some? ==> size <= max)
  }

  function SizeWith(sizes: Sizes, size: nat, w: Writer): nat {
    if w.batch.Some? then size + sizes(w.batch.value) else size
  }

  // The position of the last writer of a group that has grown to size with those before position i.
  function LastFrom(sizes: Sizes, queue: seq<Writer>, i: nat, size: nat, max: nat): (last: nat)
    requires 0 < i <= |queue|
    ensures i - 1 <= last < |queue|
    decreases |queue| - i
  {
    if i == |queue| || !Admits(queue[0], queue[i], SizeWith(sizes, size, queue[i]), max) then i - 1
    else LastFrom(sizes, queue, i + 1, SizeWith(sizes, size, queue[i]), max)
  }

  lemma {:induction false} LastFromSyncs(sizes: Sizes, queue: seq<Writer>, i: nat, size: nat, max: nat)
    requires 0 < i <= |queue|
    ensures forall j :: i <= j <= LastFrom(sizes, queue, i, size, max) ==> queue[j].sync ==> queue[0].sync
    decreases |queue| - i
  {
    if i < |queue| && Admits(queue[0], queue[i], SizeWith(sizes, size, queue[i]), max) {
      LastFromSyncs(sizes, queue, i + 1, SizeWith(sizes, size, queue[i]), max);
    }
  }

  function GroupEnd(sizes: Sizes, queue: seq<Writer>): (last: nat)
    requires queue != [] && queue[0].batch.Some?
    ensures last < |queue|
  {
    var size := sizes(queue[0].batch.value);
    LastFrom(sizes, queue, 1, size, MaxSize(size))
  }

  /** A leader that does not sync carries no writer that does. */
  lemma GroupSyncs(sizes: Sizes, queue: seq<Writer>)
    requires queue != [] && queue[0].batch.Some?
    ensures forall j :: 0 <= j <= GroupEnd(sizes, queue) ==> queue[j].sync ==> queue[0].sync
  {
    var size := sizes(queue[0].batch.value);
    LastFromSyncs(sizes, queue, 1, size, MaxSize(size));
  }

  // The batches of the first n of some writers.
  function OpsOfFront(queue: seq<Writer>, n: nat): seq<Op>
    requires n <= |queue|
  {
    if n == 0 then [] else OpsOfFront(queue, n - 1) + OpsOf(queue[n - 1])
  }

  lemma {:induction false} OpsOfFrontIs(queue: seq<Writer>, n: nat)
    requires n <= |queue|
    ensures OpsOfFront(queue, n) == Ops(queue[..n])
  {
    if n > 0 {
      OpsOfFrontIs(queue, n - 1);
      OpsOneMore(queue, n - 1);
    }
  }

  // A writer with nothing to write adds nothing.
  lemma NullAddsNothing(queue: seq<Writer>, i: nat)
    requires i < |queue| && queue[i].batch.None?
    ensures OpsOfFront(queue, i + 1) == OpsOfFront(queue, i)
  {
    assert OpsOfFront(queue, i) + [] == OpsOfFront(queue, i);
  }

  /** The batches of the group that the first writer leads, as one. */
  method BuildBatchGroup(sizes: Sizes, queue: seq<Writer>) returns (result: seq<Op>, last: nat)
    requires queue != [] && queue[0].batch.Some?
    ensures last == GroupEnd(sizes, queue) && result == Ops(queue[..last + 1])
  {
    result := queue[0].batch.value;
    assert OpsOfFront(queue, 1) == [] + result;
    var size: nat := sizes(result);
    // A small write is not made to wait for a large group.
    var maxSize: nat := 0x10_0000;
    if size <= 0x2_0000 {
      maxSize := size + 0x2_0000;
    }
    last := 0;
    var i: nat := 1;
    while i < |queue|
      invariant 1 <= i <= |queue| && last == i - 1
      invariant result == OpsOfFront(queue, i)
      invariant LastFrom(sizes, queue, i, size, maxSize) == GroupEnd(sizes, queue)
    {
      var w := queue[i];
      if w.sync && !queue[0].sync {
        // Its leader would not sync for it.
        break;
      }
      if w.batch.Some? {
        size := size + sizes(w.batch.value);
        if size > maxSize {
          // The group is as large as it may get.
          break;
        }
        result := result + w.batch.value;
      } else {
        NullAddsNothing(queue, i);
      }
      last := i;
      i := i + 1;
    }
    OpsOfFrontIs(queue, last + 1);
  }

  // ----- The protocol -----

  // One record of the log.
  datatype Record = Record(first: nat, ops: seq<Op>, synced: bool)

  /** What the leader is at while it has let go of the lock: writers up to last in the queue are
      its group. */
  datatype Commit = Commit(last: nat, ops: seq<Op>, logged: bool, applied: nat)

  /** Writers are named by the order they came in; the first `done` of them have returned, and
      the others are the queue. */
  datatype State = State(arrived: seq<Writer>, done: nat, log: seq<Record>, mem: seq<(nat, Op)>, lastSequence: nat,
                         commit: Option<Commit>)

  function Queue(s: State): seq<Writer>
    requires s.done <= |s.arrived|
  {
    s.arrived[s.done..]
  }

  datatype Step =
    | Arrive(w: Writer)
    | PassNull  // a writer with no batch returns
    | Begin
    | Log
    | Sync
    | Apply  // one operation to the memtable
    | Finish

  function Front(s: State): Writer
    requires s.done < |s.arrived|
  {
    s.arrived[s.done]
  }

  predicate Enabled(s: State, step: Step) {
    && s.done <= |s.arrived|
    && match step
       case Arrive(_) => true
       case PassNull => s.commit.None? && s.done < |s.arrived| && Front(s).batch.None?
       case Begin => s.commit.None? && s.done < |s.arrived| && Front(s).batch.Some?
       case Log => s.commit.Some? && !s.commit.value.logged
       case Sync => s.commit.Some? && s.commit.value.logged && s.log != [] && s.done < |s.arrived| && Front(s).sync
       case Apply =>
         && s.commit.Some? && s.commit.value.logged && s.log != [] && s.done < |s.arrived|
         && s.commit.value.applied < |s.commit.value.ops| && (Front(s).sync ==> s.log[|s.log| - 1].synced)
       case Finish =>
         && s.commit.Some? && s.commit.value.logged && s.log != [] && s.done < |s.arrived|
         && s.commit.value.applied == |s.commit.value.ops| && (Front(s).sync ==> s.log[|s.log| - 1].synced)
         && s.done + s.commit.value.last < |s.arrived|
  }

  function Next(sizes: Sizes, s: State, step: Step): State
    requires Enabled(s, step)
  {
    match step
    case Arrive(w) => s.(arrived := s.arrived + [w])
    case PassNull => s.(done := s.done + 1)
    case Begin =>
      var last := GroupEnd(sizes, Queue(s));
      s.(commit := Some(Commit(last, Ops(Queue(s)[..last + 1]), false, 0)))
    case Log =>
      s.(log := s.log + [Record(s.lastSequence + 1, s.commit.value.ops, false)],
         commit := Some(s.commit.value.(logged := true)))
    case Sync =>
      s.(log := LastSynced(s.log))
    case Apply =>
      AfterApply(s, s.commit.value)
    case Finish =>
      AfterFinish(s, s.commit.value)
  }

  const INIT := State([], 0, [], [], 0, None)

  // ----- What every interleaving keeps -----

  // Operations with their sequence numbers, the first of which is 1.
  predicate Numbered(mem: seq<(nat, Op)>, ops: seq<Op>) {
    |mem| == |ops| && forall i :: 0 <= i < |mem| ==> mem[i] == (i + 1, ops[i])
  }

  function LogOps(log: seq<Record>): seq<Op> {
    if log == [] then [] else LogOps(log[..|log| - 1]) + log[|log| - 1].ops
  }

  // Record i is numbered after those before it.
  predicate Follows(log: seq<Record>, i: nat)
    requires i < |log|
  {
    log[i].first == |LogOps(log[..i])| + 1
  }

  // The log holds these operations, its records numbered without gaps.
  predicate LogIs(log: seq<Record>, ops: seq<Op>) {
    LogOps(log) == ops && forall i :: 0 <= i < |log| ==> Follows(log, i)
  }

  // The batches of the writers that have returned.
  function Committed(s: State): seq<Op>
    requires s.done <= |s.arrived|
  {
    Ops(s.arrived[..s.done])
  }

  // Record r holds all operations of writer i, and it has been synced if the writer asked so.
  ghost predicate Carries(arrived: seq<Writer>, i: nat, r: Record)
    requires i < |arrived|
  {
    var start := |Ops(arrived[..i])| + 1;
    && r.first <= start && start + |OpsOf(arrived[i])| <= r.first + |r.ops|
    && (arrived[i].sync ==> r.synced)
  }

  ghost predicate Carried(arrived: seq<Writer>, i: nat, log: seq<Record>)
    requires i < |arrived|
  {
    arrived[i].batch.Some? ==> exists r :: 0 <= r < |log| && Carries(arrived, i, log[r])
  }

  ghost predicate AllCarried(arrived: seq<Writer>, done: nat, log: seq<Record>) {
    done <= |arrived| && forall i: nat :: i < done ==> Carried(arrived, i, log)
  }

  // The group of a commit: a front part of the queue, none of it syncing unless the leader does.
  ghost predicate Group(arrived: seq<Writer>, done: nat, c: Commit) {
    && done + c.last < |arrived| && arrived[done].batch.Some?
    && c.ops == Ops(arrived[done..done + c.last + 1])
    && forall j :: done <= j <= done + c.last ==> arrived[j].sync ==> arrived[done].sync
  }

  // How far the leader has come.
  ghost predicate Progress(c: Commit, log: seq<Record>, lastSequence: nat, sync: bool) {
    && c.applied <= |c.ops| && (!c.logged ==> c.applied == 0)
    && (c.logged ==> log != [] && log[|log| - 1].first == lastSequence + 1 && log[|log| - 1].ops == c.ops)
    && (sync && c.applied > 0 ==> log != [] && log[|log| - 1].synced)
  }

  // The log and the memtable while a group is being committed after some operations.
  ghost predicate Holding(before: seq<Op>, c: Commit, log: seq<Record>, mem: seq<(nat, Op)>)
    requires c.applied <= |c.ops|
  {
    LogIs(log, if c.logged then before + c.ops else before) && Numbered(mem, before + c.ops[..c.applied])
  }

  // What holds while a group is being committed after the operations of those that have returned.
  ghost predicate Committing(arrived: seq<Writer>, done: nat, c: Commit, log: seq<Record>, mem: seq<(nat, Op)>, lastSequence: nat) {
    && Group(arrived, done, c) && Progress(c, log, lastSequence, arrived[done].sync)
    && Holding(Ops(arrived[..done]), c, log, mem)
  }

  // Of the writers that have returned.
  ghost predicate Served(arrived: seq<Writer>, done: nat, log: seq<Record>, lastSequence: nat) {
    done <= |arrived| && lastSequence == |Ops(arrived[..done])| && AllCarried(arrived, done, log)
  }

  ghost predicate Inv(s: State) {
    && Served(s.arrived, s.done, s.log, s.lastSequence)
    && match s.commit
       case None => LogIs(s.log, Committed(s)) && Numbered(s.mem, Committed(s))
       case Some(c) => Committing(s.arrived, s.done, c, s.log, s.mem, s.lastSequence)
  }

  lemma ArriveKeeps(sizes: Sizes, s: State, w: Writer)
    requires Inv(s)
    ensures Inv(Next(sizes, s, Arrive(w)))
  {
    ServedAmongMore(s.arrived, s.done, s.log, s.lastSequence, w);
    if s.commit.Some? {
      CommittingAmongMore(s.arrived, s.done, s.commit.value, s.log, s.mem, s.lastSequence, w);
    }
  }

  lemma ServedAmongMore(arrived: seq<Writer>, done: nat, log: seq<Record>, lastSequence: nat, w: Writer)
    requires Served(arrived, done, log, lastSequence)
    ensures Served(arrived + [w], done, log, lastSequence) && (arrived + [w])[..done] == arrived[..done]
  {
    assert (arrived + [w])[..done] == arrived[..done];
    CarriedAmongMore(arrived, done, log, w);
  }

  lemma CommittingAmongMore(arrived: seq<Writer>, done: nat, c: Commit, log: seq<Record>, mem: seq<(nat, Op)>, lastSequence: nat,
                            w: Writer)
    requires Committing(arrived, done, c, log, mem, lastSequence)
    ensures Committing(arrived + [w], done, c, log, mem, lastSequence)
  {
    var more, end := arrived + [w], done + c.last + 1;
    assert more[..done] == arrived[..done] && more[done..end] == arrived[done..end];
  }

  lemma CarriedAmongMore(arrived: seq<Writer>, done: nat, log: seq<Record>, w: Writer)
    requires AllCarried(arrived, done, log)
    ensures AllCarried(arrived + [w], done, log)
  {
    forall i: nat | i < done && arrived[i].batch.Some? ensures Carried(arrived + [w], i, log) {
      assert Carried(arrived, i, log);
      var r :| 0 <= r < |log| && Carries(arrived, i, log[r]);
      assert (arrived + [w])[..i] == arrived[..i];
      assert Carries(arrived + [w], i, log[r]);
    }
  }

  lemma OpsOneMore(arrived: seq<Writer>, i: nat)
    requires i < |arrived|
    ensures Ops(arrived[..i + 1]) == Ops(arrived[..i]) + OpsOf(arrived[i])
  {
    assert arrived[..i + 1][..i] == arrived[..i];
  }

  lemma PassNullKeeps(sizes: Sizes, s: State)
    requires Inv(s) && Enabled(s, PassNull)
    ensures Inv(Next(sizes, s, PassNull))
  {
    OpsOneMore(s.arrived, s.done);
    assert Committed(s) + [] == Committed(s);
  }

  lemma BeginKeeps(sizes: Sizes, s: State)
    requires Inv(s) && Enabled(s, Begin)
    ensures Inv(Next(sizes, s, Begin))
  {
    BeginsGroup(sizes, s.arrived, s.done);
    BeginInv(s, Next(sizes, s, Begin).commit.value);
  }

  lemma BeginInv(s: State, c: Commit)
    requires Inv(s) && s.commit.None? && Group(s.arrived, s.done, c) && !c.logged && c.applied == 0
    ensures Inv(s.(commit := Some(c)))
  {
    BeginHolding(Committed(s), c, s.log, s.mem);
    InvFrom(s.(commit := Some(c)), c);
  }

  lemma BeginHolding(before: seq<Op>, c: Commit, log: seq<Record>, mem: seq<(nat, Op)>)
    requires LogIs(log, before) && Numbered(mem, before) && !c.logged && c.applied == 0
    ensures Holding(before, c, log, mem)
  {
    assert before + c.ops[..0] == before;
  }

  lemma BeginsGroup(sizes: Sizes, arrived: seq<Writer>, done: nat)
    requires done < |arrived| && arrived[done].batch.Some?
    ensures
      var last := GroupEnd(sizes, arrived[done..]);
      Group(arrived, done, Commit(last, Ops(arrived[done..][..last + 1]), false, 0))
  {
    var queue := arrived[done..];
    var last := GroupEnd(sizes, queue);
    GroupSyncs(sizes, queue);
    assert queue[..last + 1] == arrived[done..done + last + 1];
    forall j | done <= j <= done + last ensures arrived[j].sync ==> arrived[done].sync {
      assert arrived[j] == queue[j - done];
    }
  }

  lemma LogOneMore(log: seq<Record>, ops: seq<Op>, r: Record)
    requires LogIs(log, ops) && r.first == |ops| + 1
    ensures LogIs(log + [r], ops + r.ops)
  {
    var more := log + [r];
    assert more[..|log|] == log;
    forall i | 0 <= i < |more| ensures Follows(more, i) {
      if i < |log| {
        assert Follows(log, i) && more[..i] == log[..i];
      }
    }
  }

  // What was carried by a record that is still there still is.
  lemma CarriedStill(arrived: seq<Writer>, done: nat, log: seq<Record>, more: seq<Record>)
    requires AllCarried(arrived, done, log) && |log| <= |more|
    requires forall r :: 0 <= r < |log| ==> more[r].first == log[r].first && more[r].ops == log[r].ops && (log[r].synced ==> more[r].synced)
    ensures AllCarried(arrived, done, more)
  {
    forall i: nat | i < done && arrived[i].batch.Some? ensures Carried(arrived, i, more) {
      assert Carried(arrived, i, log);
      var r :| 0 <= r < |log| && Carries(arrived, i, log[r]);
      assert Carries(arrived, i, more[r]);
    }
  }

  lemma GoesOn(s: State, c: Commit, log: seq<Record>, mem: seq<(nat, Op)>)
    requires Inv(s) && Committing(s.arrived, s.done, c, log, mem, s.lastSequence) && AllCarried(s.arrived, s.done, log)
    ensures Inv(s.(log := log, mem := mem, commit := Some(c)))
  {
  }

  lemma LogKeeps(sizes: Sizes, s: State)
    requires Inv(s) && Enabled(s, Log)
    ensures Inv(Next(sizes, s, Log))
  {
    var c := s.commit.value;
    var r := Record(s.lastSequence + 1, c.ops, false);
    LogCommits(s.arrived, s.done, c, s.log, s.mem, s.lastSequence);
    CarriedStill(s.arrived, s.done, s.log, s.log + [r]);
    GoesOn(s, c.(logged := true), s.log + [r], s.mem);
  }

  lemma LogCommits(arrived: seq<Writer>, done: nat, c: Commit, log: seq<Record>, mem: seq<(nat, Op)>, lastSequence: nat)
    requires Committing(arrived, done, c, log, mem, lastSequence) && !c.logged && lastSequence == |Ops(arrived[..done])|
    ensures Committing(arrived, done, c.(logged := true), log + [Record(lastSequence + 1, c.ops, false)], mem, lastSequence)
  {
    LogHolding(Ops(arrived[..done]), c, log, mem);
    LogProgress(c, log, lastSequence, arrived[done].sync);
  }

  lemma LogHolding(before: seq<Op>, c: Commit, log: seq<Record>, mem: seq<(nat, Op)>)
    requires c.applied <= |c.ops| && !c.logged && Holding(before, c, log, mem)
    ensures Holding(before, c.(logged := true), log + [Record(|before| + 1, c.ops, false)], mem)
  {
    LogOneMore(log, before, Record(|before| + 1, c.ops, false));
  }

  lemma LogProgress(c: Commit, log: seq<Record>, lastSequence: nat, sync: bool)
    requires Progress(c, log, lastSequence, sync) && !c.logged
    ensures Progress(c.(logged := true), log + [Record(lastSequence + 1, c.ops, false)], lastSequence, sync)
  {
  }

  lemma {:induction false} SyncedLogOps(log: seq<Record>, r: nat, n: nat)
    requires r < |log| && n <= |log|
    ensures LogOps(log[r := log[r].(synced := true)][..n]) == LogOps(log[..n])
  {
    var other := log[r := log[r].(synced := true)];
    if n > 0 {
      SyncedLogOps(log, r, n - 1);
      assert other[..n][..n - 1] == other[..n - 1] && log[..n][..n - 1] == log[..n - 1];
    }
  }

  lemma LogSynced(log: seq<Record>, ops: seq<Op>, r: nat)
    requires LogIs(log, ops) && r < |log|
    ensures LogIs(log[r := log[r].(synced := true)], ops)
  {
    var other := log[r := log[r].(synced := true)];
    forall n | 0 <= n <= |log| ensures LogOps(other[..n]) == LogOps(log[..n]) {
      SyncedLogOps(log, r, n);
    }
    forall i | 0 <= i < |other| ensures Follows(other, i) {
      assert Follows(log, i);
    }
    assert other[..|log|] == other && log[..|log|] == log;
  }

  lemma SyncKeeps(sizes: Sizes, s: State)
    requires Inv(s) && Enabled(s, Sync)
    ensures Inv(Next(sizes, s, Sync))
  {
    SyncInv(s, s.commit.value);
  }

  function LastSynced(log: seq<Record>): seq<Record>
    requires log != []
  {
    log[|log| - 1 := log[|log| - 1].(synced := true)]
  }

  lemma SyncInv(s: State, c: Commit)
    requires Inv(s) && s.commit == Some(c) && c.logged && s.log != []
    ensures Inv(s.(log := LastSynced(s.log)))
  {
    InvGives(s, c);
    SyncCommits(s.arrived, s.done, c, s.log, s.mem, s.lastSequence);
    CarriedStill(s.arrived, s.done, s.log, LastSynced(s.log));
    InvFrom(s.(log := LastSynced(s.log)), c);
  }

  lemma SyncCommits(arrived: seq<Writer>, done: nat, c: Commit, log: seq<Record>, mem: seq<(nat, Op)>, lastSequence: nat)
    requires Committing(arrived, done, c, log, mem, lastSequence) && c.logged && log != []
    ensures Committing(arrived, done, c, LastSynced(log), mem, lastSequence)
  {
    SyncHolding(Ops(arrived[..done]), c, log, mem);
  }

  lemma SyncHolding(before: seq<Op>, c: Commit, log: seq<Record>, mem: seq<(nat, Op)>)
    requires c.applied <= |c.ops| && c.logged && log != [] && Holding(before, c, log, mem)
    ensures Holding(before, c, LastSynced(log), mem)
  {
    LogSynced(log, before + c.ops, |log| - 1);
  }

  function AfterApply(s: State, c: Commit): State
    requires c.applied < |c.ops|
  {
    s.(mem := s.mem + [(s.lastSequence + 1 + c.applied, c.ops[c.applied])], commit := Some(c.(applied := c.applied + 1)))
  }

  lemma ApplyKeeps(sizes: Sizes, s: State)
    requires Inv(s) && Enabled(s, Apply)
    ensures Inv(Next(sizes, s, Apply))
  {
    AfterApplyInv(s, s.commit.value);
    assert Next(sizes, s, Apply) == AfterApply(s, s.commit.value);
  }

  lemma AfterApplyInv(s: State, c: Commit)
    requires Inv(s) && s.commit == Some(c) && c.logged && c.applied < |c.ops|
    requires s.arrived[s.done].sync ==> s.log[|s.log| - 1].synced
    ensures Inv(AfterApply(s, c))
  {
    InvGives(s, c);
    ApplyCommits(s.arrived, s.done, c, s.log, s.mem, s.lastSequence);
    InvFrom(AfterApply(s, c), c.(applied := c.applied + 1));
  }

  lemma InvGives(s: State, c: Commit)
    requires Inv(s) && s.commit == Some(c)
    ensures Served(s.arrived, s.done, s.log, s.lastSequence)
    ensures Committing(s.arrived, s.done, c, s.log, s.mem, s.lastSequence)
  {
  }

  lemma InvFrom(s: State, c: Commit)
    requires Served(s.arrived, s.done, s.log, s.lastSequence)
    requires s.commit == Some(c) && Committing(s.arrived, s.done, c, s.log, s.mem, s.lastSequence)
    ensures Inv(s)
  {
  }

  lemma ApplyCommits(arrived: seq<Writer>, done: nat, c: Commit, log: seq<Record>, mem: seq<(nat, Op)>, lastSequence: nat)
    requires Committing(arrived, done, c, log, mem, lastSequence) && lastSequence == |Ops(arrived[..done])|
    requires c.logged && c.applied < |c.ops| && (arrived[done].sync ==> log[|log| - 1].synced)
    ensures Committing(arrived, done, c.(applied := c.applied + 1), log,
                       mem + [(lastSequence + 1 + c.applied, c.ops[c.applied])], lastSequence)
  {
    ApplyProgress(arrived, done, c, log, lastSequence);
    ApplyHolding(Ops(arrived[..done]), c, log, mem);
  }

  lemma ApplyHolding(before: seq<Op>, c: Commit, log: seq<Record>, mem: seq<(nat, Op)>)
    requires c.applied < |c.ops| && Holding(before, c, log, mem)
    ensures Holding(before, c.(applied := c.applied + 1), log, mem + [(|before| + 1 + c.applied, c.ops[c.applied])])
  {
    NumberedOneMore(mem, before, c.ops, c.applied);
  }

  lemma ApplyProgress(arrived: seq<Writer>, done: nat, c: Commit, log: seq<Record>, lastSequence: nat)
    requires Group(arrived, done, c) && Progress(c, log, lastSequence, arrived[done].sync)
    requires c.logged && c.applied < |c.ops| && (arrived[done].sync ==> log[|log| - 1].synced)
    ensures
      var d := c.(applied := c.applied + 1);
      Group(arrived, done, d) && Progress(d, log, lastSequence, arrived[done].sync)
  {
  }

  lemma NumberedOneMore(mem: seq<(nat, Op)>, done: seq<Op>, ops: seq<Op>, n: nat)
    requires n < |ops| && Numbered(mem, done + ops[..n])
    ensures Numbered(mem + [(|done| + 1 + n, ops[n])], done + ops[..n + 1])
  {
  }

  lemma FinishKeeps(sizes: Sizes, s: State)
    requires Inv(s) && Enabled(s, Finish)
    ensures Inv(Next(sizes, s, Finish))
  {
    AfterFinishInv(s, s.commit.value);
    assert Next(sizes, s, Finish) == AfterFinish(s, s.commit.value);
  }

  function AfterFinish(s: State, c: Commit): State {
    s.(done := s.done + c.last + 1, lastSequence := s.lastSequence + |c.ops|, commit := None)
  }

  lemma AfterFinishInv(s: State, c: Commit)
    requires Inv(s) && s.commit == Some(c) && c.logged && c.applied == |c.ops|
    requires s.arrived[s.done].sync ==> s.log[|s.log| - 1].synced
    ensures Inv(AfterFinish(s, c))
  {
    InvGives(s, c);
    FinishCommits(s.arrived, s.done, c, s.log, s.mem, s.lastSequence);
    FinishCarries(s.arrived, s.done, c, s.log, s.lastSequence);
    FinishInv(s, c, s.done + c.last + 1);
  }

  lemma FinishInv(s: State, c: Commit, end: nat)
    requires s.done <= |s.arrived| && s.lastSequence == |Ops(s.arrived[..s.done])|
    requires end <= |s.arrived| && Ops(s.arrived[..end]) == Ops(s.arrived[..s.done]) + c.ops
    requires AllCarried(s.arrived, end, s.log) && LogIs(s.log, Ops(s.arrived[..end])) && Numbered(s.mem, Ops(s.arrived[..end]))
    ensures end == s.done + c.last + 1 ==> Inv(AfterFinish(s, c))
  {
  }

  lemma FinishCommits(arrived: seq<Writer>, done: nat, c: Commit, log: seq<Record>, mem: seq<(nat, Op)>, lastSequence: nat)
    requires Committing(arrived, done, c, log, mem, lastSequence) && c.logged && c.applied == |c.ops|
    ensures
      var end := done + c.last + 1;
      && end <= |arrived| && LogIs(log, Ops(arrived[..end])) && Numbered(mem, Ops(arrived[..end]))
      && Ops(arrived[..end]) == Ops(arrived[..done]) + c.ops
  {
    OpsOfGroup(arrived, done, done + c.last + 1);
    CommittingAll(arrived, done, c, log, mem, lastSequence);
    NumberedAll(mem, Ops(arrived[..done]), c.ops);
  }

  lemma CommittingAll(arrived: seq<Writer>, done: nat, c: Commit, log: seq<Record>, mem: seq<(nat, Op)>, lastSequence: nat)
    requires Committing(arrived, done, c, log, mem, lastSequence) && c.logged && c.applied == |c.ops|
    ensures done + c.last + 1 <= |arrived| && c.ops == Ops(arrived[done..done + c.last + 1])
    ensures LogIs(log, Ops(arrived[..done]) + c.ops) && Numbered(mem, Ops(arrived[..done]) + c.ops[..|c.ops|])
  {
  }

  lemma FinishCarries(arrived: seq<Writer>, done: nat, c: Commit, log: seq<Record>, lastSequence: nat)
    requires AllCarried(arrived, done, log) && lastSequence == |Ops(arrived[..done])|
    requires Group(arrived, done, c) && Progress(c, log, lastSequence, arrived[done].sync) && c.logged
    requires arrived[done].sync ==> log[|log| - 1].synced
    ensures AllCarried(arrived, done + c.last + 1, log)
  {
    OpsOfGroup(arrived, done, done + c.last + 1);
    GroupIsCarried(arrived, done, done + c.last + 1, log);
  }

  lemma NumberedAll(mem: seq<(nat, Op)>, done: seq<Op>, ops: seq<Op>)
    requires Numbered(mem, done + ops[..|ops|])
    ensures Numbered(mem, done + ops)
  {
    assert ops[..|ops|] == ops;
  }

  lemma OpsOfGroup(arrived: seq<Writer>, done: nat, end: nat)
    requires done <= end <= |arrived|
    ensures Ops(arrived[..end]) == Ops(arrived[..done]) + Ops(arrived[done..end])
  {
    assert arrived[..end] == arrived[..done] + arrived[done..end];
    OpsConcat(arrived[..done], arrived[done..end]);
  }

  lemma {:induction false} OpsGrow(arrived: seq<Writer>, i: nat, j: nat)
    requires i <= j <= |arrived|
    ensures |Ops(arrived[..i])| <= |Ops(arrived[..j])|
  {
    if i < j {
      OpsGrow(arrived, i, j - 1);
      OpsOneMore(arrived, j - 1);
    }
  }

  // The operations of the writers of a group are all in its record, the last of the log.
  lemma GroupIsCarried(arrived: seq<Writer>, done: nat, end: nat, log: seq<Record>)
    requires AllCarried(arrived, done, log) && done < end <= |arrived| && log != []
    requires
      var r := log[|log| - 1];
      && r.first == |Ops(arrived[..done])| + 1 && r.first + |r.ops| == |Ops(arrived[..end])| + 1
      && forall j :: done <= j < end ==> arrived[j].sync ==> r.synced
    ensures AllCarried(arrived, end, log)
  {
    forall i: nat | done <= i < end ensures Carried(arrived, i, log) {
      OpsGrow(arrived, done, i);
      OpsOneMore(arrived, i);
      OpsGrow(arrived, i + 1, end);
      assert Carries(arrived, i, log[|log| - 1]);
    }
  }

  /** Whatever the interleaving, every step keeps the invariant. */
  lemma StepKeepsInv(sizes: Sizes, s: State, step: Step)
    requires Inv(s) && Enabled(s, step)
    ensures Inv(Next(sizes, s, step))
  {
    match step
    case Arrive(w) => ArriveKeeps(sizes, s, w);
    case PassNull => PassNullKeeps(sizes, s);
    case Begin => BeginKeeps(sizes, s);
    case Log => LogKeeps(sizes, s);
    case Sync => SyncKeeps(sizes, s);
    case Apply => ApplyKeeps(sizes, s);
    case Finish => FinishKeeps(sizes, s);
  }

  ghost predicate Run(sizes: Sizes, states: seq<State>, steps: seq<Step>) {
    && |states| == |steps| + 1 && states[0] == INIT
    && forall i :: 0 <= i < |steps| ==> Enabled(states[i], steps[i]) && states[i + 1] == Next(sizes, states[i], steps[i])
  }

  lemma {:induction false} RunKeepsInv(sizes: Sizes, states: seq<State>, steps: seq<Step>, i: nat)
    requires Run(sizes, states, steps) && i <= |steps|
    ensures Inv(states[i])
  {
    if i > 0 {
      RunKeepsInv(sizes, states, steps, i - 1);
      StepKeepsInv(sizes, states[i - 1], steps[i - 1]);
    }
  }

  // What a reader sees: the operations up to the last sequence number.
  function Visible(s: State): seq<(nat, Op)>
    requires s.lastSequence <= |s.mem|
  {
    s.mem[..s.lastSequence]
  }

  /** At every moment of every run: a reader sees exactly the batches of the writers that have
      returned, in the order they came, numbered without gaps, and so whole groups only; and the
      log holds these and at most one group more. */
  lemma {:induction false} ReadersSeeWholeBatches(sizes: Sizes, states: seq<State>, steps: seq<Step>, i: nat)
    requires Run(sizes, states, steps) && i <= |steps|
    ensures
      var s := states[i];
      && s.done <= |s.arrived| && s.lastSequence <= |s.mem|
      && Numbered(Visible(s), Ops(s.arrived[..s.done]))
      && Ops(s.arrived[..s.done]) <= LogOps(s.log)
      && (s.commit.None? ==> LogOps(s.log) == Ops(s.arrived[..s.done]))
  {
    RunKeepsInv(sizes, states, steps, i);
    var s := states[i];
    assert forall i :: 0 <= i < s.lastSequence ==> s.mem[i] == (i + 1, Committed(s)[i]);
  }

  /** A writer that has returned finds its batch in one record of the log, which has been synced
      if it asked for that, and in the memtable under sequence numbers of its own. */
  lemma {:induction false} WriterIsServed(sizes: Sizes, states: seq<State>, steps: seq<Step>, i: nat, w: nat)
    requires Run(sizes, states, steps) && i <= |steps|
    requires w < states[i].done && states[i].done <= |states[i].arrived| && states[i].arrived[w].batch.Some?
    ensures Carried(states[i].arrived, w, states[i].log)
    ensures
      var s, start := states[i], |Ops(states[i].arrived[..w])|;
      && start + |OpsOf(s.arrived[w])| <= s.lastSequence <= |s.mem|
      && forall j :: 0 <= j < |OpsOf(s.arrived[w])| ==> s.mem[start + j] == (start + j + 1, OpsOf(s.arrived[w])[j])
  {
    IsCarried(sizes, states, steps, i, w);
    ReadersSeeWholeBatches(sizes, states, steps, i);
    IsSeen(states[i].arrived, states[i].done, w, states[i].mem, states[i].lastSequence);
  }

  lemma IsCarried(sizes: Sizes, states: seq<State>, steps: seq<Step>, i: nat, w: nat)
    requires Run(sizes, states, steps) && i <= |steps| && w < states[i].done
    ensures states[i].done <= |states[i].arrived| && Carried(states[i].arrived, w, states[i].log)
    ensures states[i].lastSequence == |Ops(states[i].arrived[..states[i].done])|
  {
    RunKeepsInv(sizes, states, steps, i);
  }

  lemma IsSeen(arrived: seq<Writer>, done: nat, w: nat, mem: seq<(nat, Op)>, lastSequence: nat)
    requires w < done <= |arrived| && lastSequence == |Ops(arrived[..done])| && lastSequence <= |mem|
    requires Numbered(mem[..lastSequence], Ops(arrived[..done]))
    ensures
      var start, ops := |Ops(arrived[..w])|, OpsOf(arrived[w]);
      start + |ops| <= lastSequence && forall j :: 0 <= j < |ops| ==> mem[start + j] == (start + j + 1, ops[j])
  {
    var all, start, ops := Ops(arrived[..done]), |Ops(arrived[..w])|, OpsOf(arrived[w]);
    assert start + |ops| <= |all| && all[start..start + |ops|] == ops by {
      OpsOfWriter(arrived, w, done);
    }
    SeenAt(mem, all, start, ops);
  }

  lemma OpsOfWriter(arrived: seq<Writer>, w: nat, done: nat)
    requires w < done <= |arrived|
    ensures
      var start, all := |Ops(arrived[..w])|, Ops(arrived[..done]);
      start + |OpsOf(arrived[w])| <= |all| && all[start..start + |OpsOf(arrived[w])|] == OpsOf(arrived[w])
  {
    OpsOneMore(arrived, w);
    OpsOfGroup(arrived, w + 1, done);
  }

  lemma SeenAt(mem: seq<(nat, Op)>, all: seq<Op>, start: nat, ops: seq<Op>)
    requires |all| <= |mem| && Numbered(mem[..|all|], all)
    requires start + |ops| <= |all| && all[start..start + |ops|] == ops
    ensures forall j :: 0 <= j < |ops| ==> mem[start + j] == (start + j + 1, ops[j])
  {
    forall j | 0 <= j < |ops| ensures mem[start + j] == (start + j + 1, ops[j]) {
      assert mem[start + j] == mem[..|all|][start + j] && all[start + j] == all[start..start + |ops|][j];
    }
  }
}
