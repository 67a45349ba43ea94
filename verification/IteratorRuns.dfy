/** What is built of iterators is driven as one iterator would be: a merging iterator as one over the merged
    run, and a two-level iterator as one over the concatenation of the blocks. */
module IteratorRuns {
  import InternalKeys
  import Iterators
  import MergingIterators
  import Comparators
  import Tables
  import TwoLevelIterators

  // What the clients of an iterator call; they step only while it is valid.
  datatype Move<K> = ToFirst | ToLast | ToKey(key: K) | Forth | Back

  // Where an iterator over n entries goes to from place p, if the first entry at or after a key is at first(key).
  function Moved<K>(n: nat, first: K -> nat, p: nat, move: Move<K>): nat {
    match move
    case ToFirst => 0
    case ToLast => if n == 0 then 0 else n - 1
    case ToKey(key) => first(key)
    case Forth => if p < n then p + 1 else p
    case Back => if p < n then (if p == 0 then n else p - 1) else p
  }

  // From nowhere, through some moves.
  function Place<K>(n: nat, first: K -> nat, moves: seq<Move<K>>): nat {
    if moves == [] then n else Moved(n, first, Place(n, first, moves[..|moves| - 1]), moves[|moves| - 1])
  }

  lemma OneMoveMore<K>(n: nat, first: K -> nat, moves: seq<Move<K>>, i: nat)
    requires i < |moves|
    ensures Place(n, first, moves[..i + 1]) == Moved(n, first, Place(n, first, moves[..i]), moves[i])
  {
    assert moves[..i + 1][..i] == moves[..i];
  }

  // ----- One run -----

  type KeyMove = Move<InternalKeys.InternalKey>

  function FirstOf(es: seq<InternalKeys.Entry>): InternalKeys.InternalKey -> nat {
    k => InternalKeys.FirstAtOrAfter(es, k)
  }

  method DriveOne(it: Iterators.InternalIterator, moves: seq<KeyMove>)
    requires it.pos == |it.entries|
    modifies it
    ensures it.pos == Place(|it.entries|, FirstOf(it.entries), moves)
  {
    for i := 0 to |moves|
      invariant it.pos == Place(|it.entries|, FirstOf(it.entries), moves[..i])
    {
      OneMoveMore(|it.entries|, FirstOf(it.entries), moves, i);
      match moves[i]
      case ToFirst => it.SeekToFirst();
      case ToLast => it.SeekToLast();
      case ToKey(key) => it.Seek(key);
      case Forth =>
        if it.Valid() {
          it.Next();
        }
      case Back =>
        if it.Valid() {
          it.Prev();
        }
    }
    assert moves[..|moves|] == moves;
  }

  // ----- Several runs, merged -----

  datatype Cursor = Cursor(pos: nat, direction: MergingIterators.Direction)

  // Where a merging iterator goes to: turning round, it passes over what has the same key.
  function Walked(merged: seq<MergingIterators.Slot>, at: Cursor, move: KeyMove): Cursor {
    match move
    case ToFirst => Cursor(0, MergingIterators.Forward)
    case ToLast => Cursor(if merged == [] then 0 else |merged| - 1, MergingIterators.Reverse)
    case ToKey(key) => Cursor(MergingIterators.SlotAtOrAfter(merged, key), MergingIterators.Forward)
    case Forth =>
      if at.pos >= |merged| then at
      else if at.direction.Forward? then Cursor(at.pos + 1, MergingIterators.Forward)
      else Cursor(MergingIterators.SlotAfter(merged, merged[at.pos].entry.key), MergingIterators.Forward)
    case Back =>
      if at.pos >= |merged| then at
      else
        var j := if at.direction.Reverse? then at.pos else MergingIterators.SlotAtOrAfter(merged, merged[at.pos].entry.key);
        Cursor(if j == 0 then |merged| else j - 1, MergingIterators.Reverse)
  }

  function Walk(merged: seq<MergingIterators.Slot>, moves: seq<KeyMove>): Cursor {
    if moves == [] then Cursor(|merged|, MergingIterators.Forward)
    else Walked(merged, Walk(merged, moves[..|moves| - 1]), moves[|moves| - 1])
  }

  lemma OneStepMore(merged: seq<MergingIterators.Slot>, moves: seq<KeyMove>, i: nat)
    requires i < |moves|
    ensures Walk(merged, moves[..i + 1]) == Walked(merged, Walk(merged, moves[..i]), moves[i])
  {
    assert moves[..i + 1][..i] == moves[..i];
  }

  method MakeMove(m: MergingIterators.MergingIterator, move: KeyMove)
    requires m.Valid()
    modifies m, m.children
    ensures m.Valid() && Cursor(m.cur, m.direction) == Walked(m.merged, old(Cursor(m.cur, m.direction)), move)
  {
    match move
    case ToFirst => m.SeekToFirst();
    case ToLast => m.SeekToLast();
    case ToKey(key) => m.Seek(key);
    case Forth =>
      if m.current.Some? {
        m.Next();
      }
    case Back =>
      if m.current.Some? {
        m.Prev();
      }
  }

  /** After any moves a merging iterator is where the walk over the merge is, and the child it has chosen is at that
      entry. */
  method DriveMerging(m: MergingIterators.MergingIterator, moves: seq<KeyMove>)
    requires m.Valid() && m.cur == |m.merged| && m.direction.Forward?
    modifies m, m.children
    ensures m.Valid() && Cursor(m.cur, m.direction) == Walk(m.merged, moves)
    ensures m.current.Some? <==> m.cur < |m.merged|
    ensures m.current.Some? ==> m.current.value < |m.children|
                                && var child := m.children[m.current.value];
                                   child.Valid() && child.entries[child.pos] == m.merged[m.cur].entry
  {
    for i := 0 to |moves|
      invariant m.Valid() && Cursor(m.cur, m.direction) == Walk(m.merged, moves[..i])
    {
      OneStepMore(m.merged, moves, i);
      MakeMove(m, moves[i]);
    }
    assert moves[..|moves|] == moves;
    if m.cur < |m.merged| {
      m.RankOfChild(m.current.value);
    }
  }

  // No key is in two runs.
  ghost predicate NoTwins(merged: seq<MergingIterators.Slot>) {
    forall j :: 0 < j < |merged| ==> merged[j - 1].entry.key != merged[j].entry.key
  }

  function FirstSlot(merged: seq<MergingIterators.Slot>): InternalKeys.InternalKey -> nat {
    k => MergingIterators.SlotAtOrAfter(merged, k)
  }

  ghost predicate WalksAsOne(merged: seq<MergingIterators.Slot>, moves: seq<KeyMove>) {
    Walk(merged, moves).pos == Place(|merged|, FirstSlot(merged), moves)
  }

  /** A merging iterator moves as one iterator over the merge would, whatever the moves, exactly if no key is in
      two runs. */
  lemma WalksAsOneExactly(merged: seq<MergingIterators.Slot>)
    requires MergingIterators.Strict(merged)
    ensures (forall moves :: WalksAsOne(merged, moves)) <==> NoTwins(merged)
  {
    if NoTwins(merged) {
      forall moves
        ensures WalksAsOne(merged, moves)
      {
        NoTwinsWalkAsOne(merged, moves);
      }
    } else {
      var j :| 0 < j < |merged| && merged[j - 1].entry.key == merged[j].entry.key;
      TwinsAreSkipped(merged, j);
    }
  }

  lemma {:induction false} NoTwinsWalkAsOne(merged: seq<MergingIterators.Slot>, moves: seq<KeyMove>)
    requires MergingIterators.Strict(merged) && NoTwins(merged)
    ensures WalksAsOne(merged, moves)
  {
    if moves != [] {
      NoTwinsWalkAsOne(merged, moves[..|moves| - 1]);
      var at := Walk(merged, moves[..|moves| - 1]);
      if at.pos < |merged| {
        MergingIterators.NextDiffers(merged, at.pos);
        MergingIterators.PrevDiffers(merged, at.pos);
      }
    }
  }

  // From the last slot back to one.
  function BackTo(n: nat, j: nat): (moves: seq<KeyMove>)
    requires j < n
    decreases n - j
  {
    if j == n - 1 then [ToLast] else BackTo(n, j + 1) + [Back]
  }

  lemma {:induction false} BackToIsThere(merged: seq<MergingIterators.Slot>, j: nat)
    requires j < |merged|
    ensures Walk(merged, BackTo(|merged|, j)) == Cursor(j, MergingIterators.Reverse)
    ensures Place(|merged|, FirstSlot(merged), BackTo(|merged|, j)) == j
    decreases |merged| - j
  {
    var moves := BackTo(|merged|, j);
    if j < |merged| - 1 {
      BackToIsThere(merged, j + 1);
      assert moves[..|moves| - 1] == BackTo(|merged|, j + 1);
    }
  }

  // Coming back to the first of two slots with one key, and turning round.
  lemma TwinsAreSkipped(merged: seq<MergingIterators.Slot>, j: nat)
    requires MergingIterators.Strict(merged) && 0 < j < |merged| && merged[j - 1].entry.key == merged[j].entry.key
    ensures !WalksAsOne(merged, BackTo(|merged|, j - 1) + [Forth])
  {
    var back := BackTo(|merged|, j - 1);
    var moves := back + [Forth];
    BackToIsThere(merged, j - 1);
    assert moves[..|moves| - 1] == back;
    MergingIterators.NextDiffers(merged, j - 1);
  }

  lemma {:induction false} SameFirst(es: seq<InternalKeys.Entry>, merged: seq<MergingIterators.Slot>, k: InternalKeys.InternalKey)
    requires |es| == |merged| && forall i :: 0 <= i < |es| ==> es[i] == merged[i].entry
    ensures InternalKeys.FirstAtOrAfter(es, k) == MergingIterators.SlotAtOrAfter(merged, k)
  {
    var p, q := InternalKeys.FirstAtOrAfter(es, k), MergingIterators.SlotAtOrAfter(merged, k);
    assert p < |es| ==> !InternalKeys.Before(merged[p].entry.key, k);
    assert q < |es| ==> !InternalKeys.Before(es[q].key, k);
  }

  lemma {:induction false} SamePlaces<K(!new)>(n: nat, f: K -> nat, g: K -> nat, moves: seq<Move<K>>)
    requires forall k :: f(k) == g(k)
    ensures Place(n, f, moves) == Place(n, g, moves)
  {
    if moves != [] {
      SamePlaces(n, f, g, moves[..|moves| - 1]);
    }
  }

  /** So whoever drives a merging iterator over runs that share no key, and an iterator over all their entries, cannot
      tell them apart. */
  method DriveBoth(m: MergingIterators.MergingIterator, it: Iterators.InternalIterator, moves: seq<KeyMove>)
    requires m.Valid() && m.cur == |m.merged| && m.direction.Forward? && NoTwins(m.merged)
    requires |it.entries| == |m.merged| && forall i :: 0 <= i < |it.entries| ==> it.entries[i] == m.merged[i].entry
    requires it.pos == |it.entries| && it !in m.children
    modifies m, m.children, it
    ensures m.Valid() && (m.current.Some? <==> it.Valid())
    ensures it.Valid() ==> m.current.value < |m.children|
                           && var child := m.children[m.current.value];
                              child.Valid() && child.entries[child.pos] == it.entries[it.pos]
  {
    forall k
      ensures FirstOf(it.entries)(k) == FirstSlot(m.merged)(k)
    {
      SameFirst(it.entries, m.merged, k);
    }
    SamePlaces(|m.merged|, FirstOf(it.entries), FirstSlot(m.merged), moves);
    NoTwinsWalkAsOne(m.merged, moves);
    DriveOne(it, moves);
    DriveMerging(m, moves);
  }

  // ----- Blocks and their index -----

  // The first entry at or after a key.
  function FirstIn(es: seq<Tables.Entry>, k: Comparators.IKey): (p: nat)
    ensures p <= |es| && (forall j :: 0 <= j < p ==> Comparators.IBefore(es[j].key, k))
    ensures p < |es| ==> !Comparators.IBefore(es[p].key, k)
  {
    if es == [] || !Comparators.IBefore(es[0].key, k) then 0 else FirstIn(es[1..], k) + 1
  }

  function FirstOfBlocks(blocks: seq<seq<Tables.Entry>>): Comparators.IKey -> nat {
    k => FirstIn(TwoLevelIterators.Flat(blocks), k)
  }

  lemma FirstInIs(es: seq<Tables.Entry>, k: Comparators.IKey, p: nat)
    requires TwoLevelIterators.IsFirstIn(es, k, p)
    ensures p == FirstIn(es, k)
  {
    if p < |es| {
      Comparators.IBeforeIsTotal(es[p].key, k);
    }
  }

  method MakeMoveIn(t: TwoLevelIterators.TwoLevelIterator, move: Move<Comparators.IKey>)
    requires t.Valid() && TwoLevelIterators.Indexed(t.seps, t.blocks)
    modifies t
    ensures t.Valid() && t.pos == Moved(|TwoLevelIterators.Flat(t.blocks)|, FirstOfBlocks(t.blocks), old(t.pos), move)
  {
    t.WhereItIs();
    match move
    case ToFirst => t.SeekToFirst();
    case ToLast => t.SeekToLast();
    case ToKey(key) =>
      t.Seek(key);
      FirstInIs(TwoLevelIterators.Flat(t.blocks), key, t.pos);
    case Forth =>
      if t.IsValid() {
        t.Next();
      }
    case Back =>
      if t.IsValid() {
        t.Prev();
      }
  }

  /** After any moves a two-level iterator is where an iterator over the concatenation of the blocks is, at the entry
      that is there. */
  method DriveTwoLevel(t: TwoLevelIterators.TwoLevelIterator, moves: seq<Move<Comparators.IKey>>)
    requires t.Valid() && t.pos == |TwoLevelIterators.Flat(t.blocks)| && TwoLevelIterators.Indexed(t.seps, t.blocks)
    modifies t
    ensures t.Valid() && t.pos == Place(|TwoLevelIterators.Flat(t.blocks)|, FirstOfBlocks(t.blocks), moves)
    ensures t.IsValid() <==> t.pos < |TwoLevelIterators.Flat(t.blocks)|
    ensures t.IsValid() ==> TwoLevelIterators.Flat(t.blocks)[t.pos] == t.blocks[t.dataBlock][t.dataPos]
  {
    ghost var n := |TwoLevelIterators.Flat(t.blocks)|;
    for i := 0 to |moves|
      invariant t.Valid() && t.pos == Place(n, FirstOfBlocks(t.blocks), moves[..i])
    {
      OneMoveMore(n, FirstOfBlocks(t.blocks), moves, i);
      MakeMoveIn(t, moves[i]);
    }
    assert moves[..|moves|] == moves;
    t.WhereItIs();
  }
}
