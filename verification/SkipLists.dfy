/** The skip list of a memtable: one writer that publishes a node level by level, and readers that
    take no lock.  Memory is a value, so that every interleaving of pointer stores and loads is a
    run of the steps below. */
module SkipLists {
  import opened Primitives

  const MAX_HEIGHT: nat := 12

  type Key = real

  // Nodes are named by their place in memory; the head is 0, NULL is None.
  datatype Node = Node(key: Key, next: seq<Option<nat>>)

  const HEAD: nat := 0

  datatype Insertion =
    | Idle
    | Inserting(x: nat, prev: seq<nat>, level: nat, copied: bool)  // x has been published below level

  /** Memory, the nodes published so far at each level, and what the writer is at. */
  datatype State = State(nodes: seq<Node>, maxHeight: nat, levels: seq<set<nat>>, insertion: Insertion)

  // ----- Order -----

  // The head comes before every key.
  predicate IsBefore(s: State, x: nat, k: Key)
    requires x < |s.nodes|
  {
    x == HEAD || s.nodes[x].key < k
  }

  predicate IsAfter(s: State, y: nat, x: nat)
    requires x < |s.nodes| && y < |s.nodes|
  {
    IsBefore(s, x, s.nodes[y].key)
  }

  // Has x been published on level l?
  predicate On(s: State, l: nat, x: nat) {
    l < |s.levels| && x in s.levels[l]
  }

  // Nodes a reader can be at on a level.
  predicate Reachable(s: State, l: nat, x: nat) {
    x == HEAD || On(s, l, x)
  }

  ghost predicate Shaped(s: State) {
    && |s.levels| == MAX_HEIGHT && 1 <= s.maxHeight <= MAX_HEIGHT
    && |s.nodes| > 0 && |s.nodes[HEAD].next| == MAX_HEIGHT
    && (forall l: nat, x: nat :: l < MAX_HEIGHT && On(s, l, x) ==> 0 < x < |s.nodes| && l < |s.nodes[x].next|)
  }

  // r is the first node of level l after x.
  ghost predicate IsNext(s: State, l: nat, x: nat, r: Option<nat>)
    requires Shaped(s) && l < MAX_HEIGHT && x < |s.nodes|
  {
    match r
    case None => forall y: nat :: On(s, l, y) ==> !IsAfter(s, y, x)
    case Some(z) =>
      && On(s, l, z) && IsAfter(s, z, x)
      && forall y: nat :: On(s, l, y) && IsAfter(s, y, x) ==> s.nodes[z].key <= s.nodes[y].key
  }

  // The pointers of each level lead through the nodes published there, in order; each level is
  // a part of the one below it.
  ghost predicate Linked(s: State)
    requires Shaped(s)
  {
    && (forall l: nat, x: nat :: l < MAX_HEIGHT && Reachable(s, l, x) ==> IsNext(s, l, x, s.nodes[x].next[l]))
    && (forall l: nat, m: nat, x: nat {:trigger On(s, l, x), On(s, m, x)} :: l <= m && On(s, m, x) ==> On(s, l, x))
    && (forall x: nat, y: nat :: On(s, 0, x) && On(s, 0, y) && x != y ==> s.nodes[x].key != s.nodes[y].key)
    && (forall l: nat, x: nat :: On(s, l, x) ==> l < s.maxHeight)
  }

  // x goes between p and its successor on level l.
  ghost predicate Fits(s: State, l: nat, p: nat, k: Key)
    requires Shaped(s) && l < MAX_HEIGHT
  {
    && Reachable(s, l, p) && IsBefore(s, p, k)
    && forall y: nat :: On(s, l, y) && IsAfter(s, y, p) && s.nodes[y].key != k ==> s.nodes[y].key > k
  }

  ghost predicate WriterInv(s: State)
    requires Shaped(s)
  {
    match s.insertion
    case Idle => true
    case Inserting(x, prev, level, copied) =>
      && 0 < x < |s.nodes|
      && var height := |s.nodes[x].next|;
      && level < height <= s.maxHeight && |prev| >= height
      && (forall l: nat :: l < MAX_HEIGHT ==> (On(s, l, x) <==> l < level))
      && (forall y: nat :: On(s, 0, y) && y != x ==> s.nodes[y].key != s.nodes[x].key)
      && (forall l: nat :: level <= l < height ==> Fits(s, l, prev[l], s.nodes[x].key))
      && (copied ==> s.nodes[x].next[level] == s.nodes[prev[level]].next[level])
  }

  ghost predicate Inv(s: State) {
    Shaped(s) && Linked(s) && WriterInv(s)
  }

  // ----- Steps of the writer -----

  // Chooses a key, a height and where to put the node; nothing of it can be seen yet.
  ghost predicate Begin(s: State, t: State, k: Key, height: nat, prev: seq<nat>)
    requires Inv(s)
  {
    && s.insertion.Idle? && 1 <= height <= MAX_HEIGHT && |prev| >= height
    && (forall y: nat :: On(s, 0, y) ==> s.nodes[y].key != k)
    && (forall l: nat :: l < height ==> Fits(s, l, prev[l], k))
    && t == State(s.nodes + [Node(k, seq(height, _ => None))], if height > s.maxHeight then height else s.maxHeight, s.levels,
                  Inserting(|s.nodes|, prev, 0, false))
  }

  function SetNext(nodes: seq<Node>, x: nat, l: nat, to: Option<nat>): seq<Node>
    requires x < |nodes| && l < |nodes[x].next|
  {
    nodes[x := nodes[x].(next := nodes[x].next[l := to])]
  }

  // x->next[level] = prev[level]->next[level]
  ghost predicate Copy(s: State, t: State)
    requires Inv(s)
  {
    s.insertion.Inserting? && !s.insertion.copied && t == AfterCopy(s)
  }

  function AfterCopy(s: State): State
    requires s.insertion.Inserting?
    requires var i := s.insertion; i.x < |s.nodes| && i.level < |s.nodes[i.x].next| && i.level < |i.prev|
    requires var i := s.insertion; i.prev[i.level] < |s.nodes| && i.level < |s.nodes[i.prev[i.level]].next|
  {
    var i := s.insertion;
    s.(nodes := SetNext(s.nodes, i.x, i.level, s.nodes[i.prev[i.level]].next[i.level]), insertion := i.(copied := true))
  }

  // prev[level]->next[level] = x
  ghost predicate Publish(s: State, t: State)
    requires Inv(s)
  {
    s.insertion.Inserting? && s.insertion.copied && t == AfterPublish(s)
  }

  function AfterPublish(s: State): State
    requires s.insertion.Inserting?
    requires var i := s.insertion; i.x < |s.nodes| && i.level < |i.prev| && i.level < |s.levels|
    requires var i := s.insertion; i.prev[i.level] < |s.nodes| && i.level < |s.nodes[i.prev[i.level]].next|
  {
    var i := s.insertion;
    State(SetNext(s.nodes, i.prev[i.level], i.level, Some(i.x)), s.maxHeight,
          s.levels[i.level := s.levels[i.level] + {i.x}],
          if i.level + 1 < |s.nodes[i.x].next| then Inserting(i.x, i.prev, i.level + 1, false) else Idle)
  }

  ghost predicate WriterStep(s: State, t: State)
    requires Inv(s)
  {
    || (exists k, height, prev :: Begin(s, t, k, height, prev))
    || Copy(s, t)
    || Publish(s, t)
  }

  // ----- What the writer keeps -----

  /** Every store of the writer keeps all levels sorted, each a part of the one below. */
  lemma {:induction false} WriterStepKeepsInv(s: State, t: State)
    requires Inv(s) && WriterStep(s, t)
    ensures Inv(t)
    ensures OnlyGrows(s, t)
  {
    if Copy(s, t) {
      CopyKeepsInv(s, t);
    } else if Publish(s, t) {
      PublishKeepsInv(s, t);
    } else {
      var k, height, prev :| Begin(s, t, k, height, prev);
      BeginKeepsInv(s, t, k, height, prev);
    }
  }

  // Nodes stay where they are and on the levels they are on.
  ghost predicate OnlyGrows(s: State, t: State) {
    && |s.nodes| <= |t.nodes| && (forall x :: 0 <= x < |s.nodes| ==> s.nodes[x].key == t.nodes[x].key)
    && forall l: nat, x: nat :: On(s, l, x) ==> On(t, l, x)
  }

  lemma {:induction false} BeginKeepsInv(s: State, t: State, k: Key, height: nat, prev: seq<nat>)
    requires Inv(s) && Begin(s, t, k, height, prev)
    ensures Inv(t) && OnlyGrows(s, t)
  {
    assert forall l: nat, x: nat :: On(t, l, x) <==> On(s, l, x);
    forall l: nat, x: nat | l < MAX_HEIGHT && Reachable(t, l, x) ensures IsNext(t, l, x, t.nodes[x].next[l]) {
      assert Reachable(s, l, x) && IsNext(s, l, x, s.nodes[x].next[l]);
    }
    forall l: nat | l < height ensures Fits(t, l, prev[l], k) {
      assert Fits(s, l, prev[l], k);
    }
  }

  lemma {:induction false} CopyKeepsInv(s: State, t: State)
    requires Inv(s) && Copy(s, t)
    ensures Inv(t) && OnlyGrows(s, t)
  {
    CopyKeepsLinked(s, t);
    CopyKeepsWriterInv(s, t);
  }

  lemma {:induction false} CopyKeepsLinked(s: State, t: State)
    requires Inv(s) && Copy(s, t)
    ensures Shaped(t) && Linked(t) && OnlyGrows(s, t)
  {
    assert forall l: nat, x: nat :: On(t, l, x) <==> On(s, l, x);
    assert !On(s, s.insertion.level, s.insertion.x);
    forall l: nat, x: nat | l < MAX_HEIGHT && Reachable(t, l, x) ensures IsNext(t, l, x, t.nodes[x].next[l]) {
      assert Reachable(s, l, x) && IsNext(s, l, x, s.nodes[x].next[l]);
    }
  }

  lemma {:induction false} CopyKeepsWriterInv(s: State, t: State)
    requires Inv(s) && Copy(s, t) && Shaped(t)
    ensures WriterInv(t)
  {
    var i := s.insertion;
    assert forall l: nat, x: nat :: On(t, l, x) <==> On(s, l, x);
    forall l: nat | i.level <= l < |t.nodes[i.x].next| ensures Fits(t, l, i.prev[l], t.nodes[i.x].key) {
      assert Fits(s, l, i.prev[l], s.nodes[i.x].key);
    }
  }

  lemma {:induction false} PublishKeepsInv(s: State, t: State)
    requires Inv(s) && Publish(s, t)
    ensures Inv(t) && OnlyGrows(s, t)
  {
    PublishKeepsLinked(s, t);
    PublishKeepsWriterInv(s, t);
  }

  lemma {:induction false} PublishKeepsLinked(s: State, t: State)
    requires Inv(s) && Publish(s, t)
    ensures Shaped(t) && Linked(t) && OnlyGrows(s, t)
  {
    var i := s.insertion;
    assert forall l: nat, x: nat :: On(t, l, x) <==> On(s, l, x) || (l == i.level && x == i.x);
    forall l: nat, x: nat | l < MAX_HEIGHT && Reachable(t, l, x) ensures IsNext(t, l, x, t.nodes[x].next[l]) {
      PublishKeepsNext(s, t, l, x);
    }
  }

  lemma {:induction false} PublishKeepsWriterInv(s: State, t: State)
    requires Inv(s) && Publish(s, t) && Shaped(t)
    ensures WriterInv(t)
  {
    var i := s.insertion;
    assert forall l: nat, x: nat :: On(t, l, x) <==> On(s, l, x) || (l == i.level && x == i.x);
    forall l: nat | i.level < l < |t.nodes[i.x].next| ensures Fits(t, l, i.prev[l], t.nodes[i.x].key) {
      assert Fits(s, l, i.prev[l], s.nodes[i.x].key);
    }
  }

  lemma {:induction false} PublishKeepsNext(s: State, t: State, l: nat, x: nat)
    requires Inv(s) && Publish(s, t) && Shaped(t)
    requires l < MAX_HEIGHT && Reachable(t, l, x)
    ensures IsNext(t, l, x, t.nodes[x].next[l])
  {
    var i := s.insertion;
    var p := i.prev[i.level];
    assert Fits(s, i.level, p, s.nodes[i.x].key) && IsNext(s, i.level, p, s.nodes[p].next[i.level]);
    assert forall y: nat :: On(t, l, y) <==> On(s, l, y) || (l == i.level && y == i.x);
    if l == i.level && x == i.x {
      NextOfNew(s, t);
    } else {
      assert IsNext(s, l, x, s.nodes[x].next[l]);
      if l == i.level && x != p {
        NextOfOther(s, t, x);
      }
    }
  }

  lemma {:induction false} NextOfNew(s: State, t: State)
    requires Inv(s) && Publish(s, t) && Shaped(t)
    ensures IsNext(t, s.insertion.level, s.insertion.x, t.nodes[s.insertion.x].next[s.insertion.level])
  {
    var i := s.insertion;
    var p := i.prev[i.level];
    assert Fits(s, i.level, p, s.nodes[i.x].key) && IsNext(s, i.level, p, s.nodes[p].next[i.level]);
    assert forall y: nat :: On(t, i.level, y) <==> On(s, i.level, y) || y == i.x;
    assert !On(s, i.level, i.x);
  }

  lemma {:induction false} NextOfOther(s: State, t: State, x: nat)
    requires Inv(s) && Publish(s, t) && Shaped(t)
    requires Reachable(s, s.insertion.level, x) && x != s.insertion.prev[s.insertion.level]
    ensures IsNext(t, s.insertion.level, x, t.nodes[x].next[s.insertion.level])
  {
    var i := s.insertion;
    var p := i.prev[i.level];
    assert Fits(s, i.level, p, s.nodes[i.x].key);
    assert IsNext(s, i.level, x, s.nodes[x].next[i.level]);
    assert forall y: nat :: On(t, i.level, y) <==> On(s, i.level, y) || y == i.x;
    assert x != HEAD && p != HEAD ==> On(s, 0, x) && On(s, 0, p) && s.nodes[x].key != s.nodes[p].key;
    assert IsAfter(s, i.x, x) ==> IsAfter(s, p, x) && On(s, i.level, p);
  }

  // ----- Steps of a reader -----

  // What is searched for; Infinity is past every key.
  datatype Target = To(key: Key) | Infinity

  predicate Precedes(k: Key, target: Target) {
    target.Infinity? || k < target.key
  }

  // A search from the head down, one load a step.
  datatype Reader = Searching(target: Target, x: nat, level: nat) | Done(target: Target, before: nat, result: Option<nat>)

  // A reader may have seen any height the list ever had.
  predicate Starts(r: Reader) {
    r.Searching? && r.x == HEAD && r.level < MAX_HEIGHT
  }

  ghost predicate ReaderStep(s: State, r: Reader, t: Reader)
    requires Inv(s) && ReaderInv(s, r)
  {
    && r.Searching?
    && var next := s.nodes[r.x].next[r.level];
       assert IsNext(s, r.level, r.x, next);
       t == if next.Some? && Precedes(s.nodes[next.value].key, r.target) then r.(x := next.value)
            else if r.level == 0 then Done(r.target, r.x, next)
            else r.(level := r.level - 1)
  }

  ghost predicate ReaderInv(s: State, r: Reader)
    requires Shaped(s)
  {
    match r
    case Searching(target, x, level) =>
      level < MAX_HEIGHT && Reachable(s, level, x) && (x != HEAD ==> Precedes(s.nodes[x].key, target))
    case Done(target, _, _) => true
  }

  // The first published node at or after the target.
  ghost predicate IsFirstAtOrAfter(s: State, target: Target, r: Option<nat>)
    requires Shaped(s)
  {
    match r
    case None => forall y: nat :: On(s, 0, y) ==> Precedes(s.nodes[y].key, target)
    case Some(z) =>
      && On(s, 0, z) && !Precedes(s.nodes[z].key, target)
      && forall y: nat :: On(s, 0, y) && !Precedes(s.nodes[y].key, target) ==> s.nodes[z].key <= s.nodes[y].key
  }

  // The last published node before the target, or the head.
  ghost predicate IsLastBefore(s: State, target: Target, x: nat)
    requires Shaped(s)
  {
    && Reachable(s, 0, x) && (x != HEAD ==> Precedes(s.nodes[x].key, target))
    && forall y: nat :: On(s, 0, y) && Precedes(s.nodes[y].key, target) ==> x != HEAD && s.nodes[y].key <= s.nodes[x].key
  }

  /** A search that ends has, at its last load, exactly the neighbours of its target. */
  lemma {:induction false} ReaderStepIsExact(s: State, r: Reader, t: Reader)
    requires Inv(s) && ReaderInv(s, r) && ReaderStep(s, r, t)
    ensures ReaderInv(s, t) && t.target == r.target
    ensures t.Done? ==> IsFirstAtOrAfter(s, t.target, t.result) && IsLastBefore(s, t.target, t.before)
  {
    assert IsNext(s, r.level, r.x, s.nodes[r.x].next[r.level]);
  }

  lemma {:induction false} WriterKeepsReaderInv(s: State, t: State, r: Reader)
    requires Shaped(s) && Shaped(t) && OnlyGrows(s, t) && ReaderInv(s, r)
    ensures ReaderInv(t, r)
  {
  }

  // ----- Runs -----

  datatype System = System(list: State, reader: Reader)

  ghost predicate SystemInv(a: System) {
    Inv(a.list) && ReaderInv(a.list, a.reader)
  }

  ghost predicate SystemStep(a: System, b: System) {
    && SystemInv(a)
    && ((WriterStep(a.list, b.list) && b.reader == a.reader)
        || (b.list == a.list && ReaderStep(a.list, a.reader, b.reader)))
  }

  // Any interleaving of the steps of the writer with those of a reader that has just started.
  ghost predicate Run(run: seq<System>) {
    && run != [] && SystemInv(run[0]) && Starts(run[0].reader)
    && forall i :: 0 < i < |run| ==> SystemStep(run[i - 1], run[i])
  }

  // A new list: the head alone, which leads nowhere.
  function EmptyList(k: Key): State {
    State([Node(k, seq(MAX_HEIGHT, _ => None))], 1, seq(MAX_HEIGHT, _ => {}), Idle)
  }

  lemma {:induction false} EmptyListInv(k: Key)
    ensures Inv(EmptyList(k))
  {
    var s := EmptyList(k);
    assert forall l: nat, x: nat :: !On(s, l, x);
  }

  /** A search may start on a new list, and so on any list that has been made. */
  lemma {:induction false} NewListRuns(k: Key, r: Reader)
    requires Starts(r)
    ensures Run([System(EmptyList(k), r)])
  {
    EmptyListInv(k);
  }

  // A list that the writer has made step by step from a new one.
  ghost predicate Made(lists: seq<State>) {
    && lists != [] && (exists k :: lists[0] == EmptyList(k))
    && forall i :: 0 < i < |lists| ==> MakesNext(lists[i - 1], lists[i])
  }

  ghost predicate MakesNext(s: State, t: State) {
    Inv(s) && WriterStep(s, t)
  }

  lemma {:induction false} MadeListInv(lists: seq<State>, i: nat)
    requires Made(lists) && i < |lists|
    ensures Inv(lists[i])
  {
    if i == 0 {
      var k :| lists[0] == EmptyList(k);
      EmptyListInv(k);
    } else {
      MadeListInv(lists, i - 1);
      WriterStepKeepsInv(lists[i - 1], lists[i]);
    }
  }

  // What a search has returned is right for list s.
  ghost predicate Exact(s: State, r: Reader)
    requires Shaped(s) && r.Done?
  {
    IsFirstAtOrAfter(s, r.target, r.result) && IsLastBefore(s, r.target, r.before)
  }

  // Between two moments of a run there was one, at, for which what the search has returned is right.
  ghost predicate Linear(first: System, at: System, last: System) {
    && SystemInv(at) && SystemInv(last)
    && OnlyGrows(first.list, at.list) && OnlyGrows(at.list, last.list) && OnlyGrows(first.list, last.list)
    && last.reader.target == first.reader.target
    && (last.reader.Done? ==> Exact(at.list, last.reader))
  }

  /** Whatever the writer does meanwhile, what a search returns is exactly right for the list as
      it was at some moment of the search. */
  lemma {:induction false} ReadsAreLinearizable(run: seq<System>, i: nat) returns (m: nat)
    requires Run(run) && i < |run|
    ensures m <= i && Linear(run[0], run[m], run[i])
  {
    if i == 0 {
      m := 0;
      LinearAtFirst(run[0]);
    } else {
      m := ReadsAreLinearizable(run, i - 1);
      var over := StaysLinearAt(run, m, i);
      m := if over then m else i;
    }
  }

  lemma LinearAtFirst(a: System)
    requires SystemInv(a) && Starts(a.reader)
    ensures Linear(a, a, a)
  {
  }

  lemma StaysLinearAt(run: seq<System>, m: nat, i: nat) returns (over: bool)
    requires Run(run) && m < i < |run| && Linear(run[0], run[m], run[i - 1])
    ensures Linear(run[0], run[if over then m else i], run[i])
  {
    over := StaysLinear(run[0], run[m], run[i - 1], run[i]);
  }

  lemma StaysLinear(first: System, at: System, a: System, b: System) returns (over: bool)
    requires Linear(first, at, a) && SystemStep(a, b)
    ensures over ==> Linear(first, at, b)
    ensures !over ==> Linear(first, b, b)
  {
    over := StepIsLinear(a, b);
    OnlyGrowsOn(first.list, a.list, b.list);
    OnlyGrowsOn(at.list, a.list, b.list);
    assert OnlyGrows(b.list, b.list);
  }

  // Either the search was over before this step, or it is not over now, or its result is right now.
  lemma StepIsLinear(a: System, b: System) returns (over: bool)
    requires SystemStep(a, b)
    ensures SystemInv(b) && OnlyGrows(a.list, b.list) && b.reader.target == a.reader.target
    ensures over ==> a.reader.Done? && b.reader == a.reader
    ensures !over ==> b.reader.Done? ==> Exact(b.list, b.reader)
  {
    if b.list == a.list && ReaderStep(a.list, a.reader, b.reader) {
      ReaderStepIsExact(a.list, a.reader, b.reader);
      over := false;
    } else {
      WriterStepKeepsInv(a.list, b.list);
      WriterKeepsReaderInv(a.list, b.list, a.reader);
      over := a.reader.Done?;
    }
  }

  lemma OnlyGrowsOn(s: State, t: State, u: State)
    requires OnlyGrows(s, t) && OnlyGrows(t, u)
    ensures OnlyGrows(s, u)
  {
  }

  /** A search finds a node no later than any at or after its target that was published before
      it started, and one that is still in the list. */
  lemma {:induction false} ReadsMissNothing(run: seq<System>, i: nat, y: nat)
    requires Run(run) && i < |run| && run[i].reader.Done?
    requires On(run[0].list, 0, y) && !Precedes(run[0].list.nodes[y].key, run[0].reader.target)
    ensures
      var r := run[i].reader.result;
      && r.Some? && r.value < |run[i].list.nodes| && On(run[i].list, 0, r.value)
      && !Precedes(run[i].list.nodes[r.value].key, run[0].reader.target)
      && run[i].list.nodes[r.value].key <= run[0].list.nodes[y].key
  {
    var m := ReadsAreLinearizable(run, i);
    FoundNoLater(run[0], run[m], run[i], y);
  }

  lemma FoundNoLater(first: System, at: System, last: System, y: nat)
    requires Linear(first, at, last) && Shaped(first.list) && last.reader.Done?
    requires On(first.list, 0, y) && !Precedes(first.list.nodes[y].key, first.reader.target)
    ensures
      var r := last.reader.result;
      && r.Some? && r.value < |last.list.nodes| && On(last.list, 0, r.value)
      && !Precedes(last.list.nodes[r.value].key, first.reader.target)
      && last.list.nodes[r.value].key <= first.list.nodes[y].key
  {
    assert Exact(at.list, last.reader) && On(at.list, 0, y);
  }

  // ----- The writer on its own -----

  // Nodes of a level after x.
  ghost function Following(s: State, l: nat, x: nat): set<nat>
    requires Shaped(s) && l < MAX_HEIGHT && x < |s.nodes|
  {
    set y | y in s.levels[l] && On(s, l, y) && IsAfter(s, y, x)
  }

  // p is the last node of level l before k.
  ghost predicate IsPrev(s: State, l: nat, p: nat, k: Key)
    requires Shaped(s) && l < MAX_HEIGHT
  {
    && Reachable(s, l, p) && IsBefore(s, p, k)
    && forall y: nat :: On(s, l, y) && IsAfter(s, y, p) ==> s.nodes[y].key >= k
  }

  /** The first node at or after a key, and the last node before it on each level. */
  method FindGreaterOrEqual(s: State, k: Key) returns (r: Option<nat>, prev: seq<nat>)
    requires Inv(s)
    ensures IsFirstAtOrAfter(s, To(k), r)
    ensures |prev| == s.maxHeight && forall l: nat :: l < s.maxHeight ==> IsPrev(s, l, prev[l], k)
  {
    prev := seq(s.maxHeight, _ => HEAD);
    var x: nat, level: nat := HEAD, s.maxHeight - 1;
    while true
      invariant level < s.maxHeight == |prev| && Reachable(s, level, x) && IsBefore(s, x, k)
      invariant forall l: nat :: level < l < s.maxHeight ==> IsPrev(s, l, prev[l], k)
      decreases level, Following(s, level, x)
    {
      var next := s.nodes[x].next[level];
      assert IsNext(s, level, x, next);
      if next.Some? && s.nodes[next.value].key < k {
        // Its key is before the target: on along this level.
        assert next.value in Following(s, level, x) && next.value !in Following(s, level, next.value);
        x := next.value;
      } else {
        prev := prev[level := x];
        assert IsPrev(s, level, x, k);
        if level == 0 {
          return next, prev;
        }
        // Down a level.
        level := level - 1;
      }
    }
  }

  ghost predicate Stepped(run: seq<State>, i: nat)
    requires 0 < i < |run|
  {
    Inv(run[i - 1]) && WriterStep(run[i - 1], run[i])
  }

  // The writer takes its steps from s to t.
  ghost predicate Steps(s: State, t: State, run: seq<State>) {
    && run != [] && run[0] == s && run[|run| - 1] == t
    && forall i :: 0 < i < |run| ==> Stepped(run, i)
  }

  lemma OneStepMore(s: State, t: State, u: State, run: seq<State>)
    requires Steps(s, t, run) && Inv(t) && WriterStep(t, u)
    ensures Steps(s, u, run + [u])
  {
    var more := run + [u];
    forall i | 0 < i < |more| ensures Stepped(more, i) {
      if i < |run| {
        assert Stepped(run, i);
      }
    }
  }

  // A new node with key k is published on levels below i.
  ghost predicate Inserted(s: State, t: State, k: Key, height: nat, i: nat) {
    && Inv(t) && OnlyGrows(s, t) && |t.nodes| == |s.nodes| + 1
    && t.nodes[|s.nodes|].key == k && |t.nodes[|s.nodes|].next| == height
    && (if i < height then t.insertion.Inserting? && t.insertion.x == |s.nodes| && t.insertion.level == i && !t.insertion.copied
        else t.insertion.Idle?)
    && forall l: nat, y: nat :: On(t, l, y) <==> On(s, l, y) || (l < i && y == |s.nodes|)
  }

  /** Inserts a key by the steps above: afterwards it is on the levels below its height, and
      nothing else has changed. */
  method Insert(s: State, k: Key, height: nat) returns (t: State, ghost run: seq<State>)
    requires Inv(s) && s.insertion.Idle? && 1 <= height <= MAX_HEIGHT
    requires forall y: nat :: On(s, 0, y) ==> s.nodes[y].key != k
    ensures Inserted(s, t, k, height, height) && Steps(s, t, run)
  {
    t := StartInsert(s, k, height);
    run := [s, t];
    for i := 0 to height
      invariant Inserted(s, t, k, height, i) && Steps(s, t, run)
    {
      var u := LinkAt(t);
      OneStepMore(s, t, AfterCopy(t), run);
      OneStepMore(s, AfterCopy(t), u, run + [AfterCopy(t)]);
      run := run + [AfterCopy(t)] + [u];
      t := u;
    }
  }

  method StartInsert(s: State, k: Key, height: nat) returns (t: State)
    requires Inv(s) && s.insertion.Idle? && 1 <= height <= MAX_HEIGHT
    requires forall y: nat :: On(s, 0, y) ==> s.nodes[y].key != k
    ensures Inserted(s, t, k, height, 0) && WriterStep(s, t)
  {
    var _, prev := FindGreaterOrEqual(s, k);
    if height > s.maxHeight {
      prev := prev + seq(height - s.maxHeight, _ => HEAD);
    }
    forall l: nat | l < height ensures Fits(s, l, prev[l], k) {
      if l < s.maxHeight {
        assert IsPrev(s, l, prev[l], k);
      }
    }
    t := State(s.nodes + [Node(k, seq(height, _ => None))], if height > s.maxHeight then height else s.maxHeight, s.levels,
               Inserting(|s.nodes|, prev, 0, false));
    BeginKeepsInv(s, t, k, height, prev);
    assert Begin(s, t, k, height, prev);
  }

  // x->next[level] = prev[level]->next[level], then prev[level]->next[level] = x
  method LinkAt(s: State) returns (t: State)
    requires Inv(s) && s.insertion.Inserting? && !s.insertion.copied
    ensures Inv(t) && OnlyGrows(s, t) && |t.nodes| == |s.nodes|
    ensures Fits(s, s.insertion.level, s.insertion.prev[s.insertion.level], s.nodes[s.insertion.x].key)
    ensures Inv(AfterCopy(s)) && WriterStep(s, AfterCopy(s)) && WriterStep(AfterCopy(s), t)
    ensures
      var i := s.insertion;
      && |t.nodes[i.x].next| == |s.nodes[i.x].next|
      && t.insertion == (if i.level + 1 < |s.nodes[i.x].next| then Inserting(i.x, i.prev, i.level + 1, false) else Idle)
      && forall l: nat, y: nat :: On(t, l, y) <==> On(s, l, y) || (l == i.level && y == i.x)
  {
    ghost var i := s.insertion;
    assert Fits(s, i.level, i.prev[i.level], s.nodes[i.x].key);
    var u := AfterCopy(s);
    CopyKeepsInv(s, u);
    assert Fits(u, i.level, i.prev[i.level], u.nodes[i.x].key);
    t := AfterPublish(u);
    PublishKeepsInv(u, t);
  }
}
