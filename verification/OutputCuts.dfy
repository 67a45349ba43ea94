/** Where a compaction ends one output and starts the next: a table is closed once it is big enough, and before
    a key at which it would overlap too much of the level beneath the one it is written to. */
module OutputCuts {
  import opened Primitives
  import opened InternalKeys
  import opened Versions

  type Sizes = seq<Entry> -> nat

  // ----- Stops -----

  // The first file that does not end before k.
  function FirstFrom(files: seq<File>, k: InternalKey): (i: nat)
    ensures i <= |files|
    ensures forall j :: 0 <= j < i ==> Before(files[j].largest, k)
    ensures i < |files| ==> !Before(files[i].largest, k)
  {
    if files == [] || !Before(files[0].largest, k) then 0 else 1 + FirstFrom(files[1..], k)
  }

  lemma FirstFromGrows(files: seq<File>, a: InternalKey, b: InternalKey)
    requires a == b || Before(a, b)
    ensures FirstFrom(files, a) <= FirstFrom(files, b)
  {
    var i := FirstFrom(files, b);
    assert i < FirstFrom(files, a) ==> Before(files[i].largest, a);
  }

  // The size of files i to j.
  function SizeOf(files: seq<File>, i: nat, j: nat): nat
    requires i <= j <= |files|
  {
    if i == j then 0 else SizeOf(files, i, j - 1) + files[j - 1].size
  }

  lemma {:induction false} SizesAdd(files: seq<File>, i: nat, j: nat, k: nat)
    requires i <= j <= k <= |files|
    ensures SizeOf(files, i, j) + SizeOf(files, j, k) == SizeOf(files, i, k)
  {
    if j < k {
      SizesAdd(files, i, j, k - 1);
    }
  }

  // The size of the files that end at a or later, but before b.
  function BytesBetween(files: seq<File>, a: InternalKey, b: InternalKey): nat {
    var i, j := FirstFrom(files, a), FirstFrom(files, b);
    if i <= j then SizeOf(files, i, j) else 0
  }

  lemma BytesAdd(files: seq<File>, a: InternalKey, b: InternalKey, c: InternalKey)
    requires (a == b || Before(a, b)) && (b == c || Before(b, c))
    ensures FirstFrom(files, b) <= FirstFrom(files, c)
    ensures BytesBetween(files, a, b) + SizeOf(files, FirstFrom(files, b), FirstFrom(files, c)) == BytesBetween(files, a, c)
    ensures BytesBetween(files, b, c) <= BytesBetween(files, a, c)
  {
    FirstFromGrows(files, a, b);
    FirstFromGrows(files, b, c);
    SizesAdd(files, FirstFrom(files, a), FirstFrom(files, b), FirstFrom(files, c));
  }

  // The entry from which overlapped bytes are counted when entry i comes: the last stop, or the first entry.
  function Since(grandparents: seq<File>, input: seq<Entry>, i: nat): (s: nat)
    requires i <= |input|
    ensures s <= i && (i > 0 ==> s < i)
    decreases i, 0
  {
    if i == 0 then 0 else if Stops(grandparents, input, i - 1) then i - 1 else Since(grandparents, input, i - 1)
  }

  predicate Stops(grandparents: seq<File>, input: seq<Entry>, i: nat)
    requires i < |input|
    decreases i, 1
  {
    BytesBetween(grandparents, input[Since(grandparents, input, i)].key, input[i].key) > MAX_GRANDPARENT_OVERLAP_BYTES
  }

  lemma {:induction false} SinceIsStop(grandparents: seq<File>, input: seq<Entry>, i: nat)
    requires i <= |input|
    ensures Since(grandparents, input, i) > 0 ==> Stops(grandparents, input, Since(grandparents, input, i))
  {
    if i > 0 {
      SinceIsStop(grandparents, input, i - 1);
    }
  }

  // The bytes counted after entry i.
  function Counted(grandparents: seq<File>, input: seq<Entry>, i: nat): nat
    requires i < |input|
  {
    BytesBetween(grandparents, input[Since(grandparents, input, i + 1)].key, input[i].key)
  }

  lemma InOrder(input: seq<Entry>, i: nat, j: nat)
    requires Sorted(input) && i <= j < |input|
    ensures input[i].key == input[j].key || Before(input[i].key, input[j].key)
  {
  }

  /** Entry i adds what ends between the entry before it and itself, and stops if that makes too much. */
  lemma CountOneMore(grandparents: seq<File>, input: seq<Entry>, i: nat)
    requires Sorted(input) && 0 < i < |input|
    ensures FirstFrom(grandparents, input[i - 1].key) <= FirstFrom(grandparents, input[i].key)
    ensures
      var passed := Counted(grandparents, input, i - 1)
                  + SizeOf(grandparents, FirstFrom(grandparents, input[i - 1].key), FirstFrom(grandparents, input[i].key));
      && Stops(grandparents, input, i) == (passed > MAX_GRANDPARENT_OVERLAP_BYTES)
      && Counted(grandparents, input, i) == if Stops(grandparents, input, i) then 0 else passed
  {
    var s := Since(grandparents, input, i);
    InOrder(input, s, i - 1);
    InOrder(input, i - 1, i);
    BytesAdd(grandparents, input[s].key, input[i - 1].key, input[i].key);
    NothingBetween(grandparents, input[i].key);
  }

  lemma NothingBetween(files: seq<File>, k: InternalKey)
    ensures BytesBetween(files, k, k) == 0
  {
  }

  lemma CountFirst(grandparents: seq<File>, input: seq<Entry>)
    requires input != []
    ensures !Stops(grandparents, input, 0) && Counted(grandparents, input, 0) == 0
  {
    NothingBetween(grandparents, input[0].key);
  }

  // The keys before which there has been a stop, among the first n.
  ghost function StopKeys(grandparents: seq<File>, input: seq<Entry>, n: nat): set<InternalKey>
    requires n <= |input|
  {
    if n == 0 then {}
    else StopKeys(grandparents, input, n - 1) + if Stops(grandparents, input, n - 1) then {input[n - 1].key} else {}
  }

  lemma {:induction false} NextStopKeys(grandparents: seq<File>, input: seq<Entry>, i: nat)
    requires i < |input|
    ensures StopKeys(grandparents, input, i + 1)
         == if Stops(grandparents, input, i) then StopKeys(grandparents, input, i) + {input[i].key} else StopKeys(grandparents, input, i)
  {
    assert StopKeys(grandparents, input, i) + {} == StopKeys(grandparents, input, i);
  }

  lemma {:induction false} StopIsKey(grandparents: seq<File>, input: seq<Entry>, n: nat, j: nat)
    requires j < n <= |input|
    ensures Stops(grandparents, input, j) ==> input[j].key in StopKeys(grandparents, input, n)
  {
    if j < n - 1 {
      StopIsKey(grandparents, input, n - 1, j);
    }
  }

  lemma {:induction false} StopKeysAreBefore(grandparents: seq<File>, input: seq<Entry>, n: nat)
    requires 0 < n <= |input| && Sorted(input)
    ensures NoneSince(StopKeys(grandparents, input, n), input[n - 1].key)
  {
    if n > 1 {
      StopKeysAreBefore(grandparents, input, n - 1);
      assert Before(input[n - 2].key, input[n - 1].key);
    } else {
      assert StopKeys(grandparents, input, 0) == {};
    }
  }

  // ----- Tables -----

  // No part of the table but the whole of it is big enough.
  ghost predicate Slim(es: seq<Entry>, fileSize: Sizes, max: nat) {
    forall m :: 0 < m < |es| ==> fileSize(es[..m]) < max
  }

  // No stop is inside the table.
  ghost predicate Unbroken(stops: set<InternalKey>, f: File) {
    forall k :: k in stops ==> !Before(f.smallest, k) || Before(f.largest, k)
  }

  // Table f had to end: it is big enough, or a stop came after it.
  ghost predicate Ended(stops: set<InternalKey>, f: File, fileSize: Sizes, max: nat) {
    fileSize(f.entries) >= max || exists k :: k in stops && Before(f.largest, k)
  }

  // And that before k.
  ghost predicate EndedBefore(stops: set<InternalKey>, f: File, next: InternalKey, fileSize: Sizes, max: nat) {
    fileSize(f.entries) >= max || exists k :: k in stops && Before(f.largest, k) && !Before(next, k)
  }

  /** Tables are cut just where they have to be: none goes on when it is big enough or over a stop, and each
      but the last has ended for one of these reasons. */
  ghost predicate WellCut(stops: set<InternalKey>, tables: seq<File>, fileSize: Sizes, max: nat) {
    && (forall i :: 0 <= i < |tables| ==> Slim(tables[i].entries, fileSize, max) && Unbroken(stops, tables[i]))
    && forall i, j :: 0 <= i < |tables| && j == i + 1 < |tables| ==> EndedBefore(stops, tables[i], tables[j].smallest, fileSize, max)
  }

  // There has been no stop since k.
  ghost predicate NoneSince(stops: set<InternalKey>, k: InternalKey) {
    forall s :: s in stops ==> !Before(k, s)
  }

  // The last table ended in time for the next to begin with k.
  ghost predicate MayBegin(stops: set<InternalKey>, tables: seq<File>, k: InternalKey, fileSize: Sizes, max: nat) {
    tables != [] ==> EndedBefore(stops, tables[|tables| - 1], k, fileSize, max)
  }

  // What has been written after some stops.
  ghost predicate Cutting(stops: set<InternalKey>, outputs: seq<File>, current: Option<File>, fileSize: Sizes, max: nat) {
    && WellCut(stops, outputs, fileSize, max)
    && match current
       case None => outputs != [] ==> Ended(stops, outputs[|outputs| - 1], fileSize, max)
       case Some(f) =>
         && Slim(f.entries, fileSize, max) && fileSize(f.entries) < max && NoneSince(stops, f.smallest)
         && MayBegin(stops, outputs, f.smallest, fileSize, max)
  }

  ghost predicate AllEndBefore(tables: seq<File>, k: InternalKey) {
    forall i :: 0 <= i < |tables| ==> Before(tables[i].largest, k)
  }

  lemma OneMoreTable(stops: set<InternalKey>, tables: seq<File>, f: File, fileSize: Sizes, max: nat)
    requires WellCut(stops, tables, fileSize, max) && MayBegin(stops, tables, f.smallest, fileSize, max)
    requires Slim(f.entries, fileSize, max) && Unbroken(stops, f)
    ensures WellCut(stops, tables + [f], fileSize, max) && (tables + [f])[|tables|] == f
  {
  }

  // A stop beyond the tables breaks none of them.
  lemma StopBeyond(stops: set<InternalKey>, k: InternalKey, tables: seq<File>, fileSize: Sizes, max: nat)
    requires WellCut(stops, tables, fileSize, max) && AllEndBefore(tables, k)
    ensures WellCut(stops + {k}, tables, fileSize, max)
  {
  }

  // At a stop the open table, if any, is closed.
  lemma StopWithout(stops: set<InternalKey>, k: InternalKey, outputs: seq<File>, fileSize: Sizes, max: nat)
    requires Cutting(stops, outputs, None, fileSize, max) && AllEndBefore(outputs, k)
    ensures Cutting(stops + {k}, outputs, None, fileSize, max)
  {
    StopBeyond(stops, k, outputs, fileSize, max);
  }

  lemma TableClosed(stops: set<InternalKey>, outputs: seq<File>, f: File, size: nat, fileSize: Sizes, max: nat)
    requires Cutting(stops, outputs, Some(f), fileSize, max)
    ensures WellCut(stops, outputs + [f.(size := size)], fileSize, max)
  {
    OneMoreTable(stops, outputs, f.(size := size), fileSize, max);
  }

  lemma StopCloses(stops: set<InternalKey>, k: InternalKey, outputs: seq<File>, f: File, size: nat, fileSize: Sizes, max: nat)
    requires Cutting(stops, outputs, Some(f), fileSize, max) && AllEndBefore(outputs, k) && Before(f.largest, k)
    ensures Cutting(stops + {k}, outputs + [f.(size := size)], None, fileSize, max)
  {
    var g := f.(size := size);
    TableClosed(stops, outputs, f, size, fileSize, max);
    StopBeyond(stops, k, outputs + [g], fileSize, max);
    assert (outputs + [g])[|outputs|] == g && k in stops + {k};
  }

  // The table that entry e goes to.
  function Extended(current: Option<File>, number: nat, e: Entry): File {
    match current
    case None => File(number, 0, e.key, e.key, [e])
    case Some(f) => f.(largest := e.key, entries := f.entries + [e])
  }

  lemma SlimOneMore(es: seq<Entry>, e: Entry, fileSize: Sizes, max: nat)
    requires Slim(es, fileSize, max) && fileSize(es) < max
    ensures Slim(es + [e], fileSize, max)
  {
    forall m | 0 < m < |es| + 1
      ensures fileSize((es + [e])[..m]) < max
    {
      assert (es + [e])[..m] == es[..m];
      assert es[..|es|] == es;
    }
  }

  // After one more entry the open table may be big enough.
  lemma Written(stops: set<InternalKey>, outputs: seq<File>, current: Option<File>, number: nat, e: Entry, fileSize: Sizes, max: nat)
    requires Cutting(stops, outputs, current, fileSize, max) && NoneSince(stops, e.key)
    ensures
      var f := Extended(current, number, e);
      if fileSize(f.entries) < max then Cutting(stops, outputs, Some(f), fileSize, max)
      else Cutting(stops, outputs + [f.(size := fileSize(f.entries))], None, fileSize, max)
  {
    var f := Extended(current, number, e);
    ExtendedIs(stops, outputs, current, number, e, fileSize, max);
    if fileSize(f.entries) >= max {
      OneMoreTable(stops, outputs, f.(size := fileSize(f.entries)), fileSize, max);
    }
  }

  lemma ExtendedIs(stops: set<InternalKey>, outputs: seq<File>, current: Option<File>, number: nat, e: Entry, fileSize: Sizes, max: nat)
    requires Cutting(stops, outputs, current, fileSize, max) && NoneSince(stops, e.key)
    ensures
      var f := Extended(current, number, e);
      Slim(f.entries, fileSize, max) && NoneSince(stops, f.smallest) && MayBegin(stops, outputs, f.smallest, fileSize, max)
  {
    if current.Some? {
      SlimOneMore(current.value.entries, e, fileSize, max);
    }
  }

  // ----- The cuts are determined -----

  function Flatten(files: seq<File>): seq<Entry> {
    if files == [] then [] else Flatten(files[..|files| - 1]) + files[|files| - 1].entries
  }

  lemma {:induction false} FlattenFront(files: seq<File>)
    requires files != []
    ensures Flatten(files) == files[0].entries + Flatten(files[1..])
  {
    if |files| == 1 {
      assert files[..0] == [] && files[1..] == [];
      assert [] + files[0].entries == files[0].entries + [];
    } else {
      FlattenFront(files[..|files| - 1]);
      assert files[..|files| - 1][1..] == files[1..][..|files| - 2];
      Associate(files[0].entries, Flatten(files[1..][..|files| - 2]), files[|files| - 1].entries);
    }
  }

  lemma Associate(a: seq<Entry>, b: seq<Entry>, c: seq<Entry>)
    ensures (a + b) + c == a + (b + c)
  {
  }

  // A first table that is longer than it would be if cut right is cut wrong.
  lemma {:induction false} LongerIsWrong(stops: set<InternalKey>, a: seq<File>, b: seq<File>, fileSize: Sizes, max: nat)
    requires ValidFiles(a) && ValidFiles(b) && a != [] && b != [] && Flatten(a) == Flatten(b)
    requires WellCut(stops, a, fileSize, max) && |a[0].entries| < |b[0].entries|
    ensures !WellCut(stops, b, fileSize, max)
  {
    FlattenFront(a);
    FlattenFront(b);
    var n := |a[0].entries|;
    assert a[0].entries == Flatten(a)[..n] == b[0].entries[..n];
    assert |a| > 1 by {
      assert |Flatten(a)| > n;
    }
    FlattenFront(a[1..]);
    assert a[1].entries[0] == Flatten(a)[n] == b[0].entries[n];
    StopInside(stops, a[0], a[1], b[0], n, fileSize, max);
  }

  // A table that went on where another has ended was big enough, or went on over a stop.
  lemma StopInside(stops: set<InternalKey>, f: File, next: File, g: File, n: nat, fileSize: Sizes, max: nat)
    requires f.Valid() && next.Valid() && g.Valid() && EndedBefore(stops, f, next.smallest, fileSize, max)
    requires 0 < n == |f.entries| < |g.entries| && f.entries == g.entries[..n] && next.entries[0] == g.entries[n]
    ensures !(Slim(g.entries, fileSize, max) && Unbroken(stops, g))
  {
    assert f.smallest == g.smallest && g.entries[n] in g.entries && f.entries[0] in f.entries;
    EntriesAreInRange(g, g.entries[n]);
    EntriesAreInRange(f, f.entries[0]);
    if fileSize(f.entries) < max {
      var k :| k in stops && Before(f.largest, k) && !Before(next.smallest, k);
      assert Before(g.smallest, k) && !Before(g.largest, k);
    }
  }

  /** The stops and the sizes leave no choice: two lists of tables with the same entries, both cut just where they
      have to be, are cut alike. */
  lemma {:induction false} CutsAreDetermined(stops: set<InternalKey>, a: seq<File>, b: seq<File>, fileSize: Sizes, max: nat)
    requires ValidFiles(a) && ValidFiles(b) && Flatten(a) == Flatten(b)
    requires WellCut(stops, a, fileSize, max) && WellCut(stops, b, fileSize, max)
    ensures |a| == |b| && forall i :: 0 <= i < |a| ==> a[i].entries == b[i].entries
    decreases |a|
  {
    if a == [] || b == [] {
      EmptyHasNoTable(a);
      EmptyHasNoTable(b);
    } else {
      if |a[0].entries| < |b[0].entries| {
        LongerIsWrong(stops, a, b, fileSize, max);
      } else if |b[0].entries| < |a[0].entries| {
        LongerIsWrong(stops, b, a, fileSize, max);
      }
      FlattenFront(a);
      FlattenFront(b);
      SameFront(a[0].entries, Flatten(a[1..]), b[0].entries, Flatten(b[1..]));
      CutsAreDetermined(stops, a[1..], b[1..], fileSize, max);
      forall i | 0 <= i < |a|
        ensures a[i].entries == b[i].entries
      {
        assert i > 0 ==> a[i] == a[1..][i - 1] && b[i] == b[1..][i - 1];
      }
    }
  }

  lemma EmptyHasNoTable(a: seq<File>)
    requires ValidFiles(a)
    ensures a == [] <==> Flatten(a) == []
  {
  }

  lemma SameFront(a: seq<Entry>, s: seq<Entry>, b: seq<Entry>, t: seq<Entry>)
    requires a + s == b + t && |a| == |b|
    ensures a == b && s == t
  {
    assert a == (a + s)[..|a|] && b == (b + t)[..|b|];
    assert s == (a + s)[|a|..] && t == (b + t)[|b|..];
  }

  // ----- What cutting is for -----

  /** Of the level beneath, no more than the limit ends inside an output: none is costly to merge further down. */
  lemma OutputOverlapsLittle(grandparents: seq<File>, input: seq<Entry>, f: File, p: nat, q: nat)
    requires Sorted(input) && p <= q < |input| && f.smallest == input[p].key && f.largest == input[q].key
    requires Unbroken(StopKeys(grandparents, input, |input|), f)
    ensures BytesBetween(grandparents, f.smallest, f.largest) <= MAX_GRANDPARENT_OVERLAP_BYTES
  {
    if p == q {
      NothingBetween(grandparents, f.smallest);
    } else {
      var s := Since(grandparents, input, q);
      SinceIsStop(grandparents, input, q);
      InOrder(input, p, q);
      NoStopInside(grandparents, input, f, q);
      if s > p {
        InOrder(input, p, s);
        InOrder(input, s, q);
        NoStopInside(grandparents, input, f, s);
      }
      InOrder(input, s, p);
      BytesAdd(grandparents, input[s].key, input[p].key, input[q].key);
    }
  }

  lemma NoStopInside(grandparents: seq<File>, input: seq<Entry>, f: File, j: nat)
    requires j < |input| && Unbroken(StopKeys(grandparents, input, |input|), f)
    requires Before(f.smallest, input[j].key) && !Before(f.largest, input[j].key)
    ensures !Stops(grandparents, input, j)
  {
    StopIsKey(grandparents, input, |input|, j);
  }
}
