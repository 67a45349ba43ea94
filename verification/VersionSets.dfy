/** The current version and the manifest that holds it: applying edits, and recovering. */
module VersionSets {
  import opened Primitives
  import opened Coding
  import opened VersionEdits
  import opened Manifests

  type Levels = v: seq<seq<FileMeta>> | |v| == NUM_LEVELS witness [[], [], [], [], [], [], []]

  type Pointers = p: seq<Option<Bytes>> | |p| == NUM_LEVELS witness [None, None, None, None, None, None, None]

  const NONE_POINTED: Pointers := [None, None, None, None, None, None, None]

  // ----- What a list of edits says -----

  function LevelEdits(es: seq<VersionEdit>, level: nat): (r: seq<LevelEdit>)
    ensures |r| == |es|
  {
    seq(|es|, i requires 0 <= i < |es| => At(es[i], level))
  }

  /** The numbers that the latest edits give. */
  datatype Counters = Counters(log: Option<nat>, prevLog: Option<nat>, nextFile: Option<nat>, lastSequence: Option<nat>)

  const NO_COUNTERS := Counters(None, None, None, None)

  function Later<T>(was: Option<T>, x: Option<T>): Option<T> {
    if x.Some? then x else was
  }

  function Count(c: Counters, e: VersionEdit): Counters {
    Counters(Later(c.log, e.logNumber), Later(c.prevLog, e.prevLogNumber), Later(c.nextFile, e.nextFileNumber),
             Later(c.lastSequence, e.lastSequence))
  }

  function CountAll(es: seq<VersionEdit>): Counters {
    if es == [] then NO_COUNTERS else Count(CountAll(es[..|es| - 1]), es[|es| - 1])
  }

  function Point(p: Pointers, pointers: seq<AtLevel<Bytes>>): Pointers {
    if pointers == [] then p
    else
      var q := Point(p, pointers[..|pointers| - 1]);
      var last := pointers[|pointers| - 1];
      if last.level < NUM_LEVELS then q[last.level := Some(last.it)] else q
  }

  function PointAll(es: seq<VersionEdit>): Pointers {
    if es == [] then NONE_POINTED else Point(PointAll(es[..|es| - 1]), es[|es| - 1].compactPointers)
  }

  // The version that the edits make, one at a time, of no files at all.
  ghost predicate Makes(rank: Order, es: seq<VersionEdit>, v: Levels) {
    forall level: nat :: level < NUM_LEVELS ==> MakesLevel(rank, es, v, level)
  }

  ghost predicate MakesLevel(rank: Order, es: seq<VersionEdit>, v: Levels, level: nat)
    requires level < NUM_LEVELS
  {
    Manifests.Sorted(rank, v[level]) && Elements(v[level]) == UpdateAll({}, LevelEdits(es, level))
  }

  lemma MakesOne(rank: Order, es: seq<VersionEdit>, v: Levels, w: Levels)
    requires Makes(rank, es, v) && Makes(rank, es, w)
    ensures v == w
  {
    forall level: nat | level < NUM_LEVELS ensures v[level] == w[level] {
      assert MakesLevel(rank, es, v, level) && MakesLevel(rank, es, w, level);
      SortedIsUnique(rank, v[level], w[level]);
    }
  }

  // No file number comes back to a level that it has left.
  ghost predicate NoneComesBack(es: seq<VersionEdit>) {
    forall level: nat :: level < NUM_LEVELS ==> NeverBack({}, LevelEdits(es, level))
  }

  // ----- Recovering -----

  datatype Recovered = Recovered(version: Levels, pointers: Pointers, logNumber: nat, prevLogNumber: nat,
                                 manifestFileNumber: nat, nextFileNumber: nat, lastSequence: nat)

  datatype Outcome = Success(it: Recovered) | Corruption | ComparatorMismatch | NoNextFile | NoLogNumber | NoLastSequence

  // The records of some edits.
  function Records(es: seq<VersionEdit>): (r: seq<Bytes>)
    ensures |r| == |es|
  {
    seq(|es|, i requires 0 <= i < |es| => ItemsBytes(Items(es[i])))
  }

  ghost predicate Readable(comparator: Bytes, es: seq<VersionEdit>) {
    forall i :: 0 <= i < |es| ==> Encodable(es[i]) && (es[i].comparator.Some? ==> es[i].comparator.value == comparator)
  }

  // What the counters and pointers of a recovered manifest with these edits are, and what is missing if it fails.
  ghost predicate CountedFrom(es: seq<VersionEdit>, r: Outcome) {
    var c := CountAll(es);
    match r
    case Success(it) =>
      && it.pointers == PointAll(es)
      && c.log == Some(it.logNumber) && c.lastSequence == Some(it.lastSequence) && c.nextFile == Some(it.manifestFileNumber)
      && it.prevLogNumber == (if c.prevLog.Some? then c.prevLog.value else 0) && it.nextFileNumber == it.manifestFileNumber + 1
    case NoNextFile => c.nextFile.None?
    case NoLogNumber => c.log.None?
    case NoLastSequence => c.lastSequence.None?
    case Corruption => false
    case ComparatorMismatch => false
  }

  // The version that the edits make one at a time is recovered.
  ghost predicate RecoveredFrom(rank: Order, es: seq<VersionEdit>, r: Outcome) {
    CountedFrom(es, r) && (r.Success? ==> Makes(rank, es, r.it.version))
  }

  function BuilderOf(rank: Order, es: seq<VersionEdit>, level: nat): Builder {
    ApplyAll(rank, NEW_BUILDER, LevelEdits(es, level))
  }

  // What one builder that is given all the edits leaves.
  ghost predicate Rebuilds(rank: Order, es: seq<VersionEdit>, v: Levels) {
    forall level: nat :: level < NUM_LEVELS ==> RebuildsLevel(rank, es, v, level)
  }

  ghost predicate RebuildsLevel(rank: Order, es: seq<VersionEdit>, v: Levels, level: nat)
    requires level < NUM_LEVELS
  {
    Elements(v[level]) == Result([], BuilderOf(rank, es, level))
  }

  ghost predicate RebuiltFrom(rank: Order, es: seq<VersionEdit>, r: Outcome) {
    && CountedFrom(es, r)
    && (r.Success? ==> Rebuilds(rank, es, r.it.version) && forall l: nat :: l < NUM_LEVELS ==> Manifests.Sorted(rank, r.it.version[l]))
  }

  // Builders that have been given the first edits of a list.
  ghost predicate Built(rank: Order, bs: seq<Builder>, es: seq<VersionEdit>) {
    |bs| == NUM_LEVELS && forall level: nat :: level < NUM_LEVELS ==> bs[level] == ApplyAll(rank, NEW_BUILDER, LevelEdits(es, level))
  }

  ghost predicate AllSorted(rank: Order, bs: seq<Builder>) {
    |bs| == NUM_LEVELS && forall level: nat :: level < NUM_LEVELS ==> Manifests.Sorted(rank, bs[level].added)
  }

  // Builders for all levels, after one more edit.
  method ApplyEdit(rank: Order, bs: seq<Builder>, e: VersionEdit) returns (r: seq<Builder>)
    requires AllSorted(rank, bs)
    ensures AllSorted(rank, r) && forall l: nat :: l < NUM_LEVELS ==> r[l] == Apply(rank, bs[l], At(e, l))
  {
    r := bs;
    for level := 0 to NUM_LEVELS
      invariant AllSorted(rank, r)
      invariant forall l: nat :: l < NUM_LEVELS ==> r[l] == if l < level then Apply(rank, bs[l], At(e, l)) else bs[l]
    {
      AddFilesKeepsSorted(rank, bs[level].(deleted := bs[level].deleted + At(e, level).deleted), At(e, level).added);
      r := r[level := Apply(rank, bs[level], At(e, level))];
    }
  }

  lemma {:induction false} AddFilesKeepsSorted(rank: Order, b: Builder, files: seq<FileMeta>)
    requires Manifests.Sorted(rank, b.added)
    ensures Manifests.Sorted(rank, AddFiles(rank, b, files).added)
  {
    if files != [] {
      AddFilesKeepsSorted(rank, b, files[..|files| - 1]);
      InsertFileKeepsSorted(rank, AddFiles(rank, b, files[..|files| - 1]).added, files[|files| - 1]);
    }
  }

  lemma BuiltOneMore(rank: Order, bs: seq<Builder>, es: seq<VersionEdit>, n: nat, next: seq<Builder>)
    requires n < |es| && Built(rank, bs, es[..n]) && |next| == NUM_LEVELS
    requires forall l: nat :: l < NUM_LEVELS ==> next[l] == Apply(rank, bs[l], At(es[n], l))
    ensures Built(rank, next, es[..n + 1])
  {
    forall level: nat | level < NUM_LEVELS ensures next[level] == ApplyAll(rank, NEW_BUILDER, LevelEdits(es[..n + 1], level)) {
      assert LevelEdits(es[..n + 1], level)[..n] == LevelEdits(es[..n], level);
    }
  }

  method SaveAll(rank: Order, bs: seq<Builder>) returns (v: Levels)
    requires AllSorted(rank, bs)
    ensures forall l: nat :: l < NUM_LEVELS ==> Manifests.Sorted(rank, v[l]) && Elements(v[l]) == Result([], bs[l])
  {
    v := [[], [], [], [], [], [], []];
    for level := 0 to NUM_LEVELS
      invariant forall l: nat :: l < level ==> Manifests.Sorted(rank, v[l]) && Elements(v[l]) == Result([], bs[l])
    {
      var files := SaveTo(rank, [], bs[level]);
      v := v[level := files];
    }
  }

  lemma NothingYet()
    ensures Elements([]) == {} && Numbers({}) == {} && Numbers(Elements([])) == {}
  {
    assert Elements([]) == {};
    assert Numbers({}) == {};
  }

  lemma BuiltRebuilds(rank: Order, bs: seq<Builder>, es: seq<VersionEdit>, v: Levels)
    requires Built(rank, bs, es) && forall l: nat :: l < NUM_LEVELS ==> Elements(v[l]) == Result([], bs[l])
    requires forall l: nat :: l < NUM_LEVELS ==> Manifests.Sorted(rank, v[l])
    ensures Rebuilds(rank, es, v) && (NoneComesBack(es) ==> Makes(rank, es, v))
  {
    if NoneComesBack(es) {
      BuiltMakes(rank, bs, es, v);
    }
  }

  lemma BuiltMakes(rank: Order, bs: seq<Builder>, es: seq<VersionEdit>, v: Levels)
    requires Built(rank, bs, es) && NoneComesBack(es)
    requires forall l: nat :: l < NUM_LEVELS ==> Manifests.Sorted(rank, v[l]) && Elements(v[l]) == Result([], bs[l])
    ensures Makes(rank, es, v)
  {
    forall level: nat | level < NUM_LEVELS ensures MakesLevel(rank, es, v, level) {
      NothingYet();
      assert NeverBack({}, LevelEdits(es, level));
      BuilderIsUpdates(rank, [], LevelEdits(es, level));
    }
  }

  /** Reads the records of a manifest, up to one that is wrong, and builds a version.  If the records are those of
      some edits, it is what one builder makes of them all; and if these bring no file number back, what they make one
      at a time. */
  method Recover(rank: Order, comparator: Bytes, records: seq<Bytes>, ghost es: seq<VersionEdit>) returns (r: Outcome)
    ensures records == Records(es) && Readable(comparator, es) ==> RebuiltFrom(rank, es, r)
    ensures records == Records(es) && Readable(comparator, es) && NoneComesBack(es) ==> RecoveredFrom(rank, es, r)
  {
    ghost var good := records == Records(es) && Readable(comparator, es);
    var builders: seq<Builder> := seq(NUM_LEVELS, _ => NEW_BUILDER);
    var pointers: Pointers := NONE_POINTED;
    var counters := NO_COUNTERS;
    assert good ==> Built(rank, builders, es[..0]);
    for i := 0 to |records|
      invariant AllSorted(rank, builders)
      invariant good ==> Built(rank, builders, es[..i]) && counters == CountAll(es[..i]) && pointers == PointAll(es[..i])
    {
      var edit, failure := DecodeFrom(NO_EDIT, records[i]);
      if good {
        EditRoundTrip(es[i]);
        assert edit == es[i];
      }
      if failure.Some? {
        return Corruption;
      }
      if edit.comparator.Some? && edit.comparator.value != comparator {
        return ComparatorMismatch;
      }
      ghost var before := builders;
      builders := ApplyEdit(rank, builders, edit);
      pointers := Point(pointers, edit.compactPointers);
      counters := Count(counters, edit);
      if good {
        BuiltOneMore(rank, before, es, i, builders);
        assert es[..i + 1][..i] == es[..i];
      }
    }
    assert good ==> es[..|es|] == es;
    if counters.nextFile.None? {
      return NoNextFile;
    } else if counters.log.None? {
      return NoLogNumber;
    } else if counters.lastSequence.None? {
      return NoLastSequence;
    }
    var version := SaveAll(rank, builders);
    if good {
      BuiltRebuilds(rank, builders, es, version);
    }
    return Success(Recovered(version, pointers, counters.log.value, if counters.prevLog.Some? then counters.prevLog.value else 0,
                             counters.nextFile.value, counters.nextFile.value + 1, counters.lastSequence.value));
  }

  // ----- A manifest's first record -----

  function OnLevel(fs: seq<FileMeta>, level: nat): (r: seq<AtLevel<FileMeta>>)
    ensures |r| == |fs|
  {
    seq(|fs|, i requires 0 <= i < |fs| => AtLevel(level, fs[i]))
  }

  // The files of the first n levels.
  function SnapshotFiles(v: Levels, n: nat): seq<AtLevel<FileMeta>>
    requires n <= NUM_LEVELS
  {
    if n == 0 then [] else SnapshotFiles(v, n - 1) + OnLevel(v[n - 1], n - 1)
  }

  function SnapshotPointers(p: Pointers, n: nat): seq<AtLevel<Bytes>>
    requires n <= NUM_LEVELS
  {
    if n == 0 then []
    else SnapshotPointers(p, n - 1) + if p[n - 1].Some? then [AtLevel(n - 1, p[n - 1].value)] else []
  }

  function Snapshot(comparator: Bytes, p: Pointers, v: Levels): VersionEdit {
    NO_EDIT.(comparator := Some(comparator), compactPointers := SnapshotPointers(p, NUM_LEVELS), newFiles := SnapshotFiles(v, NUM_LEVELS))
  }

  lemma {:induction false} AddedConcat(a: seq<AtLevel<FileMeta>>, b: seq<AtLevel<FileMeta>>, level: nat)
    ensures Added(a + b, level) == Added(a, level) + Added(b, level)
  {
    if b == [] {
      assert a + b == a && Added(a, level) + [] == Added(a, level);
    } else {
      assert (a + b)[..|a + b| - 1] == a + b[..|b| - 1];
      AddedConcat(a, b[..|b| - 1], level);
    }
  }

  lemma {:induction false} AddedOnLevel(fs: seq<FileMeta>, level: nat, other: nat)
    ensures Added(OnLevel(fs, level), other) == if level == other then fs else []
  {
    if fs != [] {
      var n := |fs| - 1;
      assert OnLevel(fs, level)[..n] == OnLevel(fs[..n], level);
      AddedOnLevel(fs[..n], level, other);
      assert fs[..n] + [fs[n]] == fs;
    }
  }

  lemma {:induction false} AddedInSnapshot(v: Levels, n: nat, level: nat)
    requires n <= NUM_LEVELS && level < NUM_LEVELS
    ensures Added(SnapshotFiles(v, n), level) == if level < n then v[level] else []
  {
    if n > 0 {
      AddedInSnapshot(v, n - 1, level);
      AddedOneLevel(SnapshotFiles(v, n), SnapshotFiles(v, n - 1), v[n - 1], n - 1, level);
    }
  }

  lemma AddedOneLevel(all: seq<AtLevel<FileMeta>>, before: seq<AtLevel<FileMeta>>, fs: seq<FileMeta>, level: nat, other: nat)
    requires all == before + OnLevel(fs, level) && (level == other ==> Added(before, level) == [])
    ensures Added(all, other) == if level == other then fs else Added(before, other)
  {
    if level == other {
      AddedLast(before, fs, level);
    } else {
      AddedElsewhere(before, fs, level, other);
    }
  }

  lemma AddedElsewhere(before: seq<AtLevel<FileMeta>>, fs: seq<FileMeta>, level: nat, other: nat)
    requires level != other
    ensures Added(before + OnLevel(fs, level), other) == Added(before, other)
  {
    AddedConcat(before, OnLevel(fs, level), other);
    AddedOnLevel(fs, level, other);
    assert Added(before, other) + [] == Added(before, other);
  }

  lemma AddedLast(before: seq<AtLevel<FileMeta>>, fs: seq<FileMeta>, level: nat)
    requires Added(before, level) == []
    ensures Added(before + OnLevel(fs, level), level) == fs
  {
    AddedConcat(before, OnLevel(fs, level), level);
    AddedOnLevel(fs, level, level);
    assert [] + fs == fs;
  }

  lemma {:induction false} PointedInSnapshot(p: Pointers, n: nat)
    requires n <= NUM_LEVELS
    ensures forall l :: 0 <= l < NUM_LEVELS ==> Point(NONE_POINTED, SnapshotPointers(p, n))[l] == if l < n then p[l] else None
  {
    if n > 0 {
      PointedInSnapshot(p, n - 1);
      var before := SnapshotPointers(p, n - 1);
      if p[n - 1].Some? {
        assert SnapshotPointers(p, n)[..|before|] == before;
      } else {
        assert SnapshotPointers(p, n) == before;
      }
    }
  }

  // The last pointer for a level counts, whatever there was before.
  lemma {:induction false} PointAgain(p: Pointers, q: Pointers, pointers: seq<AtLevel<Bytes>>)
    ensures forall l :: 0 <= l < NUM_LEVELS ==>
      Point(p, pointers)[l] == Point(q, pointers)[l] || (Point(p, pointers)[l] == p[l] && Point(q, pointers)[l] == q[l])
  {
    if pointers != [] {
      PointAgain(p, q, pointers[..|pointers| - 1]);
    }
  }

  lemma PointTwice(p: Pointers, pointers: seq<AtLevel<Bytes>>)
    ensures Point(Point(p, pointers), pointers) == Point(p, pointers)
  {
    var q := Point(p, pointers);
    PointAgain(q, p, pointers);
    assert forall l :: 0 <= l < NUM_LEVELS ==> Point(q, pointers)[l] == q[l];
  }

  lemma SnapshotAt(comparator: Bytes, p: Pointers, v: Levels, level: nat)
    requires level < NUM_LEVELS
    ensures At(Snapshot(comparator, p, v), level) == LevelEdit({}, v[level])
  {
    AddedInSnapshot(v, NUM_LEVELS, level);
  }

  // ----- The version set -----

  predicate UniqueNumbers(files: set<FileMeta>) {
    forall f, g :: f in files && g in files && f.number == g.number ==> f == g
  }

  // Files that an edit adds have numbers of their own.
  ghost predicate AddsNew(files: set<FileMeta>, e: LevelEdit) {
    && (forall f, g :: f in files && g in Elements(e.added) ==> f.number != g.number)
    && (forall i, j :: 0 <= i < j < |e.added| ==> e.added[i].number != e.added[j].number)
  }

  // One edit on top of a version.
  lemma OneEdit(rank: Order, base: seq<FileMeta>, e: LevelEdit)
    requires Manifests.Sorted(rank, base) && UniqueNumbers(Elements(base)) && AddsNew(Elements(base), e)
    ensures
      var b := Apply(rank, NEW_BUILDER, e);
      && Result(base, b) == Update(Elements(base), e) && Manifests.Sorted(rank, b.added)
      && (forall f, g :: f in base && g in b.added ==> f.number != g.number)
      && UniqueNumbers(Update(Elements(base), e))
  {
    NothingYet();
    assert Result(base, NEW_BUILDER) == Elements(base);
    AsItWasIsTakenIn(rank, base, NEW_BUILDER, e);
    ApplyIsUpdateExactly(rank, base, NEW_BUILDER, e);
    DistinctAreAdded(rank, NEW_BUILDER.(deleted := NEW_BUILDER.deleted + e.deleted), e.added);
    var b := Apply(rank, NEW_BUILDER, e);
    forall f, g | f in base && g in b.added
      ensures f.number != g.number
    {
      assert f in Elements(base) && g in Elements(b.added);
    }
    UniqueAfter(Elements(base), e);
  }

  lemma UniqueAfter(files: set<FileMeta>, e: LevelEdit)
    requires UniqueNumbers(files) && AddsNew(files, e)
    ensures UniqueNumbers(Update(files, e))
  {
    forall f, g | f in Elements(e.added) && g in Elements(e.added) && f.number == g.number
      ensures f == g
    {
      var i :| 0 <= i < |e.added| && e.added[i] == f;
      var j :| 0 <= j < |e.added| && e.added[j] == g;
      assert i == j;
    }
  }

  // Numbers and lengths that the manifest can hold.
  predicate SmallFile(f: FileMeta) {
    f.number < POW64 && f.size < POW64 && |f.smallest| < POW32 && |f.largest| < POW32
  }

  predicate Small(p: Pointers, v: Levels) {
    && (forall l :: 0 <= l < NUM_LEVELS ==> p[l].Some? ==> |p[l].value| < POW32)
    && (forall l, f :: 0 <= l < NUM_LEVELS && f in v[l] ==> SmallFile(f))
  }

  lemma {:induction false} SnapshotFilesAreSmall(v: Levels, n: nat)
    requires n <= NUM_LEVELS && forall l, f :: 0 <= l < NUM_LEVELS && f in v[l] ==> SmallFile(f)
    ensures forall x :: x in SnapshotFiles(v, n) ==> x.level < NUM_LEVELS && SmallFile(x.it)
  {
    if n > 0 {
      SnapshotFilesAreSmall(v, n - 1);
    }
  }

  lemma {:induction false} SnapshotPointersAreSmall(p: Pointers, n: nat)
    requires n <= NUM_LEVELS && forall l :: 0 <= l < NUM_LEVELS ==> p[l].Some? ==> |p[l].value| < POW32
    ensures forall x :: x in SnapshotPointers(p, n) ==> x.level < NUM_LEVELS && |x.it| < POW32
  {
    if n > 0 {
      SnapshotPointersAreSmall(p, n - 1);
    }
  }

  lemma {:induction false} PointerItemsAreValid(xs: seq<AtLevel<Bytes>>)
    requires forall x :: x in xs ==> x.level < NUM_LEVELS && |x.it| < POW32
    ensures forall item :: item in PointerItems(xs) ==> item.Valid()
  {
    if xs != [] {
      PointerItemsAreValid(xs[..|xs| - 1]);
    }
  }

  lemma {:induction false} NewItemsAreValid(xs: seq<AtLevel<FileMeta>>)
    requires forall x :: x in xs ==> x.level < NUM_LEVELS && SmallFile(x.it)
    ensures forall item :: item in NewItems(xs) ==> item.Valid()
  {
    if xs != [] {
      NewItemsAreValid(xs[..|xs| - 1]);
    }
  }

  lemma SnapshotIsEncodable(comparator: Bytes, p: Pointers, v: Levels)
    requires |comparator| < POW32 && Small(p, v)
    ensures Encodable(Snapshot(comparator, p, v))
  {
    var e := Snapshot(comparator, p, v);
    SnapshotFilesAreSmall(v, NUM_LEVELS);
    SnapshotPointersAreSmall(p, NUM_LEVELS);
    PointerItemsAreValid(e.compactPointers);
    NewItemsAreValid(e.newFiles);
    assert HeadItems(e) == [Comparator(comparator)];
  }

  // The manifest holds these edits.
  ghost predicate Logged(comparator: Bytes, records: seq<Bytes>, es: seq<VersionEdit>, p: Pointers) {
    records == Records(es) && Readable(comparator, es) && PointAll(es) == p
  }

  lemma LevelEditsAppend(es: seq<VersionEdit>, e: VersionEdit, level: nat)
    ensures LevelEdits(es + [e], level) == LevelEdits(es, level) + [At(e, level)]
  {
  }

  lemma BuilderOneMore(rank: Order, es: seq<VersionEdit>, e: VersionEdit, level: nat)
    ensures BuilderOf(rank, es + [e], level) == Apply(rank, BuilderOf(rank, es, level), At(e, level))
  {
    LevelEditsAppend(es, e, level);
    var les := LevelEdits(es, level);
    assert (les + [At(e, level)])[..|les|] == les;
  }

  /** With one more edit the manifest stays that of the version exactly if the builder of the edits before takes it
      in, on every level. */
  lemma RebuildsOneMoreExactly(rank: Order, es: seq<VersionEdit>, v: Levels, e: VersionEdit, w: Levels)
    requires Rebuilds(rank, es, v)
    requires forall l: nat :: l < NUM_LEVELS ==> Elements(w[l]) == Update(Elements(v[l]), At(e, l))
    ensures Rebuilds(rank, es + [e], w) <==> TakenInEverywhere(rank, es, e)
  {
    forall l: nat | l < NUM_LEVELS
      ensures RebuildsLevel(rank, es + [e], w, l) <==> TakesIn(rank, [], BuilderOf(rank, es, l), At(e, l))
    {
      assert RebuildsLevel(rank, es, v, l);
      BuilderOneMore(rank, es, e, l);
      ApplyIsUpdateExactly(rank, [], BuilderOf(rank, es, l), At(e, l));
    }
  }

  ghost predicate TakenInEverywhere(rank: Order, es: seq<VersionEdit>, e: VersionEdit) {
    forall l: nat :: l < NUM_LEVELS ==> TakesIn(rank, [], BuilderOf(rank, es, l), At(e, l))
  }

  // The numbers that have been at a level since the manifest was begun.
  ghost function SeenAt(es: seq<VersionEdit>, level: nat): set<nat> {
    Seen({}, LevelEdits(es, level))
  }

  lemma {:induction false} BuilderIsSeen(rank: Order, es: seq<LevelEdit>)
    ensures
      var b := ApplyAll(rank, NEW_BUILDER, es);
      Manifests.Sorted(rank, b.added) && Numbers(Elements(b.added)) <= Seen({}, es)
  {
    NothingYet();
    if es != [] {
      var n := |es| - 1;
      BuilderIsSeen(rank, es[..n]);
      var b, e := ApplyAll(rank, NEW_BUILDER, es[..n]), es[n];
      AddFilesKeepsSorted(rank, b.(deleted := b.deleted + e.deleted), e.added);
      AddFilesMembers(rank, b.(deleted := b.deleted + e.deleted), e.added);
    }
  }

  /** Numbers that are given once are taken in. */
  lemma FreshIsTakenIn(rank: Order, es: seq<VersionEdit>, e: VersionEdit)
    requires forall l: nat :: l < NUM_LEVELS ==> Fresh(SeenAt(es, l), At(e, l))
    ensures TakenInEverywhere(rank, es, e)
  {
    forall l: nat | l < NUM_LEVELS
      ensures TakesIn(rank, [], BuilderOf(rank, es, l), At(e, l))
    {
      BuilderIsSeen(rank, LevelEdits(es, l));
      NothingYet();
      FreshComesNew(BuilderOf(rank, es, l), SeenAt(es, l), At(e, l));
      AsItWasIsTakenIn(rank, [], BuilderOf(rank, es, l), At(e, l));
    }
  }

  lemma FreshComesNew(b: Builder, seen: set<nat>, e: LevelEdit)
    requires Numbers(Elements(b.added)) <= seen && Fresh(seen, e)
    ensures ComesAsItWas([], b, e)
  {
    forall f, g | f in Elements([]) + Elements(b.added) && g in Elements(e.added)
      ensures f.number != g.number
    {
      assert f.number in Numbers(Elements(b.added));
    }
  }

  lemma LoggedOneMore(comparator: Bytes, records: seq<Bytes>, es: seq<VersionEdit>, p: Pointers, was: Pointers, e: VersionEdit)
    requires Logged(comparator, records, es, p) && (p == was || p == Point(was, e.compactPointers))
    requires Encodable(e) && (e.comparator.Some? ==> e.comparator.value == comparator)
    ensures Logged(comparator, records + [ItemsBytes(Items(e))], es + [e], Point(was, e.compactPointers))
  {
    PointTwice(was, e.compactPointers);
    RecordsOneMore(comparator, es, e);
    PointOneMore(es, e);
  }

  lemma RecordsOneMore(comparator: Bytes, es: seq<VersionEdit>, e: VersionEdit)
    requires Readable(comparator, es) && Encodable(e) && (e.comparator.Some? ==> e.comparator.value == comparator)
    ensures Records(es + [e]) == Records(es) + [ItemsBytes(Items(e))] && Readable(comparator, es + [e])
  {
  }

  lemma PointOneMore(es: seq<VersionEdit>, e: VersionEdit)
    ensures PointAll(es + [e]) == Point(PointAll(es), e.compactPointers)
  {
    assert (es + [e])[..|es|] == es;
  }

  // A manifest that begins with a snapshot.
  lemma LoggedSnapshot(comparator: Bytes, v: Levels, p: Pointers)
    requires |comparator| < POW32 && Small(p, v)
    ensures var e := Snapshot(comparator, p, v); Logged(comparator, [ItemsBytes(Items(e))], [e], p)
  {
    var e := Snapshot(comparator, p, v);
    SnapshotIsEncodable(comparator, p, v);
    PointedInSnapshot(p, NUM_LEVELS);
    assert [e][..0] == [];
    assert PointAll([e]) == p;
  }

  /** And is that of the version it was taken of. */
  lemma SnapshotRebuilds(rank: Order, comparator: Bytes, v: Levels, p: Pointers)
    requires InOrder(rank, v)
    ensures Rebuilds(rank, [Snapshot(comparator, p, v)], v)
  {
    var e := Snapshot(comparator, p, v);
    forall l: nat | l < NUM_LEVELS
      ensures RebuildsLevel(rank, [e], v, l)
    {
      SnapshotAt(comparator, p, v, l);
      assert LevelInOrder(rank, v[l]);
      SnapshotBuilder(rank, v[l]);
      assert LevelEdits([e], l) == [LevelEdit({}, v[l])];
    }
  }

  lemma SnapshotBuilder(rank: Order, files: seq<FileMeta>)
    requires LevelInOrder(rank, files)
    ensures Result([], ApplyAll(rank, NEW_BUILDER, [LevelEdit({}, files)])) == Elements(files)
  {
    var es := [LevelEdit({}, files)];
    NothingYet();
    assert es[..0] == [];
    forall i, j | 0 <= i < j < |files|
      ensures files[i].number != files[j].number
    {
      assert files[i] in Elements(files) && files[j] in Elements(files);
    }
    AsItWasIsTakenIn(rank, [], NEW_BUILDER, es[0]);
    ApplyIsUpdateExactly(rank, [], NEW_BUILDER, es[0]);
    assert Result([], NEW_BUILDER) == {};
  }

  // The edit as it is logged: with all numbers of the version set.
  function Completed(e: VersionEdit, log: nat, prevLog: nat, nextFile: nat, lastSequence: nat): VersionEdit {
    e.(logNumber := Some(if e.logNumber.Some? then e.logNumber.value else log),
       prevLogNumber := Some(if e.prevLogNumber.Some? then e.prevLogNumber.value else prevLog),
       nextFileNumber := Some(nextFile), lastSequence := Some(lastSequence))
  }

  lemma CompletedIsSame(e: VersionEdit, edit: VersionEdit)
    requires edit.deletedFiles == e.deletedFiles && edit.newFiles == e.newFiles
    ensures forall l: nat :: l < NUM_LEVELS ==> At(edit, l) == At(e, l)
  {
  }

  lemma SameTaken(rank: Order, es: seq<VersionEdit>, edit: VersionEdit, e: VersionEdit)
    requires forall l: nat :: l < NUM_LEVELS ==> At(edit, l) == At(e, l)
    ensures TakenInEverywhere(rank, es, edit) <==> TakenInEverywhere(rank, es, e)
  {
  }

  // The numbers that the last edit gives count, if it gives them all.
  lemma LastOf(es: seq<VersionEdit>, edit: VersionEdit)
    requires es != [] && es[|es| - 1] == edit
    requires edit.logNumber.Some? && edit.prevLogNumber.Some? && edit.nextFileNumber.Some? && edit.lastSequence.Some?
    ensures LastNumbers(es, edit.logNumber.value, edit.prevLogNumber.value)
  {
  }

  class VersionSet {
    const rank: Order
    const comparator: Bytes
    var current: Levels
    var pointers: Pointers
    var logNumber: nat
    var prevLogNumber: nat
    var nextFileNumber: nat
    var lastSequence: nat
    var manifest: Option<seq<Bytes>>  // the records of the manifest, once there is one
    ghost var edits: seq<VersionEdit>  // what they were written from

    ghost predicate Valid()
      reads this
    {
      && InOrder(rank, current)
      && (manifest.Some? ==>
            Logged(comparator, manifest.value, edits, pointers) && LastNumbers(edits, logNumber, prevLogNumber))
    }

    // The manifest is that of the current version.
    ghost predicate Faithful()
      reads this
    {
      manifest.Some? ==> Rebuilds(rank, edits, current)
    }

    // What the manifest goes on from: a new one, from a snapshot.
    ghost function Begun(e: VersionEdit): seq<VersionEdit>
      reads this
    {
      if manifest.Some? then edits else [Snapshot(comparator, Point(pointers, e.compactPointers), current)]
    }

    constructor (rank: Order, comparator: Bytes)
      ensures Valid() && Faithful() && manifest.None? && current == [[], [], [], [], [], [], []]
    {
      this.rank, this.comparator := rank, comparator;
      current, pointers := [[], [], [], [], [], [], []], NONE_POINTED;
      logNumber, prevLogNumber, nextFileNumber, lastSequence := 0, 0, 2, 0;
      manifest, edits := None, [];
    }

    /** Makes the edit's version current, after logging the edit, and before it all that there was if the manifest is
        new.  A manifest that is that of the version stays so exactly if the builder of its edits takes this one in. */
    method LogAndApply(e: VersionEdit)
      requires Valid() && |comparator| < POW32 && Small(Point(pointers, e.compactPointers), current)
      requires e.logNumber.Some? ==> logNumber <= e.logNumber.value < nextFileNumber
      requires Encodable(Completed(e, logNumber, prevLogNumber, nextFileNumber, lastSequence))
      requires e.comparator.Some? ==> e.comparator.value == comparator
      requires forall l: nat :: l < NUM_LEVELS ==> AddsNew(Elements(current[l]), At(e, l))
      modifies this
      ensures Valid() && manifest.Some?
      ensures forall l: nat :: l < NUM_LEVELS ==> Elements(current[l]) == Update(old(Elements(current[l])), At(e, l))
      ensures old(Faithful()) ==> (Faithful() <==> TakenInEverywhere(rank, old(Begun(e)), e))
      ensures
        var logged := old(Completed(e, logNumber, prevLogNumber, nextFileNumber, lastSequence));
        edits == old(Begun(e)) + [logged] && logNumber == logged.logNumber.value && prevLogNumber == logged.prevLogNumber.value
      ensures pointers == old(Point(pointers, e.compactPointers))
      ensures nextFileNumber == old(nextFileNumber) && lastSequence == old(lastSequence)
    {
      var edit := Completed(e, logNumber, prevLogNumber, nextFileNumber, lastSequence);
      CompletedIsSame(e, edit);
      var v := ApplyToCurrent(edit);
      LoggedIsFaithful(e, edit, v);
      Install(edit, v);
    }

    // Logs an edit and installs the version it makes.
    method Install(edit: VersionEdit, v: Levels)
      requires Valid() && |comparator| < POW32 && Small(Point(pointers, edit.compactPointers), current)
      requires Encodable(edit) && (edit.comparator.Some? ==> edit.comparator.value == comparator) && InOrder(rank, v)
      requires edit.logNumber.Some? && edit.prevLogNumber.Some? && edit.nextFileNumber.Some? && edit.lastSequence.Some?
      modifies this
      ensures Valid() && manifest.Some? && current == v && edits == old(Begun(edit)) + [edit]
      ensures logNumber == edit.logNumber.value && prevLogNumber == edit.prevLogNumber.value
      ensures pointers == old(Point(pointers, edit.compactPointers))
      ensures nextFileNumber == old(nextFileNumber) && lastSequence == old(lastSequence)
    {
      // The builder sets the compaction pointers.
      ghost var was := pointers;
      pointers := Point(pointers, edit.compactPointers);
      LogEdit(edit, was);
      // The manifest has it: now it is the current one.
      current := v;
      logNumber := edit.logNumber.value;
      prevLogNumber := edit.prevLogNumber.value;
      LastOf(edits, edit);
    }

    lemma LoggedIsFaithful(e: VersionEdit, edit: VersionEdit, v: Levels)
      requires Valid() && edit.compactPointers == e.compactPointers && forall l: nat :: l < NUM_LEVELS ==> At(edit, l) == At(e, l)
      requires forall l: nat :: l < NUM_LEVELS ==> Elements(v[l]) == Update(Elements(current[l]), At(edit, l))
      ensures Faithful() ==> (Rebuilds(rank, Begun(e) + [edit], v) <==> TakenInEverywhere(rank, Begun(e), e))
    {
      if Faithful() {
        if manifest.None? {
          SnapshotRebuilds(rank, comparator, current, Point(pointers, e.compactPointers));
        }
        RebuildsOneMoreExactly(rank, Begun(e), current, edit, v);
        SameTaken(rank, Begun(e), edit, e);
      }
    }

    // Writes an edit to the manifest, which it begins if need be.
    method LogEdit(edit: VersionEdit, ghost was: Pointers)
      requires |comparator| < POW32 && Small(pointers, current) && pointers == Point(was, edit.compactPointers)
      requires manifest.Some? ==> Logged(comparator, manifest.value, edits, was)
      requires Encodable(edit) && (edit.comparator.Some? ==> edit.comparator.value == comparator)
      modifies this`manifest, this`edits
      ensures manifest.Some? && Logged(comparator, manifest.value, edits, pointers)
      ensures edits == (if old(manifest.Some?) then old(edits) else [Snapshot(comparator, pointers, current)]) + [edit]
    {
      var records;
      ghost var before, es := was, edits;
      if manifest.None? {
        records := BeginManifest();
        before, es := pointers, [Snapshot(comparator, pointers, current)];
      } else {
        records := manifest.value;
      }
      var record := EncodeTo(edit);
      LoggedOneMore(comparator, records, es, before, was, edit);
      manifest, edits := Some(records + [record]), es + [edit];
    }

    method BeginManifest() returns (records: seq<Bytes>)
      requires |comparator| < POW32 && Small(pointers, current)
      ensures Logged(comparator, records, [Snapshot(comparator, pointers, current)], pointers)
    {
      records := WriteSnapshot();
      LoggedSnapshot(comparator, current, pointers);
    }

    method WriteSnapshot() returns (records: seq<Bytes>)
      ensures records == [ItemsBytes(Items(Snapshot(comparator, pointers, current)))]
    {
      var record := EncodeTo(Snapshot(comparator, pointers, current));
      records := [record];
    }

    // The version that an edit makes of the current one.
    method ApplyToCurrent(e: VersionEdit) returns (v: Levels)
      requires Valid() && forall l: nat :: l < NUM_LEVELS ==> AddsNew(Elements(current[l]), At(e, l))
      ensures InOrder(rank, v)
      ensures forall l: nat :: l < NUM_LEVELS ==> Elements(v[l]) == Update(Elements(current[l]), At(e, l))
    {
      v := current;
      for level := 0 to NUM_LEVELS
        invariant forall l: nat :: l < NUM_LEVELS ==>
          if l < level then LevelInOrder(rank, v[l]) && Elements(v[l]) == Update(Elements(current[l]), At(e, l)) else v[l] == current[l]
      {
        assert LevelInOrder(rank, current[level]);
        OneEdit(rank, current[level], At(e, level));
        var files := SaveTo(rank, current[level], Apply(rank, NEW_BUILDER, At(e, level)));
        v := v[level := files];
      }
    }

    /** Recovering from what has been logged gives the numbers that are there, and the current version exactly if the
        manifest is that of it. */
    method Reopen() returns (r: Outcome)
      requires Valid() && manifest.Some?
      ensures r.Success? && (r.it.version == current <==> Faithful())
      ensures r.it.pointers == pointers && r.it.logNumber == logNumber && r.it.prevLogNumber == prevLogNumber
      ensures edits != [] && edits[|edits| - 1].lastSequence == Some(r.it.lastSequence)
      ensures edits[|edits| - 1].nextFileNumber == Some(r.it.manifestFileNumber) && r.it.nextFileNumber == r.it.manifestFileNumber + 1
    {
      r := Recover(rank, comparator, manifest.value, edits);
      RebuiltIsOne(rank, edits, r.it.version, current);
    }
  }

  lemma RebuiltIsOne(rank: Order, es: seq<VersionEdit>, v: Levels, w: Levels)
    requires Rebuilds(rank, es, v) && InOrder(rank, w) && forall l: nat :: l < NUM_LEVELS ==> Manifests.Sorted(rank, v[l])
    ensures v == w <==> Rebuilds(rank, es, w)
  {
    if Rebuilds(rank, es, w) {
      forall l: nat | l < NUM_LEVELS
        ensures v[l] == w[l]
      {
        assert RebuildsLevel(rank, es, v, l) && RebuildsLevel(rank, es, w, l) && LevelInOrder(rank, w[l]);
        SortedIsUnique(rank, v[l], w[l]);
      }
    }
  }

  ghost predicate LevelInOrder(rank: Order, fs: seq<FileMeta>) {
    Manifests.Sorted(rank, fs) && UniqueNumbers(Elements(fs))
  }

  ghost predicate InOrder(rank: Order, v: Levels) {
    forall l: nat :: l < NUM_LEVELS ==> LevelInOrder(rank, v[l])
  }

  // What the edits say of the numbers is what there is.
  ghost predicate LastNumbers(es: seq<VersionEdit>, log: nat, prevLog: nat) {
    var c := CountAll(es);
    && es != [] && c.log == Some(log) && c.prevLog == Some(prevLog)
    && c.nextFile == es[|es| - 1].nextFileNumber != None && c.lastSequence == es[|es| - 1].lastSequence != None
  }
}
