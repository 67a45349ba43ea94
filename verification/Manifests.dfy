/** Building versions from edits, and the manifest that they are rebuilt from. */
module Manifests {
  import opened Primitives
  import opened VersionEdits

  // ----- The files of a level -----

  // The order of keys, as the rank a comparator gives each.
  type Order = Bytes -> real

  predicate BySmallest(rank: Order, f: FileMeta, g: FileMeta) {
    rank(f.smallest) < rank(g.smallest) || (rank(f.smallest) == rank(g.smallest) && f.number < g.number)
  }

  predicate Sorted(rank: Order, fs: seq<FileMeta>) {
    forall i, j :: 0 <= i < j < |fs| ==> BySmallest(rank, fs[i], fs[j])
  }

  function Numbers(fs: set<FileMeta>): set<nat> {
    set f | f in fs :: f.number
  }

  function Elements(fs: seq<FileMeta>): set<FileMeta> {
    set f | f in fs
  }

  // A sorted sequence is known by its elements.
  lemma {:induction false} SortedIsUnique(rank: Order, a: seq<FileMeta>, b: seq<FileMeta>)
    requires Sorted(rank, a) && Sorted(rank, b) && Elements(a) == Elements(b)
    ensures a == b
  {
    EmptyElements(a);
    EmptyElements(b);
    if a != [] {
      assert a[0] in Elements(b) && b[0] in Elements(a);
      assert a[0] == b[0];
      forall f ensures f in a[1..] <==> f in b[1..] {
        assert f in Elements(a) <==> f in Elements(b);
      }
      SortedIsUnique(rank, a[1..], b[1..]);
    }
  }

  lemma EmptyElements(fs: seq<FileMeta>)
    ensures fs == [] <==> Elements(fs) == {}
    ensures fs != [] ==> fs[0] in Elements(fs)
  {
    assert fs != [] ==> fs[0] in Elements(fs);
  }

  function InsertFile(rank: Order, fs: seq<FileMeta>, f: FileMeta): (r: seq<FileMeta>)
    ensures forall g :: g in r ==> g in fs || g == f
  {
    if fs == [] || BySmallest(rank, f, fs[0]) then [f] + fs
    else if !BySmallest(rank, fs[0], f) then fs
    else [fs[0]] + InsertFile(rank, fs[1..], f)
  }

  lemma {:induction false} InsertFileKeepsSorted(rank: Order, fs: seq<FileMeta>, f: FileMeta)
    requires Sorted(rank, fs)
    ensures Sorted(rank, InsertFile(rank, fs, f))
    ensures f.number !in Numbers(Elements(fs)) ==> Elements(InsertFile(rank, fs, f)) == Elements(fs) + {f}
  {
    if fs != [] && BySmallest(rank, fs[0], f) {
      InsertFileKeepsSorted(rank, fs[1..], f);
      assert Elements(fs) == {fs[0]} + Elements(fs[1..]);
      var r := InsertFile(rank, fs[1..], f);
      forall j | 0 <= j < |r| ensures BySmallest(rank, fs[0], r[j]) {
        assert r[j] in r;
      }
      assert Elements([fs[0]] + r) == {fs[0]} + Elements(r);
    } else if fs != [] && !BySmallest(rank, f, fs[0]) {
      assert fs[0] in Elements(fs) && fs[0].number in Numbers(Elements(fs));
    }
  }

  // ----- What an edit does to a level -----

  datatype LevelEdit = LevelEdit(deleted: set<nat>, added: seq<FileMeta>)

  function Deleted(e: VersionEdit, level: nat): set<nat> {
    set d | d in e.deletedFiles && d.level == level :: d.it
  }

  function Added(files: seq<AtLevel<FileMeta>>, level: nat): seq<FileMeta> {
    if files == [] then []
    else Added(files[..|files| - 1], level) + if files[|files| - 1].level == level then [files[|files| - 1].it] else []
  }

  function At(e: VersionEdit, level: nat): LevelEdit {
    LevelEdit(Deleted(e, level), Added(e.newFiles, level))
  }

  // The edit as an update of a set.
  function Update(files: set<FileMeta>, e: LevelEdit): set<FileMeta> {
    (set f | f in files && f.number !in e.deleted) + Elements(e.added)
  }

  function UpdateAll(files: set<FileMeta>, es: seq<LevelEdit>): set<FileMeta> {
    if es == [] then files else Update(UpdateAll(files, es[..|es| - 1]), es[|es| - 1])
  }

  // ----- The builder, for one level -----

  datatype Builder = Builder(deleted: set<nat>, added: seq<FileMeta>)

  const NEW_BUILDER := Builder({}, [])

  function AddFiles(rank: Order, b: Builder, files: seq<FileMeta>): Builder {
    if files == [] then b
    else
      var c := AddFiles(rank, b, files[..|files| - 1]);
      var f := files[|files| - 1];
      Builder(c.deleted - {f.number}, InsertFile(rank, c.added, f))
  }

  function Apply(rank: Order, b: Builder, e: LevelEdit): Builder {
    AddFiles(rank, b.(deleted := b.deleted + e.deleted), e.added)
  }

  function ApplyAll(rank: Order, b: Builder, es: seq<LevelEdit>): Builder {
    if es == [] then b else Apply(rank, ApplyAll(rank, b, es[..|es| - 1]), es[|es| - 1])
  }

  // The files that a builder leaves of a base.
  function Result(base: seq<FileMeta>, b: Builder): set<FileMeta> {
    set f | f in Elements(base) + Elements(b.added) && f.number !in b.deleted
  }

  // No file number comes to a level where it has been, or from which it is deleted.
  predicate Fresh(seen: set<nat>, e: LevelEdit) {
    && (forall f :: f in e.added ==> f.number !in seen && f.number !in e.deleted)
    && (forall i, j :: 0 <= i < j < |e.added| ==> e.added[i].number != e.added[j].number)
  }

  // The numbers that have been at a level.
  function Seen(base: set<nat>, es: seq<LevelEdit>): set<nat> {
    if es == [] then base
    else Seen(base, es[..|es| - 1]) + es[|es| - 1].deleted + Numbers(Elements(es[|es| - 1].added))
  }

  predicate NeverBack(base: set<nat>, es: seq<LevelEdit>) {
    forall i :: 0 <= i < |es| ==> Fresh(Seen(base, es[..i]), es[i])
  }

  lemma {:induction false} AddFilesIs(rank: Order, b: Builder, files: seq<FileMeta>)
    requires Sorted(rank, b.added)
    requires forall f :: f in files ==> f.number !in Numbers(Elements(b.added)) && f.number !in b.deleted
    requires forall i, j :: 0 <= i < j < |files| ==> files[i].number != files[j].number
    ensures
      var c := AddFiles(rank, b, files);
      c.deleted == b.deleted && Sorted(rank, c.added) && Elements(c.added) == Elements(b.added) + Elements(files)
  {
    if files != [] {
      var n := |files| - 1;
      AddFilesIs(rank, b, files[..n]);
      var c := AddFiles(rank, b, files[..n]);
      assert files[n] in files;
      assert Elements(files) == Elements(files[..n]) + {files[n]};
      InsertFileKeepsSorted(rank, c.added, files[n]);
    }
  }

  // A builder that has been given edits leaves what the edits make of the base one at a time.
  lemma {:induction false} BuilderIsUpdates(rank: Order, base: seq<FileMeta>, es: seq<LevelEdit>)
    requires NeverBack(Numbers(Elements(base)), es)
    ensures
      var b := ApplyAll(rank, NEW_BUILDER, es);
      && Result(base, b) == UpdateAll(Elements(base), es) && Sorted(rank, b.added)
      && Numbers(Elements(base) + Elements(b.added)) + b.deleted <= Seen(Numbers(Elements(base)), es)
  {
    if es != [] {
      var n := |es| - 1;
      assert forall i :: 0 <= i < n ==> es[..n][..i] == es[..i] && es[..n][i] == es[i];
      BuilderIsUpdates(rank, base, es[..n]);
      var b := ApplyAll(rank, NEW_BUILDER, es[..n]);
      assert Fresh(Seen(Numbers(Elements(base)), es[..n]), es[n]);
      ApplyIsUpdate(rank, base, b, es[n], Seen(Numbers(Elements(base)), es[..n]));
    }
  }

  lemma ApplyIsUpdate(rank: Order, base: seq<FileMeta>, b: Builder, e: LevelEdit, seen: set<nat>)
    requires Sorted(rank, b.added) && Fresh(seen, e)
    requires Numbers(Elements(base) + Elements(b.added)) + b.deleted <= seen
    ensures
      var c := Apply(rank, b, e);
      && Result(base, c) == Update(Result(base, b), e) && Sorted(rank, c.added)
      && Numbers(Elements(base) + Elements(c.added)) + c.deleted <= seen + e.deleted + Numbers(Elements(e.added))
  {
    forall f | f in e.added ensures f.number !in Numbers(Elements(b.added)) && f.number !in b.deleted {
      assert Numbers(Elements(b.added)) <= Numbers(Elements(base) + Elements(b.added));
    }
    AddFilesIs(rank, b.(deleted := b.deleted + e.deleted), e.added);
  }

  // ----- Exactly when the builder does what the edits do -----

  lemma {:induction false} InsertFileMembers(rank: Order, fs: seq<FileMeta>, f: FileMeta)
    ensures Elements(fs) <= Elements(InsertFile(rank, fs, f)) <= Elements(fs) + {f}
  {
    if fs != [] && !BySmallest(rank, f, fs[0]) && BySmallest(rank, fs[0], f) {
      InsertFileMembers(rank, fs[1..], f);
      assert Elements(fs) == {fs[0]} + Elements(fs[1..]);
      assert Elements(InsertFile(rank, fs, f)) == {fs[0]} + Elements(InsertFile(rank, fs[1..], f));
    } else if fs == [] || BySmallest(rank, f, fs[0]) {
      assert Elements([f] + fs) == Elements(fs) + {f};
    }
  }

  lemma {:induction false} AddFilesMembers(rank: Order, b: Builder, files: seq<FileMeta>)
    ensures
      var c := AddFiles(rank, b, files);
      && c.deleted == b.deleted - Numbers(Elements(files))
      && Elements(b.added) <= Elements(c.added) <= Elements(b.added) + Elements(files)
  {
    if files != [] {
      var n := |files| - 1;
      AddFilesMembers(rank, b, files[..n]);
      InsertFileMembers(rank, AddFiles(rank, b, files[..n]).added, files[n]);
      assert Elements(files) == Elements(files[..n]) + {files[n]};
      assert Numbers(Elements(files)) == Numbers(Elements(files[..n])) + {files[n].number};
    }
  }

  /** An edit revives no file: adding a number makes the builder forget that it was deleted, and then every file it has
      met under the number counts again. */
  ghost predicate RevivesNone(base: seq<FileMeta>, b: Builder, e: LevelEdit) {
    forall f :: f in Elements(base) + Elements(b.added) && f.number in b.deleted + e.deleted && f.number in Numbers(Elements(e.added)) ==>
      f in Elements(e.added)
  }

  // And it loses none: no file with the same smallest key and number is in the place of an added one.
  ghost predicate LosesNone(rank: Order, base: seq<FileMeta>, b: Builder, e: LevelEdit) {
    Elements(e.added) <= Elements(base) + Elements(Apply(rank, b, e).added)
  }

  ghost predicate TakesIn(rank: Order, base: seq<FileMeta>, b: Builder, e: LevelEdit) {
    RevivesNone(base, b, e) && LosesNone(rank, base, b, e)
  }

  /** One more edit does to what the builder leaves what it does to a set, exactly if the builder takes it in like
      this. */
  lemma ApplyIsUpdateExactly(rank: Order, base: seq<FileMeta>, b: Builder, e: LevelEdit)
    ensures Result(base, Apply(rank, b, e)) == Update(Result(base, b), e) <==> TakesIn(rank, base, b, e)
  {
    var c := Apply(rank, b, e);
    AddFilesMembers(rank, b.(deleted := b.deleted + e.deleted), e.added);
    if TakesIn(rank, base, b, e) {
      TakenIn(rank, base, b, e, c);
    } else if Result(base, c) == Update(Result(base, b), e) {
      NotTakenIn(rank, base, b, e, c);
    }
  }

  lemma TakenIn(rank: Order, base: seq<FileMeta>, b: Builder, e: LevelEdit, c: Builder)
    requires TakesIn(rank, base, b, e) && c == Apply(rank, b, e)
    requires c.deleted == b.deleted + e.deleted - Numbers(Elements(e.added))
    requires Elements(b.added) <= Elements(c.added) <= Elements(b.added) + Elements(e.added)
    ensures Result(base, c) == Update(Result(base, b), e)
  {
    forall f
      ensures f in Result(base, c) <==> f in Update(Result(base, b), e)
    {
      assert f in Elements(e.added) ==> f.number in Numbers(Elements(e.added));
    }
  }

  lemma NotTakenIn(rank: Order, base: seq<FileMeta>, b: Builder, e: LevelEdit, c: Builder)
    requires c == Apply(rank, b, e) && Result(base, c) == Update(Result(base, b), e)
    requires c.deleted == b.deleted + e.deleted - Numbers(Elements(e.added))
    requires Elements(b.added) <= Elements(c.added)
    ensures TakesIn(rank, base, b, e)
  {
    forall f | f in Elements(base) + Elements(b.added) && f.number in b.deleted + e.deleted && f.number in Numbers(Elements(e.added))
      ensures f in Elements(e.added)
    {
      assert f in Result(base, c);
    }
    forall f | f in Elements(e.added)
      ensures f in Elements(base) + Elements(c.added)
    {
      assert f in Update(Result(base, b), e);
    }
  }

  // At every point of a list of edits the builder leaves what they make of the base one at a time.
  ghost predicate KeepsUp(rank: Order, base: seq<FileMeta>, es: seq<LevelEdit>) {
    && (es != [] ==> KeepsUp(rank, base, es[..|es| - 1]))
    && Result(base, ApplyAll(rank, NEW_BUILDER, es)) == UpdateAll(Elements(base), es)
  }

  ghost predicate TakesAllIn(rank: Order, base: seq<FileMeta>, es: seq<LevelEdit>) {
    es != [] ==>
      && TakesAllIn(rank, base, es[..|es| - 1])
      && TakesIn(rank, base, ApplyAll(rank, NEW_BUILDER, es[..|es| - 1]), es[|es| - 1])
  }

  /** A builder keeps up with the edits exactly if it takes in each of them so. */
  lemma {:induction false} KeepsUpExactly(rank: Order, base: seq<FileMeta>, es: seq<LevelEdit>)
    ensures KeepsUp(rank, base, es) <==> TakesAllIn(rank, base, es)
  {
    if es == [] {
      assert Elements(NEW_BUILDER.added) == {};
      assert Result(base, NEW_BUILDER) == Elements(base);
    } else {
      var front := es[..|es| - 1];
      KeepsUpExactly(rank, base, front);
      ApplyIsUpdateExactly(rank, base, ApplyAll(rank, NEW_BUILDER, front), es[|es| - 1]);
    }
  }

  /** A file that is replaced by another under its number comes back with it. */
  lemma ReplacedComesBack(rank: Order, f: FileMeta, g: FileMeta)
    requires f.number == g.number && f != g
    ensures !KeepsUp(rank, [], [LevelEdit({}, [f]), LevelEdit({f.number}, [g])])
  {
    var first, second := LevelEdit({}, [f]), LevelEdit({f.number}, [g]);
    var b := ApplyAll(rank, NEW_BUILDER, [first]);
    BuilderOfOne(rank, first, f);
    assert g in Elements(second.added) && f in Elements(b.added) && f !in Elements(second.added);
    assert f.number in Numbers(Elements(second.added));
    assert !RevivesNone([], b, second);
    assert [first, second][..1] == [first];
    KeepsUpExactly(rank, [], [first, second]);
  }

  lemma BuilderOfOne(rank: Order, e: LevelEdit, f: FileMeta)
    requires e == LevelEdit({}, [f])
    ensures ApplyAll(rank, NEW_BUILDER, [e]) == Builder({}, [f]) && f in Elements([f])
  {
    assert [e][..0] == [];
    assert [f][..0] == [];
    assert AddFiles(rank, NEW_BUILDER, []) == NEW_BUILDER;
    assert AddFiles(rank, NEW_BUILDER, [f]) == Builder({}, InsertFile(rank, [], f));
    assert NEW_BUILDER.(deleted := {} + {}) == NEW_BUILDER;
  }

  // Files that come under numbers that are new to the builder, or as they were, are taken in.
  ghost predicate ComesAsItWas(base: seq<FileMeta>, b: Builder, e: LevelEdit) {
    && (forall f, g :: f in Elements(base) + Elements(b.added) && g in Elements(e.added) && f.number == g.number ==> f == g)
    && (forall i, j :: 0 <= i < j < |e.added| ==> e.added[i].number != e.added[j].number)
  }

  lemma {:induction false} DistinctAreAdded(rank: Order, b: Builder, files: seq<FileMeta>)
    requires Sorted(rank, b.added)
    requires forall f, g :: f in b.added && g in files && f.number == g.number ==> f == g
    requires forall i, j :: 0 <= i < j < |files| ==> files[i].number != files[j].number
    ensures Sorted(rank, AddFiles(rank, b, files).added)
    ensures Elements(AddFiles(rank, b, files).added) == Elements(b.added) + Elements(files)
  {
    if files != [] {
      var n := |files| - 1;
      DistinctAreAdded(rank, b, files[..n]);
      var c := AddFiles(rank, b, files[..n]);
      assert Elements(files) == Elements(files[..n]) + {files[n]};
      InsertFileKeepsSorted(rank, c.added, files[n]);
      if files[n].number in Numbers(Elements(c.added)) {
        var f :| f in Elements(c.added) && f.number == files[n].number;
        OnlyAsItWas(b.added, files, n, f);
        InsertFileMembers(rank, c.added, files[n]);
      }
    }
  }

  lemma OnlyAsItWas(added: seq<FileMeta>, files: seq<FileMeta>, n: nat, f: FileMeta)
    requires n < |files| && f.number == files[n].number && f in Elements(added) + Elements(files[..n])
    requires forall f, g :: f in added && g in files && f.number == g.number ==> f == g
    requires forall i, j :: 0 <= i < j < |files| ==> files[i].number != files[j].number
    ensures f == files[n] && f in added
  {
  }

  lemma AsItWasIsTakenIn(rank: Order, base: seq<FileMeta>, b: Builder, e: LevelEdit)
    requires Sorted(rank, b.added) && ComesAsItWas(base, b, e)
    ensures TakesIn(rank, base, b, e) && Sorted(rank, Apply(rank, b, e).added)
  {
    DistinctAreAdded(rank, b.(deleted := b.deleted + e.deleted), e.added);
  }

  // ----- Saving -----

  predicate Kept(b: Builder, f: FileMeta) {
    f.number !in b.deleted
  }

  // Appends a file unless it is deleted.
  method MaybeAddFile(b: Builder, v: seq<FileMeta>, f: FileMeta) returns (r: seq<FileMeta>)
    ensures r == if Kept(b, f) then v + [f] else v
  {
    r := v;
    if f.number !in b.deleted {
      r := r + [f];
    }
  }

  // The first of some files, from i on, that f is before.
  method UpperBound(rank: Order, files: seq<FileMeta>, i: nat, f: FileMeta) returns (r: nat)
    requires i <= |files| && Sorted(rank, files)
    ensures i <= r <= |files|
    ensures forall j :: i <= j < r ==> !BySmallest(rank, f, files[j])
    ensures forall j :: r <= j < |files| ==> BySmallest(rank, f, files[j])
  {
    r := |files|;
    var left := i;
    while left < r
      invariant i <= left <= r <= |files|
      invariant forall j :: i <= j < left ==> !BySmallest(rank, f, files[j])
      invariant forall j :: r <= j < |files| ==> BySmallest(rank, f, files[j])
    {
      var mid := (left + r) / 2;
      if BySmallest(rank, f, files[mid]) {
        r := mid;
      } else {
        left := mid + 1;
      }
    }
  }

  // Where a merge may be: what it has passed of each is before what is left of the other.
  ghost predicate Split(rank: Order, base: seq<FileMeta>, added: seq<FileMeta>, i: nat, j: nat)
    requires i <= |base| && j <= |added|
  {
    && (forall x, y :: 0 <= x < i && j <= y < |added| ==> BySmallest(rank, base[x], added[y]))
    && (forall x, y :: i <= x < |base| && 0 <= y < j ==> BySmallest(rank, added[y], base[x]))
  }

  // A merge that has come to base file i and added file j.
  ghost predicate Merged(rank: Order, base: seq<FileMeta>, b: Builder, v: seq<FileMeta>, i: nat, j: nat)
    requires i <= |base| && j <= |b.added|
  {
    && Sorted(rank, v)
    && forall f :: f in v <==> (f in base[..i] || f in b.added[..j]) && Kept(b, f)
  }

  lemma MergeBase(rank: Order, base: seq<FileMeta>, b: Builder, v: seq<FileMeta>, i: nat, j: nat)
    requires Sorted(rank, base) && i < |base| && j <= |b.added|
    requires Merged(rank, base, b, v, i, j) && Split(rank, base, b.added, i, j)
    ensures Merged(rank, base, b, if Kept(b, base[i]) then v + [base[i]] else v, i + 1, j)
  {
    forall k | 0 <= k < |v| ensures BySmallest(rank, v[k], base[i]) {
      assert v[k] in v;
    }
    assert base[..i + 1] == base[..i] + [base[i]];
  }

  lemma MergeAdded(rank: Order, base: seq<FileMeta>, b: Builder, v: seq<FileMeta>, i: nat, j: nat)
    requires Sorted(rank, b.added) && i <= |base| && j < |b.added|
    requires Merged(rank, base, b, v, i, j) && Split(rank, base, b.added, i, j)
    ensures Merged(rank, base, b, if Kept(b, b.added[j]) then v + [b.added[j]] else v, i, j + 1)
  {
    forall k | 0 <= k < |v| ensures BySmallest(rank, v[k], b.added[j]) {
      assert v[k] in v;
    }
    assert b.added[..j + 1] == b.added[..j] + [b.added[j]];
  }

  // Base files up to where added file j goes are before it.
  lemma SplitMoves(rank: Order, base: seq<FileMeta>, added: seq<FileMeta>, i: nat, bpos: nat, j: nat)
    requires Sorted(rank, base) && Sorted(rank, added) && i <= bpos <= |base| && j < |added|
    requires forall f, g :: f in base && g in added ==> f.number != g.number
    requires Split(rank, base, added, i, j)
    requires forall x :: i <= x < bpos ==> !BySmallest(rank, added[j], base[x])
    requires forall x :: bpos <= x < |base| ==> BySmallest(rank, added[j], base[x])
    ensures forall k :: i <= k <= bpos ==> Split(rank, base, added, k, j)
    ensures Split(rank, base, added, bpos, j + 1)
  {
    forall x | i <= x < bpos ensures BySmallest(rank, base[x], added[j]) {
      assert base[x] in base && added[j] in added;
    }
  }

  /** Merges the added files with those of the base, leaving out what is deleted. */
  method SaveTo(rank: Order, base: seq<FileMeta>, b: Builder) returns (v: seq<FileMeta>)
    requires Sorted(rank, base) && Sorted(rank, b.added)
    requires forall f, g :: f in base && g in b.added ==> f.number != g.number
    ensures Sorted(rank, v) && Elements(v) == Result(base, b)
  {
    v := [];
    var i: nat := 0;
    for j := 0 to |b.added|
      invariant i <= |base| && Merged(rank, base, b, v, i, j) && Split(rank, base, b.added, i, j)
    {
      // The files of base that come before it.
      var bpos := UpperBound(rank, base, i, b.added[j]);
      SplitMoves(rank, base, b.added, i, bpos, j);
      v, i := AddBase(rank, base, b, v, i, bpos, j);
      MergeAdded(rank, base, b, v, i, j);
      v := MaybeAddFile(b, v, b.added[j]);
    }
    // And those of base after the last one added.
    v, i := AddBase(rank, base, b, v, i, |base|, |b.added|);
    assert base[..|base|] == base && b.added[..|b.added|] == b.added;
  }

  // Adds base files from i up to end.
  method AddBase(rank: Order, base: seq<FileMeta>, b: Builder, v: seq<FileMeta>, i: nat, end: nat, ghost j: nat)
    returns (r: seq<FileMeta>, k: nat)
    requires Sorted(rank, base) && i <= end <= |base| && j <= |b.added|
    requires Merged(rank, base, b, v, i, j)
    requires forall m :: i <= m < end ==> Split(rank, base, b.added, m, j)
    ensures k == end && Merged(rank, base, b, r, end, j)
  {
    r, k := v, i;
    while k < end
      invariant i <= k <= end && Merged(rank, base, b, r, k, j)
    {
      MergeBase(rank, base, b, r, k, j);
      r := MaybeAddFile(b, r, base[k]);
      k := k + 1;
    }
  }
}
