/** What a compaction keeps: every read at or after the smallest snapshot, and the shape of
    the version. */
module CompactionSafety {
  import opened Primitives
  import opened InternalKeys
  import opened Versions
  import opened LevelEdits
  import opened OutputCuts
  import opened Compactions

  // ----- Dropping entries from a set -----

  // A newer entry for d's key is as old as the smallest snapshot m: no reader can want d.
  ghost predicate IsHidden(inputs: set<Entry>, m: nat, d: Entry) {
    exists n :: n in inputs && Visible(n, d.key.user, m) && n.key.sequence > d.key.sequence
  }

  predicate IsOldMarker(d: Entry, m: nat) {
    d.key.kind == DELETION && d.key.sequence <= m
  }

  /** For a key whose old markers are dropped: to a reader at n the newest entry is such a marker, and the
      newest of what stays a value. */
  ghost predicate UncoversAt(inputs: set<Entry>, rest: set<Entry>, u: UserKey, m: nat, base: bool, n: nat) {
    base && exists d, x ::
      && IsNewest(inputs + rest, u, n, d) && IsOldMarker(d, m)
      && IsNewest(rest, u, n, x) && x.key.kind == VALUE
  }

  // To a reader at the smallest snapshot itself.
  ghost predicate Uncovers(inputs: set<Entry>, rest: set<Entry>, u: UserKey, m: nat, base: bool) {
    UncoversAt(inputs, rest, u, m, base, m)
  }

  // No reader at or after m can tell two sets apart by u.
  ghost predicate SameReads(a: set<Entry>, b: set<Entry>, u: UserKey, m: nat) {
    forall s: nat :: m <= s ==> Read(a, u, s) == Read(b, u, s)
  }

  // Of the entries for u exactly the hidden ones are gone, and the old markers if u has nothing deeper.
  ghost predicate KeepsJust(kept: set<Entry>, inputs: set<Entry>, u: UserKey, m: nat, base: bool) {
    && kept <= inputs
    && forall d :: d in inputs && d.key.user == u && d.key.Parses() ==>
         (d !in kept <==> IsHidden(inputs, m, d) || (base && IsOldMarker(d, m)))
  }

  /** Dropping changes what a reader at n reads, if n is the smallest snapshot or later, exactly when it
      uncovers a value to it. */
  lemma DroppingPreservesReadExactly(inputs: set<Entry>, kept: set<Entry>, rest: set<Entry>, u: UserKey, m: nat, base: bool, n: nat)
    requires UniqueSequences(inputs + rest) && KeepsJust(kept, inputs, u, m, base) && m <= n
    ensures Read(kept + rest, u, n) == Read(inputs + rest, u, n) <==> !UncoversAt(inputs, rest, u, m, base, n)
  {
    if UncoversAt(inputs, rest, u, m, base, n) {
      UncoveringChangesARead(inputs, kept, rest, u, m, base, n);
    } else {
      CoveredReadsAgree(inputs, kept, rest, u, m, base, n);
    }
  }

  // What is uncovered to a later reader is uncovered to one at the smallest snapshot.
  lemma UncoveredFirst(inputs: set<Entry>, rest: set<Entry>, u: UserKey, m: nat, base: bool, n: nat)
    requires UniqueSequences(inputs + rest) && m <= n && UncoversAt(inputs, rest, u, m, base, n)
    ensures Uncovers(inputs, rest, u, m, base)
  {
    var d, x :| IsNewest(inputs + rest, u, n, d) && IsOldMarker(d, m) && IsNewest(rest, u, n, x) && x.key.kind == VALUE;
    assert x in inputs + rest && x.key.sequence <= d.key.sequence;
    assert IsNewest(inputs + rest, u, m, d) && IsNewest(rest, u, m, x);
  }

  /** Dropping changes some read at or after m exactly when it uncovers a value; and then already that at m. */
  lemma DroppingPreservesReadsExactly(inputs: set<Entry>, kept: set<Entry>, rest: set<Entry>, u: UserKey, m: nat, base: bool)
    requires UniqueSequences(inputs + rest) && KeepsJust(kept, inputs, u, m, base)
    ensures SameReads(kept + rest, inputs + rest, u, m) <==> !Uncovers(inputs, rest, u, m, base)
    ensures Read(kept + rest, u, m) == Read(inputs + rest, u, m) <==> !Uncovers(inputs, rest, u, m, base)
  {
    DroppingPreservesReadExactly(inputs, kept, rest, u, m, base, m);
    if !Uncovers(inputs, rest, u, m, base) {
      forall s: nat | m <= s
        ensures Read(kept + rest, u, s) == Read(inputs + rest, u, s)
      {
        if UncoversAt(inputs, rest, u, m, base, s) {
          UncoveredFirst(inputs, rest, u, m, base, s);
        }
        DroppingPreservesReadExactly(inputs, kept, rest, u, m, base, s);
      }
    }
  }

  lemma UncoveringChangesARead(inputs: set<Entry>, kept: set<Entry>, rest: set<Entry>, u: UserKey, m: nat, base: bool, n: nat)
    requires UniqueSequences(inputs + rest) && KeepsJust(kept, inputs, u, m, base) && m <= n
    requires UncoversAt(inputs, rest, u, m, base, n)
    ensures Read(inputs + rest, u, n) == None && Read(kept + rest, u, n).Some?
  {
    var d, x :| IsNewest(inputs + rest, u, n, d) && IsOldMarker(d, m) && IsNewest(rest, u, n, x) && x.key.kind == VALUE;
    ReadNewest(inputs + rest, u, n, d);
    assert d !in rest && d !in kept by {
      assert d in rest ==> d.key.sequence <= x.key.sequence <= d.key.sequence;
    }
    forall k | k in kept
      ensures !Visible(k, u, n)
    {
      assert k in inputs + rest;
      assert Visible(k, u, n) && k != d ==> IsHidden(inputs, m, k);
    }
    assert IsNewest(kept + rest, u, n, x);
    ReadNewest(kept + rest, u, n, x);
  }

  lemma CoveredReadsAgree(inputs: set<Entry>, kept: set<Entry>, rest: set<Entry>, u: UserKey, m: nat, base: bool, s: nat)
    requires UniqueSequences(inputs + rest) && KeepsJust(kept, inputs, u, m, base)
    requires !UncoversAt(inputs, rest, u, m, base, s) && m <= s
    ensures Read(kept + rest, u, s) == Read(inputs + rest, u, s)
  {
    var before, after := inputs + rest, kept + rest;
    if c :| c in before && Visible(c, u, s) {
      var e := NewestExists(before, u, s, c);
      ReadNewest(before, u, s, e);
      if e in after {
        ReadNewest(after, u, s, e);
      } else {
        assert forall n :: n in inputs && Visible(n, u, m) ==> n in before && Visible(n, u, s);
        assert base && IsOldMarker(e, m);
        NothingIsUncovered(inputs, kept, rest, u, m, base, e, s);
      }
    } else {
      ReadNothing(before, u, s);
      ReadNothing(after, u, s);
    }
  }

  // The marker e was the newest entry of all; with it gone there is still no value.
  lemma NothingIsUncovered(inputs: set<Entry>, kept: set<Entry>, rest: set<Entry>, u: UserKey, m: nat, base: bool, e: Entry, s: nat)
    requires UniqueSequences(inputs + rest) && KeepsJust(kept, inputs, u, m, base)
    requires !UncoversAt(inputs, rest, u, m, base, s) && m <= s
    requires base && IsOldMarker(e, m) && e in inputs && IsNewest(inputs + rest, u, s, e) && e !in kept
    ensures Read(kept + rest, u, s) == None
  {
    var after := kept + rest;
    if c :| c in after && Visible(c, u, s) {
      var a := NewestExists(after, u, s, c);
      ReadNewest(after, u, s, a);
      assert a in inputs + rest;
      assert a in kept ==> IsHidden(inputs, m, a);
      assert a in rest && IsNewest(rest, u, s, a);
    } else {
      ReadNothing(after, u, s);
    }
  }

  // ----- What the drop loop keeps -----

  lemma {:induction false} KeptMembers(v: Version, level: nat, es: seq<Entry>, n: nat, m: SequenceNumber)
    requires n <= |es|
    ensures forall x :: x in Kept(v, level, es, n, m) <==> exists i :: 0 <= i < n && x == es[i] && !Dropped(v, level, es, i, m)
  {
    if n > 0 {
      KeptMembers(v, level, es, n - 1, m);
    }
  }

  ghost predicate IntactFor(es: set<Entry>, u: UserKey) {
    forall e :: e in es && e.key.user == u ==> e.key.Parses()
  }

  lemma RunOfOneUserKey(es: seq<Entry>, i: nat, j: nat)
    requires Sorted(es) && i < j < |es| && es[i].key.user == es[j].key.user
    requires IntactFor(Elements(es), es[i].key.user)
    ensures es[j - 1].key.user == es[i].key.user && es[j - 1].key.Parses()
    ensures es[j - 1].key.sequence <= es[i].key.sequence
  {
    assert es[j - 1] in Elements(es) && es[i] in Elements(es);
    if i < j - 1 {
      assert Before(es[i].key, es[j - 1].key) && Before(es[j - 1].key, es[j].key);
    }
  }

  lemma KeptIsNotHidden(v: Version, level: nat, es: seq<Entry>, j: nat, m: SequenceNumber)
    requires Sorted(es) && j < |es| && !Dropped(v, level, es, j, m)
    requires IntactFor(Elements(es), es[j].key.user)
    ensures !IsHidden(Elements(es), m, es[j])
  {
    forall n | n in Elements(es) && n.key.user == es[j].key.user && n.key.Parses() && n.key.sequence > es[j].key.sequence
      ensures n.key.sequence > m
    {
      var i :| 0 <= i < |es| && es[i] == n;
      RunOfOneUserKey(es, i, j);
      assert es[j] in Elements(es) && !HiddenByPrevious(es, j, m);
    }
  }

  /** The drop loop, which looks at one entry and the one before it, drops just what is hidden in the
      whole input, and the old markers of keys with nothing deeper. */
  lemma DropLoopIsExact(v: Version, level: nat, input: seq<Entry>, u: UserKey, m: SequenceNumber)
    requires Sorted(input) && UniqueSequences(Elements(input)) && IntactFor(Elements(input), u)
    ensures KeepsJust(Elements(Kept(v, level, input, |input|, m)), Elements(input), u, m, IsBaseLevel(v, level, u))
  {
    KeptMembers(v, level, input, |input|, m);
    forall d | d in Elements(input) && d.key.user == u
      ensures d !in Elements(Kept(v, level, input, |input|, m))
         <==> IsHidden(Elements(input), m, d) || (IsBaseLevel(v, level, u) && IsOldMarker(d, m))
    {
      var j :| 0 <= j < |input| && input[j] == d;
      DropIsExact(v, level, input, j, m);
      assert forall i :: 0 <= i < |input| && input[i] == d ==> i == j;
    }
  }

  lemma DropIsExact(v: Version, level: nat, es: seq<Entry>, j: nat, m: SequenceNumber)
    requires Sorted(es) && UniqueSequences(Elements(es)) && j < |es| && IntactFor(Elements(es), es[j].key.user)
    ensures Dropped(v, level, es, j, m)
       <==> IsHidden(Elements(es), m, es[j]) || (IsBaseLevel(v, level, es[j].key.user) && IsOldMarker(es[j], m))
  {
    assert es[j] in Elements(es);
    if HiddenByPrevious(es, j, m) {
      var n := es[j - 1];
      assert Before(n.key, es[j].key) && n in Elements(es) && Visible(n, es[j].key.user, m);
    } else if !Dropped(v, level, es, j, m) {
      KeptIsNotHidden(v, level, es, j, m);
    }
  }

  // What the drop loop leaves of a set of intact entries.
  ghost function Survivors(v: Version, level: nat, inputs: set<Entry>, m: nat): set<Entry> {
    set d | d in inputs && !IsHidden(inputs, m, d) && !(IsBaseLevel(v, level, d.key.user) && IsOldMarker(d, m))
  }

  lemma KeptAreSurvivors(v: Version, level: nat, input: seq<Entry>, m: SequenceNumber)
    requires Sorted(input) && UniqueSequences(Elements(input)) && Intact(Elements(input))
    ensures Elements(Kept(v, level, input, |input|, m)) == Survivors(v, level, Elements(input), m)
  {
    var kept := Elements(Kept(v, level, input, |input|, m));
    KeptMembers(v, level, input, |input|, m);
    forall d | d in Elements(input)
      ensures d in kept <==> d in Survivors(v, level, Elements(input), m)
    {
      DropLoopIsExact(v, level, input, d.key.user, m);
    }
  }

  // ----- The version without its inputs, and with the outputs -----

  function Stripped(v: Version, level: nat, inputs0: seq<File>, inputs1: seq<File>): Version
    requires level + 1 < NUM_LEVELS
  {
    v[level := Without(v[level], inputs0)][level + 1 := Without(v[level + 1], inputs1)]
  }

  function Installed(v: Version, level: nat, inputs0: seq<File>, inputs1: seq<File>, outputs: seq<File>): Version
    requires level + 1 < NUM_LEVELS
  {
    v[level := Without(v[level], inputs0)][level + 1 := InsertFiles(Without(v[level + 1], inputs1), outputs)]
  }

  ghost function InputEntries(inputs0: seq<File>, inputs1: seq<File>): set<Entry> {
    LevelContents(inputs0) + LevelContents(inputs1)
  }

  lemma WithoutContents(files: seq<File>, gone: seq<File>)
    requires forall f :: f in gone ==> f in files
    ensures LevelContents(Without(files, gone)) + LevelContents(gone) == LevelContents(files)
    ensures LevelContents(Without(files, gone)) <= LevelContents(files) && LevelContents(gone) <= LevelContents(files)
  {
    WithoutMembers(files, gone);
  }

  lemma InsertFilesContents(files: seq<File>, more: seq<File>)
    ensures LevelContents(InsertFiles(files, more)) == LevelContents(files) + LevelContents(more)
  {
    InsertFilesMembers(files, more);
  }

  lemma {:induction false} FlattenContents(files: seq<File>)
    ensures Elements(Flatten(files)) == LevelContents(files)
  {
    if files != [] {
      var front, last := files[..|files| - 1], files[|files| - 1];
      FlattenContents(front);
      assert files == front + [last];
      forall e
        ensures e in Elements(Flatten(files)) <==> e in LevelContents(files)
      {
        assert e in Flatten(files) <==> e in Elements(Flatten(front)) || e in last.entries;
        assert e in LevelContents(files) <==> e in LevelContents(front) || (last in files && e in last.entries);
      }
    }
  }

  lemma GrowLevel(w: Version, l: nat, files: seq<File>, more: set<Entry>)
    requires l < NUM_LEVELS && LevelContents(files) == LevelContents(w[l]) + more
    ensures Contents(w[l := files]) == Contents(w) + more
  {
    var v := w[l := files];
    forall e | e in Contents(w) + more
      ensures e in Contents(v)
    {
      if e in more {
        assert e in LevelContents(v[l]);
      } else {
        var m :| 0 <= m < NUM_LEVELS && e in LevelContents(w[m]);
        assert e in LevelContents(v[m]);
      }
    }
    forall e | e in Contents(v)
      ensures e in Contents(w) + more
    {
      var m :| 0 <= m < NUM_LEVELS && e in LevelContents(v[m]);
      assert m != l ==> e in LevelContents(w[m]);
    }
  }

  lemma StrippedPlusInputs(v: Version, level: nat, inputs0: seq<File>, inputs1: seq<File>)
    requires level + 1 < NUM_LEVELS
    requires forall f :: f in inputs0 ==> f in v[level]
    requires forall f :: f in inputs1 ==> f in v[level + 1]
    ensures Contents(v) == Contents(Stripped(v, level, inputs0, inputs1)) + InputEntries(inputs0, inputs1)
  {
    WithoutContents(v[level], inputs0);
    WithoutContents(v[level + 1], inputs1);
    var w := Stripped(v, level, inputs0, inputs1);
    GrowLevel(w, level, v[level], LevelContents(inputs0));
    GrowLevel(w[level := v[level]], level + 1, v[level + 1], LevelContents(inputs1));
    PutBack(v, level, w[level], w[level + 1]);
  }

  lemma PutBack(v: Version, level: nat, here: seq<File>, next: seq<File>)
    requires level + 1 < NUM_LEVELS
    ensures v[level := here][level + 1 := next][level := v[level]][level + 1 := v[level + 1]] == v
  {
  }

  lemma StrippedPlusOutputs(v: Version, level: nat, inputs0: seq<File>, inputs1: seq<File>, outputs: seq<File>)
    requires level + 1 < NUM_LEVELS
    ensures Contents(Installed(v, level, inputs0, inputs1, outputs))
         == Contents(Stripped(v, level, inputs0, inputs1)) + LevelContents(outputs)
  {
    var w, files := Stripped(v, level, inputs0, inputs1), InsertFiles(Without(v[level + 1], inputs1), outputs);
    InsertFilesContents(Without(v[level + 1], inputs1), outputs);
    GrowLevel(w, level + 1, files, LevelContents(outputs));
    assert w[level + 1 := files] == Installed(v, level, inputs0, inputs1, outputs);
  }

  lemma VersionContentsSplit(v: Version, level: nat, inputs0: seq<File>, inputs1: seq<File>, outputs: seq<File>)
    requires level + 1 < NUM_LEVELS
    requires forall f :: f in inputs0 ==> f in v[level]
    requires forall f :: f in inputs1 ==> f in v[level + 1]
    ensures Contents(v) == Contents(Stripped(v, level, inputs0, inputs1)) + InputEntries(inputs0, inputs1)
    ensures Contents(Installed(v, level, inputs0, inputs1, outputs))
         == Contents(Stripped(v, level, inputs0, inputs1)) + LevelContents(outputs)
  {
    StrippedPlusInputs(v, level, inputs0, inputs1);
    StrippedPlusOutputs(v, level, inputs0, inputs1, outputs);
  }

  // ----- The shape of the version -----

  lemma InputIsOnOneSide(v: Version, level: nat, inputs0: seq<File>, inputs1: seq<File>, lo: UserKey, hi: UserKey,
                         f: File, g: File)
    requires Ordered(v) && ProperInputs(v, level, inputs0, inputs1, lo, hi)
    requires g in v[level + 1] && !Overlaps(g, Some(lo), Some(hi))
    requires f in inputs0 || (f in v[level + 1] && Overlaps(f, Some(lo), Some(hi)))
    ensures g.smallest.user > hi ==> Before(f.largest, g.smallest)
    ensures g.largest.user < lo ==> Before(g.largest, f.smallest)
  {
    assert f.Valid() && g.Valid();
    EntriesAreInRange(f, f.entries[0]);
    EntriesAreInRange(g, g.entries[0]);
    if f !in inputs0 {
      var i :| 0 <= i < |v[level + 1]| && v[level + 1][i] == f;
      var j :| 0 <= j < |v[level + 1]| && v[level + 1][j] == g;
      assert i < j || j < i;
    }
  }

  ghost predicate OnOneSide(g: File, es: set<Entry>) {
    (forall x :: x in es ==> Before(x.key, g.smallest)) || (forall x :: x in es ==> Before(g.largest, x.key))
  }

  lemma ApartIsOnOneSide(f: File, g: File)
    requires f.Valid() && g.Valid()
    ensures Apart(f, g) <==> OnOneSide(g, Elements(f.entries))
  {
    forall x | x in f.entries
      ensures !Before(x.key, f.smallest) && !Before(f.largest, x.key)
    {
      EntriesAreInRange(f, x);
    }
    assert f.entries[0] in Elements(f.entries) && f.entries[|f.entries| - 1] in Elements(f.entries);
  }

  // No output encloses a file that stays in the next level.
  ghost predicate OutputsFit(v: Version, level: nat, inputs1: seq<File>, outputs: seq<File>)
    requires level + 1 < NUM_LEVELS
  {
    forall f, g :: f in outputs && g in v[level + 1] && g !in inputs1 ==> OnOneSide(g, Elements(f.entries))
  }

  // Files that were opened for writing are new to a level.
  ghost predicate NewTo(files: seq<File>, outputs: seq<File>) {
    forall f, g :: f in outputs && g in files ==> f.number != g.number
  }

  // A file of the next level that is not an input lies wholly on one side of every input.
  lemma BystanderIsApart(v: Version, level: nat, inputs0: seq<File>, inputs1: seq<File>, lo: UserKey, hi: UserKey, g: File)
    requires Ordered(v) && ProperInputs(v, level, inputs0, inputs1, lo, hi)
    requires g in v[level + 1] && g !in inputs1
    ensures OnOneSide(g, InputEntries(inputs0, inputs1))
  {
    OverlappingFilesMembers(v[level + 1], Some(lo), Some(hi));
    forall f, x | (f in inputs0 || f in inputs1) && x in f.entries
      ensures g.smallest.user > hi ==> Before(x.key, g.smallest)
      ensures g.largest.user < lo ==> Before(g.largest, x.key)
    {
      InputIsOnOneSide(v, level, inputs0, inputs1, lo, hi, f, g);
      assert f in v[level] || f in v[level + 1];
      EntriesAreInRange(f, x);
    }
  }

  lemma ProperInputsAreIn(v: Version, level: nat, inputs0: seq<File>, inputs1: seq<File>, lo: UserKey, hi: UserKey)
    requires ProperInputs(v, level, inputs0, inputs1, lo, hi)
    ensures forall f :: f in inputs0 ==> f in v[level]
    ensures forall f :: f in inputs1 ==> f in v[level + 1]
  {
    OverlappingFilesMembers(v[level + 1], Some(lo), Some(hi));
  }

  // Inputs that are all that overlaps a range leave no file between them.
  lemma ProperOutputsFit(v: Version, level: nat, inputs0: seq<File>, inputs1: seq<File>, lo: UserKey, hi: UserKey, outputs: seq<File>)
    requires Ordered(v) && ProperInputs(v, level, inputs0, inputs1, lo, hi)
    requires LevelContents(outputs) <= InputEntries(inputs0, inputs1)
    ensures OutputsFit(v, level, inputs1, outputs)
  {
    forall f, g | f in outputs && g in v[level + 1] && g !in inputs1
      ensures OnOneSide(g, Elements(f.entries))
    {
      BystanderIsApart(v, level, inputs0, inputs1, lo, hi, g);
      assert Elements(f.entries) <= LevelContents(outputs);
    }
  }

  // A single output fits where what survives does.
  lemma OneOutputFitsExactly(v: Version, level: nat, inputs1: seq<File>, f: File)
    requires level + 1 < NUM_LEVELS
    ensures OutputsFit(v, level, inputs1, [f])
       <==> forall g :: g in v[level + 1] && g !in inputs1 ==> OnOneSide(g, LevelContents([f]))
  {
    assert LevelContents([f]) == Elements(f.entries);
    assert f in [f];
  }

  lemma OutputsAreApart(v: Version, level: nat, inputs1: seq<File>, outputs: seq<File>)
    requires level + 1 < NUM_LEVELS && ValidFiles(v[level + 1]) && ValidFiles(outputs)
    ensures OutputsFit(v, level, inputs1, outputs)
       <==> forall f, g :: f in outputs && g in Without(v[level + 1], inputs1) ==> Apart(f, g)
  {
    WithoutMembers(v[level + 1], inputs1);
    forall f, g | f in outputs && g in v[level + 1]
      ensures Apart(f, g) <==> OnOneSide(g, Elements(f.entries))
    {
      ApartIsOnOneSide(f, g);
    }
  }

  lemma WithoutKeepsValid(files: seq<File>, gone: seq<File>)
    requires ValidFiles(files)
    ensures ValidFiles(Without(files, gone))
  {
    WithoutMembers(files, gone);
    var r := Without(files, gone);
    forall i | 0 <= i < |r|
      ensures r[i].Valid()
    {
      assert r[i] in r;
    }
  }

  lemma InsertFilesKeepsValid(files: seq<File>, more: seq<File>)
    requires ValidFiles(files) && ValidFiles(more)
    ensures ValidFiles(InsertFiles(files, more))
  {
    InsertFilesMembers(files, more);
    var r := InsertFiles(files, more);
    forall i | 0 <= i < |r|
      ensures r[i].Valid()
    {
      assert r[i] in r;
    }
  }

  /** Installing outputs leaves the levels sorted and disjoint exactly when no output encloses a file that
      stays in their level. */
  lemma InstallKeepsOrdered(v: Version, level: nat, inputs0: seq<File>, inputs1: seq<File>, outputs: seq<File>)
    requires level + 1 < NUM_LEVELS && Ordered(v)
    requires ProperOutputs(outputs) && NewTo(v[level + 1], outputs)
    ensures Ordered(Installed(v, level, inputs0, inputs1, outputs)) <==> OutputsFit(v, level, inputs1, outputs)
  {
    OutputsAreApart(v, level, inputs1, outputs);
    if OutputsFit(v, level, inputs1, outputs) {
      FittingKeepsOrdered(v, level, inputs0, inputs1, outputs);
    } else {
      var f, g :| f in outputs && g in Without(v[level + 1], inputs1) && !Apart(f, g);
      EnclosingBreaksOrder(v, level, inputs0, inputs1, outputs, f, g);
    }
  }

  lemma EnclosingBreaksOrder(v: Version, level: nat, inputs0: seq<File>, inputs1: seq<File>, outputs: seq<File>, f: File, g: File)
    requires level + 1 < NUM_LEVELS && NewTo(v[level + 1], outputs)
    requires f in outputs && g in Without(v[level + 1], inputs1) && !Apart(f, g)
    ensures !Ordered(Installed(v, level, inputs0, inputs1, outputs))
  {
    var files := InsertFiles(Without(v[level + 1], inputs1), outputs);
    WithoutMembers(v[level + 1], inputs1);
    InsertFilesMembers(Without(v[level + 1], inputs1), outputs);
    assert Installed(v, level, inputs0, inputs1, outputs)[level + 1] == files && f.number != g.number;
    if Disjoint(files) {
      DistinctFilesAreApart(files, f, g);
    }
  }

  lemma FittingKeepsOrdered(v: Version, level: nat, inputs0: seq<File>, inputs1: seq<File>, outputs: seq<File>)
    requires level + 1 < NUM_LEVELS && Ordered(v) && ProperOutputs(outputs)
    requires forall f, g :: f in outputs && g in Without(v[level + 1], inputs1) ==> Apart(f, g)
    ensures Ordered(Installed(v, level, inputs0, inputs1, outputs))
  {
    WithoutKeepsValid(v[level], inputs0);
    WithoutKeepsValid(v[level + 1], inputs1);
    if level > 0 {
      WithoutKeepsDisjoint(v[level], inputs0);
    }
    WithoutKeepsDisjoint(v[level + 1], inputs1);
    InsertFilesKeepsDisjoint(Without(v[level + 1], inputs1), outputs);
    InsertFilesKeepsValid(Without(v[level + 1], inputs1), outputs);
  }

  lemma NewerSubsets(a: set<Entry>, b: set<Entry>, a2: set<Entry>, b2: set<Entry>)
    requires Newer(a, b) && a2 <= a && b2 <= b
    ensures Newer(a2, b2)
  {
  }

  lemma NewerUnions(a: set<Entry>, b: set<Entry>, c: set<Entry>)
    ensures Newer(a, b) && Newer(a, c) ==> Newer(a, b + c)
    ensures Newer(b, a) && Newer(c, a) ==> Newer(b + c, a)
  {
  }

  lemma InputsAreLayered(v: Version, level: nat, inputs0: seq<File>, inputs1: seq<File>, l: nat)
    requires level + 1 < NUM_LEVELS && Layered(v)
    requires LevelContents(inputs0) <= LevelContents(v[level]) && LevelContents(inputs1) <= LevelContents(v[level + 1])
    ensures l < level ==> Newer(LevelContents(v[l]), InputEntries(inputs0, inputs1))
    ensures level + 1 < l < NUM_LEVELS ==> Newer(InputEntries(inputs0, inputs1), LevelContents(v[l]))
  {
    var a, b := LevelContents(inputs0), LevelContents(inputs1);
    if l < level {
      assert Newer(LevelContents(v[l]), LevelContents(v[level])) && Newer(LevelContents(v[l]), LevelContents(v[level + 1]));
      NewerUnions(LevelContents(v[l]), a, b);
    } else if level + 1 < l < NUM_LEVELS {
      assert Newer(LevelContents(v[level]), LevelContents(v[l])) && Newer(LevelContents(v[level + 1]), LevelContents(v[l]));
      NewerUnions(LevelContents(v[l]), a, b);
    }
  }

  lemma InstallKeepsNewer(v: Version, level: nat, inputs0: seq<File>, inputs1: seq<File>, outputs: seq<File>, l: nat, m: nat)
    requires level + 1 < NUM_LEVELS && l < m < NUM_LEVELS
    requires Newer(LevelContents(v[l]), LevelContents(v[m]))
    requires m == level + 1 ==> Newer(LevelContents(Stripped(v, level, inputs0, inputs1)[l]), LevelContents(outputs))
    requires l == level + 1 ==> Newer(LevelContents(outputs), LevelContents(v[m]))
    requires forall f :: f in inputs0 ==> f in v[level]
    requires forall f :: f in inputs1 ==> f in v[level + 1]
    ensures Newer(LevelContents(Installed(v, level, inputs0, inputs1, outputs)[l]),
                  LevelContents(Installed(v, level, inputs0, inputs1, outputs)[m]))
  {
    var w := Installed(v, level, inputs0, inputs1, outputs);
    var stay1 := LevelContents(Without(v[level + 1], inputs1));
    WithoutContents(v[level], inputs0);
    WithoutContents(v[level + 1], inputs1);
    InsertFilesContents(Without(v[level + 1], inputs1), outputs);
    if m == level + 1 {
      NewerSubsets(LevelContents(v[l]), LevelContents(v[m]), LevelContents(w[l]), stay1);
      NewerUnions(LevelContents(w[l]), stay1, LevelContents(outputs));
    } else if l == level + 1 {
      NewerSubsets(LevelContents(v[l]), LevelContents(v[m]), stay1, LevelContents(w[m]));
      NewerUnions(LevelContents(w[m]), stay1, LevelContents(outputs));
    } else {
      NewerSubsets(LevelContents(v[l]), LevelContents(v[m]), LevelContents(w[l]), LevelContents(w[m]));
    }
  }

  lemma InstalledLevelsAreNewer(v: Version, level: nat, inputs0: seq<File>, inputs1: seq<File>, outputs: seq<File>, l: nat, m: nat)
    requires level + 1 < NUM_LEVELS && l < m < NUM_LEVELS && Layered(v)
    requires forall f :: f in inputs0 ==> f in v[level]
    requires forall f :: f in inputs1 ==> f in v[level + 1]
    requires LevelContents(outputs) <= InputEntries(inputs0, inputs1)
    requires Newer(LevelContents(Without(v[level], inputs0)), LevelContents(outputs))
    ensures Newer(LevelContents(Installed(v, level, inputs0, inputs1, outputs)[l]),
                  LevelContents(Installed(v, level, inputs0, inputs1, outputs)[m]))
  {
    assert Newer(LevelContents(v[l]), LevelContents(v[m]));
    OutputsAreLayered(v, level, inputs0, inputs1, outputs, l);
    OutputsAreLayered(v, level, inputs0, inputs1, outputs, m);
    InstallKeepsNewer(v, level, inputs0, inputs1, outputs, l, m);
  }

  lemma OutputsAreLayered(v: Version, level: nat, inputs0: seq<File>, inputs1: seq<File>, outputs: seq<File>, l: nat)
    requires level + 1 < NUM_LEVELS && Layered(v) && l < NUM_LEVELS
    requires forall f :: f in inputs0 ==> f in v[level]
    requires forall f :: f in inputs1 ==> f in v[level + 1]
    requires LevelContents(outputs) <= InputEntries(inputs0, inputs1)
    ensures l < level ==> Newer(LevelContents(v[l]), LevelContents(outputs))
    ensures level + 1 < l ==> Newer(LevelContents(outputs), LevelContents(v[l]))
  {
    WithoutContents(v[level], inputs0);
    WithoutContents(v[level + 1], inputs1);
    InputsAreLayered(v, level, inputs0, inputs1, l);
    var inputs, out, there := InputEntries(inputs0, inputs1), LevelContents(outputs), LevelContents(v[l]);
    if l < level {
      NewerSubsets(there, inputs, there, out);
    } else if level + 1 < l {
      NewerSubsets(inputs, there, out, there);
    }
  }

  /** Installing outputs leaves the version layered exactly when no output encloses a file that stays in
      their level, and what stays in the inputs' own level holds nothing older than they do. */
  lemma InstallKeepsLayeredExactly(v: Version, level: nat, inputs0: seq<File>, inputs1: seq<File>, outputs: seq<File>)
    requires level + 1 < NUM_LEVELS && Layered(v)
    requires forall f :: f in inputs0 ==> f in v[level]
    requires forall f :: f in inputs1 ==> f in v[level + 1]
    requires ProperOutputs(outputs) && NewTo(v[level + 1], outputs)
    requires LevelContents(outputs) <= InputEntries(inputs0, inputs1)
    ensures Layered(Installed(v, level, inputs0, inputs1, outputs))
       <==> OutputsFit(v, level, inputs1, outputs) && Newer(LevelContents(Without(v[level], inputs0)), LevelContents(outputs))
  {
    InstallKeepsOrdered(v, level, inputs0, inputs1, outputs);
    if OutputsFit(v, level, inputs1, outputs) {
      FittingKeepsLayeredExactly(v, level, inputs0, inputs1, outputs);
    }
  }

  // Of outputs that enclose no file this asks nothing of their numbers.
  lemma FittingKeepsLayeredExactly(v: Version, level: nat, inputs0: seq<File>, inputs1: seq<File>, outputs: seq<File>)
    requires level + 1 < NUM_LEVELS && Layered(v)
    requires forall f :: f in inputs0 ==> f in v[level]
    requires forall f :: f in inputs1 ==> f in v[level + 1]
    requires ProperOutputs(outputs) && OutputsFit(v, level, inputs1, outputs)
    requires LevelContents(outputs) <= InputEntries(inputs0, inputs1)
    ensures Layered(Installed(v, level, inputs0, inputs1, outputs))
       <==> Newer(LevelContents(Without(v[level], inputs0)), LevelContents(outputs))
  {
    var w := Installed(v, level, inputs0, inputs1, outputs);
    if Layered(w) {
      LayeredMeansNewer(v, level, inputs0, inputs1, outputs);
    }
    if Newer(LevelContents(Without(v[level], inputs0)), LevelContents(outputs)) {
      OutputsAreApart(v, level, inputs1, outputs);
      FittingKeepsOrdered(v, level, inputs0, inputs1, outputs);
      WithoutMembers(v[level], inputs0);
      forall l, m | 0 <= l < m < NUM_LEVELS
        ensures Newer(LevelContents(w[l]), LevelContents(w[m]))
      {
        InstalledLevelsAreNewer(v, level, inputs0, inputs1, outputs, l, m);
      }
    }
  }

  lemma LayeredMeansNewer(v: Version, level: nat, inputs0: seq<File>, inputs1: seq<File>, outputs: seq<File>)
    requires level + 1 < NUM_LEVELS && Layered(Installed(v, level, inputs0, inputs1, outputs))
    ensures Newer(LevelContents(Without(v[level], inputs0)), LevelContents(outputs))
  {
    var w := Installed(v, level, inputs0, inputs1, outputs);
    InsertFilesContents(Without(v[level + 1], inputs1), outputs);
    assert Newer(LevelContents(w[level]), LevelContents(w[level + 1]));
    NewerSubsets(LevelContents(w[level]), LevelContents(w[level + 1]), LevelContents(w[level]), LevelContents(outputs));
  }

  // ----- Merges -----

  /** The outputs of a merge are what survives of its inputs. */
  lemma OutputsAreSurvivors(base: Version, level: nat, inputs: set<Entry>, input: seq<Entry>, outputs: seq<File>, m: SequenceNumber)
    requires Sorted(input) && Elements(input) == inputs && UniqueSequences(inputs) && Intact(inputs)
    requires Flatten(outputs) == Kept(base, level, input, |input|, m)
    ensures LevelContents(outputs) == Survivors(base, level, inputs, m) <= inputs
  {
    FlattenContents(outputs);
    KeptAreSurvivors(base, level, input, m);
  }

  /** A merge leaves the version layered exactly when no output encloses a file that stays in their level, and
      what stays in the inputs' own level holds nothing older than what survives of them. */
  lemma CompactionKeepsLayeredExactly(v: Version, base: Version, level: nat, inputs0: seq<File>, inputs1: seq<File>,
                                      input: seq<Entry>, outputs: seq<File>, m: SequenceNumber)
    requires level + 1 < NUM_LEVELS && Layered(v)
    requires forall f :: f in inputs0 ==> f in v[level]
    requires forall f :: f in inputs1 ==> f in v[level + 1]
    requires Sorted(input) && Elements(input) == InputEntries(inputs0, inputs1)
    requires UniqueSequences(Elements(input)) && Intact(Elements(input))
    requires ProperOutputs(outputs) && NewTo(v[level + 1], outputs)
    requires Flatten(outputs) == Kept(base, level, input, |input|, m)
    ensures Layered(Installed(v, level, inputs0, inputs1, outputs))
       <==> && OutputsFit(v, level, inputs1, outputs)
            && Newer(LevelContents(Without(v[level], inputs0)), Survivors(base, level, InputEntries(inputs0, inputs1), m))
  {
    OutputsAreSurvivors(base, level, InputEntries(inputs0, inputs1), input, outputs, m);
    InstallKeepsLayeredExactly(v, level, inputs0, inputs1, outputs);
  }

  // What a merge leaves of a key, beside what is no input.
  lemma MergeKeepsJust(v: Version, base: Version, level: nat, inputs0: seq<File>, inputs1: seq<File>, above: set<Entry>,
                       input: seq<Entry>, outputs: seq<File>, u: UserKey, m: SequenceNumber)
    requires level + 1 < NUM_LEVELS && UniqueSequences(above + Contents(v))
    requires forall f :: f in inputs0 ==> f in v[level]
    requires forall f :: f in inputs1 ==> f in v[level + 1]
    requires Sorted(input) && Elements(input) == InputEntries(inputs0, inputs1) && IntactFor(Elements(input), u)
    requires Flatten(outputs) == Kept(base, level, input, |input|, m)
    ensures
      var inputs, rest := InputEntries(inputs0, inputs1), above + Contents(Stripped(v, level, inputs0, inputs1));
      && KeepsJust(LevelContents(outputs), inputs, u, m, IsBaseLevel(base, level, u)) && UniqueSequences(inputs + rest)
      && above + Contents(v) == inputs + rest
      && above + Contents(Installed(v, level, inputs0, inputs1, outputs)) == LevelContents(outputs) + rest
  {
    var stripped := Contents(Stripped(v, level, inputs0, inputs1));
    VersionContentsSplit(v, level, inputs0, inputs1, outputs);
    FlattenContents(outputs);
    UnionsRegroup(above, stripped, Elements(input));
    UnionsRegroup(above, stripped, LevelContents(outputs));
    assert Elements(input) <= above + Contents(v);
    DropLoopIsExact(base, level, input, u, m);
  }

  /** A merge changes what a reader of u at n reads, if n is the smallest snapshot or later, exactly when it
      uncovers a value to it, whatever is in the memtables above. */
  lemma CompactionPreservesReadExactly(v: Version, base: Version, level: nat, inputs0: seq<File>, inputs1: seq<File>,
                                       above: set<Entry>, input: seq<Entry>, outputs: seq<File>,
                                       u: UserKey, m: SequenceNumber, n: nat)
    requires level + 1 < NUM_LEVELS && UniqueSequences(above + Contents(v)) && m <= n
    requires forall f :: f in inputs0 ==> f in v[level]
    requires forall f :: f in inputs1 ==> f in v[level + 1]
    requires Sorted(input) && Elements(input) == InputEntries(inputs0, inputs1) && IntactFor(Elements(input), u)
    requires Flatten(outputs) == Kept(base, level, input, |input|, m)
    ensures Read(above + Contents(Installed(v, level, inputs0, inputs1, outputs)), u, n) == Read(above + Contents(v), u, n)
       <==> !UncoversAt(InputEntries(inputs0, inputs1), above + Contents(Stripped(v, level, inputs0, inputs1)), u, m,
                        IsBaseLevel(base, level, u), n)
  {
    MergeKeepsJust(v, base, level, inputs0, inputs1, above, input, outputs, u, m);
    DroppingPreservesReadExactly(InputEntries(inputs0, inputs1), LevelContents(outputs),
                                 above + Contents(Stripped(v, level, inputs0, inputs1)), u, m, IsBaseLevel(base, level, u), n);
  }

  /** So a merge keeps every read of u from the smallest snapshot on exactly when it uncovers no value there: the
      newest entry of u visible is a marker, dropped since no file of the base version beneath the output covers
      u, and the newest of what stays is a value. */
  lemma CompactionPreservesReadsExactly(v: Version, base: Version, level: nat, inputs0: seq<File>, inputs1: seq<File>,
                                        above: set<Entry>, input: seq<Entry>, outputs: seq<File>,
                                        u: UserKey, m: SequenceNumber)
    requires level + 1 < NUM_LEVELS && UniqueSequences(above + Contents(v))
    requires forall f :: f in inputs0 ==> f in v[level]
    requires forall f :: f in inputs1 ==> f in v[level + 1]
    requires Sorted(input) && Elements(input) == InputEntries(inputs0, inputs1) && IntactFor(Elements(input), u)
    requires Flatten(outputs) == Kept(base, level, input, |input|, m)
    ensures SameReads(above + Contents(Installed(v, level, inputs0, inputs1, outputs)), above + Contents(v), u, m)
       <==> !Uncovers(InputEntries(inputs0, inputs1), above + Contents(Stripped(v, level, inputs0, inputs1)), u, m,
                      IsBaseLevel(base, level, u))
    ensures Read(above + Contents(Installed(v, level, inputs0, inputs1, outputs)), u, m) == Read(above + Contents(v), u, m)
       <==> !Uncovers(InputEntries(inputs0, inputs1), above + Contents(Stripped(v, level, inputs0, inputs1)), u, m,
                      IsBaseLevel(base, level, u))
  {
    MergeKeepsJust(v, base, level, inputs0, inputs1, above, input, outputs, u, m);
    DroppingPreservesReadsExactly(InputEntries(inputs0, inputs1), LevelContents(outputs),
                                  above + Contents(Stripped(v, level, inputs0, inputs1)), u, m, IsBaseLevel(base, level, u));
  }

  lemma UnionsRegroup(a: set<Entry>, b: set<Entry>, c: set<Entry>)
    ensures a + (b + c) == c + (a + b)
  {
  }
}
