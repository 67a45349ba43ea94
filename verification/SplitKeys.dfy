/** User keys whose entries go on from one file of a level to the next.  A compaction that takes the
    first of these files and leaves the second may uncover a value that had been deleted, or leave an older
    entry above a newer one.  Here is when it does, in terms of the files. */
module SplitKeys {
  import opened Primitives
  import opened InternalKeys
  import opened Versions
  import opened LevelEdits
  import opened OutputCuts
  import opened Compactions
  import opened CompactionSafety

  // g stays behind, and goes on with the user key that input f ends with.
  predicate GoesOn(files: seq<File>, inputs: seq<File>, f: File, g: File) {
    f in inputs && g in files && g !in inputs && Before(f.largest, g.smallest) && f.largest.user == g.smallest.user
  }

  predicate NoSplitKey(files: seq<File>, inputs: seq<File>) {
    forall f, g :: f in inputs && g in files ==> !GoesOn(files, inputs, f, g)
  }

  // ----- What stays behind in a level -----

  lemma EarlierFileIsNewer(f: File, g: File)
    requires f.Valid() && g.Valid() && Before(g.largest, f.smallest)
    requires UniqueSequences(Elements(f.entries) + Elements(g.entries))
    ensures Newer(Elements(g.entries), Elements(f.entries))
  {
    LaterFilesAreOlder(g, f);
  }

  lemma SplitKeyLeavesOlder(f: File, g: File)
    requires f.Valid() && g.Valid() && Before(f.largest, g.smallest)
    requires Intact(Elements(f.entries) + Elements(g.entries))
    ensures Newer(Elements(g.entries), Elements(f.entries)) <==> f.largest.user != g.smallest.user
  {
    var y, x := f.entries[|f.entries| - 1], g.entries[0];
    assert y in f.entries && x in g.entries;
    forall p, q | p in f.entries && q in g.entries && f.largest.user != g.smallest.user
      ensures p.key.user != q.key.user
    {
      EntriesAreInRange(f, p);
      EntriesAreInRange(g, q);
    }
    if f.largest.user == g.smallest.user {
      assert x in Elements(g.entries) && y in Elements(f.entries) && x.key.sequence <= y.key.sequence;
    }
  }

  lemma PairInOrder(f: File, g: File)
    requires f.Valid() && g.Valid() && Apart(f, g)
    requires Intact(Elements(f.entries) + Elements(g.entries))
    requires UniqueSequences(Elements(f.entries) + Elements(g.entries))
    ensures Newer(Elements(g.entries), Elements(f.entries)) <==>
              !(Before(f.largest, g.smallest) && f.largest.user == g.smallest.user)
  {
    if Before(f.largest, g.smallest) {
      SplitKeyLeavesOlder(f, g);
    } else {
      EarlierFileIsNewer(f, g);
    }
  }

  lemma FilesInOrder(files: seq<File>, f: File, g: File)
    requires ValidFiles(files) && Disjoint(files) && f in files && g in files && f != g
    requires Intact(LevelContents(files)) && UniqueSequences(LevelContents(files))
    ensures Newer(Elements(g.entries), Elements(f.entries)) <==>
              !(Before(f.largest, g.smallest) && f.largest.user == g.smallest.user)
  {
    DistinctFilesAreApart(files, f, g);
    var both := Elements(f.entries) + Elements(g.entries);
    assert both <= LevelContents(files);
    assert Intact(both) && UniqueSequences(both);
    PairInOrder(f, g);
  }

  lemma NewerFileByFile(left: seq<File>, inputs: seq<File>)
    ensures Newer(LevelContents(left), LevelContents(inputs)) <==>
            forall f, g :: f in inputs && g in left ==> Newer(Elements(g.entries), Elements(f.entries))
  {
    forall f, g | f in inputs && g in left
      ensures Elements(g.entries) <= LevelContents(left) && Elements(f.entries) <= LevelContents(inputs)
    {
    }
    if forall f, g :: f in inputs && g in left ==> Newer(Elements(g.entries), Elements(f.entries)) {
      forall x, y | x in LevelContents(left) && y in LevelContents(inputs) && x.key.Parses() && y.key.Parses()
                    && x.key.user == y.key.user
        ensures x.key.sequence > y.key.sequence
      {
        var g :| g in left && x in g.entries;
        var f :| f in inputs && y in f.entries;
        assert Newer(Elements(g.entries), Elements(f.entries)) && x in Elements(g.entries) && y in Elements(f.entries);
      }
    }
  }

  lemma LeftBehindIsNewerExactlyWhenNoSplitKey(files: seq<File>, inputs: seq<File>)
    requires ValidFiles(files) && Disjoint(files) && (forall f :: f in inputs ==> f in files)
    requires Intact(LevelContents(files)) && UniqueSequences(LevelContents(files))
    ensures Newer(LevelContents(Without(files, inputs)), LevelContents(inputs)) <==> NoSplitKey(files, inputs)
  {
    var left := Without(files, inputs);
    WithoutMembers(files, inputs);
    NewerFileByFile(left, inputs);
    if Newer(LevelContents(left), LevelContents(inputs)) {
      forall f, g | f in inputs && g in files
        ensures !GoesOn(files, inputs, f, g)
      {
        if g !in inputs {
          assert g in left;
          LeftFileInOrder(files, inputs, f, g);
        }
      }
    } else {
      var f, g :| f in inputs && g in left && !Newer(Elements(g.entries), Elements(f.entries));
      LeftFileInOrder(files, inputs, f, g);
    }
  }

  lemma LeftFileInOrder(files: seq<File>, inputs: seq<File>, f: File, g: File)
    requires ValidFiles(files) && Disjoint(files) && f in files && f in inputs && g in files && g !in inputs
    requires Intact(LevelContents(files)) && UniqueSequences(LevelContents(files))
    ensures Newer(Elements(g.entries), Elements(f.entries)) <==> !GoesOn(files, inputs, f, g)
  {
    FilesInOrder(files, f, g);
  }

  // ----- What stays behind of a version -----

  lemma OutOfRangeSharesNoKey(f: File, g: File, lo: UserKey, hi: UserKey, y: Entry, x: Entry)
    requires f.Valid() && g.Valid() && lo <= f.smallest.user && f.largest.user <= hi && !Overlaps(g, Some(lo), Some(hi))
    requires y in f.entries && x in g.entries
    ensures x.key.user != y.key.user
  {
    EntriesAreInRange(f, y);
    EntriesAreInRange(g, x);
  }

  // In one level, a file left behind that has something older for a key of an input goes on with it.
  lemma OlderGoesOn(files: seq<File>, inputs: seq<File>, f: File, g: File, y: Entry, x: Entry)
    requires ValidFiles(files) && Disjoint(files) && f in files && f in inputs && g in files && g !in inputs
    requires y in f.entries && x in g.entries && x.key.user == y.key.user
    requires y.key.Parses() && x.key.Parses() && (x.key.sequence < y.key.sequence || x == y)
    ensures GoesOn(files, inputs, f, g) && f.largest.user == x.key.user
  {
    DistinctFilesAreApart(files, f, g);
    EntriesAreInRange(f, y);
    EntriesAreInRange(g, x);
  }

  // The file of an input entry, and the level it is in.
  lemma FileOfInput(v: Version, level: nat, inputs0: seq<File>, inputs1: seq<File>, y: Entry) returns (l: nat, f: File)
    requires level + 1 < NUM_LEVELS && y in InputEntries(inputs0, inputs1)
    requires forall f :: f in inputs0 ==> f in v[level]
    requires forall f :: f in inputs1 ==> f in v[level + 1]
    ensures l == level || l == level + 1
    ensures f in v[l] && f in (if l == level then inputs0 else inputs1) && y in f.entries
  {
    if y in LevelContents(inputs0) {
      l := level;
      f :| f in inputs0 && y in f.entries;
    } else {
      l := level + 1;
      f :| f in inputs1 && y in f.entries;
    }
  }

  lemma LevelIsPart(v: Version, l: nat)
    requires l < NUM_LEVELS
    ensures LevelContents(v[l]) <= Contents(v)
  {
  }

  lemma WholeAndParts(v: Version, level: nat, inputs0: seq<File>, inputs1: seq<File>, above: set<Entry>)
    requires level + 1 < NUM_LEVELS
    requires forall f :: f in inputs0 ==> f in v[level]
    requires forall f :: f in inputs1 ==> f in v[level + 1]
    ensures InputEntries(inputs0, inputs1) + (above + Contents(Stripped(v, level, inputs0, inputs1))) == above + Contents(v)
    ensures InputEntries(inputs0, inputs1) <= Contents(v)
  {
    VersionContentsSplit(v, level, inputs0, inputs1, []);
    UnionsRegroup(above, Contents(Stripped(v, level, inputs0, inputs1)), InputEntries(inputs0, inputs1));
  }

  /** A file left behind in one of the two levels that has something older for a key of an input is of
      the same level as it, and goes on with its last user key. */
  lemma OlderIsAtABoundary(v: Version, level: nat, inputs0: seq<File>, inputs1: seq<File>, lo: UserKey, hi: UserKey,
                           l: nat, f: File, y: Entry, k: nat, g: File, x: Entry)
    requires Layered(v) && ProperInputs(v, level, inputs0, inputs1, lo, hi)
    requires (l == level || l == level + 1) && f in (if l == level then inputs0 else inputs1) && y in f.entries
    requires (k == level || k == level + 1) && g in v[k] && g !in (if k == level then inputs0 else inputs1) && x in g.entries
    requires x.key.user == y.key.user && x.key.Parses() && y.key.Parses()
    requires x.key.sequence < y.key.sequence || x == y
    ensures l == k && l > 0 && GoesOn(v[l], if l == level then inputs0 else inputs1, f, g) && f.largest.user == x.key.user
  {
    OverlappingFilesMembers(v[level + 1], Some(lo), Some(hi));
    assert f in v[l] && f.Valid() && g.Valid();
    assert Newer(LevelContents(v[level]), LevelContents(v[level + 1]));
    assert x in LevelContents(v[k]) && y in LevelContents(v[l]);
    assert l == level && !Overlaps(g, Some(lo), Some(hi)) ==> x.key.user != y.key.user by {
      if l == level && !Overlaps(g, Some(lo), Some(hi)) {
        OutOfRangeSharesNoKey(f, g, lo, hi, y, x);
      }
    }
    assert l == k && l > 0;
    OlderGoesOn(v[l], if l == level then inputs0 else inputs1, f, g, y, x);
  }

  // ----- When a merge uncovers a value -----

  /** An input that holds u's newest entry visible at m, a marker, is followed by a file left behind that
      begins with u, and with the newest entry of u visible in what stays, a value. */
  ghost predicate CutsOff(files: seq<File>, inputs: seq<File>, all: set<Entry>, rest: set<Entry>, u: UserKey, m: nat) {
    exists f, g, d :: CutsOffAt(files, inputs, all, rest, u, m, f, g, d)
  }

  ghost predicate CutsOffAt(files: seq<File>, inputs: seq<File>, all: set<Entry>, rest: set<Entry>, u: UserKey, m: nat,
                            f: File, g: File, d: Entry)
  {
    && GoesOn(files, inputs, f, g) && f.largest.user == u && g.entries != []
    && d in f.entries && IsNewest(all, u, m, d) && d.key.kind == DELETION
    && IsNewest(rest, u, m, g.entries[0]) && g.entries[0].key.kind == VALUE
  }

  /** The failing merges in the caller's terms: a value is uncovered exactly when nothing deeper covers
      its user key and one of the two levels is cut between a marker of the key and that value. */
  lemma UncoversExactlyWhenCutOff(v: Version, level: nat, inputs0: seq<File>, inputs1: seq<File>, lo: UserKey, hi: UserKey,
                                  above: set<Entry>, u: UserKey, m: nat)
    requires Layered(v) && ProperInputs(v, level, inputs0, inputs1, lo, hi)
    requires Newer(above, Contents(v)) && UniqueSequences(above + Contents(v)) && Intact(Contents(v))
    ensures
      var inputs, rest := InputEntries(inputs0, inputs1), above + Contents(Stripped(v, level, inputs0, inputs1));
      Uncovers(inputs, rest, u, m, IsBaseLevel(v, level, u))
      <==> IsBaseLevel(v, level, u) && (CutsOff(v[level], inputs0, inputs + rest, rest, u, m)
                                        || CutsOff(v[level + 1], inputs1, inputs + rest, rest, u, m))
  {
    var inputs, rest := InputEntries(inputs0, inputs1), above + Contents(Stripped(v, level, inputs0, inputs1));
    CutOffUncovers(v[level], inputs0, inputs, rest, u, m, IsBaseLevel(v, level, u));
    CutOffUncovers(v[level + 1], inputs1, inputs, rest, u, m, IsBaseLevel(v, level, u));
    if Uncovers(inputs, rest, u, m, IsBaseLevel(v, level, u)) {
      var d, x := MarkerAndValue(inputs, rest, u, m, IsBaseLevel(v, level, u));
      UncoveredIsCutOff(v, level, inputs0, inputs1, lo, hi, above, u, m, d, x);
    }
  }

  lemma MarkerAndValue(inputs: set<Entry>, rest: set<Entry>, u: UserKey, m: nat, base: bool) returns (d: Entry, x: Entry)
    requires Uncovers(inputs, rest, u, m, base)
    ensures IsNewest(inputs + rest, u, m, d) && d.key.kind == DELETION && IsNewest(rest, u, m, x) && x.key.kind == VALUE
  {
    d, x :| IsNewest(inputs + rest, u, m, d) && IsOldMarker(d, m) && IsNewest(rest, u, m, x) && x.key.kind == VALUE;
  }

  lemma CutOffUncovers(files: seq<File>, chosen: seq<File>, inputs: set<Entry>, rest: set<Entry>, u: UserKey, m: nat, base: bool)
    ensures base && CutsOff(files, chosen, inputs + rest, rest, u, m) ==> Uncovers(inputs, rest, u, m, base)
  {
    if CutsOff(files, chosen, inputs + rest, rest, u, m) {
      var f, g, d :| CutsOffAt(files, chosen, inputs + rest, rest, u, m, f, g, d);
      assert IsOldMarker(d, m);
    }
  }

  lemma UncoveredIsCutOff(v: Version, level: nat, inputs0: seq<File>, inputs1: seq<File>, lo: UserKey, hi: UserKey,
                          above: set<Entry>, u: UserKey, m: nat, d: Entry, x: Entry)
    requires Layered(v) && ProperInputs(v, level, inputs0, inputs1, lo, hi) && IsBaseLevel(v, level, u)
    requires Newer(above, Contents(v)) && UniqueSequences(above + Contents(v)) && Intact(Contents(v))
    requires
      var inputs, rest := InputEntries(inputs0, inputs1), above + Contents(Stripped(v, level, inputs0, inputs1));
      && IsNewest(inputs + rest, u, m, d) && d.key.kind == DELETION && IsNewest(rest, u, m, x) && x.key.kind == VALUE
    ensures
      var inputs, rest := InputEntries(inputs0, inputs1), above + Contents(Stripped(v, level, inputs0, inputs1));
      || CutsOff(v[level], inputs0, inputs + rest, rest, u, m) || CutsOff(v[level + 1], inputs1, inputs + rest, rest, u, m)
  {
    var inputs, rest := InputEntries(inputs0, inputs1), above + Contents(Stripped(v, level, inputs0, inputs1));
    OverlappingFilesMembers(v[level + 1], Some(lo), Some(hi));
    WholeAndParts(v, level, inputs0, inputs1, above);
    MarkerIsInput(inputs, rest, u, m, d, x);
    var l, f, g := BoundaryOf(v, level, inputs0, inputs1, lo, hi, above, u, d, x);
    CutOffFrom(v[l], if l == level then inputs0 else inputs1, inputs + rest, rest, u, m, f, g, d, x);
  }

  lemma CutOffFrom(files: seq<File>, inputs: seq<File>, all: set<Entry>, rest: set<Entry>, u: UserKey, m: nat,
                   f: File, g: File, d: Entry, x: Entry)
    requires ValidFiles(files) && Intact(LevelContents(files)) && UniqueSequences(all) && rest <= all
    requires GoesOn(files, inputs, f, g) && f in files && d in f.entries && f.largest.user == u
    requires x in g.entries && Elements(g.entries) <= rest
    requires IsNewest(all, u, m, d) && d.key.kind == DELETION && IsNewest(rest, u, m, x) && x.key.kind == VALUE
    ensures CutsOff(files, inputs, all, rest, u, m)
  {
    FirstOfNext(files, inputs, rest, u, m, f, d, g, x);
    assert CutsOffAt(files, inputs, all, rest, u, m, f, g, d);
  }

  // The input that d is in, and the file left behind that x is in.
  lemma BoundaryOf(v: Version, level: nat, inputs0: seq<File>, inputs1: seq<File>, lo: UserKey, hi: UserKey,
                   above: set<Entry>, u: UserKey, d: Entry, x: Entry) returns (l: nat, f: File, g: File)
    requires Layered(v) && ProperInputs(v, level, inputs0, inputs1, lo, hi) && IsBaseLevel(v, level, u)
    requires Newer(above, Contents(v)) && d in Contents(v)
    requires d in InputEntries(inputs0, inputs1) && d.key.user == u && d.key.Parses()
    requires x in above + Contents(Stripped(v, level, inputs0, inputs1)) && x.key.user == u && x.key.Parses()
    requires x.key.sequence < d.key.sequence
    ensures l == level || l == level + 1
    ensures ValidFiles(v[l]) && f in v[l] && d in f.entries && x in g.entries && f.largest.user == u
    ensures GoesOn(v[l], if l == level then inputs0 else inputs1, f, g)
    ensures LevelContents(v[l]) <= Contents(v) && Elements(g.entries) <= Contents(Stripped(v, level, inputs0, inputs1))
  {
    OverlappingFilesMembers(v[level + 1], Some(lo), Some(hi));
    l, f := FileOfInput(v, level, inputs0, inputs1, d);
    var k;
    k, g := FileOfUncovered(v, level, inputs0, inputs1, above, u, d, x);
    OlderIsAtABoundary(v, level, inputs0, inputs1, lo, hi, l, f, d, k, g, x);
    StaysInside(v, level, inputs0, inputs1, k, g);
    LevelIsPart(v, l);
  }

  lemma StaysInside(v: Version, level: nat, inputs0: seq<File>, inputs1: seq<File>, k: nat, g: File)
    requires level + 1 < NUM_LEVELS && (k == level || k == level + 1)
    requires g in v[k] && g !in (if k == level then inputs0 else inputs1)
    ensures Elements(g.entries) <= Contents(Stripped(v, level, inputs0, inputs1))
  {
    WithoutMembers(v[level], inputs0);
    WithoutMembers(v[level + 1], inputs1);
    InContents(Stripped(v, level, inputs0, inputs1), k, g);
  }

  lemma MarkerIsInput(inputs: set<Entry>, rest: set<Entry>, u: UserKey, m: nat, d: Entry, x: Entry)
    requires UniqueSequences(inputs + rest)
    requires IsNewest(inputs + rest, u, m, d) && d.key.kind == DELETION && IsNewest(rest, u, m, x) && x.key.kind == VALUE
    ensures d in inputs && x.key.sequence < d.key.sequence
  {
    assert d in rest ==> d.key.sequence == x.key.sequence;
  }

  // What stays above the inputs is newer than they are, and nothing for u stays beneath.
  lemma StaysAboveOrBeneath(v: Version, level: nat, inputs0: seq<File>, inputs1: seq<File>, u: UserKey, d: Entry, k: nat, x: Entry)
    requires level + 1 < NUM_LEVELS && Layered(v) && IsBaseLevel(v, level, u) && k < NUM_LEVELS
    requires forall f :: f in inputs0 ==> f in v[level]
    requires forall f :: f in inputs1 ==> f in v[level + 1]
    requires d in InputEntries(inputs0, inputs1) && d.key.user == u && d.key.Parses()
    requires x in LevelContents(v[k]) && x.key.Parses()
    ensures k < level && x.key.user == u ==> x.key.sequence > d.key.sequence
    ensures k > level + 1 ==> x.key.user != u
  {
    WithoutContents(v[level], inputs0);
    WithoutContents(v[level + 1], inputs1);
    InputsAreLayered(v, level, inputs0, inputs1, k);
    var g :| g in v[k] && x in g.entries;
    EntriesAreInRange(g, x);
  }

  // What is older than an entry of the version, and has nothing deeper, is in one of the two levels.
  lemma FileOfUncovered(v: Version, level: nat, inputs0: seq<File>, inputs1: seq<File>, above: set<Entry>, u: UserKey,
                        d: Entry, x: Entry) returns (k: nat, g: File)
    requires level + 1 < NUM_LEVELS && Layered(v) && IsBaseLevel(v, level, u) && Newer(above, Contents(v))
    requires forall f :: f in inputs0 ==> f in v[level]
    requires forall f :: f in inputs1 ==> f in v[level + 1]
    requires d in InputEntries(inputs0, inputs1) && d in Contents(v) && d.key.user == u && d.key.Parses()
    requires x in above + Contents(Stripped(v, level, inputs0, inputs1)) && x.key.user == u && x.key.Parses()
    requires x.key.sequence < d.key.sequence
    ensures k == level || k == level + 1
    ensures g in v[k] && g !in (if k == level then inputs0 else inputs1) && x in g.entries
  {
    WithoutMembers(v[level], inputs0);
    WithoutMembers(v[level + 1], inputs1);
    k, g := FileOf(Stripped(v, level, inputs0, inputs1), x);
    assert g in v[k] && x in LevelContents(v[k]);
    StaysAboveOrBeneath(v, level, inputs0, inputs1, u, d, k, x);
  }

  lemma FileOf(w: Version, x: Entry) returns (k: nat, g: File)
    requires x in Contents(w)
    ensures k < NUM_LEVELS && g in w[k] && x in g.entries
  {
    k :| k < NUM_LEVELS && x in LevelContents(w[k]);
    g :| g in w[k] && x in g.entries;
  }

  // The newest of what stays is the first entry of the file left behind.
  lemma FirstOfNext(files: seq<File>, inputs: seq<File>, rest: set<Entry>, u: UserKey, m: nat, f: File, d: Entry, g: File, x: Entry)
    requires ValidFiles(files) && Intact(LevelContents(files)) && UniqueSequences(rest)
    requires GoesOn(files, inputs, f, g) && f in files && d in f.entries && f.largest.user == u
    requires Visible(d, u, m) && x in g.entries && Elements(g.entries) <= rest && IsNewest(rest, u, m, x)
    ensures g.entries != [] && g.entries[0] == x
  {
    assert f.Valid() && g.Valid();
    EntriesAreInRange(f, d);
    EntriesAreInRange(g, x);
    var e := g.entries[0];
    assert e in g.entries && e in LevelContents(files) && e.key.Parses();
    assert e in rest && Visible(e, u, m);
  }

  /** A merge started on a version keeps every read of u at or after the smallest snapshot, exactly when it
      does not cut a level between a marker of u and the value beneath it. */
  lemma MergePreservesReadsExactly(v: Version, level: nat, inputs0: seq<File>, inputs1: seq<File>, lo: UserKey, hi: UserKey,
                                   above: set<Entry>, input: seq<Entry>, outputs: seq<File>, u: UserKey, m: SequenceNumber)
    requires Layered(v) && ProperInputs(v, level, inputs0, inputs1, lo, hi)
    requires Newer(above, Contents(v)) && UniqueSequences(above + Contents(v)) && Intact(Contents(v))
    requires Sorted(input) && Elements(input) == InputEntries(inputs0, inputs1)
    requires Flatten(outputs) == Kept(v, level, input, |input|, m)
    ensures
      var all, rest := above + Contents(v), above + Contents(Stripped(v, level, inputs0, inputs1));
      SameReads(above + Contents(Installed(v, level, inputs0, inputs1, outputs)), all, u, m)
      <==> !(IsBaseLevel(v, level, u) && (CutsOff(v[level], inputs0, all, rest, u, m) || CutsOff(v[level + 1], inputs1, all, rest, u, m)))
  {
    OverlappingFilesMembers(v[level + 1], Some(lo), Some(hi));
    WholeAndParts(v, level, inputs0, inputs1, above);
    UncoversExactlyWhenCutOff(v, level, inputs0, inputs1, lo, hi, above, u, m);
    CompactionPreservesReadsExactly(v, v, level, inputs0, inputs1, above, input, outputs, u, m);
  }

  /** And it leaves the version layered exactly when it is into level 1, or does not cut its own level
      inside a user key of which something survives. */
  lemma MergeKeepsLayeredExactly(v: Version, level: nat, inputs0: seq<File>, inputs1: seq<File>, lo: UserKey, hi: UserKey,
                                 input: seq<Entry>, outputs: seq<File>, m: SequenceNumber)
    requires Layered(v) && ProperInputs(v, level, inputs0, inputs1, lo, hi)
    requires Intact(Contents(v)) && UniqueSequences(Contents(v))
    requires Sorted(input) && Elements(input) == InputEntries(inputs0, inputs1)
    requires ProperOutputs(outputs) && Flatten(outputs) == Kept(v, level, input, |input|, m)
    ensures Layered(Installed(v, level, inputs0, inputs1, outputs))
       <==> (level > 0 ==> !SurvivesSplit(v[level], inputs0, LevelContents(outputs)))
  {
    OverlappingFilesMembers(v[level + 1], Some(lo), Some(hi));
    WholeAndParts(v, level, inputs0, inputs1, {});
    OutputsAreSurvivors(v, level, Elements(input), input, outputs, m);
    ProperOutputsFit(v, level, inputs0, inputs1, lo, hi, outputs);
    FittingKeepsLayeredExactly(v, level, inputs0, inputs1, outputs);
    OlderStaysExactlyWhenSplit(v, level, inputs0, inputs1, lo, hi, LevelContents(outputs));
  }

  // ----- When a merge leaves the version layered -----

  // Something survives of a user key with which a file left behind goes on.
  ghost predicate SurvivesSplit(files: seq<File>, inputs: seq<File>, kept: set<Entry>) {
    exists f, g, y :: GoesOn(files, inputs, f, g) && y in f.entries && y.key.user == f.largest.user && y in kept
  }

  /** And those that leave an older entry above a newer one: exactly the merges below level 0 that cut their
      own level inside a user key of which something survives. */
  lemma OlderStaysExactlyWhenSplit(v: Version, level: nat, inputs0: seq<File>, inputs1: seq<File>, lo: UserKey, hi: UserKey,
                                   kept: set<Entry>)
    requires Layered(v) && ProperInputs(v, level, inputs0, inputs1, lo, hi)
    requires Intact(Contents(v)) && UniqueSequences(Contents(v)) && kept <= InputEntries(inputs0, inputs1)
    ensures Newer(LevelContents(Without(v[level], inputs0)), kept) <==> (level > 0 ==> !SurvivesSplit(v[level], inputs0, kept))
  {
    OverlappingFilesMembers(v[level + 1], Some(lo), Some(hi));
    WithoutMembers(v[level], inputs0);
    assert LevelContents(v[level]) <= Contents(v) && LevelContents(v[level + 1]) <= Contents(v);
    if level > 0 && SurvivesSplit(v[level], inputs0, kept) {
      var f, g, y :| GoesOn(v[level], inputs0, f, g) && y in f.entries && y.key.user == f.largest.user && y in kept;
      SplitStays(v[level], inputs0, kept, f, g, y);
    } else {
      forall x, y | x in LevelContents(Without(v[level], inputs0)) && y in kept && x.key.user == y.key.user
        ensures x.key.sequence > y.key.sequence
      {
        var g :| g in Without(v[level], inputs0) && x in g.entries;
        StaysNewer(v, level, inputs0, inputs1, lo, hi, kept, g, x, y);
      }
    }
  }

  lemma SplitStays(files: seq<File>, inputs: seq<File>, kept: set<Entry>, f: File, g: File, y: Entry)
    requires ValidFiles(files) && Intact(LevelContents(files)) && (forall f :: f in inputs ==> f in files)
    requires GoesOn(files, inputs, f, g) && y in f.entries && y.key.user == f.largest.user && y in kept
    ensures !Newer(LevelContents(Without(files, inputs)), kept)
  {
    WithoutMembers(files, inputs);
    var x := g.entries[0];
    assert f in files && g in Without(files, inputs) && x in g.entries && x in LevelContents(files) && y in LevelContents(files);
    EntriesAreInRange(f, y);
    assert x in LevelContents(Without(files, inputs)) && x.key.sequence <= y.key.sequence;
  }

  lemma StaysNewer(v: Version, level: nat, inputs0: seq<File>, inputs1: seq<File>, lo: UserKey, hi: UserKey,
                   kept: set<Entry>, g: File, x: Entry, y: Entry)
    requires Layered(v) && ProperInputs(v, level, inputs0, inputs1, lo, hi)
    requires Intact(Contents(v)) && UniqueSequences(Contents(v)) && kept <= InputEntries(inputs0, inputs1)
    requires level > 0 ==> !SurvivesSplit(v[level], inputs0, kept)
    requires g in v[level] && g !in inputs0 && x in g.entries && y in kept && x.key.user == y.key.user
    ensures x.key.sequence > y.key.sequence
  {
    OverlappingFilesMembers(v[level + 1], Some(lo), Some(hi));
    var l, f := FileOfInput(v, level, inputs0, inputs1, y);
    InContents(v, l, f);
    InContents(v, level, g);
    assert x in Contents(v) && y in Contents(v);
    if x.key.sequence <= y.key.sequence {
      OlderIsAtABoundary(v, level, inputs0, inputs1, lo, hi, l, f, y, level, g, x);
    }
  }

  /** Where no user key is split neither happens. */
  lemma NoSplitKeyIsSafe(v: Version, level: nat, inputs0: seq<File>, inputs1: seq<File>, lo: UserKey, hi: UserKey,
                         above: set<Entry>, u: UserKey, m: nat)
    requires Layered(v) && ProperInputs(v, level, inputs0, inputs1, lo, hi)
    requires Newer(above, Contents(v)) && UniqueSequences(above + Contents(v)) && Intact(Contents(v))
    requires (level > 0 ==> NoSplitKey(v[level], inputs0)) && NoSplitKey(v[level + 1], inputs1)
    ensures Newer(LevelContents(Without(v[level], inputs0)), Survivors(v, level, InputEntries(inputs0, inputs1), m))
    ensures !Uncovers(InputEntries(inputs0, inputs1), above + Contents(Stripped(v, level, inputs0, inputs1)), u, m,
                      IsBaseLevel(v, level, u))
  {
    OlderStaysExactlyWhenSplit(v, level, inputs0, inputs1, lo, hi, Survivors(v, level, InputEntries(inputs0, inputs1), m));
    UncoversExactlyWhenCutOff(v, level, inputs0, inputs1, lo, hi, above, u, m);
    if level == 0 {
      NothingGoesOnInLevel0(v, inputs0, inputs1, lo, hi);
    }
  }

  lemma NothingGoesOnInLevel0(v: Version, inputs0: seq<File>, inputs1: seq<File>, lo: UserKey, hi: UserKey)
    requires Ordered(v) && ProperInputs(v, 0, inputs0, inputs1, lo, hi)
    ensures NoSplitKey(v[0], inputs0)
  {
    forall f, g | f in inputs0 && g in v[0]
      ensures !GoesOn(v[0], inputs0, f, g)
    {
      assert f.Valid() && g.Valid();
      EntriesAreInRange(f, f.entries[0]);
      EntriesAreInRange(g, g.entries[0]);
    }
  }

  // ----- Trivial moves -----

  lemma TrivialMoveKeepsContents(v: Version, level: nat, f: File)
    requires level + 1 < NUM_LEVELS && f in v[level]
    ensures Contents(Installed(v, level, [f], [], [f])) == Contents(v)
  {
    VersionContentsSplit(v, level, [f], [], [f]);
    assert LevelContents([f]) == InputEntries([f], []);
  }

  /** A trivial move hands one file down a level unread.  It keeps the version layered exactly
      when the move does not split a user key. */
  lemma TrivialMoveKeepsLayeredExactly(v: Version, level: nat, f: File, lo: UserKey, hi: UserKey)
    requires Layered(v) && ProperInputs(v, level, [f], [], lo, hi)
    requires Intact(Contents(v)) && UniqueSequences(Contents(v))
    ensures Layered(Installed(v, level, [f], [], [f])) <==> (level > 0 ==> NoSplitKey(v[level], [f]))
    ensures Contents(Installed(v, level, [f], [], [f])) == Contents(v)
  {
    assert f in [f] && f.Valid();
    TrivialMoveKeepsContents(v, level, f);
    LevelIsPart(v, level);
    assert LevelContents([f]) == InputEntries([f], []);
    ProperOutputsFit(v, level, [f], [], lo, hi, [f]);
    FittingKeepsLayeredExactly(v, level, [f], [], [f]);
    OlderStaysExactlyWhenSplit(v, level, [f], [], lo, hi, LevelContents([f]));
    if level > 0 {
      LeftBehindIsNewerExactlyWhenNoSplitKey(v[level], [f]);
    }
  }
}
