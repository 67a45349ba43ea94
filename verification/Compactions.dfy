/** Compaction: merging files of one level into the next without changing what any live
    snapshot reads. */
module Compactions {
  import opened Primitives
  import opened InternalKeys
  import opened Versions
  import opened LevelEdits
  import opened OutputCuts

  // ----- Choosing the inputs -----

  // The smallest range of internal keys that covers a set of files.
  ghost predicate IsRange(files: seq<File>, smallest: InternalKey, largest: InternalKey) {
    && (forall f :: f in files ==> !Before(f.smallest, smallest) && !Before(largest, f.largest))
    && (exists f :: f in files && f.smallest == smallest)
    && exists f :: f in files && f.largest == largest
  }

  method GetRange(inputs: seq<File>) returns (smallest: InternalKey, largest: InternalKey)
    requires inputs != []
    ensures IsRange(inputs, smallest, largest)
  {
    smallest, largest := inputs[0].smallest, inputs[0].largest;
    assert inputs[0] in inputs;
    for i := 1 to |inputs|
      invariant forall j :: 0 <= j < i ==> !Before(inputs[j].smallest, smallest) && !Before(largest, inputs[j].largest)
      invariant exists f :: f in inputs && f.smallest == smallest
      invariant exists f :: f in inputs && f.largest == largest
    {
      ComparePacksCorrectly(inputs[i].smallest, smallest);
      ComparePacksCorrectly(inputs[i].largest, largest);
      assert inputs[i] in inputs;
      if Compare(inputs[i].smallest, smallest) < 0 {
        smallest := inputs[i].smallest;
      }
      if Compare(inputs[i].largest, largest) > 0 {
        largest := inputs[i].largest;
      }
    }
  }

  ghost predicate Spans(files: seq<File>, lo: UserKey, hi: UserKey) {
    forall f :: f in files ==> lo <= f.smallest.user && f.largest.user <= hi
  }

  // What is chosen for a compaction: some files of a level (in level 0, everything that
  // overlaps them) and every file of the next level that overlaps their range.
  ghost predicate ProperInputs(v: Version, level: nat, inputs0: seq<File>, inputs1: seq<File>, lo: UserKey, hi: UserKey) {
    && level + 1 < NUM_LEVELS
    && inputs0 != []
    && (forall f :: f in inputs0 ==> f in v[level])
    && Spans(inputs0, lo, hi)
    && (level == 0 ==> forall f :: f in v[0] && Overlaps(f, Some(lo), Some(hi)) ==> f in inputs0)
    && inputs1 == OverlappingFiles(v[level + 1], Some(lo), Some(hi))
  }

  const EXPANDED_COMPACTION_BYTE_SIZE_LIMIT: nat := 25 * TARGET_FILE_SIZE

  // The first inputs: files of the level, closed under overlap in level 0.
  ghost predicate ProperSeed(v: Version, level: nat, seed: seq<File>) {
    && level + 1 < NUM_LEVELS
    && seed != []
    && (forall f :: f in seed ==> f in v[level])
    && (level == 0 ==> exists lo, hi :: Spans(seed, lo, hi) && seed == OverlappingFiles(v[0], Some(lo), Some(hi)))
  }

  // The smallest range of user keys that covers some files.
  ghost predicate Hull(files: seq<File>, lo: UserKey, hi: UserKey) {
    Spans(files, lo, hi) && (exists f :: f in files && f.smallest.user == lo) && exists f :: f in files && f.largest.user == hi
  }

  // What there is of a level for a range.
  ghost predicate AllFor(files: seq<File>, level: nat, start: UserKey, limit: UserKey, inputs: seq<File>) {
    exists lo, hi :: LeastRange(files, level, Some(start), Some(limit), lo, hi) && inputs == OverlappingFiles(files, lo, hi)
  }

  /** The first inputs may be grown to these: they are more, not too large with those of the next level, and
      bring in no further file of that. */
  ghost predicate MayGrow(v: Version, level: nat, seed: seq<File>, inputs1: seq<File>, expanded: seq<File>)
    requires level + 1 < NUM_LEVELS
  {
    && inputs1 != [] && |expanded| > |seed|
    && TotalFileSize(inputs1) + TotalFileSize(expanded) < EXPANDED_COMPACTION_BYTE_SIZE_LIMIT
    && forall a, b :: Hull(expanded, a, b) ==> OverlappingFiles(v[level + 1], Some(a), Some(b)) == inputs1
  }

  /** The inputs chosen for a seed: all of the next level that overlaps it, and of its own level the seed, or all
      there is for the range of these if they may grow to that. */
  ghost predicate Chosen(v: Version, level: nat, seed: seq<File>, inputs0: seq<File>, inputs1: seq<File>, expanded: seq<File>)
    requires level + 1 < NUM_LEVELS
  {
    && (forall f :: f in seed ==> f in inputs0)
    && (forall a, b :: Hull(seed, a, b) ==> inputs1 == OverlappingFiles(v[level + 1], Some(a), Some(b)))
    && (forall a, b :: Hull(seed + inputs1, a, b) && inputs1 != [] ==> AllFor(v[level], level, a, b, expanded))
    && inputs0 == if MayGrow(v, level, seed, inputs1, expanded) then expanded else seed
  }

  /** The files of the next level to merge with, growing the inputs of this level just when that
      costs no further file of the next; and what the inputs overlap two levels down. */
  method SetupOtherInputs(v: Version, level: nat, seed: seq<File>)
    returns (inputs0: seq<File>, inputs1: seq<File>, grandparents: seq<File>, ghost lo: UserKey, ghost hi: UserKey,
             ghost start: UserKey, ghost limit: UserKey, ghost expanded: seq<File>)
    requires ProperSeed(v, level, seed) && ValidFiles(v[level])
    ensures ProperInputs(v, level, inputs0, inputs1, lo, hi)
    ensures Chosen(v, level, seed, inputs0, inputs1, expanded)
    ensures Hull(inputs0 + inputs1, start, limit)
    ensures grandparents == if level + 2 < NUM_LEVELS then OverlappingFiles(v[level + 2], Some(start), Some(limit)) else []
  {
    var smallest, largest := GetRange(seed);
    inputs0, expanded := seed, seed;
    lo, hi := smallest.user, largest.user;
    ghost var a, b;
    inputs1, a, b := GetOverlappingInputs(v[level + 1], level + 1, Some(smallest.user), Some(largest.user));
    RangeIsHull(seed, smallest, largest);
    SeedIsProper(v, level, seed, smallest, largest);
    var allStart, allLimit := GetRange(inputs0 + inputs1);
    RangeIsHull(seed + inputs1, allStart, allLimit);
    if inputs1 != [] {
      var grown, more;
      grown, more, lo, hi := ExpandInputs(v, level, seed, inputs1, smallest, largest, allStart, allLimit);
      expanded := more;
      if grown {
        inputs0 := more;
        allStart, allLimit := GetRange(inputs0 + inputs1);
      }
    }
    start, limit := allStart.user, allLimit.user;
    grandparents := [];
    if level + 2 < NUM_LEVELS {
      grandparents, a, b := GetOverlappingInputs(v[level + 2], level + 2, Some(allStart.user), Some(allLimit.user));
    }
    RangeIsHull(inputs0 + inputs1, allStart, allLimit);
  }

  // What the inputs of this level may be grown to, and whether to do so.
  method ExpandInputs(v: Version, level: nat, seed: seq<File>, inputs1: seq<File>, ghost smallest: InternalKey, ghost largest: InternalKey,
                      allStart: InternalKey, allLimit: InternalKey)
    returns (grown: bool, expanded0: seq<File>, ghost lo: UserKey, ghost hi: UserKey)
    requires ProperSeed(v, level, seed) && ValidFiles(v[level]) && IsRange(seed, smallest, largest)
    requires inputs1 == OverlappingFiles(v[level + 1], Some(smallest.user), Some(largest.user)) != []
    requires IsRange(seed + inputs1, allStart, allLimit)
    ensures AllFor(v[level], level, allStart.user, allLimit.user, expanded0)
    ensures grown == MayGrow(v, level, seed, inputs1, expanded0)
    ensures grown ==> forall f :: f in seed ==> f in expanded0
    ensures ProperInputs(v, level, if grown then expanded0 else seed, inputs1, lo, hi)
  {
    ghost var lo0, hi0;
    expanded0, lo0, hi0 := GetOverlappingInputs(v[level], level, Some(allStart.user), Some(allLimit.user));
    grown, lo, hi := false, smallest.user, largest.user;
    SeedIsProper(v, level, seed, smallest, largest);
    if |expanded0| > |seed| && TotalFileSize(inputs1) + TotalFileSize(expanded0) < EXPANDED_COMPACTION_BYTE_SIZE_LIMIT {
      var newStart, newLimit := GetRange(expanded0);
      var expanded1, _, _ := GetOverlappingInputs(v[level + 1], level + 1, Some(newStart.user), Some(newLimit.user));
      ExpandedIsProper(v, level, seed, seed + inputs1, expanded0, allStart, allLimit, lo0, hi0);
      GrowsExactlyWhen(v, level, seed, inputs1, expanded0, smallest, largest, newStart, newLimit);
      if |expanded1| == |inputs1| {
        SeedIsProper(v, level, expanded0, newStart, newLimit);
        grown, lo, hi := true, newStart.user, newLimit.user;
      }
    }
  }

  // A wider range overlaps no fewer files, and if no more, the same.
  lemma {:induction false} WiderRange(files: seq<File>, lo: UserKey, hi: UserKey, lo2: UserKey, hi2: UserKey)
    requires lo2 <= lo && hi <= hi2
    ensures |OverlappingFiles(files, Some(lo), Some(hi))| <= |OverlappingFiles(files, Some(lo2), Some(hi2))|
    ensures |OverlappingFiles(files, Some(lo), Some(hi))| == |OverlappingFiles(files, Some(lo2), Some(hi2))| ==>
              OverlappingFiles(files, Some(lo), Some(hi)) == OverlappingFiles(files, Some(lo2), Some(hi2))
  {
    if files != [] {
      WiderRange(files[..|files| - 1], lo, hi, lo2, hi2);
    }
  }

  lemma RangeIsHull(files: seq<File>, smallest: InternalKey, largest: InternalKey)
    requires IsRange(files, smallest, largest)
    ensures Hull(files, smallest.user, largest.user)
    ensures forall a, b :: Hull(files, a, b) ==> a == smallest.user && b == largest.user
  {
  }

  // The code compares just the numbers of files.
  lemma GrowsExactlyWhen(v: Version, level: nat, seed: seq<File>, inputs1: seq<File>, expanded: seq<File>,
                         smallest: InternalKey, largest: InternalKey, newStart: InternalKey, newLimit: InternalKey)
    requires level + 1 < NUM_LEVELS && IsRange(seed, smallest, largest) && IsRange(expanded, newStart, newLimit)
    requires inputs1 == OverlappingFiles(v[level + 1], Some(smallest.user), Some(largest.user)) != []
    requires |expanded| > |seed| && forall f :: f in seed ==> f in expanded
    requires TotalFileSize(inputs1) + TotalFileSize(expanded) < EXPANDED_COMPACTION_BYTE_SIZE_LIMIT
    ensures
      var more := OverlappingFiles(v[level + 1], Some(newStart.user), Some(newLimit.user));
      && (|more| == |inputs1| ==> more == inputs1)
      && (MayGrow(v, level, seed, inputs1, expanded) <==> |more| == |inputs1|)
  {
    RangeIsHull(seed, smallest, largest);
    RangeIsHull(expanded, newStart, newLimit);
    WiderRange(v[level + 1], smallest.user, largest.user, newStart.user, newLimit.user);
  }

  // All files of a level that overlap a range of files among which are the seed.
  lemma ExpandedIsProper(v: Version, level: nat, seed: seq<File>, all: seq<File>, expanded: seq<File>,
                         start: InternalKey, limit: InternalKey, lo: Option<UserKey>, hi: Option<UserKey>)
    requires ProperSeed(v, level, seed) && ValidFiles(v[level]) && |expanded| > |seed|
    requires forall f :: f in seed ==> f in all
    requires forall f :: f in all ==> !Before(f.smallest, start) && !Before(limit, f.largest)
    requires expanded == OverlappingFiles(v[level], lo, hi) && lo.Some? && hi.Some?
    requires LeastRange(v[level], level, Some(start.user), Some(limit.user), lo, hi)
    ensures ProperSeed(v, level, expanded) && forall f :: f in seed ==> f in expanded
  {
    OverlappingFilesMembers(v[level], lo, hi);
    forall f | f in seed ensures f in expanded {
      assert f in v[level] && f.Valid();
      EntriesAreInRange(f, f.entries[0]);
    }
    if level == 0 {
      assert Spans(expanded, lo.value, hi.value) && expanded == OverlappingFiles(v[0], Some(lo.value), Some(hi.value));
    }
  }

  lemma SeedIsProper(v: Version, level: nat, seed: seq<File>, smallest: InternalKey, largest: InternalKey)
    requires ProperSeed(v, level, seed) && IsRange(seed, smallest, largest)
    ensures ProperInputs(v, level, seed, OverlappingFiles(v[level + 1], Some(smallest.user), Some(largest.user)),
                         smallest.user, largest.user)
  {
    if level == 0 {
      var lo, hi :| Spans(seed, lo, hi) && seed == OverlappingFiles(v[0], Some(lo), Some(hi));
      OverlappingFilesMembers(v[0], Some(lo), Some(hi));
      assert lo <= smallest.user && largest.user <= hi;
    }
  }

  // ----- One compaction under way -----

  // No file of the levels below the output level covers u.
  ghost predicate IsBaseLevel(v: Version, level: nat, u: UserKey) {
    forall l, f :: level + 2 <= l < NUM_LEVELS && f in v[l] ==> !f.Covers(u)
  }

  // Each cursor is past nothing but files that end before every key still to be asked.
  ghost predicate CursorsValid(v: Version, level: nat, ptrs: seq<nat>, lastAsked: Option<UserKey>) {
    && |ptrs| == NUM_LEVELS
    && forall l :: level + 2 <= l < NUM_LEVELS ==>
      && ptrs[l] <= |v[l]|
      && forall i :: 0 <= i < ptrs[l] ==> lastAsked.Some? && v[l][i].largest.user < lastAsked.value
  }

  class Compaction {
    const level: nat
    const inputVersion: Version
    const grandparents: seq<File>

    // For ShouldStopBefore
    var grandparentIndex: nat
    var seenKey: bool
    var overlappedBytes: nat

    // For IsBaseLevelForKey: a cursor into each level, past the files before every key asked.
    const levelPtrs: array<nat>
    ghost var lastAsked: Option<UserKey>

    ghost predicate Valid()
      reads this, levelPtrs
    {
      && level + 1 < NUM_LEVELS
      && levelPtrs.Length == NUM_LEVELS
      && grandparentIndex <= |grandparents|
      && Ordered(inputVersion)
      && CursorsValid(inputVersion, level, levelPtrs[..], lastAsked)
    }

    constructor (version: Version, level: nat, grandparents: seq<File>)
      requires level + 1 < NUM_LEVELS && Ordered(version)
      ensures Valid() && fresh(levelPtrs)
      ensures inputVersion == version && this.level == level && this.grandparents == grandparents
      ensures lastAsked == None && grandparentIndex == 0 && !seenKey && overlappedBytes == 0
    {
      this.inputVersion, this.level, this.grandparents := version, level, grandparents;
      grandparentIndex, seenKey, overlappedBytes := 0, false, 0;
      levelPtrs := new nat[NUM_LEVELS](_ => 0);
      lastAsked := None;
    }

    /** Whether no deeper level can hold u.  Keys must be asked in nondecreasing order: the
        cursors only move forward. */
    method IsBaseLevelForKey(u: UserKey) returns (r: bool)
      requires Valid()
      requires lastAsked.Some? ==> lastAsked.value <= u
      modifies this`lastAsked, levelPtrs
      ensures Valid()
      ensures lastAsked == Some(u)
      ensures r <==> IsBaseLevel(inputVersion, level, u)
    {
      lastAsked := Some(u);
      for lvl := level + 2 to NUM_LEVELS
        invariant Valid() && lastAsked == Some(u)
        invariant forall l, f :: level + 2 <= l < lvl && f in inputVersion[l] ==> !f.Covers(u)
      {
        var files := inputVersion[lvl];
        while levelPtrs[lvl] < |files|
          invariant Valid() && lastAsked == Some(u)
          decreases |files| - levelPtrs[lvl]
        {
          var f := files[levelPtrs[lvl]];
          if u <= f.largest.user {
            if u >= f.smallest.user {
              assert f in files && f.Covers(u);
              return false;
            }
            break;
          }
          levelPtrs[lvl] := levelPtrs[lvl] + 1;
        }
        KeyIsBetweenFiles(files, levelPtrs[lvl], u);
      }
      return true;
    }

    /** Whether to close the output file before k: too much data of level + 2 would overlap it. */
    method ShouldStopBefore(k: InternalKey) returns (r: bool)
      requires Valid()
      modifies this`grandparentIndex, this`seenKey, this`overlappedBytes
      ensures Valid()
      ensures forall i :: old(grandparentIndex) <= i < grandparentIndex ==> Before(grandparents[i].largest, k)
      ensures grandparentIndex < |grandparents| ==> !Before(grandparents[grandparentIndex].largest, k)
      ensures grandparentIndex >= old(grandparentIndex)
      ensures
        var passed := old(overlappedBytes) + if old(seenKey) then SizeOf(grandparents, old(grandparentIndex), grandparentIndex) else 0;
        && r == (passed > MAX_GRANDPARENT_OVERLAP_BYTES)
        && overlappedBytes == if r then 0 else passed
      ensures seenKey
    {
      ghost var start := grandparentIndex;
      while grandparentIndex < |grandparents| && Compare(k, grandparents[grandparentIndex].largest) > 0
        invariant start <= grandparentIndex <= |grandparents|
        invariant Valid()
        invariant forall i :: start <= i < grandparentIndex ==> Before(grandparents[i].largest, k)
        invariant overlappedBytes == old(overlappedBytes) + if seenKey then SizeOf(grandparents, start, grandparentIndex) else 0
        invariant seenKey == old(seenKey)
      {
        ComparePacksCorrectly(k, grandparents[grandparentIndex].largest);
        if seenKey {
          overlappedBytes := overlappedBytes + grandparents[grandparentIndex].size;
        }
        grandparentIndex := grandparentIndex + 1;
      }
      if grandparentIndex < |grandparents| {
        ComparePacksCorrectly(k, grandparents[grandparentIndex].largest);
      }
      seenKey := true;
      if overlappedBytes > MAX_GRANDPARENT_OVERLAP_BYTES {
        overlappedBytes := 0;
        return true;
      } else {
        return false;
      }
    }
  }

  lemma KeyIsBetweenFiles(files: seq<File>, p: nat, u: UserKey)
    requires ValidFiles(files) && Disjoint(files) && p <= |files|
    requires forall i :: 0 <= i < p ==> files[i].largest.user < u
    requires p < |files| ==> u < files[p].smallest.user
    ensures forall f :: f in files ==> !f.Covers(u)
  {
    forall i | p < i < |files|
      ensures files[p].smallest.user <= files[i].smallest.user
    {
      EntriesAreInRange(files[p], files[p].entries[0]);
    }
  }

  // ----- The drop loop -----

  // The entry before it in the merged input, for the same user key, is already as old as
  // the smallest snapshot: no reader can want entry i.
  predicate HiddenByPrevious(es: seq<Entry>, i: nat, smallestSnapshot: SequenceNumber)
    requires i < |es|
  {
    && i > 0
    && es[i - 1].key.Parses()
    && es[i - 1].key.user == es[i].key.user
    && es[i - 1].key.sequence <= smallestSnapshot
  }

  ghost predicate ObsoleteMarker(v: Version, level: nat, e: Entry, smallestSnapshot: SequenceNumber) {
    e.key.kind == DELETION && e.key.sequence <= smallestSnapshot && IsBaseLevel(v, level, e.key.user)
  }

  ghost predicate Dropped(v: Version, level: nat, es: seq<Entry>, i: nat, smallestSnapshot: SequenceNumber)
    requires i < |es|
  {
    es[i].key.Parses() && (HiddenByPrevious(es, i, smallestSnapshot) || ObsoleteMarker(v, level, es[i], smallestSnapshot))
  }

  ghost function Kept(v: Version, level: nat, es: seq<Entry>, n: nat, smallestSnapshot: SequenceNumber): seq<Entry>
    requires n <= |es|
  {
    if n == 0 then []
    else
      Kept(v, level, es, n - 1, smallestSnapshot)
      + (if Dropped(v, level, es, n - 1, smallestSnapshot) then [] else [es[n - 1]])
  }

  // The outputs written so far: tables in key order.
  ghost predicate ProperOutputs(outputs: seq<File>) {
    ValidFiles(outputs) && Disjoint(outputs)
  }

  // The number that a file gets when it is the i-th to be opened.
  type FileNumbers = nat -> nat

  ghost predicate Numbered(outputs: seq<File>, numberOf: FileNumbers) {
    forall i :: 0 <= i < |outputs| ==> outputs[i].number == numberOf(i)
  }

  ghost predicate AllBefore(files: seq<File>, k: InternalKey) {
    forall i :: 0 <= i < |files| ==> Before(files[i].largest, k)
  }

  lemma {:induction false} AppendIsProper(outputs: seq<File>, numberOf: FileNumbers, f: File)
    requires ProperOutputs(outputs) && f.Valid() && AllBefore(outputs, f.smallest)
    requires Numbered(outputs, numberOf) && f.number == numberOf(|outputs|)
    ensures ProperOutputs(outputs + [f]) && Numbered(outputs + [f], numberOf)
    ensures Flatten(outputs + [f]) == Flatten(outputs) + f.entries
  {
    assert (outputs + [f])[..|outputs|] == outputs;
  }

  lemma ExtendIsValid(f: File, e: Entry)
    requires f.Valid() && Before(f.largest, e.key) && e.key.sequence < MAX_SEQUENCE
    ensures f.(largest := e.key, entries := f.entries + [e]).Valid()
  {
    forall i | 0 <= i < |f.entries|
      ensures Before(f.entries[i].key, e.key)
    {
      EntriesAreInRange(f, f.entries[i]);
    }
  }

  /** The output side of a compaction: the tables already closed and the one being built. */
  class CompactionState {
    const numberOf: FileNumbers
    const fileSize: Sizes
    var outputs: seq<File>
    var current: Option<File>

    ghost predicate Valid()
      reads this
    {
      && ProperOutputs(outputs) && Numbered(outputs, numberOf)
      && (current.Some? ==>
            && current.value.Valid()
            && AllBefore(outputs, current.value.smallest)
            && current.value.number == numberOf(|outputs|))
    }

    // Everything written so far.
    ghost function Written(): seq<Entry>
      reads this
    {
      Flatten(outputs) + if current.Some? then current.value.entries else []
    }

    // Everything written so far comes before k.
    ghost predicate EndsBefore(k: InternalKey)
      reads this
    {
      AllBefore(outputs, k) && (current.Some? ==> Before(current.value.largest, k))
    }

    constructor (numberOf: FileNumbers, fileSize: Sizes)
      ensures Valid() && Written() == [] && outputs == [] && current == None
      ensures this.numberOf == numberOf && this.fileSize == fileSize
      ensures forall k :: EndsBefore(k)
    {
      this.numberOf, this.fileSize := numberOf, fileSize;
      outputs, current := [], None;
    }

    method FinishCompactionOutputFile()
      requires Valid() && current.Some?
      modifies this
      ensures Valid() && current == None
      ensures Written() == old(Written())
      ensures forall k :: old(EndsBefore(k)) ==> EndsBefore(k)
      ensures outputs == old(outputs) + [old(current).value.(size := fileSize(old(current).value.entries))]
    {
      var f := current.value.(size := fileSize(current.value.entries));
      AppendIsProper(outputs, numberOf, f);
      outputs := outputs + [f];
      current := None;
    }

    method Add(e: Entry, maxOutputFileSize: nat)
      requires Valid() && EndsBefore(e.key) && e.key.sequence < MAX_SEQUENCE
      modifies this
      ensures Valid()
      ensures Written() == old(Written()) + [e]
      ensures forall k :: Before(e.key, k) ==> EndsBefore(k)
      ensures
        var f := Extended(old(current), numberOf(|old(outputs)|), e);
        if fileSize(f.entries) < maxOutputFileSize then outputs == old(outputs) && current == Some(f)
        else outputs == old(outputs) + [f.(size := fileSize(f.entries))] && current == None
    {
      if current.None? {
        current := Some(File(numberOf(|outputs|), 0, e.key, e.key, [e]));
      } else {
        ExtendIsValid(current.value, e);
        current := Some(current.value.(largest := e.key, entries := current.value.entries + [e]));
      }
      var f := current.value;
      assert f.entries[0] in f.entries;
      EntriesAreInRange(f, f.entries[0]);
      if fileSize(current.value.entries) >= maxOutputFileSize {
        FinishCompactionOutputFile();
      }
    }
  }

  // The grandparents passed and the bytes overlapped are those counted when i entries have been asked for.
  ghost predicate CountsTo(c: Compaction, input: seq<Entry>, i: nat)
    requires i <= |input|
    reads c
  {
    && c.seenKey == (i > 0)
    && c.grandparentIndex == (if i == 0 then 0 else FirstFrom(c.grandparents, input[i - 1].key))
    && c.overlappedBytes == (if i == 0 then 0 else Counted(c.grandparents, input, i - 1))
  }

  lemma {:induction false} FirstFromIs(files: seq<File>, k: InternalKey, i: nat)
    requires i <= |files| && (forall j :: 0 <= j < i ==> Before(files[j].largest, k)) && (i < |files| ==> !Before(files[i].largest, k))
    ensures FirstFrom(files, k) == i
  {
    if i > 0 {
      FirstFromIs(files[1..], k, i - 1);
    }
  }

  method StopsAtEntry(c: Compaction, ghost input: seq<Entry>, ghost i: nat, k: InternalKey) returns (r: bool)
    requires c.Valid() && Sorted(input) && i < |input| && k == input[i].key && CountsTo(c, input, i)
    modifies c`grandparentIndex, c`seenKey, c`overlappedBytes
    ensures c.Valid() && CountsTo(c, input, i + 1) && r == Stops(c.grandparents, input, i)
  {
    r := c.ShouldStopBefore(k);
    if i == 0 {
      CountFirst(c.grandparents, input);
    } else {
      CountOneMore(c.grandparents, input, i);
      InOrder(input, i - 1, i);
    }
    FirstFromIs(c.grandparents, k, c.grandparentIndex);
  }

  // What has been written is cut right, after i entries have been asked for.
  ghost predicate CutsTo(c: Compaction, compact: CompactionState, input: seq<Entry>, i: nat, maxOutputFileSize: nat)
    requires i <= |input|
    reads c, compact
  {
    && CountsTo(c, input, i)
    && Cutting(StopKeys(c.grandparents, input, i), compact.outputs, compact.current, compact.fileSize, maxOutputFileSize)
  }

  // Closes the open table if it must not go on over entry i.
  method StopBefore(c: Compaction, compact: CompactionState, ghost input: seq<Entry>, ghost i: nat, k: InternalKey,
                    ghost maxOutputFileSize: nat)
    requires c.Valid() && compact.Valid() && Sorted(input) && i < |input| && k == input[i].key
    requires compact.EndsBefore(k) && CutsTo(c, compact, input, i, maxOutputFileSize)
    modifies c`grandparentIndex, c`seenKey, c`overlappedBytes, compact
    ensures c.Valid() && compact.Valid() && compact.Written() == old(compact.Written())
    ensures compact.EndsBefore(k) && CutsTo(c, compact, input, i + 1, maxOutputFileSize)
  {
    var stop := StopsAtEntry(c, input, i, k);
    NextStopKeys(c.grandparents, input, i);
    if stop {
      CloseBefore(compact, StopKeys(c.grandparents, input, i), k, maxOutputFileSize);
    }
  }

  method CloseBefore(compact: CompactionState, ghost stops: set<InternalKey>, ghost k: InternalKey, ghost maxOutputFileSize: nat)
    requires compact.Valid() && compact.EndsBefore(k)
    requires Cutting(stops, compact.outputs, compact.current, compact.fileSize, maxOutputFileSize)
    modifies compact
    ensures compact.Valid() && compact.EndsBefore(k) && compact.Written() == old(compact.Written())
    ensures Cutting(stops + {k}, compact.outputs, compact.current, compact.fileSize, maxOutputFileSize)
  {
    if compact.current.Some? {
      ghost var f := compact.current.value;
      StopCloses(stops, k, compact.outputs, f, compact.fileSize(f.entries), compact.fileSize, maxOutputFileSize);
      compact.FinishCompactionOutputFile();
    } else {
      StopWithout(stops, k, compact.outputs, compact.fileSize, maxOutputFileSize);
    }
  }

  // What the drop loop remembers: the user key and sequence number of the previous entry.
  datatype Previous = Previous(userKey: Option<UserKey>, sequence: SequenceNumber) {
    predicate Describes(input: seq<Entry>, i: nat)
      requires i <= |input|
    {
      if i == 0 || !input[i - 1].key.Parses() then this == Previous(None, MAX_SEQUENCE)
      else this == Previous(Some(input[i - 1].key.user), input[i - 1].key.sequence)
    }
  }

  // Handles entry i: whether to drop it, and what to remember of it.
  method Decide(c: Compaction, ghost input: seq<Entry>, ghost i: nat, e: Entry, smallestSnapshot: SequenceNumber, previous: Previous)
    returns (drop: bool, now: Previous)
    requires c.Valid() && i < |input| && e == input[i] && smallestSnapshot < MAX_SEQUENCE
    requires c.lastAsked.Some? ==> c.lastAsked.value <= e.key.user
    requires previous.Describes(input, i)
    modifies c`lastAsked, c.levelPtrs
    ensures c.Valid()
    ensures c.lastAsked == old(c.lastAsked) || c.lastAsked == Some(e.key.user)
    ensures drop == Dropped(c.inputVersion, c.level, input, i, smallestSnapshot)
    ensures now.Describes(input, i + 1)
  {
    if !e.key.Parses() {
      // A key that does not parse hides nothing.
      return false, Previous(None, MAX_SEQUENCE);
    }
    var lastSequenceForKey := previous.sequence;
    if previous.userKey != Some(e.key.user) {
      // A user key met for the first time.
      lastSequenceForKey := MAX_SEQUENCE;
    }
    drop := false;
    if lastSequenceForKey <= smallestSnapshot {
      // Hidden by a newer entry for the same user key
      drop := true;
    } else if e.key.kind == DELETION && e.key.sequence <= smallestSnapshot {
      drop := c.IsBaseLevelForKey(e.key.user);
    }
    now := Previous(Some(e.key.user), e.key.sequence);
  }

  method ProcessEntry(c: Compaction, compact: CompactionState, input: seq<Entry>, i: nat,
                      smallestSnapshot: SequenceNumber, maxOutputFileSize: nat, previous: Previous) returns (now: Previous)
    requires c.Valid() && compact.Valid() && Sorted(input)
    requires i < |input| && input[i].key.sequence < MAX_SEQUENCE && smallestSnapshot < MAX_SEQUENCE
    requires c.lastAsked.Some? ==> c.lastAsked.value <= input[i].key.user
    requires compact.EndsBefore(input[i].key) && CutsTo(c, compact, input, i, maxOutputFileSize)
    requires previous.Describes(input, i)
    modifies c, c.levelPtrs, compact
    ensures c.Valid() && compact.Valid()
    ensures c.lastAsked == old(c.lastAsked) || c.lastAsked == Some(input[i].key.user)
    ensures compact.Written() == old(compact.Written()) +
              if Dropped(c.inputVersion, c.level, input, i, smallestSnapshot) then [] else [input[i]]
    ensures forall k :: Before(input[i].key, k) ==> compact.EndsBefore(k)
    ensures CutsTo(c, compact, input, i + 1, maxOutputFileSize)
    ensures now.Describes(input, i + 1)
  {
    var e := input[i];
    StopBefore(c, compact, input, i, e.key, maxOutputFileSize);
    var drop;
    drop, now := Decide(c, input, i, e, smallestSnapshot, previous);
    if !drop {
      WriteEntry(c, compact, input, i, e, maxOutputFileSize);
    }
  }

  method WriteEntry(c: Compaction, compact: CompactionState, ghost input: seq<Entry>, ghost i: nat, e: Entry, maxOutputFileSize: nat)
    requires compact.Valid() && Sorted(input) && i < |input| && e == input[i] && e.key.sequence < MAX_SEQUENCE
    requires compact.EndsBefore(e.key) && CutsTo(c, compact, input, i + 1, maxOutputFileSize)
    modifies compact
    ensures compact.Valid() && compact.Written() == old(compact.Written()) + [e]
    ensures forall k :: Before(e.key, k) ==> compact.EndsBefore(k)
    ensures CutsTo(c, compact, input, i + 1, maxOutputFileSize)
  {
    StopKeysAreBefore(c.grandparents, input, i + 1);
    OutputCuts.Written(StopKeys(c.grandparents, input, i + 1), compact.outputs, compact.current,
                       compact.numberOf(|compact.outputs|), e, compact.fileSize, maxOutputFileSize);
    compact.Add(e, maxOutputFileSize);
  }

  lemma NextInOrder(input: seq<Entry>, i: nat)
    requires Sorted(input) && i + 1 < |input|
    ensures Before(input[i].key, input[i + 1].key) && input[i].key.user <= input[i + 1].key.user
  {
  }

  // What the loop has done when it comes to entry i.
  ghost predicate Handled(c: Compaction, compact: CompactionState, input: seq<Entry>, i: nat,
                          smallestSnapshot: SequenceNumber, maxOutputFileSize: nat, previous: Previous)
    requires i <= |input|
    reads c, c.levelPtrs, compact
  {
    && c.Valid() && compact.Valid()
    && (i < |input| ==> compact.EndsBefore(input[i].key))
    && (i < |input| && c.lastAsked.Some? ==> c.lastAsked.value <= input[i].key.user)
    && compact.Written() == Kept(c.inputVersion, c.level, input, i, smallestSnapshot)
    && CutsTo(c, compact, input, i, maxOutputFileSize)
    && previous.Describes(input, i)
  }

  lemma NothingHandled(c: Compaction, compact: CompactionState, input: seq<Entry>, smallestSnapshot: SequenceNumber,
                       maxOutputFileSize: nat)
    requires c.Valid() && c.lastAsked == None && CountsTo(c, [], 0)
    requires compact.Valid() && compact.outputs == [] && compact.current == None
    ensures Handled(c, compact, input, 0, smallestSnapshot, maxOutputFileSize, Previous(None, MAX_SEQUENCE))
  {
    assert compact.Written() == [] + [];
  }

  lemma HandledOneMore(c: Compaction, compact: CompactionState, input: seq<Entry>, i: nat, smallestSnapshot: SequenceNumber,
                       maxOutputFileSize: nat, now: Previous)
    requires i < |input| && Sorted(input) && c.Valid() && compact.Valid()
    requires c.lastAsked.Some? ==> c.lastAsked.value <= input[i].key.user
    requires forall k :: Before(input[i].key, k) ==> compact.EndsBefore(k)
    requires compact.Written() == Kept(c.inputVersion, c.level, input, i + 1, smallestSnapshot)
    requires CutsTo(c, compact, input, i + 1, maxOutputFileSize) && now.Describes(input, i + 1)
    ensures Handled(c, compact, input, i + 1, smallestSnapshot, maxOutputFileSize, now)
  {
    if i + 1 < |input| {
      NextInOrder(input, i);
    }
  }

  method ProcessNext(c: Compaction, compact: CompactionState, input: seq<Entry>, i: nat,
                     smallestSnapshot: SequenceNumber, maxOutputFileSize: nat, previous: Previous) returns (next: nat, now: Previous)
    requires i < |input| && Sorted(input) && input[i].key.sequence < MAX_SEQUENCE && smallestSnapshot < MAX_SEQUENCE
    requires Handled(c, compact, input, i, smallestSnapshot, maxOutputFileSize, previous)
    modifies c, c.levelPtrs, compact
    ensures next == i + 1 && Handled(c, compact, input, next, smallestSnapshot, maxOutputFileSize, now)
  {
    now := ProcessEntry(c, compact, input, i, smallestSnapshot, maxOutputFileSize, previous);
    HandledOneMore(c, compact, input, i, smallestSnapshot, maxOutputFileSize, now);
    next := i + 1;
  }

  // Handles every entry, and leaves the last table open.
  method ProcessInput(c: Compaction, compact: CompactionState, input: seq<Entry>, smallestSnapshot: SequenceNumber,
                      maxOutputFileSize: nat, first: Previous) returns (i: nat, previous: Previous)
    requires Handled(c, compact, input, 0, smallestSnapshot, maxOutputFileSize, first)
    requires Sorted(input) && smallestSnapshot < MAX_SEQUENCE
    requires forall j :: 0 <= j < |input| ==> input[j].key.sequence < MAX_SEQUENCE
    modifies c, c.levelPtrs, compact
    ensures i == |input| && Handled(c, compact, input, i, smallestSnapshot, maxOutputFileSize, previous)
  {
    i, previous := 0, first;
    while i < |input|
      invariant i <= |input|
      invariant Handled(c, compact, input, i, smallestSnapshot, maxOutputFileSize, previous)
    {
      i, previous := ProcessNext(c, compact, input, i, smallestSnapshot, maxOutputFileSize, previous);
    }
  }

  /** Merges the input into new tables, dropping the entries that no live snapshot can see. */
  method DoCompactionWork(c: Compaction, compact: CompactionState, input: seq<Entry>, smallestSnapshot: SequenceNumber,
                          maxOutputFileSize: nat)
    requires c.Valid() && c.lastAsked == None && CountsTo(c, [], 0)
    requires compact.Valid() && compact.outputs == [] && compact.current == None
    requires Sorted(input) && smallestSnapshot < MAX_SEQUENCE
    requires forall j :: 0 <= j < |input| ==> input[j].key.sequence < MAX_SEQUENCE
    modifies c, c.levelPtrs, compact
    ensures compact.current == None
    ensures ProperOutputs(compact.outputs) && Numbered(compact.outputs, compact.numberOf)
    ensures Flatten(compact.outputs) == Kept(c.inputVersion, c.level, input, |input|, smallestSnapshot)
    ensures WellCut(StopKeys(c.grandparents, input, |input|), compact.outputs, compact.fileSize, maxOutputFileSize)
  {
    NothingHandled(c, compact, input, smallestSnapshot, maxOutputFileSize);
    var _, _ := ProcessInput(c, compact, input, smallestSnapshot, maxOutputFileSize, Previous(None, MAX_SEQUENCE));
    if compact.current.Some? {
      var f := compact.current.value;
      TableClosed(StopKeys(c.grandparents, input, |input|), compact.outputs, f, compact.fileSize(f.entries), compact.fileSize,
             maxOutputFileSize);
      compact.FinishCompactionOutputFile();
    }
  }
}
