/** Versions on which a compaction goes wrong, or nearly: each is a case that the theorems leave out. */
module CompactionExamples {
  import opened Primitives
  import opened InternalKeys
  import opened Versions
  import opened LevelEdits
  import opened Compactions
  import opened OutputCuts
  import opened CompactionSafety

  function Put(u: UserKey, s: SequenceNumber, value: Bytes): Entry {
    Entry(InternalKey(u, s, VALUE), value)
  }

  function OneEntryFile(number: nat, u: UserKey, s: SequenceNumber, value: Bytes): File {
    var e := Put(u, s, value);
    File(number, 1, e.key, e.key, [e])
  }

  function TwoEntryFile(number: nat, a: Entry, b: Entry): File {
    File(number, 2, a.key, b.key, [a, b])
  }

  /** What a merge is started on, and what it writes: the premises under which the theorems say when
      it goes wrong. */
  ghost predicate IsMerge(v: Version, level: nat, inputs0: seq<File>, inputs1: seq<File>, lo: UserKey, hi: UserKey,
                          input: seq<Entry>, outputs: seq<File>, m: SequenceNumber)
  {
    && Layered(v) && Intact(Contents(v)) && UniqueSequences(Contents(v))
    && ProperInputs(v, level, inputs0, inputs1, lo, hi)
    && Sorted(input) && Elements(input) == InputEntries(inputs0, inputs1)
    && ProperOutputs(outputs) && Flatten(outputs) == Kept(v, level, input, |input|, m)
  }

  // ----- Small lists of files -----

  lemma OneFile(f: File)
    ensures LevelContents([f]) == Elements(f.entries)
    ensures Without([f], [f]) == [] && Without([f], []) == [f] && InsertFile([], f) == [f] && InsertFiles([], [f]) == [f]
    ensures Flatten([f]) == f.entries
  {
    assert f in [f] && [f][1..] == [] && [f][..0] == [];
    assert Flatten([f]) == [] + f.entries == f.entries;
    assert InsertFiles([], [f]) == InsertFile(InsertFiles([], []), f);
  }

  lemma TwoFiles(f: File, g: File)
    requires f != g
    ensures LevelContents([f, g]) == Elements(f.entries) + Elements(g.entries)
    ensures Without([f, g], [f]) == [g] && Without([f, g], [f, g]) == []
    ensures Flatten([f, g]) == f.entries + g.entries
  {
    assert f in [f, g] && g in [f, g] && [f, g][1..] == [g] && [f, g][..1] == [f] && [g][1..] == [];
    assert Without([g], [f]) == [g] + Without([], [f]) && Without([g], [f, g]) == Without([], [f, g]);
    OneFile(f);
  }

  lemma InsertedBefore(f: File, g: File)
    requires BySmallest(f, g)
    ensures InsertFiles([g], [f]) == [f, g]
  {
    assert [f][..0] == [];
    assert InsertFiles([g], [f]) == InsertFile(InsertFiles([g], []), f) == [f] + [g];
  }

  lemma InsertedAfter(f: File, g: File)
    requires !BySmallest(g, f)
    ensures InsertFiles([], [f, g]) == [f, g]
  {
    OneFile(f);
    OneFile(g);
    assert [f, g][..1] == [f] && [f][1..] == [];
    assert InsertFiles([], [f, g]) == InsertFile([f], g) == [f] + InsertFile([], g);
  }

  // A version with two levels in use.
  lemma TwoLevels(v: Version, l: nat, m: nat)
    requires l < NUM_LEVELS && m < NUM_LEVELS && forall k :: 0 <= k < NUM_LEVELS && k != l && k != m ==> v[k] == []
    ensures Contents(v) == LevelContents(v[l]) + LevelContents(v[m])
  {
    forall e | e in Contents(v)
      ensures e in LevelContents(v[l]) + LevelContents(v[m])
    {
      var k :| 0 <= k < NUM_LEVELS && e in LevelContents(v[k]);
    }
  }

  // ----- Versions with few levels in use -----

  lemma NothingIsNewer(es: set<Entry>, files: seq<File>)
    requires files == []
    ensures Newer(es, LevelContents(files)) && Newer(LevelContents(files), es)
  {
  }

  // A version with files in levels 0 to 2.
  function ThreeLevels(a: seq<File>, b: seq<File>, c: seq<File>): Version {
    [a, b, c, [], [], [], []]
  }

  lemma ThreeLevelsAre(v: Version, a: seq<File>, b: seq<File>, c: seq<File>)
    requires v == ThreeLevels(a, b, c)
    ensures v[0] == a && v[1] == b && v[2] == c && forall l :: 3 <= l < NUM_LEVELS ==> v[l] == []
  {
  }

  lemma ThreeLevelsAreNewer(v: Version, l: nat, m: nat)
    requires forall k :: 3 <= k < NUM_LEVELS ==> v[k] == []
    requires Newer(LevelContents(v[0]), LevelContents(v[1])) && Newer(LevelContents(v[0]), LevelContents(v[2]))
    requires Newer(LevelContents(v[1]), LevelContents(v[2])) && l < m < NUM_LEVELS
    ensures Newer(LevelContents(v[l]), LevelContents(v[m]))
  {
    if m > 2 {
      NothingIsNewer(LevelContents(v[l]), v[m]);
    }
  }

  lemma ThreeLevelsAreLayered(v: Version, a: seq<File>, b: seq<File>, c: seq<File>)
    requires v == ThreeLevels(a, b, c) && ValidFiles(a) && ValidFiles(b) && ValidFiles(c) && Disjoint(b) && Disjoint(c)
    requires NewerByNumber(a) && Newer(LevelContents(a), LevelContents(b)) && Newer(LevelContents(a), LevelContents(c))
    requires Newer(LevelContents(b), LevelContents(c))
    ensures Layered(v)
  {
    ThreeLevelsAre(v, a, b, c);
    ThreeLevelsAreOrdered(v);
    forall l, m | 0 <= l < m < NUM_LEVELS
      ensures Newer(LevelContents(v[l]), LevelContents(v[m]))
    {
      ThreeLevelsAreNewer(v, l, m);
    }
  }

  lemma ThreeLevelsAreOrdered(v: Version)
    requires forall k :: 3 <= k < NUM_LEVELS ==> v[k] == []
    requires ValidFiles(v[0]) && ValidFiles(v[1]) && ValidFiles(v[2]) && Disjoint(v[1]) && Disjoint(v[2])
    ensures Ordered(v)
  {
  }

  lemma KeptTwo(v: Version, level: nat, a: Entry, b: Entry, m: SequenceNumber)
    requires a.key.kind == VALUE && b.key.kind == VALUE && (a.key.user != b.key.user || a.key.sequence > m)
    ensures Kept(v, level, [a, b], 2, m) == [a, b]
  {
    assert Kept(v, level, [a, b], 1, m) == Kept(v, level, [a, b], 0, m) + [a];
    assert Kept(v, level, [a, b], 2, m) == Kept(v, level, [a, b], 1, m) + [b];
  }

  // ----- A user key split between two files -----

  // Key 0.0 is written at 7 and at 5.  Table whole of level 0 has both writes; first and second have one each.
  datatype SplitExample = SplitExample(whole: File, first: File, second: File) {
    predicate Valid() {
      && first == OneEntryFile(1, 0.0, 7, [7]) && second == OneEntryFile(2, 0.0, 5, [5])
      && whole == TwoEntryFile(3, Put(0.0, 7, [7]), Put(0.0, 5, [5]))
    }

    function Start(): Version {
      ThreeLevels([whole], [], [])
    }

    function Cut(): Version {
      ThreeLevels([], [first, second], [])
    }

    function Moved(): Version {
      ThreeLevels([], [second], [first])
    }

    lemma ContentsAre()
      requires Valid()
      ensures Elements(whole.entries) == LevelContents([whole]) == LevelContents([first, second]) == {Put(0.0, 7, [7]), Put(0.0, 5, [5])}
      ensures Contents(Start()) == Contents(Moved()) == {Put(0.0, 7, [7]), Put(0.0, 5, [5])}
    {
      OneFile(whole);
      OneFile(first);
      OneFile(second);
      TwoFiles(first, second);
      TwoLevels(Start(), 0, 0);
      TwoLevels(Moved(), 1, 2);
    }

    lemma WholeIsIntact()
      requires Valid()
      ensures Intact(Contents(Start())) && UniqueSequences(Contents(Start()))
    {
      ContentsAre();
    }

    lemma WholeIsLayered()
      requires Valid()
      ensures Layered(Start())
    {
      NothingIsNewer(LevelContents([whole]), []);
      NothingIsNewer(LevelContents([]), []);
      assert ValidFiles([whole]);
      ThreeLevelsAreLayered(Start(), [whole], [], []);
    }

    lemma WholeIsProper()
      requires Valid()
      ensures ProperInputs(Start(), 0, [whole], [], 0.0, 0.0)
    {
      assert whole in [whole];
    }

    lemma WholeIsInput()
      requires Valid()
      ensures Sorted(whole.entries) && Elements(whole.entries) == InputEntries([whole], [])
    {
      ContentsAre();
    }

    lemma WholeIsKept()
      requires Valid()
      ensures Kept(Start(), 0, whole.entries, 2, 5) == [Put(0.0, 7, [7]), Put(0.0, 5, [5])]
    {
      KeptTwo(Start(), 0, Put(0.0, 7, [7]), Put(0.0, 5, [5]), 5);
    }

    lemma HalvesAreOutputs()
      requires Valid()
      ensures ProperOutputs([first, second]) && Flatten([first, second]) == [Put(0.0, 7, [7]), Put(0.0, 5, [5])]
    {
      TwoFiles(first, second);
    }

    lemma HalvesAreCut(count: Sizes)
      requires Valid() && forall es :: count(es) == |es|
      ensures WellCut({}, [first, second], count, 1)
    {
    }

    lemma HalvesAreInstalled()
      requires Valid()
      ensures Installed(Start(), 0, [whole], [], [first, second]) == Cut()
    {
      OneFile(whole);
      InsertedAfter(first, second);
    }

    lemma HalvesAreValid()
      requires Valid()
      ensures ValidFiles([first, second]) && Disjoint([first, second])
    {
    }

    lemma CutIsLayered()
      requires Valid()
      ensures Layered(Cut())
    {
      HalvesAreValid();
      NothingIsNewer(LevelContents([first, second]), []);
      NothingIsNewer(LevelContents([]), []);
      ThreeLevelsAreLayered(Cut(), [], [first, second], []);
    }

    lemma FirstIsProper()
      requires Valid()
      ensures ProperInputs(Cut(), 1, [first], [], 0.0, 0.0)
    {
      assert first in [first, second] && Cut()[2] == [];
    }

    lemma IsMoved()
      requires Valid()
      ensures Installed(Cut(), 1, [first], [], [first]) == Moved()
    {
      OneFile(first);
      TwoFiles(first, second);
    }

    lemma LookupIsOld()
      requires Valid()
      ensures Read({Put(0.0, 7, [7]), Put(0.0, 5, [5])}, 0.0, 9) == Some([7])
      ensures SaveValue(TableGet(second, LookupKey(0.0, 9)), 0.0) == KeyFound([5])
    {
      ReadNewest({Put(0.0, 7, [7]), Put(0.0, 5, [5])}, 0.0, 9, Put(0.0, 7, [7]));
      assert FirstAtOrAfter(second.entries, LookupKey(0.0, 9)) == 0;
    }

    lemma SearchIsSecond()
      requires Valid()
      ensures Moved()[0] == [] && SearchPlan(Moved(), 1, [second], 0.0, 9)
    {
    }
  }

  lemma {:induction false} NoStops(es: seq<Entry>, n: nat)
    requires n <= |es|
    ensures StopKeys([], es, n) == {}
  {
    if n > 0 {
      NoStops(es, n - 1);
      assert BytesBetween([], es[Since([], es, n - 1)].key, es[n - 1].key) == 0;
    }
  }

  function Split(): (x: SplitExample)
    ensures x.Valid()
  {
    SplitExample(TwoEntryFile(3, Put(0.0, 7, [7]), Put(0.0, 5, [5])), OneEntryFile(1, 0.0, 7, [7]), OneEntryFile(2, 0.0, 5, [5]))
  }

  /** A live snapshot at 5 keeps both writes of the key, and the outputs of a merge from level 0 are cut
      between them where tables are closed after each entry. */
  lemma MergeMayCutInsideAKey(x: SplitExample, count: Sizes)
    requires x == Split() && forall es :: count(es) == |es|
    ensures IsMerge(x.Start(), 0, [x.whole], [], 0.0, 0.0, x.whole.entries, [x.first, x.second], 5)
    ensures WellCut(StopKeys([], x.whole.entries, 2), [x.first, x.second], count, 1)
    ensures Installed(x.Start(), 0, [x.whole], [], [x.first, x.second]) == x.Cut()
  {
    x.WholeIsIntact();
    x.WholeIsLayered();
    x.WholeIsProper();
    x.WholeIsInput();
    x.WholeIsKept();
    x.HalvesAreOutputs();
    x.HalvesAreCut(count);
    NoStops(x.whole.entries, 2);
    x.HalvesAreInstalled();
  }

  /** The version that leaves is layered, and the first of the two tables a proper input for a trivial move.
      After the move the search of level 1 is over the table left behind, which answers with the older value. */
  lemma MovingHalfAKeyServesTheOlderValue(x: SplitExample)
    requires x == Split()
    ensures Layered(x.Cut()) && ProperInputs(x.Cut(), 1, [x.first], [], 0.0, 0.0)
    ensures Installed(x.Cut(), 1, [x.first], [], [x.first]) == x.Moved()
    ensures Read(Contents(x.Moved()), 0.0, 9) == Some([7])
    ensures x.Moved()[0] == [] && SearchPlan(x.Moved(), 1, [x.second], 0.0, 9)
    ensures SaveValue(TableGet(x.second, LookupKey(0.0, 9)), 0.0) == KeyFound([5])
  {
    x.CutIsLayered();
    x.FirstIsProper();
    x.IsMoved();
    x.ContentsAre();
    x.LookupIsOld();
    x.SearchIsSecond();
  }

  // ----- A merge that drops a marker and leaves what it deletes -----

  // Key 0.0 is put at 7 and 9, key 1.0 is put at 5 and deleted at 6.
  datatype MarkerExample = MarkerExample(newValue: Entry, oldValue: Entry, marker: Entry, deleted: Entry,
                                         top: File, front: File, back: File, merged: File)
  {
    predicate Valid() {
      && newValue == Put(0.0, 9, [9]) && oldValue == Put(0.0, 7, [7])
      && marker == Entry(InternalKey(1.0, 6, DELETION), []) && deleted == Put(1.0, 5, [5])
      && top == File(1, 1, newValue.key, newValue.key, [newValue]) && front == TwoEntryFile(2, oldValue, marker)
      && back == File(3, 1, deleted.key, deleted.key, [deleted])
      && merged == File(4, 1, newValue.key, newValue.key, [newValue])
    }

    // Level 2 is cut between the marker and the value it deletes.
    function Start(): Version {
      ThreeLevels([], [top], [front, back])
    }

    function Input(): seq<Entry> {
      [newValue, oldValue, marker]
    }

    lemma ContentsAre()
      requires Valid()
      ensures LevelContents([top]) == {newValue} && LevelContents([front]) == {oldValue, marker}
      ensures LevelContents([front, back]) == {oldValue, marker, deleted}
      ensures Contents(Start()) == {newValue, oldValue, marker, deleted}
    {
      OneFile(top);
      OneFile(front);
      TwoFiles(front, back);
      TwoLevels(Start(), 1, 2);
    }

    lemma FilesAreValid()
      requires Valid()
      ensures ValidFiles([top]) && ValidFiles([front, back]) && Disjoint([front, back])
    {
    }

    lemma TopIsNewer()
      requires Valid()
      ensures Newer(LevelContents([top]), LevelContents([front, back]))
    {
      ContentsAre();
    }

    lemma IsLayered()
      requires Valid()
      ensures Layered(Start())
    {
      FilesAreValid();
      TopIsNewer();
      NothingIsNewer(LevelContents([top]), []);
      NothingIsNewer(LevelContents([front, back]), []);
      ThreeLevelsAreLayered(Start(), [], [top], [front, back]);
    }

    lemma IsProper()
      requires Valid()
      ensures ProperInputs(Start(), 1, [top], [front], 0.0, 0.0)
    {
      assert top in [top];
      assert [front, back][..1] == [front] && [front][..0] == [];
      assert OverlappingFiles([front], Some(0.0), Some(0.0)) == OverlappingFiles([], Some(0.0), Some(0.0)) + [front];
    }

    lemma KeepsNewValue()
      requires Valid()
      ensures Kept(Start(), 1, Input(), 3, 9) == [newValue]
    {
      var v, input := Start(), Input();
      assert Kept(v, 1, input, 1, 9) == Kept(v, 1, input, 0, 9) + [newValue];
      assert HiddenByPrevious(input, 1, 9) && ObsoleteMarker(v, 1, marker, 9);
      assert Kept(v, 1, input, 2, 9) == Kept(v, 1, input, 1, 9) + [];
      assert Kept(v, 1, input, 3, 9) == Kept(v, 1, input, 2, 9) + [];
    }

    lemma IsInstalled()
      requires Valid()
      ensures Contents(Installed(Start(), 1, [top], [front], [merged])) == {newValue, deleted}
    {
      OneFile(top);
      TwoFiles(front, back);
      InsertedBefore(merged, back);
      TwoFiles(merged, back);
      TwoLevels(Installed(Start(), 1, [top], [front], [merged]), 2, 2);
    }

    lemma InputIsMerged()
      requires Valid()
      ensures Sorted(Input()) && Elements(Input()) == InputEntries([top], [front])
    {
      ContentsAre();
    }

    lemma MergedIsOutput()
      requires Valid()
      ensures ProperOutputs([merged]) && Flatten([merged]) == [newValue]
    {
      OneFile(merged);
    }

    lemma EntriesAreIntact()
      requires Valid()
      ensures Intact(Contents(Start())) && UniqueSequences(Contents(Start()))
    {
      ContentsAre();
    }

    lemma IsMerged()
      requires Valid()
      ensures IsMerge(Start(), 1, [top], [front], 0.0, 0.0, Input(), [merged], 9)
    {
      IsLayered();
      EntriesAreIntact();
      IsProper();
      InputIsMerged();
      MergedIsOutput();
      KeepsNewValue();
    }

    lemma ReadsDiffer()
      requires Valid()
      ensures Read({newValue, oldValue, marker, deleted}, 1.0, 9) == None && Read({newValue, deleted}, 1.0, 9) == Some([5])
    {
      ReadNewest({newValue, oldValue, marker, deleted}, 1.0, 9, marker);
      ReadNewest({newValue, deleted}, 1.0, 9, deleted);
    }
  }

  function Uncovering(): (x: MarkerExample)
    ensures x.Valid()
  {
    var newValue, oldValue := Put(0.0, 9, [9]), Put(0.0, 7, [7]);
    var marker, deleted := Entry(InternalKey(1.0, 6, DELETION), []), Put(1.0, 5, [5]);
    MarkerExample(newValue, oldValue, marker, deleted, OneEntryFile(1, 0.0, 9, [9]), TwoEntryFile(2, oldValue, marker),
                  OneEntryFile(3, 1.0, 5, [5]), OneEntryFile(4, 0.0, 9, [9]))
  }

  /** The loop takes the marker for obsolete, for nothing deeper covers its key, and the value it deletes,
      left behind in the next file of the same level, is read again. */
  lemma MergeUncoversADeletedValue(x: MarkerExample)
    requires x == Uncovering()
    ensures IsMerge(x.Start(), 1, [x.top], [x.front], 0.0, 0.0, x.Input(), [x.merged], 9)
    ensures Read(Contents(x.Start()), 1.0, 9) == None
    ensures Read(Contents(Installed(x.Start(), 1, [x.top], [x.front], [x.merged])), 1.0, 9) == Some([5])
  {
    x.IsMerged();
    x.ContentsAre();
    x.IsInstalled();
    x.ReadsDiffer();
  }

  // ----- A flush between two inputs -----

  // Tables low and high of level 1 are merged into spanning; between holds a key that lies between theirs.
  datatype GapExample = GapExample(low: File, high: File, between: File, spanning: File) {
    predicate Valid() {
      && low == OneEntryFile(1, 0.0, 1, [1]) && high == OneEntryFile(2, 9.0, 2, [2]) && between == OneEntryFile(3, 5.0, 3, [3])
      && spanning == TwoEntryFile(4, Put(0.0, 1, [1]), Put(9.0, 2, [2]))
    }

    function Start(): Version {
      ThreeLevels([], [low, high], [])
    }

    lemma ContentsAre()
      requires Valid()
      ensures LevelContents([low, high]) == Elements(spanning.entries) == {Put(0.0, 1, [1]), Put(9.0, 2, [2])}
      ensures Contents(Start()) == {Put(0.0, 1, [1]), Put(9.0, 2, [2])}
      ensures InputEntries([low, high], []) == {Put(0.0, 1, [1]), Put(9.0, 2, [2])}
    {
      TwoFiles(low, high);
      TwoLevels(Start(), 1, 1);
    }

    lemma IsIntact()
      requires Valid()
      ensures Intact(Contents(Start())) && UniqueSequences(Contents(Start()))
    {
      ContentsAre();
    }

    lemma FilesAreValid()
      requires Valid()
      ensures ValidFiles([low, high]) && Disjoint([low, high])
    {
    }

    lemma IsLayered()
      requires Valid()
      ensures Layered(Start())
    {
      FilesAreValid();
      NothingIsNewer(LevelContents([low, high]), []);
      NothingIsNewer(LevelContents([]), []);
      ThreeLevelsAreLayered(Start(), [], [low, high], []);
    }

    lemma IsProper()
      requires Valid()
      ensures ProperInputs(Start(), 1, [low, high], [], 0.0, 9.0)
    {
      assert low in [low, high] && high in [low, high] && Start()[2] == [];
      assert OverlappingFiles([], Some(0.0), Some(9.0)) == [];
    }

    lemma SpanningIsInput()
      requires Valid()
      ensures Sorted(spanning.entries) && Elements(spanning.entries) == InputEntries([low, high], [])
    {
      ContentsAre();
    }

    lemma SpanningIsKept()
      requires Valid()
      ensures Kept(Start(), 1, spanning.entries, 2, 3) == [Put(0.0, 1, [1]), Put(9.0, 2, [2])]
    {
      KeptTwo(Start(), 1, Put(0.0, 1, [1]), Put(9.0, 2, [2]), 3);
    }

    lemma SpanningIsValid()
      requires Valid()
      ensures spanning.Valid() && spanning.number == 4
    {
    }

    lemma SpanningIsOutput()
      requires Valid()
      ensures ProperOutputs([spanning]) && Flatten([spanning]) == spanning.entries == [Put(0.0, 1, [1]), Put(9.0, 2, [2])]
    {
      SpanningIsValid();
      OneFile(spanning);
    }

    lemma BetweenMaySink()
      requires Valid()
      ensures !LevelOverlaps(Start(), 0, Some(5.0), Some(5.0)) && MaySink(Start(), 0, 5.0, 5.0) && MaySink(Start(), 1, 5.0, 5.0)
    {
      assert Start()[0] == [] && Start()[2] == [] && Start()[3] == [];
      assert OverlappingFiles([], Some(5.0), Some(5.0)) == [] && TotalFileSize([]) == 0;
    }

    lemma IsFilled()
      requires Valid()
      ensures Installed(Flushed(Start(), 2, between), 1, [low, high], [], [spanning])[2] == [spanning, between]
    {
      OneFile(between);
      TwoFiles(low, high);
      InsertedBefore(spanning, between);
    }

    lemma IsBetween()
      requires Valid()
      ensures between.Valid() && between.smallest.user == between.largest.user == 5.0
      ensures !OnOneSide(between, InputEntries([low, high], [])) && !Disjoint([spanning, between])
      ensures !OnOneSide(between, Elements(spanning.entries))
    {
      ContentsAre();
      assert Put(0.0, 1, [1]) in spanning.entries && Put(9.0, 2, [2]) in spanning.entries;
      assert Put(0.0, 1, [1]) in InputEntries([low, high], []) && Put(9.0, 2, [2]) in InputEntries([low, high], []);
      assert [spanning, between][0] == spanning && [spanning, between][1] == between;
    }

    lemma LookupMisses()
      requires Valid()
      ensures !Before(spanning.largest, LookupKey(5.0, 3))
      ensures SaveValue(TableGet(spanning, LookupKey(5.0, 3)), 5.0) == KeyNotFound
      ensures SaveValue(TableGet(between, LookupKey(5.0, 3)), 5.0) == KeyFound([3])
    {
      var k := LookupKey(5.0, 3);
      assert spanning.entries[1..] == [Put(9.0, 2, [2])];
      assert FirstAtOrAfter([Put(9.0, 2, [2])], k) == 0 && FirstAtOrAfter(spanning.entries, k) == 1;
      assert FirstAtOrAfter(between.entries, k) == 0;
    }
  }

  function Gap(): (x: GapExample)
    ensures x.Valid()
  {
    GapExample(OneEntryFile(1, 0.0, 1, [1]), OneEntryFile(2, 9.0, 2, [2]), OneEntryFile(3, 5.0, 3, [3]),
               TwoEntryFile(4, Put(0.0, 1, [1]), Put(9.0, 2, [2])))
  }

  /** While both files of level 1 are merged into one table of level 2, a memtable whose only key is between
      them may sink to level 2.  The tables then overlap, and a lookup ends in the wrong one. */
  lemma FlushBetweenInputsIsLost(x: GapExample)
    requires x == Gap()
    ensures IsMerge(x.Start(), 1, [x.low, x.high], [], 0.0, 9.0, x.spanning.entries, [x.spanning], 3)
    ensures x.between.Valid() && x.between.smallest.user == x.between.largest.user == 5.0
    ensures !LevelOverlaps(x.Start(), 0, Some(5.0), Some(5.0)) && MaySink(x.Start(), 0, 5.0, 5.0) && MaySink(x.Start(), 1, 5.0, 5.0)
    ensures !OnOneSide(x.between, Elements(x.spanning.entries))
    ensures Installed(Flushed(x.Start(), 2, x.between), 1, [x.low, x.high], [], [x.spanning])[2] == [x.spanning, x.between]
    ensures !Disjoint([x.spanning, x.between]) && !Before(x.spanning.largest, LookupKey(5.0, 3))
    ensures SaveValue(TableGet(x.spanning, LookupKey(5.0, 3)), 5.0) == KeyNotFound
    ensures SaveValue(TableGet(x.between, LookupKey(5.0, 3)), 5.0) == KeyFound([3])
  {
    x.IsIntact();
    x.IsLayered();
    x.IsProper();
    x.SpanningIsInput();
    x.SpanningIsKept();
    x.SpanningIsOutput();
    x.BetweenMaySink();
    x.IsFilled();
    x.IsBetween();
    x.LookupMisses();
  }
}
