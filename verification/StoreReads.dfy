/** What a lookup in the database answers: the memtable, the one being flushed and the levels are asked one after
    the other, and the first to show the key decides.  Here is when that is what was written. */
module StoreReads {
  import opened Primitives
  import opened InternalKeys
  import opened Versions
  import opened LevelEdits
  import opened OutputCuts
  import opened Compactions
  import opened CompactionSafety
  import opened SplitKeys
  import opened Store

  ghost function Parts(s: State): (parts: seq<set<Entry>>)
    ensures Union(parts) == All(s)
  {
    var parts := [Elements(s.mem), ImmContents(s)] + Levels(s.version);
    PartsAreAll(s, parts);
    parts
  }

  lemma PartsAreAll(s: State, parts: seq<set<Entry>>)
    requires parts == [Elements(s.mem), ImmContents(s)] + Levels(s.version)
    ensures Union(parts) == All(s)
  {
    forall e | e in All(s)
      ensures e in Union(parts)
    {
      if e in Elements(s.mem) {
        assert e in parts[0];
      } else if e in ImmContents(s) {
        assert e in parts[1];
      } else {
        var l :| 0 <= l < NUM_LEVELS && e in Levels(s.version)[l];
        assert e in parts[l + 2];
      }
    }
    forall e | e in Union(parts)
      ensures e in All(s)
    {
      var i :| 0 <= i < |parts| && e in parts[i];
      assert i >= 2 ==> e in Levels(s.version)[i - 2] && e in Union(Levels(s.version));
    }
  }

  // ----- Lookups -----

  // What a lookup relies on: sorted runs, and levels that can be searched.
  ghost predicate Standing(s: State) {
    && Sorted(s.mem) && (s.imm.Some? ==> Sorted(s.imm.value))
    && Newer(Elements(s.mem), ImmContents(s))
    && Newer(Memory(s), Contents(s.version))
    && Searchable(s.version)
  }

  ghost predicate AnswersAt(s: State, u: UserKey, n: nat) {
    FirstRead(Parts(s), u, n) == Read(s.history, u, n)
  }

  // Every reader there is gets what was written.
  ghost predicate AnswersRight(s: State) {
    forall u, n :: Live(s, n) ==> AnswersAt(s, u, n)
  }

  // A run of entries as the first part.
  lemma TopDecides(top: seq<Entry>, rest: seq<set<Entry>>, u: UserKey, n: SequenceNumber)
    requires Sorted(top) && UniqueSequences(Elements(top)) && Intact(Elements(top))
    ensures
      match SaveValue(SeekHit(top, LookupKey(u, n)), u)
      case KeyNotFound => FirstRead([Elements(top)] + rest, u, n) == FirstRead(rest, u, n)
      case KeyFound(value) => FirstRead([Elements(top)] + rest, u, n) == Some(value)
      case KeyDeleted => FirstRead([Elements(top)] + rest, u, n) == None
      case KeyCorrupt => false
  {
    var parts := [Elements(top)] + rest;
    assert parts[0] == Elements(top) && parts[1..] == rest;
    var e := SeekHitIsExact(top, u, n);
    var state := SaveValue(SeekHit(top, LookupKey(u, n)), u);
    if state != KeyNotFound {
      assert e in Elements(top) && Visible(e, u, n);
      ReadNewest(Elements(top), u, n, e);
    }
  }

  function Imm(s: State): seq<Entry> {
    if s.imm.Some? then s.imm.value else []
  }

  lemma MemoryParts(s: State)
    requires HistoryProper(s) && Standing(s)
    ensures Parts(s) == [Elements(s.mem)] + ([Elements(Imm(s))] + Levels(s.version))
    ensures Sorted(Imm(s))
    ensures UniqueSequences(Elements(s.mem)) && Intact(Elements(s.mem))
    ensures UniqueSequences(Elements(Imm(s))) && Intact(Elements(Imm(s)))
    ensures UniqueSequences(Contents(s.version)) && Intact(Contents(s.version))
  {
    assert ImmContents(s) == Elements(Imm(s));
    assert Elements(s.mem) <= All(s) && Elements(Imm(s)) <= All(s) && Contents(s.version) <= All(s);
  }

  /** The memtable, then the one being flushed, then the files: the first to know the key answers.  Where
      answers are right this is what was written. */
  method Get(s: State, u: UserKey, n: SequenceNumber) returns (r: GetResult)
    requires HistoryProper(s) && Standing(s)
    ensures r == Answer(FirstRead(Parts(s), u, n))
    ensures AnswersRight(s) && Live(s, n) ==> r == Answer(Read(s.history, u, n))
  {
    MemoryParts(s);
    r := GetFrom(s.mem, Imm(s), s.version, u, n);
    assert AnswersRight(s) && Live(s, n) ==> AnswersAt(s, u, n);
  }

  method GetFrom(mem: seq<Entry>, imm: seq<Entry>, v: Version, u: UserKey, n: SequenceNumber) returns (r: GetResult)
    requires Sorted(mem) && UniqueSequences(Elements(mem)) && Intact(Elements(mem))
    requires Sorted(imm) && UniqueSequences(Elements(imm)) && Intact(Elements(imm))
    requires Searchable(v) && UniqueSequences(Contents(v)) && Intact(Contents(v))
    ensures r == Answer(FirstRead([Elements(mem)] + ([Elements(imm)] + Levels(v)), u, n))
  {
    TopDecides(mem, [Elements(imm)] + Levels(v), u, n);
    match SaveValue(SeekHit(mem, LookupKey(u, n)), u)
    case KeyFound(value) => return Found(value);
    case KeyDeleted => return NotFound;
    case _ =>
      TopDecides(imm, Levels(v), u, n);
      match SaveValue(SeekHit(imm, LookupKey(u, n)), u)
      case KeyFound(value) => return Found(value);
      case KeyDeleted => return NotFound;
      case _ =>
        r := Versions.Get(v, u, n);
  }

  // ----- Levels that can be searched -----

  /** The steps keep the levels searchable, but for a merge of which an output encloses a table flushed under it. */
  lemma NextStandsExactly(s: State, t: State, step: Step)
    requires Base(s) && Standing(s) && Next(s, t, step)
    ensures Standing(t) <==> KeepsSearchable(s, step)
  {
    match step
    case WriteStep(ops) => WriteStands(s, t, ops);
    case SwitchStep => assert Memory(t) == Memory(s);
    case FlushNothingStep => assert Memory(t) == Memory(s);
    case FlushStep(size, level) => FlushStands(s, t, size, level);
    case FinishStep(input, outputs) => FinishStandsExactly(s, t, input, outputs);
    case MoveStep(level, file, lo, hi) => MoveStands(s, t, level, file, lo, hi);
    case _ => assert Memory(t) == Memory(s);
  }

  ghost predicate KeepsSearchable(s: State, step: Step) {
    step.FinishStep? && s.job.Some? && s.job.value.level + 1 < NUM_LEVELS ==>
      OutputsFit(s.version, s.job.value.level, s.job.value.inputs1, step.outputs)
  }

  lemma WriteStands(s: State, t: State, ops: seq<Op>)
    requires Base(s) && Standing(s) && Write(s, t, ops)
    ensures Standing(t)
  {
    BatchIsNew(s, ops);
    assert Memory(t) == Memory(s) + Elements(BatchEntries(ops, s.lastSequence + 1));
    assert forall e :: e in All(s) ==> e.key.sequence <= s.lastSequence;
  }

  lemma FlushStands(s: State, t: State, size: nat, level: nat)
    requires Base(s) && Standing(s) && Flush(s, t, size, level)
    ensures Standing(t)
  {
    var f := FlushedFile(s, size);
    TableIsValid(s, f);
    SunkHasRoom(s.version, level, f);
    FlushKeepsFiles(s.version, level, f);
    FlushedContents(s.version, level, f);
    MemoryStays(s, t, f);
  }

  lemma TableIsValid(s: State, f: File)
    requires HistoryProper(s) && Standing(s) && s.imm.Some? && s.imm.value != []
    requires f.entries == s.imm.value && f.smallest == f.entries[0].key && f.largest == f.entries[|f.entries| - 1].key
    ensures f.Valid() && Newer(Elements(f.entries), Contents(s.version))
  {
    forall e | e in f.entries
      ensures e in s.history
    {
      assert e in Memory(s);
    }
  }

  lemma SunkHasRoom(v: Version, level: nat, f: File)
    requires level < NUM_LEVELS
    requires level > 0 ==> !LevelOverlaps(v, 0, Some(f.smallest.user), Some(f.largest.user))
    requires forall l :: 0 <= l < level ==> MaySink(v, l, f.smallest.user, f.largest.user)
    ensures RoomDownTo(v, level, f.smallest.user, f.largest.user)
  {
    forall l | 0 <= l <= level && level > 0
      ensures !LevelOverlaps(v, l, Some(f.smallest.user), Some(f.largest.user))
    {
      assert l > 0 ==> MaySink(v, l - 1, f.smallest.user, f.largest.user);
    }
  }

  lemma MemoryStays(s: State, t: State, f: File)
    requires Standing(s) && s.imm.Some? && f.entries == s.imm.value
    requires t.mem == s.mem && t.imm == None && Contents(t.version) == Contents(s.version) + Elements(f.entries)
    ensures Newer(Elements(t.mem), ImmContents(t)) && Newer(Memory(t), Contents(t.version))
  {
    assert Memory(t) == Elements(s.mem);
    assert Newer(Elements(s.mem), Elements(f.entries)) && Newer(Elements(s.mem), Contents(s.version));
  }

  // Replacing the version by one that holds no new entry.
  lemma ReplacedStands(s: State, t: State)
    requires Standing(s) && t.mem == s.mem && t.imm == s.imm && Contents(t.version) <= Contents(s.version)
    ensures Standing(t) <==> Searchable(t.version)
  {
    assert Memory(t) == Memory(s);
  }

  lemma FinishStandsExactly(s: State, t: State, input: seq<Entry>, outputs: seq<File>)
    requires Base(s) && Standing(s) && FinishCompaction(s, t, input, outputs)
    ensures Standing(t) <==> KeepsSearchable(s, FinishStep(input, outputs))
  {
    FinishBase(s, t, input, outputs);
    FinishIsSearchable(s, t, input, outputs);
    ReplacedStands(s, t);
  }

  lemma FinishIsSearchable(s: State, t: State, input: seq<Entry>, outputs: seq<File>)
    requires JobInv(s) && Searchable(s.version) && FinishCompaction(s, t, input, outputs)
    ensures Searchable(t.version) <==> KeepsSearchable(s, FinishStep(input, outputs))
  {
    var j := s.job.value;
    OutputsAreNew(s.version, j.numbers, s.nextFileNumber, outputs, j.level + 1);
    InstallKeepsOrdered(s.version, j.level, j.inputs0, j.inputs1, outputs);
    Level0Shrinks(s.version, j.level, j.inputs0, j.inputs1, outputs);
  }

  lemma Level0Shrinks(v: Version, level: nat, inputs0: seq<File>, inputs1: seq<File>, outputs: seq<File>)
    requires level + 1 < NUM_LEVELS && NewerByNumber(v[0])
    ensures NewerByNumber(Installed(v, level, inputs0, inputs1, outputs)[0])
  {
    WithoutMembers(v[level], inputs0);
  }

  lemma MoveStands(s: State, t: State, level: nat, f: File, lo: UserKey, hi: UserKey)
    requires Base(s) && Standing(s) && TrivialMove(s, t, level, f, lo, hi)
    ensures Standing(t)
  {
    MoveBase(s, t, level, f, lo, hi);
    MoveIsSearchable(s.version, level, f, lo, hi);
    ReplacedStands(s, t);
  }

  lemma MoveIsSearchable(v: Version, level: nat, f: File, lo: UserKey, hi: UserKey)
    requires Searchable(v) && ProperInputs(v, level, [f], [], lo, hi)
    ensures Searchable(Installed(v, level, [f], [], [f]))
  {
    assert f in [f] && f.Valid();
    assert LevelContents([f]) == InputEntries([f], []);
    ProperOutputsFit(v, level, [f], [], lo, hi, [f]);
    OutputsAreApart(v, level, [], [f]);
    FittingKeepsOrdered(v, level, [f], [], [f]);
    Level0Shrinks(v, level, [f], [], [f]);
  }

  // ----- An older entry above a newer one -----

  /** What stays in a level has an entry that is shown to a reader of u at n, since nothing above shows one, and
      a newer one that says something else has gone beneath it. */
  ghost predicate Overtaken(above: seq<set<Entry>>, stays: set<Entry>, gone: set<Entry>, u: UserKey, n: nat) {
    && (forall i :: 0 <= i < |above| ==> Hidden(above[i], u, n))
    && exists x, y :: IsNewest(stays, u, n, x) && IsNewest(gone, u, n, y) && x.key.sequence < y.key.sequence
                      && ValueOf(x) != ValueOf(y)
  }

  // Parts newer than all after them, except that part a may have older entries than gone, which is in the next part.
  ghost predicate StackedBut(parts: seq<set<Entry>>, a: nat, gone: set<Entry>) {
    && a + 1 < |parts| && gone <= parts[a + 1] && Newer(parts[a], parts[a + 1] - gone)
    && forall i, j {:trigger Newer(parts[i], parts[j])} :: 0 <= i < j < |parts| && (i != a || j != a + 1) ==> Newer(parts[i], parts[j])
  }

  lemma NewestIsGone(parts: seq<set<Entry>>, a: nat, gone: set<Entry>, u: UserKey, n: nat, i: nat, x: Entry, y: Entry, j: nat)
    requires StackedBut(parts, a, gone) && UniqueSequences(Union(parts))
    requires FirstShown(parts, u, n, i) && IsNewest(parts[i], u, n, x) && IsNewest(Union(parts), u, n, y)
    requires x != y && j < |parts| && y in parts[j]
    ensures i == a && y in gone && x.key.sequence < y.key.sequence
  {
    assert x in Union(parts) && y in Union(parts);
    assert !Hidden(parts[j], u, n);
    assert i < j && (i != a || j != a + 1) ==> Newer(parts[i], parts[j]);
  }

  lemma MaskedMeansOvertaken(parts: seq<set<Entry>>, a: nat, gone: set<Entry>, u: UserKey, n: nat)
    requires StackedBut(parts, a, gone) && UniqueSequences(Union(parts)) && Masked(parts, u, n)
    ensures Overtaken(parts[..a], parts[a], gone, u, n)
  {
    var i: nat, x, y :| MaskedAt(parts, u, n, i, x, y);
    var j :| 0 <= j < |parts| && y in parts[j];
    NewestIsGone(parts, a, gone, u, n, i, x, y, j);
    assert gone <= Union(parts);
    assert IsNewest(gone, u, n, y);
  }

  lemma NewestIsTheGoneOne(parts: seq<set<Entry>>, a: nat, gone: set<Entry>, u: UserKey, n: nat, x: Entry, y: Entry, z: Entry, j: nat)
    requires StackedBut(parts, a, gone) && UniqueSequences(Union(parts))
    requires FirstShown(parts, u, n, a) && IsNewest(parts[a], u, n, x) && IsNewest(gone, u, n, y) && x.key.sequence < y.key.sequence
    requires IsNewest(Union(parts), u, n, z) && j < |parts| && z in parts[j]
    ensures z == y
  {
    assert x in Union(parts) && y in parts[a + 1] && y in Union(parts);
    assert !Hidden(parts[j], u, n);
    assert a < j && j != a + 1 ==> Newer(parts[a], parts[j]);
  }

  lemma OvertakenMeansMasked(parts: seq<set<Entry>>, a: nat, gone: set<Entry>, u: UserKey, n: nat)
    requires StackedBut(parts, a, gone) && UniqueSequences(Union(parts)) && Overtaken(parts[..a], parts[a], gone, u, n)
    ensures Masked(parts, u, n)
  {
    var x, y :| IsNewest(parts[a], u, n, x) && IsNewest(gone, u, n, y) && x.key.sequence < y.key.sequence && ValueOf(x) != ValueOf(y);
    assert forall i :: 0 <= i < a ==> parts[..a][i] == parts[i];
    assert FirstShown(parts, u, n, a);
    var _, z := NewestOfBoth(parts, u, n, a);
    var j :| 0 <= j < |parts| && z in parts[j];
    NewestIsTheGoneOne(parts, a, gone, u, n, x, y, z, j);
    assert MaskedAt(parts, u, n, a, x, y);
  }

  /** Then the first answer is right exactly when it is not an overtaken entry. */
  lemma FirstReadUnlessOvertaken(parts: seq<set<Entry>>, a: nat, gone: set<Entry>, u: UserKey, n: nat)
    requires StackedBut(parts, a, gone) && UniqueSequences(Union(parts))
    ensures FirstRead(parts, u, n) == Read(Union(parts), u, n) <==> !Overtaken(parts[..a], parts[a], gone, u, n)
  {
    FirstReadIsRightExactly(parts, u, n);
    if Masked(parts, u, n) {
      MaskedMeansOvertaken(parts, a, gone, u, n);
    } else if Overtaken(parts[..a], parts[a], gone, u, n) {
      OvertakenMeansMasked(parts, a, gone, u, n);
    }
  }

  // ----- What a merge or a move makes of the answers -----

  lemma OtherLevelsAreNewer(v: Version, level: nat, inputs0: seq<File>, inputs1: seq<File>, outputs: seq<File>, l: nat, m: nat)
    requires level + 1 < NUM_LEVELS && l < m < NUM_LEVELS && (l != level || m != level + 1) && Layered(v)
    requires forall f :: f in inputs0 ==> f in v[level]
    requires forall f :: f in inputs1 ==> f in v[level + 1]
    requires LevelContents(outputs) <= InputEntries(inputs0, inputs1)
    ensures Newer(LevelContents(Installed(v, level, inputs0, inputs1, outputs)[l]),
                  LevelContents(Installed(v, level, inputs0, inputs1, outputs)[m]))
  {
    assert Newer(LevelContents(v[l]), LevelContents(v[m]));
    OutputsAreLayered(v, level, inputs0, inputs1, outputs, l);
    OutputsAreLayered(v, level, inputs0, inputs1, outputs, m);
    InstallKeepsNewer(v, level, inputs0, inputs1, outputs, l, m);
  }

  lemma StaysAreNewer(v: Version, level: nat, inputs0: seq<File>, inputs1: seq<File>, outputs: seq<File>)
    requires level + 1 < NUM_LEVELS && Layered(v)
    requires forall f :: f in inputs0 ==> f in v[level]
    requires forall f :: f in inputs1 ==> f in v[level + 1]
    ensures
      var w := Installed(v, level, inputs0, inputs1, outputs);
      && LevelContents(outputs) <= LevelContents(w[level + 1])
      && Newer(LevelContents(w[level]), LevelContents(w[level + 1]) - LevelContents(outputs))
  {
    var stay1 := LevelContents(Without(v[level + 1], inputs1));
    WithoutContents(v[level], inputs0);
    WithoutContents(v[level + 1], inputs1);
    InsertFilesContents(Without(v[level + 1], inputs1), outputs);
    assert Newer(LevelContents(v[level]), LevelContents(v[level + 1]));
    NewerSubsets(LevelContents(v[level]), LevelContents(v[level + 1]), LevelContents(Without(v[level], inputs0)),
                 stay1 + LevelContents(outputs) - LevelContents(outputs));
  }

  lemma PartIs(s: State, l: nat)
    requires l < NUM_LEVELS
    ensures |Parts(s)| == NUM_LEVELS + 2 && Parts(s)[l + 2] == LevelContents(s.version[l]) <= Contents(s.version)
  {
    assert Parts(s)[l + 2] == Levels(s.version)[l];
  }

  lemma MemoryIsNewer(s: State, t: State, i: nat, j: nat)
    requires Stacked(s) && t.mem == s.mem && t.imm == s.imm && Contents(t.version) <= Contents(s.version)
    requires i < 2 && i < j < |Parts(t)|
    ensures Newer(Parts(t)[i], Parts(t)[j])
  {
    if j >= 2 {
      PartIs(t, j - 2);
      assert Parts(t)[i] <= Memory(s);
      NewerSubsets(Memory(s), Contents(s.version), Parts(t)[i], Parts(t)[j]);
    }
  }

  // The database with outputs in place of inputs.
  ghost predicate IsInstalled(s: State, t: State, level: nat, inputs0: seq<File>, inputs1: seq<File>, outputs: seq<File>) {
    && level + 1 < NUM_LEVELS && Stacked(s)
    && (forall f :: f in inputs0 ==> f in s.version[level])
    && (forall f :: f in inputs1 ==> f in s.version[level + 1])
    && LevelContents(outputs) <= InputEntries(inputs0, inputs1)
    && t.mem == s.mem && t.imm == s.imm && t.version == Installed(s.version, level, inputs0, inputs1, outputs)
  }

  lemma InstalledPairIsNewer(s: State, t: State, level: nat, inputs0: seq<File>, inputs1: seq<File>, outputs: seq<File>,
                             i: nat, j: nat)
    requires IsInstalled(s, t, level, inputs0, inputs1, outputs)
    requires i < j < |Parts(t)| && (i != level + 2 || j != level + 3)
    ensures Newer(Parts(t)[i], Parts(t)[j])
  {
    if i < 2 {
      InstalledIsPart(s.version, level, inputs0, inputs1, outputs);
      MemoryIsNewer(s, t, i, j);
    } else {
      OtherLevelsAreNewer(s.version, level, inputs0, inputs1, outputs, i - 2, j - 2);
      LevelPairIsNewer(t, i, j);
    }
  }

  lemma LevelPairIsNewer(t: State, i: nat, j: nat)
    requires 2 <= i < j < NUM_LEVELS + 2 == |Parts(t)|
    requires Newer(LevelContents(t.version[i - 2]), LevelContents(t.version[j - 2]))
    ensures Newer(Parts(t)[i], Parts(t)[j])
  {
    PartIs(t, i - 2);
    PartIs(t, j - 2);
  }

  lemma InstalledParts(s: State, t: State, level: nat, inputs0: seq<File>, inputs1: seq<File>, outputs: seq<File>)
    requires IsInstalled(s, t, level, inputs0, inputs1, outputs)
    ensures StackedBut(Parts(t), level + 2, LevelContents(outputs))
  {
    PartIs(t, level);
    PartIs(t, level + 1);
    StaysAreNewer(s.version, level, inputs0, inputs1, outputs);
    var parts := Parts(t);
    forall i: nat, j: nat | i < j < |parts| && (i != level + 2 || j != level + 3)
      ensures Newer(parts[i], parts[j])
    {
      InstalledPairIsNewer(s, t, level, inputs0, inputs1, outputs, i, j);
    }
  }

  lemma PartsAbove(s: State, t: State, level: nat)
    requires t.mem == s.mem && t.imm == s.imm && level < NUM_LEVELS && forall l :: 0 <= l < level ==> t.version[l] == s.version[l]
    ensures |Parts(t)| == NUM_LEVELS + 2 == |Parts(s)|
    ensures Parts(t)[..level + 2] == Parts(s)[..level + 2] && Parts(t)[level + 2] == LevelContents(t.version[level])
  {
    PartIs(t, level);
    forall i | 0 <= i < level + 2
      ensures Parts(t)[i] == Parts(s)[i]
    {
      if i >= 2 {
        PartIs(t, i - 2);
        PartIs(s, i - 2);
      }
    }
  }

  // Putting outputs in place of inputs leaves the first answer right exactly when it does not overtake an entry.
  lemma InstalledAnswersExactly(s: State, t: State, level: nat, inputs0: seq<File>, inputs1: seq<File>, outputs: seq<File>,
                                u: UserKey, n: nat)
    requires IsInstalled(s, t, level, inputs0, inputs1, outputs) && UniqueSequences(All(t))
    ensures level + 2 <= |Parts(s)|
    ensures FirstRead(Parts(t), u, n) == Read(All(t), u, n)
       <==> !Overtaken(Parts(s)[..level + 2], LevelContents(Without(s.version[level], inputs0)), LevelContents(outputs), u, n)
  {
    InstalledParts(s, t, level, inputs0, inputs1, outputs);
    PartsAbove(s, t, level);
    FirstReadUnlessOvertaken(Parts(t), level + 2, LevelContents(outputs), u, n);
  }

  // The reader of u at n is shown an older entry that the merge leaves above a newer one.
  ghost predicate MergeOvertakes(s: State, j: Job, u: UserKey, n: nat)
    requires j.level + 1 < NUM_LEVELS
  {
    Overtaken(Parts(s)[..j.level + 2], LevelContents(Without(s.version[j.level], j.inputs0)),
              Survivors(j.base, j.level, j.Inputs(), j.smallestSnapshot), u, n)
  }

  ghost predicate MoveOvertakes(s: State, level: nat, f: File, u: UserKey, n: nat)
    requires level + 1 < NUM_LEVELS
  {
    Overtaken(Parts(s)[..level + 2], LevelContents(Without(s.version[level], [f])), Elements(f.entries), u, n)
  }

  /** After the end of a merge the first part to show a key answers right exactly if the merge leaves no
      older entry for it above a newer one: levels may be out of order and the answer still right. */
  lemma FinishAnswersExactly(s: State, t: State, input: seq<Entry>, outputs: seq<File>, u: UserKey, n: nat)
    requires Base(s) && Stacked(s) && FinishCompaction(s, t, input, outputs)
    ensures FirstRead(Parts(t), u, n) == Read(All(t), u, n) <==> !MergeOvertakes(s, s.job.value, u, n)
  {
    FinishedIsInstalled(s, t, input, outputs);
    InstalledAnswersExactly(s, t, s.job.value.level, s.job.value.inputs0, s.job.value.inputs1, outputs, u, n);
  }

  lemma FinishedIsInstalled(s: State, t: State, input: seq<Entry>, outputs: seq<File>)
    requires Base(s) && Stacked(s) && FinishCompaction(s, t, input, outputs)
    ensures IsInstalled(s, t, s.job.value.level, s.job.value.inputs0, s.job.value.inputs1, outputs) && UniqueSequences(All(t))
    ensures LevelContents(outputs)
         == Survivors(s.job.value.base, s.job.value.level, s.job.value.Inputs(), s.job.value.smallestSnapshot)
  {
    FinishBase(s, t, input, outputs);
  }

  /** And after a move likewise. */
  lemma MoveAnswersExactly(s: State, t: State, level: nat, f: File, lo: UserKey, hi: UserKey, u: UserKey, n: nat)
    requires Base(s) && Stacked(s) && TrivialMove(s, t, level, f, lo, hi)
    ensures FirstRead(Parts(t), u, n) == Read(All(t), u, n) <==> !MoveOvertakes(s, level, f, u, n)
  {
    MoveBase(s, t, level, f, lo, hi);
    assert LevelContents([f]) == InputEntries([f], []) == Elements(f.entries);
    InstalledAnswersExactly(s, t, level, [f], [], [f], u, n);
  }

  /** Where the levels are in order answers are right. */
  lemma StackedAnswersRight(s: State)
    requires Base(s) && Stacked(s) && ReadsAgree(s)
    ensures AnswersRight(s)
  {
    PairsAreNewer(s);
    forall u, n | Live(s, n)
      ensures AnswersAt(s, u, n)
    {
      NewerPartsMaskNothing(Parts(s), u, n);
      FirstReadIsRightExactly(Parts(s), u, n);
    }
  }

  lemma PairsAreNewer(s: State)
    requires Stacked(s)
    ensures var parts := Parts(s); forall i, j :: 0 <= i < j < |parts| ==> Newer(parts[i], parts[j])
  {
    var parts := Parts(s);
    forall i: nat, j: nat | i < j < |parts|
      ensures Newer(parts[i], parts[j])
    {
      if i < 2 {
        MemoryIsNewer(s, s, i, j);
      } else {
        assert Newer(LevelContents(s.version[i - 2]), LevelContents(s.version[j - 2]));
        LevelPairIsNewer(s, i, j);
      }
    }
  }

  /** The condition on which a step leaves every answer right. */
  ghost predicate KeepsAnswers(s: State, step: Step) {
    match step
    case FinishStep(_, _) =>
      s.job.Some? && s.job.value.level + 1 < NUM_LEVELS ==> forall u, n :: Live(s, n) ==> !MergeOvertakes(s, s.job.value, u, n)
    case MoveStep(level, file, _, _) =>
      level + 1 < NUM_LEVELS ==> forall u, n :: Live(s, n) ==> !MoveOvertakes(s, level, file, u, n)
    case _ => true
  }

  lemma FinishKeepsAnswersExactly(s: State, t: State, input: seq<Entry>, outputs: seq<File>)
    requires Base(s) && Stacked(s) && ReadsAgree(t) && FinishCompaction(s, t, input, outputs)
    ensures AnswersRight(t) <==> KeepsAnswers(s, FinishStep(input, outputs))
  {
    forall u, n | Live(t, n)
      ensures AnswersAt(t, u, n) <==> !MergeOvertakes(s, s.job.value, u, n)
    {
      FinishAnswersExactly(s, t, input, outputs, u, n);
      RightWhenAgreed(t, u, n);
    }
    SameReaders(s, t);
  }

  lemma MoveKeepsAnswersExactly(s: State, t: State, level: nat, f: File, lo: UserKey, hi: UserKey)
    requires Base(s) && Stacked(s) && ReadsAgree(t) && TrivialMove(s, t, level, f, lo, hi)
    ensures AnswersRight(t) <==> KeepsAnswers(s, MoveStep(level, f, lo, hi))
  {
    forall u, n | Live(t, n)
      ensures AnswersAt(t, u, n) <==> !MoveOvertakes(s, level, f, u, n)
    {
      MoveAnswersExactly(s, t, level, f, lo, hi, u, n);
      RightWhenAgreed(t, u, n);
    }
    SameReaders(s, t);
  }

  lemma RightWhenAgreed(t: State, u: UserKey, n: nat)
    requires ReadsAgree(t) && Live(t, n)
    ensures AnswersAt(t, u, n) <==> FirstRead(Parts(t), u, n) == Read(All(t), u, n)
  {
  }

  lemma SameReaders(s: State, t: State)
    requires t.snapshots == s.snapshots && t.lastSequence == s.lastSequence
    ensures forall n :: Live(t, n) <==> Live(s, n)
  {
  }

  /** The condition is exact. */
  lemma NextAnswersExactly(s: State, t: State, step: Step)
    requires Base(s) && Stacked(s) && ReadsAgree(s) && Next(s, t, step) && KeepsReads(s, step)
    ensures AnswersRight(t) <==> KeepsAnswers(s, step)
  {
    NextReadsExactly(s, t, step);
    if step.FinishStep? {
      FinishKeepsAnswersExactly(s, t, step.input, step.outputs);
    } else if step.MoveStep? {
      MoveKeepsAnswersExactly(s, t, step.level, step.file, step.lo, step.hi);
    } else {
      NextBase(s, t, step);
      NextLayersExactly(s, t, step);
      StackedAnswersRight(t);
    }
  }

  // ----- Runs -----

  ghost predicate StandingTo(run: seq<State>, i: nat)
    requires i < |run|
  {
    Standing(run[i]) && (i > 0 ==> StandingTo(run, i - 1))
  }

  ghost predicate KeepsSearchableTo(run: seq<State>, steps: seq<Step>, i: nat)
    requires i <= |steps| <= |run|
  {
    i > 0 ==> KeepsSearchable(run[i - 1], steps[i - 1]) && KeepsSearchableTo(run, steps, i - 1)
  }

  lemma InitStands(run: seq<State>, steps: seq<Step>)
    requires IsRun(run, steps)
    ensures StandingTo(run, 0)
  {
    InitServes(run[0]);
  }

  lemma RunStandsStep(run: seq<State>, steps: seq<Step>, k: nat)
    requires IsRun(run, steps) && k < |steps|
    ensures Standing(run[k]) ==> (Standing(run[k + 1]) <==> KeepsSearchable(run[k], steps[k]))
  {
    RunBase(run, steps, k);
    if Standing(run[k]) {
      NextStandsExactly(run[k], run[k + 1], steps[k]);
    }
  }

  /** The levels can be searched up to a moment of a run exactly if no merge before it wrote an output around a
      table. */
  lemma {:induction false} RunStandsExactly(run: seq<State>, steps: seq<Step>, i: nat)
    requires IsRun(run, steps) && i < |run|
    ensures StandingTo(run, i) <==> KeepsSearchableTo(run, steps, i)
  {
    if i == 0 {
      InitStands(run, steps);
    } else {
      RunStandsExactly(run, steps, i - 1);
      RunStandsStep(run, steps, i - 1);
    }
  }

  lemma RunAnswersRight(run: seq<State>, steps: seq<Step>, i: nat)
    requires IsRun(run, steps) && i < |run| && KeepsReadsTo(run, steps, i) && KeepsLayersTo(run, steps, i)
    ensures HistoryProper(run[i]) && Standing(run[i]) && AnswersRight(run[i])
  {
    RunBase(run, steps, i);
    RunReadsExactly(run, steps, i);
    RunLayersExactly(run, steps, i);
    StackedAnswersRight(run[i]);
  }

  /** A lookup at a snapshot taken at step i finds, at any later step at which it is live, what had been written
      when it was taken, if no step uncovered a value or put the levels out of order. */
  lemma SnapshotAnswersAreStable(run: seq<State>, steps: seq<Step>, i: nat, j: nat, u: UserKey)
    requires IsRun(run, steps) && i <= j < |run| && KeepsReadsTo(run, steps, j) && KeepsLayersTo(run, steps, j)
    requires run[i].lastSequence in run[j].snapshots
    ensures HistoryProper(run[j]) && Standing(run[j])
    ensures FirstRead(Parts(run[j]), u, run[i].lastSequence) == Read(run[i].history, u, run[i].lastSequence)
  {
    RunAnswersRight(run, steps, j);
    assert AnswersAt(run[j], u, run[i].lastSequence);
    HistoryIsStable(run, steps, i, j, u, run[i].lastSequence);
  }
}
