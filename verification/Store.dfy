/** The database as a state machine: writes, memtable switches, flushes, compactions and
    snapshots, in any order.  For every step there is the exact condition on which each live snapshot keeps reading
    what was written up to it, and the levels stay in order. */
module Store {
  import opened Primitives
  import opened InternalKeys
  import opened Versions
  import opened LevelEdits
  import opened OutputCuts
  import opened Compactions
  import opened CompactionSafety
  import opened SplitKeys

  datatype Op = Op(user: UserKey, kind: Kind, value: Bytes)

  // The compaction under way: its inputs, the version and the oldest snapshot when it began, and the numbers of
  // the outputs opened so far.
  datatype Job = Job(level: nat, inputs0: seq<File>, inputs1: seq<File>, base: Version, smallestSnapshot: SequenceNumber,
                     numbers: seq<nat>)
  {
    ghost function Inputs(): set<Entry> {
      InputEntries(inputs0, inputs1)
    }
  }

  datatype State = State(
    mem: seq<Entry>,
    imm: Option<seq<Entry>>,
    version: Version,
    lastSequence: SequenceNumber,
    snapshots: seq<SequenceNumber>,
    nextFileNumber: nat,
    job: Option<Job>,
    history: set<Entry>)  // everything ever written

  // ----- Steps -----

  ghost function ImmContents(s: State): set<Entry> {
    if s.imm.Some? then Elements(s.imm.value) else {}
  }

  ghost function Memory(s: State): set<Entry> {
    Elements(s.mem) + ImmContents(s)
  }

  ghost function All(s: State): set<Entry> {
    Memory(s) + Contents(s.version)
  }

  const EmptyVersion: Version := [[], [], [], [], [], [], []]

  ghost predicate Init(s: State) {
    s == State([], None, EmptyVersion, 0, [], 2, None, {})
  }

  // The entries of a batch, numbered from first.
  function BatchEntries(ops: seq<Op>, first: nat): (es: seq<Entry>)
    requires first + |ops| <= MAX_SEQUENCE
  {
    seq(|ops|, i requires 0 <= i < |ops| => Entry(InternalKey(ops[i].user, first + i, ops[i].kind), ops[i].value))
  }

  ghost predicate Write(s: State, t: State, ops: seq<Op>) {
    && (forall op :: op in ops ==> op.kind <= VALUE)
    && s.lastSequence + |ops| + 1 < MAX_SEQUENCE
    && var es := Elements(BatchEntries(ops, s.lastSequence + 1));
       && Sorted(t.mem) && Elements(t.mem) == Elements(s.mem) + es
       && t == s.(mem := t.mem, lastSequence := s.lastSequence + |ops|, history := s.history + es)
  }

  ghost predicate SwitchMemTable(s: State, t: State) {
    s.imm.None? && t == s.(mem := [], imm := Some(s.mem))
  }

  // A memtable with nothing in it produces no table.
  ghost predicate FlushNothing(s: State, t: State) {
    s.imm == Some([]) && t == s.(imm := None)
  }

  // A flush may come in the middle of a compaction.
  ghost predicate Flush(s: State, t: State, size: nat, level: nat) {
    && s.imm.Some? && s.imm.value != []
    && var f := FlushedFile(s, size);
       && level <= MAX_MEM_COMPACT_LEVEL
       && (level > 0 ==> !LevelOverlaps(s.version, 0, Some(f.smallest.user), Some(f.largest.user)))
       && (forall l :: 0 <= l < level ==> MaySink(s.version, l, f.smallest.user, f.largest.user))
       && t == s.(imm := None, version := Flushed(s.version, level, f), nextFileNumber := s.nextFileNumber + 1)
  }

  function FlushedFile(s: State, size: nat): File
    requires s.imm.Some? && s.imm.value != []
  {
    var es := s.imm.value;
    File(s.nextFileNumber, size, es[0].key, es[|es| - 1].key, es)
  }

  function SmallestSnapshot(s: State): SequenceNumber {
    if s.snapshots == [] then s.lastSequence else s.snapshots[0]
  }

  // What is not an input of the job.
  ghost function Rest(s: State, j: Job): set<Entry>
    requires j.level + 1 < NUM_LEVELS
  {
    Memory(s) + Contents(Stripped(s.version, j.level, j.inputs0, j.inputs1))
  }

  ghost predicate StartCompaction(s: State, t: State, j: Job, lo: UserKey, hi: UserKey) {
    && s.job.None?
    && ProperInputs(s.version, j.level, j.inputs0, j.inputs1, lo, hi)
    && j.base == s.version && j.smallestSnapshot == SmallestSnapshot(s) && j.numbers == []
    && t == s.(job := Some(j))
  }

  // An output gets its number when it is opened; flushes may take others in between.
  ghost predicate OpenOutput(s: State, t: State) {
    && s.job.Some?
    && var j := s.job.value;
       t == s.(job := Some(j.(numbers := j.numbers + [s.nextFileNumber])), nextFileNumber := s.nextFileNumber + 1)
  }

  ghost predicate FinishCompaction(s: State, t: State, input: seq<Entry>, outputs: seq<File>) {
    && s.job.Some?
    && var j := s.job.value;
       && j.level + 1 < NUM_LEVELS
       && Sorted(input) && Elements(input) == j.Inputs()
       && ProperOutputs(outputs) && Have(outputs, j.numbers)
       && Flatten(outputs) == Kept(j.base, j.level, input, |input|, j.smallestSnapshot)
       && t == s.(job := None, version := Installed(s.version, j.level, j.inputs0, j.inputs1, outputs))
  }

  ghost predicate Have(outputs: seq<File>, numbers: seq<nat>) {
    |outputs| == |numbers| && forall i :: 0 <= i < |outputs| ==> outputs[i].number == numbers[i]
  }

  ghost predicate TrivialMove(s: State, t: State, level: nat, f: File, lo: UserKey, hi: UserKey) {
    && s.job.None?
    && ProperInputs(s.version, level, [f], [], lo, hi)
    && t == s.(version := Installed(s.version, level, [f], [], [f]))
  }

  ghost predicate TakeSnapshot(s: State, t: State) {
    t == s.(snapshots := s.snapshots + [s.lastSequence])
  }

  ghost predicate ReleaseSnapshot(s: State, t: State, k: nat) {
    k < |s.snapshots| && t == s.(snapshots := s.snapshots[..k] + s.snapshots[k + 1..])
  }

  datatype Step =
    | WriteStep(ops: seq<Op>)
    | SwitchStep
    | FlushNothingStep
    | FlushStep(size: nat, level: nat)
    | StartStep(job: Job, lo: UserKey, hi: UserKey)
    | OpenStep
    | FinishStep(input: seq<Entry>, outputs: seq<File>)
    | MoveStep(level: nat, file: File, lo: UserKey, hi: UserKey)
    | SnapshotStep
    | ReleaseStep(k: nat)

  ghost predicate Next(s: State, t: State, step: Step) {
    match step
    case WriteStep(ops) => Write(s, t, ops)
    case SwitchStep => SwitchMemTable(s, t)
    case FlushNothingStep => FlushNothing(s, t)
    case FlushStep(size, level) => Flush(s, t, size, level)
    case StartStep(job, lo, hi) => StartCompaction(s, t, job, lo, hi)
    case OpenStep => OpenOutput(s, t)
    case FinishStep(input, outputs) => FinishCompaction(s, t, input, outputs)
    case MoveStep(level, file, lo, hi) => TrivialMove(s, t, level, file, lo, hi)
    case SnapshotStep => TakeSnapshot(s, t)
    case ReleaseStep(k) => ReleaseSnapshot(s, t, k)
  }

  // ----- What every run keeps -----

  // A sequence number some reader may be reading at.
  predicate Live(s: State, n: nat) {
    n in s.snapshots || n >= s.lastSequence
  }

  ghost predicate HistoryProper(s: State) {
    && UniqueSequences(s.history)
    && Intact(s.history)
    && s.lastSequence < MAX_SEQUENCE
    && (forall e :: e in s.history ==> e.key.sequence <= s.lastSequence)
    && All(s) <= s.history
  }

  ghost predicate SnapshotsOrdered(s: State) {
    && (forall i, j :: 0 <= i < j < |s.snapshots| ==> s.snapshots[i] <= s.snapshots[j])
    && (forall n :: n in s.snapshots ==> n <= s.lastSequence)
  }

  // Numbers that were given to outputs, and to no file of the version.
  ghost predicate Reserved(v: Version, numbers: seq<nat>, next: nat) {
    && (forall i :: 0 <= i < |numbers| ==> numbers[i] < next)
    && forall l, f :: 0 <= l < NUM_LEVELS && f in v[l] ==> f.number !in numbers
  }

  ghost predicate JobInv(s: State) {
    s.job.Some? ==>
      var j := s.job.value;
      && j.level + 1 < NUM_LEVELS
      && (forall f :: f in j.inputs0 ==> f in s.version[j.level])
      && (forall f :: f in j.inputs1 ==> f in s.version[j.level + 1])
      && j.smallestSnapshot <= s.lastSequence
      && (forall n :: n in s.snapshots ==> j.smallestSnapshot <= n)
      && Reserved(s.version, j.numbers, s.nextFileNumber)
  }

  ghost predicate Base(s: State) {
    HistoryProper(s) && SnapshotsOrdered(s) && NumbersBelow(s.version, s.nextFileNumber) && JobInv(s)
  }

  lemma InitBase(s: State)
    requires Init(s)
    ensures Base(s)
  {
    EmptyVersionHasNothing();
  }

  lemma InitServes(s: State)
    requires Init(s)
    ensures ReadsAgree(s) && Stacked(s)
  {
    EmptyVersionHasNothing();
    assert All(s) == s.history;
  }

  lemma EmptyVersionHasNothing()
    ensures Contents(EmptyVersion) == {} && Layered(EmptyVersion)
  {
    assert forall l :: 0 <= l < NUM_LEVELS ==> EmptyVersion[l] == [] && LevelContents(EmptyVersion[l]) == {};
  }

  lemma BatchIsNew(s: State, ops: seq<Op>)
    requires s.lastSequence + |ops| + 1 < MAX_SEQUENCE && forall op :: op in ops ==> op.kind <= VALUE
    ensures
      var es := Elements(BatchEntries(ops, s.lastSequence + 1));
      && Intact(es) && UniqueSequences(es)
      && forall e :: e in es ==> s.lastSequence < e.key.sequence <= s.lastSequence + |ops|
  {
    var es := BatchEntries(ops, s.lastSequence + 1);
    forall i | 0 <= i < |es|
      ensures es[i].key.Parses() && es[i].key.sequence == s.lastSequence + 1 + i
    {
      assert ops[i] in ops;
    }
  }

  lemma WriteBase(s: State, t: State, ops: seq<Op>)
    requires Base(s) && Write(s, t, ops)
    ensures Base(t)
  {
    BatchIsNew(s, ops);
    assert All(t) == All(s) + Elements(BatchEntries(ops, s.lastSequence + 1));
  }

  lemma SwitchBase(s: State, t: State)
    requires Base(s) && (SwitchMemTable(s, t) || FlushNothing(s, t))
    ensures Base(t) && All(t) == All(s)
  {
    assert Memory(t) == Memory(s);
  }

  lemma FlushBase(s: State, t: State, size: nat, level: nat)
    requires Base(s) && Flush(s, t, size, level)
    ensures Base(t) && All(t) == All(s)
  {
    var f := FlushedFile(s, size);
    FlushedData(s, t, level, f);
    FlushedNumbers(s.version, level, f);
    if s.job.Some? {
      StillReserved(s.version, level, f, s.job.value.numbers);
      FlushedKeepsFiles(s.version, level, f, s.job.value);
    }
  }

  lemma FlushedData(s: State, t: State, level: nat, f: File)
    requires level < NUM_LEVELS && s.imm.Some? && f.entries == s.imm.value
    requires t.mem == s.mem && t.imm.None? && t.version == Flushed(s.version, level, f)
    ensures All(t) == All(s)
  {
    FlushedContents(s.version, level, f);
    assert Memory(s) == Memory(t) + Elements(f.entries);
  }

  lemma FlushedNumbers(v: Version, level: nat, f: File)
    requires level < NUM_LEVELS && NumbersBelow(v, f.number)
    ensures NumbersBelow(Flushed(v, level, f), f.number + 1)
  {
    FlushedFiles(v, level, f);
  }

  lemma FlushedKeepsFiles(v: Version, level: nat, f: File, j: Job)
    requires level < NUM_LEVELS && j.level + 1 < NUM_LEVELS
    requires forall g :: g in j.inputs0 ==> g in v[j.level]
    requires forall g :: g in j.inputs1 ==> g in v[j.level + 1]
    ensures forall g :: g in j.inputs0 ==> g in Flushed(v, level, f)[j.level]
    ensures forall g :: g in j.inputs1 ==> g in Flushed(v, level, f)[j.level + 1]
  {
    FlushedFiles(v, level, f);
  }

  lemma FlushedFiles(v: Version, level: nat, f: File)
    requires level < NUM_LEVELS
    ensures forall l, g :: 0 <= l < NUM_LEVELS ==> (g in Flushed(v, level, f)[l] <==> g in v[l] || (l == level && g == f))
  {
    InsertFileMembers(v[level], f);
  }

  lemma StillReserved(v: Version, level: nat, f: File, numbers: seq<nat>)
    requires level < NUM_LEVELS && Reserved(v, numbers, f.number)
    ensures Reserved(Flushed(v, level, f), numbers, f.number + 1)
  {
    FlushedFiles(v, level, f);
  }

  lemma StartBase(s: State, t: State, j: Job, lo: UserKey, hi: UserKey)
    requires Base(s) && StartCompaction(s, t, j, lo, hi)
    ensures Base(t) && All(t) == All(s)
  {
    ProperInputsAreIn(s.version, j.level, j.inputs0, j.inputs1, lo, hi);
    SmallestSnapshotIsMinimal(s);
    assert Memory(t) == Memory(s);
  }

  lemma SmallestSnapshotIsMinimal(s: State)
    requires SnapshotsOrdered(s)
    ensures forall n :: n in s.snapshots ==> SmallestSnapshot(s) <= n
    ensures SmallestSnapshot(s) <= s.lastSequence
    ensures Live(s, SmallestSnapshot(s))
  {
    if s.snapshots != [] {
      assert s.snapshots[0] in s.snapshots;
    }
  }

  lemma OpenBase(s: State, t: State)
    requires Base(s) && OpenOutput(s, t)
    ensures Base(t) && All(t) == All(s)
  {
    assert Memory(t) == Memory(s);
  }

  lemma SnapshotBase(s: State, t: State, k: nat)
    requires Base(s) && (TakeSnapshot(s, t) || ReleaseSnapshot(s, t, k))
    ensures Base(t) && All(t) == All(s)
  {
    FewerOrLast(s, t, k);
    assert Memory(t) == Memory(s);
  }

  lemma FewerOrLast(s: State, t: State, k: nat)
    requires SnapshotsOrdered(s) && (TakeSnapshot(s, t) || ReleaseSnapshot(s, t, k))
    ensures SnapshotsOrdered(t)
    ensures forall n :: n in t.snapshots ==> n in s.snapshots || n == s.lastSequence
  {
    assert forall i :: 0 <= i < |s.snapshots| ==> s.snapshots[i] in s.snapshots;
  }

  // What a merge is made of.
  lemma InputsAreHistory(s: State, j: Job)
    requires HistoryProper(s) && j.level + 1 < NUM_LEVELS
    requires forall f :: f in j.inputs0 ==> f in s.version[j.level]
    requires forall f :: f in j.inputs1 ==> f in s.version[j.level + 1]
    ensures UniqueSequences(j.Inputs()) && Intact(j.Inputs()) && UniqueSequences(Memory(s) + Contents(s.version))
  {
    WholeAndParts(s.version, j.level, j.inputs0, j.inputs1, {});
    assert j.Inputs() <= All(s) == Memory(s) + Contents(s.version);
  }

  lemma OutputsAreNew(v: Version, numbers: seq<nat>, next: nat, outputs: seq<File>, level: nat)
    requires Reserved(v, numbers, next) && Have(outputs, numbers) && level < NUM_LEVELS
    ensures NewTo(v[level], outputs) && forall f :: f in outputs ==> f.number < next
  {
    forall f | f in outputs
      ensures f.number in numbers && f.number < next
    {
      var i :| 0 <= i < |outputs| && outputs[i] == f;
      assert numbers[i] in numbers;
    }
  }

  lemma InstalledMembers(v: Version, level: nat, inputs0: seq<File>, inputs1: seq<File>, outputs: seq<File>, number: nat)
    requires level + 1 < NUM_LEVELS && NumbersBelow(v, number) && forall f :: f in outputs ==> f.number < number
    ensures NumbersBelow(Installed(v, level, inputs0, inputs1, outputs), number)
  {
    WithoutMembers(v[level], inputs0);
    WithoutMembers(v[level + 1], inputs1);
    InsertFilesMembers(Without(v[level + 1], inputs1), outputs);
  }

  lemma FinishBase(s: State, t: State, input: seq<Entry>, outputs: seq<File>)
    requires Base(s) && FinishCompaction(s, t, input, outputs)
    ensures Base(t) && Memory(t) == Memory(s) && Contents(t.version) <= Contents(s.version)
    ensures LevelContents(outputs)
         == Survivors(s.job.value.base, s.job.value.level, s.job.value.Inputs(), s.job.value.smallestSnapshot)
  {
    var j := s.job.value;
    InputsAreHistory(s, j);
    MergedVersion(s.version, j, s.nextFileNumber, input, outputs);
    assert Memory(t) == Memory(s);
    FewerEntriesBase(s, t);
  }

  lemma MergedVersion(v: Version, j: Job, next: nat, input: seq<Entry>, outputs: seq<File>)
    requires j.level + 1 < NUM_LEVELS && NumbersBelow(v, next) && Reserved(v, j.numbers, next)
    requires forall f :: f in j.inputs0 ==> f in v[j.level]
    requires forall f :: f in j.inputs1 ==> f in v[j.level + 1]
    requires UniqueSequences(j.Inputs()) && Intact(j.Inputs())
    requires Sorted(input) && Elements(input) == j.Inputs() && Have(outputs, j.numbers)
    requires Flatten(outputs) == Kept(j.base, j.level, input, |input|, j.smallestSnapshot)
    ensures LevelContents(outputs) == Survivors(j.base, j.level, j.Inputs(), j.smallestSnapshot) <= j.Inputs()
    ensures Contents(Installed(v, j.level, j.inputs0, j.inputs1, outputs)) <= Contents(v)
    ensures NumbersBelow(Installed(v, j.level, j.inputs0, j.inputs1, outputs), next)
  {
    OutputsAreSurvivors(j.base, j.level, j.Inputs(), input, outputs, j.smallestSnapshot);
    InstalledIsPart(v, j.level, j.inputs0, j.inputs1, outputs);
    OutputsAreNew(v, j.numbers, next, outputs, 0);
    InstalledMembers(v, j.level, j.inputs0, j.inputs1, outputs, next);
  }

  lemma FewerEntriesBase(s: State, t: State)
    requires HistoryProper(s) && SnapshotsOrdered(s)
    requires t == s.(job := None, version := t.version) && Contents(t.version) <= Contents(s.version)
    requires NumbersBelow(t.version, t.nextFileNumber)
    ensures Base(t)
  {
    assert Memory(t) == Memory(s);
  }

  lemma InstalledIsPart(v: Version, level: nat, inputs0: seq<File>, inputs1: seq<File>, outputs: seq<File>)
    requires level + 1 < NUM_LEVELS && LevelContents(outputs) <= InputEntries(inputs0, inputs1)
    requires forall f :: f in inputs0 ==> f in v[level]
    requires forall f :: f in inputs1 ==> f in v[level + 1]
    ensures Contents(Installed(v, level, inputs0, inputs1, outputs)) <= Contents(v)
  {
    VersionContentsSplit(v, level, inputs0, inputs1, outputs);
  }

  lemma MoveBase(s: State, t: State, level: nat, f: File, lo: UserKey, hi: UserKey)
    requires Base(s) && TrivialMove(s, t, level, f, lo, hi)
    ensures Base(t) && Contents(t.version) == Contents(s.version) && All(t) == All(s)
  {
    assert f in [f] && f in s.version[level];
    TrivialMoveKeepsContents(s.version, level, f);
    InstalledMembers(s.version, level, [f], [], [f], s.nextFileNumber);
    assert Memory(t) == Memory(s);
  }

  /** Whatever is done: nothing is made up, numbers are given once, and a compaction keeps its inputs. */
  lemma NextBase(s: State, t: State, step: Step)
    requires Base(s) && Next(s, t, step)
    ensures Base(t)
  {
    match step
    case WriteStep(ops) => WriteBase(s, t, ops);
    case SwitchStep => SwitchBase(s, t);
    case FlushNothingStep => SwitchBase(s, t);
    case FlushStep(size, level) => FlushBase(s, t, size, level);
    case StartStep(job, lo, hi) => StartBase(s, t, job, lo, hi);
    case OpenStep => OpenBase(s, t);
    case FinishStep(input, outputs) => FinishBase(s, t, input, outputs);
    case MoveStep(level, file, lo, hi) => MoveBase(s, t, level, file, lo, hi);
    case SnapshotStep => SnapshotBase(s, t, 0);
    case ReleaseStep(k) => SnapshotBase(s, t, k);
  }

  // ----- What readers read -----

  ghost predicate ReadsAgree(s: State) {
    forall u, n :: Live(s, n) ==> Read(All(s), u, n) == Read(s.history, u, n)
  }

  // A merge uncovers a value to a reader of u at n.
  ghost predicate UncoversTo(s: State, j: Job, u: UserKey, n: nat)
    requires j.level + 1 < NUM_LEVELS
  {
    UncoversAt(j.Inputs(), Rest(s, j), u, j.smallestSnapshot, IsBaseLevel(j.base, j.level, u), n)
  }

  /** The condition on which a step changes no read: it is not the end of a merge that uncovers a value to a
      reader there is. */
  ghost predicate KeepsReads(s: State, step: Step) {
    step.FinishStep? && s.job.Some? && s.job.value.level + 1 < NUM_LEVELS ==>
      forall u, n :: Live(s, n) ==> !UncoversTo(s, s.job.value, u, n)
  }

  // Reads agree after entries newer than every live snapshot were added on both sides.
  lemma WriteKeepsReads(s: State, es: set<Entry>, u: UserKey, n: nat)
    requires HistoryProper(s) && ReadsAgree(s)
    requires UniqueSequences(es) && Intact(es) && forall e :: e in es ==> s.lastSequence < e.key.sequence
    requires n in s.snapshots ==> n <= s.lastSequence
    requires Live(s, n)
    ensures Read(All(s) + es, u, n) == Read(s.history + es, u, n)
  {
    if c :| c in es && Visible(c, u, n) {
      var e := NewestExists(es, u, n, c);
      assert IsNewest(All(s) + es, u, n, e);
      assert IsNewest(s.history + es, u, n, e);
      ReadNewest(All(s) + es, u, n, e);
      ReadNewest(s.history + es, u, n, e);
    } else {
      ReadIgnores(All(s), es, u, n);
      ReadIgnores(s.history, es, u, n);
    }
  }

  lemma WriteReads(s: State, t: State, ops: seq<Op>)
    requires Base(s) && ReadsAgree(s) && Write(s, t, ops)
    ensures ReadsAgree(t)
  {
    BatchIsNew(s, ops);
    var es := Elements(BatchEntries(ops, s.lastSequence + 1));
    assert All(t) == All(s) + es;
    forall u, n | Live(t, n)
      ensures Read(All(t), u, n) == Read(t.history, u, n)
    {
      WriteKeepsReads(s, es, u, n);
    }
  }

  // A step that leaves the data, and makes no new reader but one at the last sequence number.
  lemma SameDataReads(s: State, t: State)
    requires ReadsAgree(s) && All(t) == All(s) && t.history == s.history && t.lastSequence == s.lastSequence
    requires forall n :: n in t.snapshots ==> n in s.snapshots || n == s.lastSequence
    ensures ReadsAgree(t)
  {
    forall u, n | Live(t, n)
      ensures Read(All(t), u, n) == Read(t.history, u, n)
    {
      assert Live(s, n);
    }
  }

  lemma FinishReadsExactly(s: State, t: State, input: seq<Entry>, outputs: seq<File>)
    requires Base(s) && ReadsAgree(s) && FinishCompaction(s, t, input, outputs)
    ensures ReadsAgree(t) <==> KeepsReads(s, FinishStep(input, outputs))
  {
    forall u, n | Live(s, n)
      ensures Live(t, n) && (Read(All(t), u, n) == Read(t.history, u, n) <==> !UncoversTo(s, s.job.value, u, n))
    {
      FinishReadExactly(s, t, input, outputs, u, n);
    }
    if u, n :| Live(t, n) && Read(All(t), u, n) != Read(t.history, u, n) {
      assert Live(s, n);
    }
  }

  lemma FinishReadExactly(s: State, t: State, input: seq<Entry>, outputs: seq<File>, u: UserKey, n: nat)
    requires HistoryProper(s) && JobInv(s) && FinishCompaction(s, t, input, outputs) && Live(s, n)
    ensures Read(All(t), u, n) == Read(All(s), u, n) <==> !UncoversTo(s, s.job.value, u, n)
  {
    InputsAreHistory(s, s.job.value);
    assert Memory(t) == Memory(s);
    MergeReadExactly(s.version, s.job.value, Memory(s), input, outputs, u, n);
  }

  lemma MergeReadExactly(v: Version, j: Job, above: set<Entry>, input: seq<Entry>, outputs: seq<File>, u: UserKey, n: nat)
    requires j.level + 1 < NUM_LEVELS && UniqueSequences(above + Contents(v)) && j.smallestSnapshot <= n
    requires forall f :: f in j.inputs0 ==> f in v[j.level]
    requires forall f :: f in j.inputs1 ==> f in v[j.level + 1]
    requires Sorted(input) && Elements(input) == j.Inputs() && Intact(j.Inputs())
    requires Flatten(outputs) == Kept(j.base, j.level, input, |input|, j.smallestSnapshot)
    ensures Read(above + Contents(Installed(v, j.level, j.inputs0, j.inputs1, outputs)), u, n) == Read(above + Contents(v), u, n)
       <==> !UncoversAt(j.Inputs(), above + Contents(Stripped(v, j.level, j.inputs0, j.inputs1)), u, j.smallestSnapshot,
                        IsBaseLevel(j.base, j.level, u), n)
  {
    CompactionPreservesReadExactly(v, j.base, j.level, j.inputs0, j.inputs1, above, input, outputs, u, j.smallestSnapshot, n);
  }

  /** The condition is exact: after a step every reader there is reads what was written just if the step keeps it. */
  lemma NextReadsExactly(s: State, t: State, step: Step)
    requires Base(s) && ReadsAgree(s) && Next(s, t, step)
    ensures ReadsAgree(t) <==> KeepsReads(s, step)
  {
    match step
    case WriteStep(ops) => WriteReads(s, t, ops);
    case FinishStep(input, outputs) => FinishReadsExactly(s, t, input, outputs);
    case _ => OtherStepsKeepData(s, t, step); SameDataReads(s, t);
  }

  lemma OtherStepsKeepData(s: State, t: State, step: Step)
    requires Base(s) && Next(s, t, step) && !step.WriteStep? && !step.FinishStep?
    ensures All(t) == All(s) && t.history == s.history && t.lastSequence == s.lastSequence
    ensures forall n :: n in t.snapshots ==> n in s.snapshots || n == s.lastSequence
  {
    match step
    case SwitchStep => SwitchBase(s, t);
    case FlushNothingStep => SwitchBase(s, t);
    case FlushStep(size, level) => FlushBase(s, t, size, level);
    case StartStep(job, lo, hi) => StartBase(s, t, job, lo, hi);
    case OpenStep => OpenBase(s, t);
    case MoveStep(level, file, lo, hi) => MoveBase(s, t, level, file, lo, hi);
    case SnapshotStep => SnapshotBase(s, t, 0);
    case ReleaseStep(k) => SnapshotBase(s, t, k);
  }

  // ----- The order of the levels -----

  ghost predicate Stacked(s: State) {
    && Sorted(s.mem) && (s.imm.Some? ==> Sorted(s.imm.value))
    && Newer(Elements(s.mem), ImmContents(s))
    && Newer(Memory(s), Contents(s.version))
    && Layered(s.version)
  }

  /** The condition on which a step leaves the levels in order: a merge leaves nothing older than its outputs in
      the level above them and no table inside one of them, and a move splits no user key. */
  ghost predicate KeepsLayers(s: State, step: Step) {
    match step
    case FinishStep(_, outputs) =>
      s.job.Some? && s.job.value.level + 1 < NUM_LEVELS ==>
        MergeKeepsLayers(s.version, s.job.value, outputs)
    case MoveStep(level, file, _, _) => 0 < level < NUM_LEVELS ==> NoSplitKey(s.version[level], [file])
    case _ => true
  }

  ghost predicate MergeKeepsLayers(v: Version, j: Job, outputs: seq<File>)
    requires j.level + 1 < NUM_LEVELS
  {
    LeavesNothingOlder(v, j) && OutputsFit(v, j.level, j.inputs1, outputs)
  }

  // What stays in the inputs' own level is newer than what survives of them.
  ghost predicate LeavesNothingOlder(v: Version, j: Job)
    requires j.level + 1 < NUM_LEVELS
  {
    Newer(LevelContents(Without(v[j.level], j.inputs0)), Survivors(j.base, j.level, j.Inputs(), j.smallestSnapshot))
  }

  lemma WriteStacked(s: State, t: State, ops: seq<Op>)
    requires Base(s) && Stacked(s) && Write(s, t, ops)
    ensures Stacked(t)
  {
    BatchIsNew(s, ops);
    assert Memory(t) == Memory(s) + Elements(BatchEntries(ops, s.lastSequence + 1));
    assert forall e :: e in All(s) ==> e.key.sequence <= s.lastSequence;
  }

  lemma FlushedFileIsValid(s: State, f: File)
    requires HistoryProper(s) && Stacked(s) && s.imm.Some? && s.imm.value != []
    requires f.entries == s.imm.value && f.smallest == f.entries[0].key && f.largest == f.entries[|f.entries| - 1].key
    ensures f.Valid()
    ensures Newer(Elements(f.entries), Contents(s.version))
  {
    forall e | e in f.entries
      ensures e in s.history
    {
      assert e in Memory(s);
    }
  }

  lemma FlushStacked(s: State, t: State, size: nat, level: nat)
    requires Base(s) && Stacked(s) && Flush(s, t, size, level)
    ensures Stacked(t)
  {
    var f := FlushedFile(s, size);
    FlushedFileIsValid(s, f);
    FlushKeepsLayered(s.version, level, f);
    FlushKeepsNewerMemory(s, t, f);
  }

  lemma FlushKeepsNewerMemory(s: State, t: State, f: File)
    requires Stacked(s) && s.imm.Some? && f.entries == s.imm.value
    requires t.mem == s.mem && t.imm == None && Contents(t.version) == Contents(s.version) + Elements(f.entries)
    ensures Newer(Elements(t.mem), ImmContents(t)) && Newer(Memory(t), Contents(t.version))
  {
    assert Memory(t) == Elements(s.mem);
    assert Newer(Elements(s.mem), Elements(f.entries)) && Newer(Elements(s.mem), Contents(s.version));
  }

  // Replacing the version by one that holds no new entry.
  lemma ReplacedStacked(s: State, t: State)
    requires Stacked(s) && t.mem == s.mem && t.imm == s.imm && Contents(t.version) <= Contents(s.version)
    ensures Stacked(t) <==> Layered(t.version)
  {
    assert Memory(t) == Memory(s);
  }

  lemma FinishLayersExactly(s: State, t: State, input: seq<Entry>, outputs: seq<File>)
    requires Base(s) && Stacked(s) && FinishCompaction(s, t, input, outputs)
    ensures Stacked(t) <==> KeepsLayers(s, FinishStep(input, outputs))
  {
    InputsAreHistory(s, s.job.value);
    FinishIsLayered(s, t, input, outputs);
    FinishBase(s, t, input, outputs);
    ReplacedStacked(s, t);
  }

  lemma FinishIsLayered(s: State, t: State, input: seq<Entry>, outputs: seq<File>)
    requires JobInv(s) && Layered(s.version) && FinishCompaction(s, t, input, outputs)
    requires UniqueSequences(s.job.value.Inputs()) && Intact(s.job.value.Inputs())
    ensures Layered(t.version) <==> KeepsLayers(s, FinishStep(input, outputs))
  {
    var j := s.job.value;
    OutputsAreNew(s.version, j.numbers, s.nextFileNumber, outputs, j.level + 1);
    MergeLayersExactly(s.version, j, input, outputs);
  }

  lemma MergeLayersExactly(v: Version, j: Job, input: seq<Entry>, outputs: seq<File>)
    requires j.level + 1 < NUM_LEVELS && Layered(v)
    requires forall f :: f in j.inputs0 ==> f in v[j.level]
    requires forall f :: f in j.inputs1 ==> f in v[j.level + 1]
    requires UniqueSequences(j.Inputs()) && Intact(j.Inputs())
    requires Sorted(input) && Elements(input) == j.Inputs() && ProperOutputs(outputs) && NewTo(v[j.level + 1], outputs)
    requires Flatten(outputs) == Kept(j.base, j.level, input, |input|, j.smallestSnapshot)
    ensures Layered(Installed(v, j.level, j.inputs0, j.inputs1, outputs))
       <==> MergeKeepsLayers(v, j, outputs)
  {
    CompactionKeepsLayeredExactly(v, j.base, j.level, j.inputs0, j.inputs1, input, outputs, j.smallestSnapshot);
  }

  lemma MoveLayersExactly(s: State, t: State, level: nat, f: File, lo: UserKey, hi: UserKey)
    requires Base(s) && Stacked(s) && TrivialMove(s, t, level, f, lo, hi)
    ensures Stacked(t) <==> KeepsLayers(s, MoveStep(level, f, lo, hi))
  {
    MoveIsLayered(s, t, level, f, lo, hi);
    MoveBase(s, t, level, f, lo, hi);
    ReplacedStacked(s, t);
  }

  lemma MoveIsLayered(s: State, t: State, level: nat, f: File, lo: UserKey, hi: UserKey)
    requires HistoryProper(s) && Layered(s.version) && TrivialMove(s, t, level, f, lo, hi)
    ensures Layered(t.version) <==> KeepsLayers(s, MoveStep(level, f, lo, hi))
  {
    assert Contents(s.version) <= All(s);
    TrivialMoveKeepsLayeredExactly(s.version, level, f, lo, hi);
  }

  /** The condition is exact. */
  lemma NextLayersExactly(s: State, t: State, step: Step)
    requires Base(s) && Stacked(s) && Next(s, t, step)
    ensures Stacked(t) <==> KeepsLayers(s, step)
  {
    match step
    case WriteStep(ops) => WriteStacked(s, t, ops);
    case SwitchStep => assert Memory(t) == Memory(s);
    case FlushNothingStep => assert Memory(t) == Memory(s);
    case FlushStep(size, level) => FlushStacked(s, t, size, level);
    case FinishStep(input, outputs) => FinishLayersExactly(s, t, input, outputs);
    case MoveStep(level, file, lo, hi) => MoveLayersExactly(s, t, level, file, lo, hi);
    case _ => ReplacedStacked(s, t);
  }

  // ----- Runs -----

  // Any interleaving of the steps.
  ghost predicate IsRun(run: seq<State>, steps: seq<Step>) {
    && |run| == |steps| + 1
    && Init(run[0])
    && forall i :: 0 <= i < |steps| ==> Next(run[i], run[i + 1], steps[i])
  }

  lemma {:induction false} RunBase(run: seq<State>, steps: seq<Step>, i: nat)
    requires IsRun(run, steps) && i < |run|
    ensures Base(run[i])
  {
    if i == 0 {
      InitBase(run[0]);
    } else {
      RunBase(run, steps, i - 1);
      NextBase(run[i - 1], run[i], steps[i - 1]);
    }
  }

  // At every moment up to the i-th.
  ghost predicate ReadsAgreeTo(run: seq<State>, i: nat)
    requires i < |run|
  {
    ReadsAgree(run[i]) && (i > 0 ==> ReadsAgreeTo(run, i - 1))
  }

  ghost predicate StackedTo(run: seq<State>, i: nat)
    requires i < |run|
  {
    Stacked(run[i]) && (i > 0 ==> StackedTo(run, i - 1))
  }

  // By each of the first i steps.
  ghost predicate KeepsReadsTo(run: seq<State>, steps: seq<Step>, i: nat)
    requires i <= |steps| <= |run|
  {
    i > 0 ==> KeepsReads(run[i - 1], steps[i - 1]) && KeepsReadsTo(run, steps, i - 1)
  }

  ghost predicate KeepsLayersTo(run: seq<State>, steps: seq<Step>, i: nat)
    requires i <= |steps| <= |run|
  {
    i > 0 ==> KeepsLayers(run[i - 1], steps[i - 1]) && KeepsLayersTo(run, steps, i - 1)
  }

  lemma RunReadsStep(run: seq<State>, steps: seq<Step>, k: nat)
    requires IsRun(run, steps) && k < |steps|
    ensures ReadsAgree(run[k]) ==> (ReadsAgree(run[k + 1]) <==> KeepsReads(run[k], steps[k]))
  {
    RunBase(run, steps, k);
    if ReadsAgree(run[k]) {
      NextReadsExactly(run[k], run[k + 1], steps[k]);
    }
  }

  lemma RunLayersStep(run: seq<State>, steps: seq<Step>, k: nat)
    requires IsRun(run, steps) && k < |steps|
    ensures Stacked(run[k]) ==> (Stacked(run[k + 1]) <==> KeepsLayers(run[k], steps[k]))
  {
    RunBase(run, steps, k);
    if Stacked(run[k]) {
      NextLayersExactly(run[k], run[k + 1], steps[k]);
    }
  }

  lemma RunStarts(run: seq<State>, steps: seq<Step>)
    requires IsRun(run, steps)
    ensures ReadsAgreeTo(run, 0) && StackedTo(run, 0)
  {
    InitServes(run[0]);
  }

  /** Readers are served right up to a moment of a run exactly if no step before it uncovers a value to one. */
  lemma {:induction false} RunReadsExactly(run: seq<State>, steps: seq<Step>, i: nat)
    requires IsRun(run, steps) && i < |run|
    ensures ReadsAgreeTo(run, i) <==> KeepsReadsTo(run, steps, i)
  {
    if i == 0 {
      RunStarts(run, steps);
    } else {
      RunReadsExactly(run, steps, i - 1);
      RunReadsStep(run, steps, i - 1);
    }
  }

  /** And the levels are in order up to a moment exactly if every step before it keeps them so. */
  lemma {:induction false} RunLayersExactly(run: seq<State>, steps: seq<Step>, i: nat)
    requires IsRun(run, steps) && i < |run|
    ensures StackedTo(run, i) <==> KeepsLayersTo(run, steps, i)
  {
    if i == 0 {
      RunStarts(run, steps);
    } else {
      RunLayersExactly(run, steps, i - 1);
      RunLayersStep(run, steps, i - 1);
    }
  }

  /** What was written up to sequence number n is never rewritten. */
  lemma {:induction false} HistoryIsStable(run: seq<State>, steps: seq<Step>, i: nat, j: nat, u: UserKey, n: nat)
    requires IsRun(run, steps) && i <= j < |run| && n <= run[i].lastSequence
    ensures Read(run[j].history, u, n) == Read(run[i].history, u, n)
    ensures run[i].lastSequence <= run[j].lastSequence
  {
    if i < j {
      HistoryIsStable(run, steps, i, j - 1, u, n);
      RunBase(run, steps, j);
      StepKeepsHistory(run[j - 1], run[j], steps[j - 1], u, n);
    }
  }

  lemma StepKeepsHistory(s: State, t: State, step: Step, u: UserKey, n: nat)
    requires Next(s, t, step) && UniqueSequences(t.history) && n <= s.lastSequence
    ensures Read(t.history, u, n) == Read(s.history, u, n) && s.lastSequence <= t.lastSequence
  {
    if step.WriteStep? {
      WriteKeepsHistory(s, t, step.ops, u, n);
    } else {
      OtherStepsKeepHistory(s, t, step);
    }
  }

  lemma WriteKeepsHistory(s: State, t: State, ops: seq<Op>, u: UserKey, n: nat)
    requires Write(s, t, ops) && UniqueSequences(t.history) && n <= s.lastSequence
    ensures Read(t.history, u, n) == Read(s.history, u, n) && s.lastSequence <= t.lastSequence
  {
    BatchIsNew(s, ops);
    ReadIgnores(s.history, Elements(BatchEntries(ops, s.lastSequence + 1)), u, n);
  }

  lemma OtherStepsKeepHistory(s: State, t: State, step: Step)
    requires Next(s, t, step) && !step.WriteStep?
    ensures t.history == s.history && t.lastSequence == s.lastSequence
  {
  }

  /** A snapshot taken at step i still reads, at any later step at which it is live, exactly
      what had been written when it was taken: no write, flush or compaction shows through, if none of
      the compactions uncovers a value. */
  lemma SnapshotReadsAreStable(run: seq<State>, steps: seq<Step>, i: nat, j: nat, u: UserKey)
    requires IsRun(run, steps) && i <= j < |run| && KeepsReadsTo(run, steps, j)
    requires run[i].lastSequence in run[j].snapshots
    ensures Read(All(run[j]), u, run[i].lastSequence) == Read(run[i].history, u, run[i].lastSequence)
  {
    RunReadsExactly(run, steps, j);
    assert Live(run[j], run[i].lastSequence);
    HistoryIsStable(run, steps, i, j, u, run[i].lastSequence);
  }
}
