/** A merge from the step that starts it to the one that installs its outputs, with writes, flushes and
    snapshots coming in between: when it serves its readers right and leaves the levels in order, in terms of
    the version it was started on. */
module StoreMerges {
  import opened Primitives
  import opened InternalKeys
  import opened Versions
  import opened LevelEdits
  import opened OutputCuts
  import opened Compactions
  import opened CompactionSafety
  import opened SplitKeys
  import opened InputGaps
  import opened Store

  ghost predicate IsMerge(run: seq<State>, steps: seq<Step>, i: nat, k: nat, j: Job, lo: UserKey, hi: UserKey) {
    && IsRun(run, steps) && i < k < |steps|
    && steps[i] == StartStep(j, lo, hi) && steps[k].FinishStep?
    && forall x :: i < x < k ==> !steps[x].FinishStep?
  }

  // The same job but for the outputs opened since.
  predicate SameJob(a: Job, b: Job) {
    a.(numbers := b.numbers) == b
  }

  ghost predicate Under(s: State, j: Job) {
    s.job.Some? && SameJob(s.job.value, j) && j.level + 1 < NUM_LEVELS
  }

  lemma StepKeepsJob(s: State, t: State, step: Step, j: Job)
    requires Under(s, j) && Next(s, t, step) && !step.FinishStep?
    ensures Under(t, j)
  {
  }

  lemma {:induction false} MergeKeepsJob(run: seq<State>, steps: seq<Step>, i: nat, k: nat, j: Job, lo: UserKey, hi: UserKey, x: nat)
    requires IsMerge(run, steps, i, k, j, lo, hi) && i < x <= k
    ensures Under(run[x], j)
  {
    assert x - 1 < |steps| && Next(run[x - 1], run[x], steps[x - 1]);
    if x > i + 1 {
      MergeKeepsJob(run, steps, i, k, j, lo, hi, x - 1);
      StepKeepsJob(run[x - 1], run[x], steps[x - 1], j);
    }
  }

  lemma MergeStarts(run: seq<State>, steps: seq<Step>, i: nat, k: nat, j: Job, lo: UserKey, hi: UserKey)
    requires IsMerge(run, steps, i, k, j, lo, hi)
    ensures StartCompaction(run[i], run[i + 1], j, lo, hi) && j.level + 1 < NUM_LEVELS
    ensures run[i + 1].version == run[i].version
  {
    assert Next(run[i], run[i + 1], steps[i]);
  }

  // ----- What readers read -----

  // To a reader at n there is an entry of u newer than m.
  ghost predicate Overwritten(all: set<Entry>, u: UserKey, m: nat, n: nat) {
    exists e :: e in all && Visible(e, u, n) && e.key.sequence > m
  }

  /** What is uncovered to a reader at the smallest snapshot m is uncovered to a later one unless u was written
      in between. */
  lemma UncoversLaterExactly(inputs: set<Entry>, rest: set<Entry>, u: UserKey, m: nat, base: bool, n: nat)
    requires UniqueSequences(inputs + rest) && m <= n
    ensures UncoversAt(inputs, rest, u, m, base, n) <==> Uncovers(inputs, rest, u, m, base) && !Overwritten(inputs + rest, u, m, n)
  {
    if UncoversAt(inputs, rest, u, m, base, n) {
      UncoveredFirst(inputs, rest, u, m, base, n);
    } else if Uncovers(inputs, rest, u, m, base) && !Overwritten(inputs + rest, u, m, n) {
      var d, x :| IsNewest(inputs + rest, u, m, d) && IsOldMarker(d, m) && IsNewest(rest, u, m, x) && x.key.kind == VALUE;
      assert IsNewest(inputs + rest, u, n, d) && IsNewest(rest, u, n, x);
    }
  }

  lemma UncoversIgnores(inputs: set<Entry>, rest: set<Entry>, es: set<Entry>, u: UserKey, m: nat, base: bool)
    requires forall e :: e in es ==> e.key.sequence > m
    ensures Uncovers(inputs, rest + es, u, m, base) <==> Uncovers(inputs, rest, u, m, base)
  {
    forall e
      ensures IsNewest(inputs + (rest + es), u, m, e) <==> IsNewest(inputs + rest, u, m, e)
      ensures IsNewest(rest + es, u, m, e) <==> IsNewest(rest, u, m, e)
    {
    }
  }

  // What a flush adds to the version it takes from memory.
  lemma FlushKeepsRest(s: State, t: State, size: nat, level: nat, j: Job)
    requires Base(s) && Under(s, j) && Flush(s, t, size, level)
    ensures Rest(t, j) == Rest(s, j)
  {
    var f := FlushedFile(s, size);
    StrippedFlushed(s.version, level, f, j);
    assert Memory(s) == Memory(t) + Elements(f.entries);
  }

  lemma StrippedFlushed(v: Version, level: nat, f: File, j: Job)
    requires level < NUM_LEVELS && j.level + 1 < NUM_LEVELS && NumbersBelow(v, f.number)
    requires forall g :: g in j.inputs0 ==> g in v[j.level]
    requires forall g :: g in j.inputs1 ==> g in v[j.level + 1]
    ensures Contents(Stripped(Flushed(v, level, f), j.level, j.inputs0, j.inputs1))
         == Contents(Stripped(v, j.level, j.inputs0, j.inputs1)) + Elements(f.entries)
  {
    var w, w2 := Stripped(v, j.level, j.inputs0, j.inputs1), Stripped(Flushed(v, level, f), j.level, j.inputs0, j.inputs1);
    FlushedFiles(v, level, f);
    WithoutMembers(v[j.level], j.inputs0);
    WithoutMembers(v[j.level + 1], j.inputs1);
    WithoutMembers(Flushed(v, level, f)[j.level], j.inputs0);
    WithoutMembers(Flushed(v, level, f)[j.level + 1], j.inputs1);
    OneFileMore(w, w2, level, f);
  }

  lemma OneFileMore(w: Version, w2: Version, level: nat, f: File)
    requires level < NUM_LEVELS
    requires forall l, g :: 0 <= l < NUM_LEVELS ==> (g in w2[l] <==> g in w[l] || (l == level && g == f))
    ensures Contents(w2) == Contents(w) + Elements(f.entries)
  {
    forall l | 0 <= l < NUM_LEVELS
      ensures LevelContents(w2[l]) == if l == level then LevelContents(w[l]) + Elements(f.entries) else LevelContents(w[l])
    {
    }
    var files := w2[level];
    GrowLevel(w, level, files, Elements(f.entries));
    SameLevels(w2, w[level := files]);
  }

  lemma SameLevels(v: Version, w: Version)
    requires forall l :: 0 <= l < NUM_LEVELS ==> LevelContents(v[l]) == LevelContents(w[l])
    ensures Contents(v) == Contents(w)
  {
  }

  lemma OtherStepsKeepRest(s: State, t: State, step: Step, j: Job)
    requires Under(s, j) && Next(s, t, step) && !step.WriteStep? && !step.FlushStep? && !step.FinishStep?
    ensures Rest(t, j) == Rest(s, j)
  {
    assert t.version == s.version && Memory(t) == Memory(s);
  }

  lemma StepKeepsUncovering(s: State, t: State, step: Step, j: Job, u: UserKey)
    requires Base(s) && Under(s, j) && Next(s, t, step) && !step.FinishStep?
    ensures UncoversTo(t, j, u, j.smallestSnapshot) <==> UncoversTo(s, j, u, j.smallestSnapshot)
  {
    if step.WriteStep? {
      WriteKeepsUncovering(s, t, step.ops, j, u);
    } else if step.FlushStep? {
      FlushKeepsRest(s, t, step.size, step.level, j);
    } else {
      OtherStepsKeepRest(s, t, step, j);
    }
  }

  lemma WriteKeepsUncovering(s: State, t: State, ops: seq<Op>, j: Job, u: UserKey)
    requires Base(s) && Under(s, j) && Write(s, t, ops)
    ensures UncoversTo(t, j, u, j.smallestSnapshot) <==> UncoversTo(s, j, u, j.smallestSnapshot)
  {
    var es := Elements(BatchEntries(ops, s.lastSequence + 1));
    BatchIsNew(s, ops);
    assert Memory(t) == Memory(s) + es;
    assert Rest(t, j) == Rest(s, j) + es;
    UncoversIgnores(j.Inputs(), Rest(s, j), es, u, j.smallestSnapshot, IsBaseLevel(j.base, j.level, u));
  }

  ghost predicate SameUncovering(s: State, t: State, j: Job, u: UserKey)
    requires j.level + 1 < NUM_LEVELS
  {
    UncoversTo(t, j, u, j.smallestSnapshot) <==> UncoversTo(s, j, u, j.smallestSnapshot)
  }

  lemma MergeUncoversStep(run: seq<State>, steps: seq<Step>, i: nat, k: nat, j: Job, lo: UserKey, hi: UserKey, x: nat, u: UserKey)
    requires IsMerge(run, steps, i, k, j, lo, hi) && i <= x < k
    ensures j.level + 1 < NUM_LEVELS && SameUncovering(run[x], run[x + 1], j, u)
  {
    assert Next(run[x], run[x + 1], steps[x]);
    if x == i {
      assert Memory(run[x + 1]) == Memory(run[i]);
    } else {
      MergeKeepsJob(run, steps, i, k, j, lo, hi, x);
      RunBase(run, steps, x);
      StepKeepsUncovering(run[x], run[x + 1], steps[x], j, u);
    }
  }

  lemma {:induction false} SameUncoveringSoFar(run: seq<State>, i: nat, x: nat, j: Job, u: UserKey)
    requires i <= x < |run| && j.level + 1 < NUM_LEVELS
    requires forall y :: i <= y < x ==> SameUncovering(run[y], run[y + 1], j, u)
    ensures SameUncovering(run[i], run[x], j, u)
  {
    if i < x {
      SameUncoveringSoFar(run, i, x - 1, j, u);
      assert SameUncovering(run[x - 1], run[x - 1 + 1], j, u);
    }
  }

  lemma UncoversFromTheStart(run: seq<State>, steps: seq<Step>, i: nat, k: nat, j: Job, lo: UserKey, hi: UserKey, u: UserKey)
    requires IsMerge(run, steps, i, k, j, lo, hi)
    ensures j.level + 1 < NUM_LEVELS && SameUncovering(run[i], run[k], j, u)
  {
    MergeStarts(run, steps, i, k, j, lo, hi);
    forall y | i <= y < k
      ensures SameUncovering(run[y], run[y + 1], j, u)
    {
      MergeUncoversStep(run, steps, i, k, j, lo, hi, y, u);
    }
    SameUncoveringSoFar(run, i, k, j, u);
  }

  /** What a merge uncovers is settled when it starts.  A reader there is at its end is served right exactly if
      the merge uncovered no value of the key when it was started, or the key has been written since the
      smallest snapshot then, for this reader to see. */
  lemma MergeServesExactly(run: seq<State>, steps: seq<Step>, i: nat, k: nat, j: Job, lo: UserKey, hi: UserKey, u: UserKey, n: nat)
    requires IsMerge(run, steps, i, k, j, lo, hi) && Live(run[k], n)
    ensures j.level + 1 < NUM_LEVELS
    ensures Read(All(run[k + 1]), u, n) == Read(All(run[k]), u, n)
       <==> !UncoversTo(run[i], j, u, j.smallestSnapshot) || Overwritten(All(run[k]), u, j.smallestSnapshot, n)
  {
    UncoversFromTheStart(run, steps, i, k, j, lo, hi, u);
    MergeKeepsJob(run, steps, i, k, j, lo, hi, k);
    RunBase(run, steps, k);
    FinishReadExactly(run[k], run[k + 1], steps[k].input, steps[k].outputs, u, n);
    UncoveredToReader(run[k], j, u, n);
  }

  lemma UncoveredToReader(s: State, j: Job, u: UserKey, n: nat)
    requires Base(s) && Under(s, j) && Live(s, n)
    ensures UncoversTo(s, s.job.value, u, n) <==> UncoversTo(s, j, u, j.smallestSnapshot) && !Overwritten(All(s), u, j.smallestSnapshot, n)
  {
    InputsAreHistory(s, s.job.value);
    WholeAndParts(s.version, j.level, j.inputs0, j.inputs1, Memory(s));
    UncoversLaterExactly(j.Inputs(), Rest(s, j), u, j.smallestSnapshot, IsBaseLevel(j.base, j.level, u), n);
  }

  /** In terms of the files, for levels that are in order: the merge cuts a level between a marker of the key and the
      value beneath it, and nothing deeper covers the key. */
  lemma UncoversWhenCutOff(s: State, t: State, j: Job, lo: UserKey, hi: UserKey, u: UserKey)
    requires Base(s) && Stacked(s) && StartCompaction(s, t, j, lo, hi)
    ensures UncoversTo(s, j, u, j.smallestSnapshot) <==> CutsOffMarker(s, j, u)
  {
    WhenStarted(s, t, j, lo, hi);
    InputsCutOff(s.version, j, lo, hi, Memory(s), u);
  }

  lemma WhenStarted(s: State, t: State, j: Job, lo: UserKey, hi: UserKey)
    requires Base(s) && Stacked(s) && StartCompaction(s, t, j, lo, hi)
    ensures Layered(s.version) && ProperInputs(s.version, j.level, j.inputs0, j.inputs1, lo, hi) && j.base == s.version
    ensures Newer(Memory(s), Contents(s.version)) && UniqueSequences(Memory(s) + Contents(s.version)) && Intact(Contents(s.version))
    ensures forall f :: f in j.inputs0 ==> f in s.version[j.level]
    ensures forall f :: f in j.inputs1 ==> f in s.version[j.level + 1]
  {
    ProperInputsAreIn(s.version, j.level, j.inputs0, j.inputs1, lo, hi);
    assert Contents(s.version) <= All(s);
  }

  lemma InputsCutOff(v: Version, j: Job, lo: UserKey, hi: UserKey, above: set<Entry>, u: UserKey)
    requires Layered(v) && ProperInputs(v, j.level, j.inputs0, j.inputs1, lo, hi) && j.base == v
    requires Newer(above, Contents(v)) && UniqueSequences(above + Contents(v)) && Intact(Contents(v))
    ensures
      var rest := above + Contents(Stripped(v, j.level, j.inputs0, j.inputs1));
      UncoversAt(j.Inputs(), rest, u, j.smallestSnapshot, IsBaseLevel(j.base, j.level, u), j.smallestSnapshot)
      <==> IsBaseLevel(j.base, j.level, u)
           && (|| CutsOff(v[j.level], j.inputs0, j.Inputs() + rest, rest, u, j.smallestSnapshot)
               || CutsOff(v[j.level + 1], j.inputs1, j.Inputs() + rest, rest, u, j.smallestSnapshot))
  {
    UncoversExactlyWhenCutOff(v, j.level, j.inputs0, j.inputs1, lo, hi, above, u, j.smallestSnapshot);
  }

  ghost predicate CutsOffMarker(s: State, j: Job, u: UserKey)
    requires j.level + 1 < NUM_LEVELS
  {
    && IsBaseLevel(j.base, j.level, u)
    && var all := j.Inputs() + Rest(s, j);
       || CutsOff(s.version[j.level], j.inputs0, all, Rest(s, j), u, j.smallestSnapshot)
       || CutsOff(s.version[j.level + 1], j.inputs1, all, Rest(s, j), u, j.smallestSnapshot)
  }

  // ----- The order of the levels -----

  // A flush into the level of the outputs puts its table on one side of each of them.
  ghost predicate FlushFits(s: State, step: Step, j: Job, outputs: seq<File>) {
    step.FlushStep? && step.level == j.level + 1 && s.imm.Some? && s.imm.value != [] ==>
      forall o :: o in outputs ==> OnOneSide(FlushedFile(s, step.size), Elements(o.entries))
  }

  // Each flush between two moments of a run.
  ghost predicate FlushesFit(run: seq<State>, steps: seq<Step>, i: nat, k: nat, j: Job, outputs: seq<File>)
    requires k <= |steps| <= |run|
  {
    i + 1 < k ==> FlushFits(run[k - 1], steps[k - 1], j, outputs) && FlushesFit(run, steps, i, k - 1, j, outputs)
  }

  /** Of a single output: on one side of what survives of the inputs. */
  lemma OneOutputFlushFits(s: State, step: Step, j: Job, o: File)
    requires LevelContents([o]) == Survivors(j.base, j.level, j.Inputs(), j.smallestSnapshot)
    ensures FlushFits(s, step, j, [o])
       <==> (step.FlushStep? && step.level == j.level + 1 && s.imm.Some? && s.imm.value != [] ==>
               OnOneSide(FlushedFile(s, step.size), Survivors(j.base, j.level, j.Inputs(), j.smallestSnapshot)))
  {
    assert o in [o] && LevelContents([o]) == Elements(o.entries);
  }

  lemma FlushFitsExactly(s: State, t: State, size: nat, level: nat, j: Job, outputs: seq<File>)
    requires Base(s) && Under(s, j) && Flush(s, t, size, level)
    ensures OutputsFit(t.version, j.level, j.inputs1, outputs)
       <==> OutputsFit(s.version, j.level, j.inputs1, outputs) && FlushFits(s, FlushStep(size, level), j, outputs)
  {
    var f := FlushedFile(s, size);
    FlushedFiles(s.version, level, f);
    assert f !in j.inputs1;
    FitsWithOneMore(s.version, t.version, j.level, j.inputs1, outputs, level, f);
  }

  lemma FitsWithOneMore(v: Version, w: Version, level: nat, inputs1: seq<File>, outputs: seq<File>, at: nat, f: File)
    requires level + 1 < NUM_LEVELS && f !in inputs1
    requires forall l, g :: 0 <= l < NUM_LEVELS ==> (g in w[l] <==> g in v[l] || (l == at && g == f))
    ensures OutputsFit(w, level, inputs1, outputs)
       <==> OutputsFit(v, level, inputs1, outputs)
            && (at == level + 1 ==> forall o :: o in outputs ==> OnOneSide(f, Elements(o.entries)))
  {
  }

  lemma StepFitsExactly(s: State, t: State, step: Step, j: Job, outputs: seq<File>)
    requires Base(s) && Under(s, j) && Next(s, t, step) && !step.FinishStep?
    ensures OutputsFit(t.version, j.level, j.inputs1, outputs)
       <==> OutputsFit(s.version, j.level, j.inputs1, outputs) && FlushFits(s, step, j, outputs)
  {
    if step.FlushStep? {
      FlushFitsExactly(s, t, step.size, step.level, j, outputs);
    } else {
      assert t.version == s.version;
    }
  }

  ghost predicate FitsStep(s: State, t: State, step: Step, j: Job, outputs: seq<File>)
    requires j.level + 1 < NUM_LEVELS
  {
    OutputsFit(t.version, j.level, j.inputs1, outputs)
    <==> OutputsFit(s.version, j.level, j.inputs1, outputs) && FlushFits(s, step, j, outputs)
  }

  lemma MergeFitsStep(run: seq<State>, steps: seq<Step>, i: nat, k: nat, j: Job, lo: UserKey, hi: UserKey, x: nat, outputs: seq<File>)
    requires IsMerge(run, steps, i, k, j, lo, hi) && i < x < k
    ensures j.level + 1 < NUM_LEVELS && FitsStep(run[x], run[x + 1], steps[x], j, outputs)
  {
    MergeKeepsJob(run, steps, i, k, j, lo, hi, x);
    RunBase(run, steps, x);
    StepFitsExactly(run[x], run[x + 1], steps[x], j, outputs);
  }

  lemma {:induction false} FitsSoFar(run: seq<State>, steps: seq<Step>, i: nat, x: nat, j: Job, outputs: seq<File>)
    requires i < x <= |steps| < |run| && j.level + 1 < NUM_LEVELS
    requires OutputsFit(run[i + 1].version, j.level, j.inputs1, outputs)
    requires forall y :: i < y < x ==> FitsStep(run[y], run[y + 1], steps[y], j, outputs)
    ensures OutputsFit(run[x].version, j.level, j.inputs1, outputs) <==> FlushesFit(run, steps, i, x, j, outputs)
  {
    if i + 1 < x {
      FitsSoFar(run, steps, i, x - 1, j, outputs);
      assert FitsStep(run[x - 1], run[x - 1 + 1], steps[x - 1], j, outputs);
    }
  }

  // A table flushed into the inputs' own level is newer than all of them.
  lemma FlushKeepsOlder(s: State, t: State, size: nat, level: nat, j: Job)
    requires Base(s) && Stacked(s) && Under(s, j) && Flush(s, t, size, level)
    ensures LeavesNothingOlder(t.version, j) <==> LeavesNothingOlder(s.version, j)
  {
    var f := FlushedFile(s, size);
    FlushedIsNewer(s, f, j);
    NewerTableStays(s.version, level, f, j);
  }

  lemma FlushedIsNewer(s: State, f: File, j: Job)
    requires Base(s) && Stacked(s) && Under(s, j) && s.imm.Some? && s.imm.value != []
    requires f.entries == s.imm.value && f.number == s.nextFileNumber
    ensures Newer(Elements(f.entries), Contents(s.version)) && f !in j.inputs0 && j.Inputs() <= Contents(s.version)
  {
    WholeAndParts(s.version, j.level, j.inputs0, j.inputs1, {});
    assert Elements(f.entries) <= Memory(s);
    NewerSubsets(Memory(s), Contents(s.version), Elements(f.entries), Contents(s.version));
  }

  lemma NewerTableStays(v: Version, level: nat, f: File, j: Job)
    requires level < NUM_LEVELS && j.level + 1 < NUM_LEVELS && f !in j.inputs0
    requires Newer(Elements(f.entries), Contents(v)) && j.Inputs() <= Contents(v)
    ensures LeavesNothingOlder(Flushed(v, level, f), j) <==> LeavesNothingOlder(v, j)
  {
    var survivors := Survivors(j.base, j.level, j.Inputs(), j.smallestSnapshot);
    FlushedFiles(v, level, f);
    OneMoreStays(v[j.level], Flushed(v, level, f)[j.level], j.inputs0, if level == j.level then [f] else []);
    if level == j.level {
      assert LevelContents([f]) == Elements(f.entries);
      NewerSubsets(Elements(f.entries), Contents(v), Elements(f.entries), survivors);
      NewerWithNewer(LevelContents(Without(v[j.level], j.inputs0)), Elements(f.entries), survivors);
    }
  }

  lemma OneMoreStays(files: seq<File>, files2: seq<File>, inputs: seq<File>, more: seq<File>)
    requires forall g :: g in files2 <==> g in files || g in more
    requires forall g :: g in more ==> g !in inputs
    ensures LevelContents(Without(files2, inputs)) == LevelContents(Without(files, inputs)) + LevelContents(more)
  {
    WithoutMembers(files, inputs);
    WithoutMembers(files2, inputs);
  }

  lemma NewerWithNewer(a: set<Entry>, f: set<Entry>, b: set<Entry>)
    requires Newer(f, b)
    ensures Newer(a + f, b) <==> Newer(a, b)
  {
  }

  lemma StepKeepsOlder(s: State, t: State, step: Step, j: Job)
    requires Base(s) && Stacked(s) && Under(s, j) && Next(s, t, step) && !step.FinishStep?
    ensures LeavesNothingOlder(t.version, j) <==> LeavesNothingOlder(s.version, j)
  {
    if step.FlushStep? {
      FlushKeepsOlder(s, t, step.size, step.level, j);
    } else {
      assert t.version == s.version;
    }
  }

  lemma {:induction false} StackedBefore(run: seq<State>, i: nat, x: nat)
    requires x <= i < |run| && StackedTo(run, i)
    ensures StackedTo(run, x) && Stacked(run[x])
  {
    if x < i {
      StackedBefore(run, i - 1, x);
    }
  }

  ghost predicate SameOlder(s: State, t: State, j: Job)
    requires j.level + 1 < NUM_LEVELS
  {
    LeavesNothingOlder(t.version, j) <==> LeavesNothingOlder(s.version, j)
  }

  lemma MergeOlderStep(run: seq<State>, steps: seq<Step>, i: nat, k: nat, j: Job, lo: UserKey, hi: UserKey, x: nat)
    requires IsMerge(run, steps, i, k, j, lo, hi) && i <= x < k && StackedTo(run, k)
    ensures j.level + 1 < NUM_LEVELS && SameOlder(run[x], run[x + 1], j)
  {
    MergeStarts(run, steps, i, k, j, lo, hi);
    if i < x {
      MergeKeepsJob(run, steps, i, k, j, lo, hi, x);
      RunBase(run, steps, x);
      StackedBefore(run, k, x);
      StepKeepsOlder(run[x], run[x + 1], steps[x], j);
    }
  }

  lemma {:induction false} SameOlderSoFar(run: seq<State>, i: nat, x: nat, j: Job)
    requires i <= x < |run| && j.level + 1 < NUM_LEVELS
    requires forall y :: i <= y < x ==> SameOlder(run[y], run[y + 1], j)
    ensures SameOlder(run[i], run[x], j)
  {
    if i < x {
      SameOlderSoFar(run, i, x - 1, j);
      assert SameOlder(run[x - 1], run[x - 1 + 1], j);
    }
  }

  lemma OlderFromTheStart(run: seq<State>, steps: seq<Step>, i: nat, k: nat, j: Job, lo: UserKey, hi: UserKey)
    requires IsMerge(run, steps, i, k, j, lo, hi) && StackedTo(run, k)
    ensures j.level + 1 < NUM_LEVELS && SameOlder(run[i], run[k], j)
  {
    MergeStarts(run, steps, i, k, j, lo, hi);
    forall y | i <= y < k
      ensures SameOlder(run[y], run[y + 1], j)
    {
      MergeOlderStep(run, steps, i, k, j, lo, hi, y);
    }
    SameOlderSoFar(run, i, k, j);
  }

  // Below level 0, the merge does not cut its own level inside a user key of which something survives.
  ghost predicate CutsNoSurvivor(v: Version, j: Job)
    requires j.level < NUM_LEVELS
  {
    j.level > 0 ==>
      !SurvivesSplit(v[j.level], j.inputs0, Survivors(j.base, j.level, j.Inputs(), j.smallestSnapshot))
  }

  lemma OlderWhenStarted(s: State, t: State, j: Job, lo: UserKey, hi: UserKey)
    requires Base(s) && Stacked(s) && StartCompaction(s, t, j, lo, hi)
    ensures LeavesNothingOlder(s.version, j) <==> CutsNoSurvivor(s.version, j)
  {
    assert Contents(s.version) <= All(s);
    OlderStaysExactlyWhenSplit(s.version, j.level, j.inputs0, j.inputs1, lo, hi,
                               Survivors(j.base, j.level, j.Inputs(), j.smallestSnapshot));
  }

  // What a merge writes is part of its inputs.
  lemma OutputsWhenFinished(s: State, t: State, j: Job, input: seq<Entry>, outputs: seq<File>)
    requires Base(s) && Under(s, j) && FinishCompaction(s, t, input, outputs)
    ensures LevelContents(outputs) == Survivors(j.base, j.level, j.Inputs(), j.smallestSnapshot) <= j.Inputs()
  {
    FinishBase(s, t, input, outputs);
  }

  lemma MergeEnds(run: seq<State>, steps: seq<Step>, i: nat, k: nat, j: Job, lo: UserKey, hi: UserKey)
    requires IsMerge(run, steps, i, k, j, lo, hi)
    ensures Base(run[k]) && Under(run[k], j) && FinishCompaction(run[k], run[k + 1], steps[k].input, steps[k].outputs)
  {
    MergeKeepsJob(run, steps, i, k, j, lo, hi, k);
    RunBase(run, steps, k);
    assert Next(run[k], run[k + 1], steps[k]);
  }

  lemma OutputsFitAtFirst(run: seq<State>, steps: seq<Step>, i: nat, k: nat, j: Job, lo: UserKey, hi: UserKey)
    requires IsMerge(run, steps, i, k, j, lo, hi) && Ordered(run[i].version)
    ensures j.level + 1 < NUM_LEVELS && OutputsFit(run[i + 1].version, j.level, j.inputs1, steps[k].outputs)
  {
    MergeStarts(run, steps, i, k, j, lo, hi);
    MergeEnds(run, steps, i, k, j, lo, hi);
    OutputsWhenFinished(run[k], run[k + 1], j, steps[k].input, steps[k].outputs);
    ProperOutputsFit(run[i].version, j.level, j.inputs0, j.inputs1, lo, hi, steps[k].outputs);
  }

  lemma FitsAtTheEnd(run: seq<State>, steps: seq<Step>, i: nat, k: nat, j: Job, lo: UserKey, hi: UserKey)
    requires IsMerge(run, steps, i, k, j, lo, hi) && StackedTo(run, k)
    ensures j.level + 1 < NUM_LEVELS
    ensures OutputsFit(run[k].version, j.level, j.inputs1, steps[k].outputs) <==> FlushesFit(run, steps, i, k, j, steps[k].outputs)
  {
    StackedBefore(run, k, i);
    OutputsFitAtFirst(run, steps, i, k, j, lo, hi);
    forall y | i < y < k
      ensures FitsStep(run[y], run[y + 1], steps[y], j, steps[k].outputs)
    {
      MergeFitsStep(run, steps, i, k, j, lo, hi, y, steps[k].outputs);
    }
    FitsSoFar(run, steps, i, k, j, steps[k].outputs);
  }

  lemma OlderAtTheEnd(run: seq<State>, steps: seq<Step>, i: nat, k: nat, j: Job, lo: UserKey, hi: UserKey)
    requires IsMerge(run, steps, i, k, j, lo, hi) && StackedTo(run, k)
    ensures j.level + 1 < NUM_LEVELS
    ensures LeavesNothingOlder(run[k].version, j) <==> CutsNoSurvivor(run[i].version, j)
  {
    MergeStarts(run, steps, i, k, j, lo, hi);
    RunBase(run, steps, i);
    StackedBefore(run, k, i);
    OlderWhenStarted(run[i], run[i + 1], j, lo, hi);
    OlderFromTheStart(run, steps, i, k, j, lo, hi);
  }

  lemma FinishKeepsOrder(s: State, t: State, j: Job, input: seq<Entry>, outputs: seq<File>)
    requires Base(s) && Stacked(s) && Under(s, j) && FinishCompaction(s, t, input, outputs)
    ensures Stacked(t) <==> LeavesNothingOlder(s.version, j) && OutputsFit(s.version, j.level, j.inputs1, outputs)
  {
    FinishLayersExactly(s, t, input, outputs);
    assert KeepsLayers(s, FinishStep(input, outputs)) <==> MergeKeepsLayers(s.version, s.job.value, outputs);
  }

  lemma KeepsOrderAtTheEnd(run: seq<State>, steps: seq<Step>, i: nat, k: nat, j: Job, lo: UserKey, hi: UserKey)
    requires IsMerge(run, steps, i, k, j, lo, hi) && StackedTo(run, k)
    ensures j.level + 1 < NUM_LEVELS
    ensures Stacked(run[k + 1])
       <==> LeavesNothingOlder(run[k].version, j) && OutputsFit(run[k].version, j.level, j.inputs1, steps[k].outputs)
  {
    MergeEnds(run, steps, i, k, j, lo, hi);
    FinishKeepsOrder(run[k], run[k + 1], j, steps[k].input, steps[k].outputs);
  }

  /** When a merge keeps the levels in order is settled by how it was started and by what was flushed under it:
      exactly if it does not cut its own level inside a user key of which something survives, and each table flushed
      into the level of the outputs since lies on one side of each of them. */
  lemma MergeKeepsOrderExactly(run: seq<State>, steps: seq<Step>, i: nat, k: nat, j: Job, lo: UserKey, hi: UserKey)
    requires IsMerge(run, steps, i, k, j, lo, hi) && StackedTo(run, k)
    ensures j.level + 1 < NUM_LEVELS
    ensures Stacked(run[k + 1]) <==> CutsNoSurvivor(run[i].version, j) && FlushesFit(run, steps, i, k, j, steps[k].outputs)
  {
    FitsAtTheEnd(run, steps, i, k, j, lo, hi);
    OlderAtTheEnd(run, steps, i, k, j, lo, hi);
    KeepsOrderAtTheEnd(run, steps, i, k, j, lo, hi);
  }

  // ----- Merges that grew from one file -----

  ghost predicate ChosenFor(v: Version, j: Job, f: File, seed: seq<File>, expanded: seq<File>) {
    && j.level + 1 < NUM_LEVELS
    && SeedOf(v, j.level, f, seed) && Chosen(v, j.level, seed, j.inputs0, j.inputs1, expanded)
  }

  // The inputs are what is chosen for one file, as they are when the database itself finds that a level needs it.
  ghost predicate OneSeed(v: Version, j: Job) {
    exists f, seed, expanded :: ChosenFor(v, j, f, seed, expanded)
  }

  lemma OneSeedFlushFits(v: Version, s: State, t: State, step: Step, j: Job, f: File, seed: seq<File>, expanded: seq<File>,
                         outputs: seq<File>)
    requires Base(s) && Stacked(s) && Under(s, j) && Next(s, t, step)
    requires ChosenFor(v, j, f, seed, expanded) && ValidFiles(v[j.level]) && LevelContents(outputs) <= j.Inputs()
    ensures FlushFits(s, step, j, outputs)
  {
    if step.FlushStep? && step.level == j.level + 1 {
      OneSeedFlushStaysAside(v, s, t, step.size, j, f, seed, expanded);
      PartsOnOneSide(FlushedFile(s, step.size), j.Inputs(), outputs);
    }
  }

  lemma OneSeedFlushStaysAside(v: Version, s: State, t: State, size: nat, j: Job, f: File, seed: seq<File>, expanded: seq<File>)
    requires HistoryProper(s) && Stacked(s) && JobInv(s) && Under(s, j) && Flush(s, t, size, j.level + 1)
    requires ChosenFor(v, j, f, seed, expanded) && ValidFiles(v[j.level])
    ensures OnOneSide(FlushedFile(s, size), j.Inputs())
  {
    TableIsSunk(s, t, size, j.level + 1, FlushedFile(s, size));
    InputsAreThere(s, j);
    SunkStaysAside(v, j, f, seed, expanded, s.version, FlushedFile(s, size));
  }

  lemma TableIsSunk(s: State, t: State, size: nat, level: nat, table: File)
    requires HistoryProper(s) && Stacked(s) && Flush(s, t, size, level) && level > 0 && table == FlushedFile(s, size)
    ensures Ordered(s.version) && table.Valid() && !LevelOverlaps(s.version, 0, Some(table.smallest.user), Some(table.largest.user))
    ensures forall l :: 0 <= l < level ==> MaySink(s.version, l, table.smallest.user, table.largest.user)
  {
    FlushedFileIsValid(s, table);
  }

  lemma InputsAreThere(s: State, j: Job)
    requires JobInv(s) && Under(s, j)
    ensures forall f :: f in j.inputs0 ==> f in s.version[j.level]
    ensures forall f :: f in j.inputs1 ==> f in s.version[j.level + 1]
  {
  }

  lemma SunkStaysAside(v: Version, j: Job, f: File, seed: seq<File>, expanded: seq<File>, w: Version, table: File)
    requires ChosenFor(v, j, f, seed, expanded) && ValidFiles(v[j.level]) && Ordered(w)
    requires (forall g :: g in j.inputs0 ==> g in w[j.level]) && (forall g :: g in j.inputs1 ==> g in w[j.level + 1])
    requires table.Valid() && !LevelOverlaps(w, 0, Some(table.smallest.user), Some(table.largest.user))
    requires forall l :: 0 <= l < j.level + 1 ==> MaySink(w, l, table.smallest.user, table.largest.user)
    ensures OnOneSide(table, j.Inputs())
  {
    FlushStaysAside(v, j.level, f, seed, j.inputs0, j.inputs1, expanded, w, table);
  }

  lemma PartsOnOneSide(g: File, es: set<Entry>, files: seq<File>)
    requires OnOneSide(g, es) && LevelContents(files) <= es
    ensures forall o :: o in files ==> OnOneSide(g, Elements(o.entries))
  {
    forall o | o in files
      ensures Elements(o.entries) <= es
    {
      assert Elements(o.entries) <= LevelContents(files);
    }
  }

  lemma {:induction false} AllFlushesFit(run: seq<State>, steps: seq<Step>, i: nat, k: nat, j: Job, outputs: seq<File>)
    requires k <= |steps| <= |run|
    requires forall y :: i < y < k ==> FlushFits(run[y], steps[y], j, outputs)
    ensures FlushesFit(run, steps, i, k, j, outputs)
  {
    if i + 1 < k {
      AllFlushesFit(run, steps, i, k - 1, j, outputs);
      assert FlushFits(run[k - 1], steps[k - 1], j, outputs);
    }
  }

  lemma OneSeedFlushesFit(run: seq<State>, steps: seq<Step>, i: nat, k: nat, j: Job, lo: UserKey, hi: UserKey)
    requires IsMerge(run, steps, i, k, j, lo, hi) && StackedTo(run, k) && OneSeed(run[i].version, j)
    ensures FlushesFit(run, steps, i, k, j, steps[k].outputs)
  {
    var f, seed, expanded :| ChosenFor(run[i].version, j, f, seed, expanded);
    MergeEnds(run, steps, i, k, j, lo, hi);
    OutputsWhenFinished(run[k], run[k + 1], j, steps[k].input, steps[k].outputs);
    StackedBefore(run, k, i);
    forall y | i < y < k
      ensures FlushFits(run[y], steps[y], j, steps[k].outputs)
    {
      MergeKeepsJob(run, steps, i, k, j, lo, hi, y);
      RunBase(run, steps, y);
      StackedBefore(run, k, y);
      OneSeedFlushFits(run[i].version, run[y], run[y + 1], steps[y], j, f, seed, expanded, steps[k].outputs);
    }
    AllFlushesFit(run, steps, i, k, j, steps[k].outputs);
  }

  /** Of a merge that grew from one file no flush can spoil the outputs: what matters is only how it cuts its own
      level. */
  lemma OneSeedKeepsOrderExactly(run: seq<State>, steps: seq<Step>, i: nat, k: nat, j: Job, lo: UserKey, hi: UserKey)
    requires IsMerge(run, steps, i, k, j, lo, hi) && StackedTo(run, k) && OneSeed(run[i].version, j)
    ensures j.level + 1 < NUM_LEVELS
    ensures Stacked(run[k + 1]) <==> CutsNoSurvivor(run[i].version, j)
  {
    OneSeedFlushesFit(run, steps, i, k, j, lo, hi);
    MergeKeepsOrderExactly(run, steps, i, k, j, lo, hi);
  }

  // ----- Runs that split no user key -----

  lemma JobGoesBack(s: State, t: State, step: Step)
    requires Next(s, t, step) && t.job.Some?
    ensures step.StartStep? || (s.job.Some? && !step.FinishStep?)
  {
  }

  lemma {:induction false} StartOf(run: seq<State>, steps: seq<Step>, k: nat) returns (i: nat, j: Job, lo: UserKey, hi: UserKey)
    requires IsRun(run, steps) && k < |run| && run[k].job.Some?
    ensures i < k && steps[i] == StartStep(j, lo, hi) && forall x :: i < x < k ==> !steps[x].FinishStep?
  {
    assert k > 0 && Next(run[k - 1], run[k], steps[k - 1]);
    JobGoesBack(run[k - 1], run[k], steps[k - 1]);
    if steps[k - 1].StartStep? {
      i, j, lo, hi := k - 1, steps[k - 1].job, steps[k - 1].lo, steps[k - 1].hi;
    } else {
      i, j, lo, hi := StartOf(run, steps, k - 1);
    }
  }

  // The compactions take whole user keys, and grow from one file.
  ghost predicate SplitsNothing(s: State, step: Step) {
    match step
    case StartStep(j, _, _) => j.level + 1 < NUM_LEVELS ==>
      && (j.level > 0 ==> NoSplitKey(s.version[j.level], j.inputs0)) && NoSplitKey(s.version[j.level + 1], j.inputs1)
      && OneSeed(s.version, j)
    case MoveStep(level, file, _, _) => 0 < level < NUM_LEVELS ==> NoSplitKey(s.version[level], [file])
    case _ => true
  }

  lemma StartIsSafe(s: State, t: State, j: Job, lo: UserKey, hi: UserKey, u: UserKey)
    requires Base(s) && Stacked(s) && StartCompaction(s, t, j, lo, hi) && SplitsNothing(s, StartStep(j, lo, hi))
    ensures LeavesNothingOlder(s.version, j) && !UncoversTo(s, j, u, j.smallestSnapshot)
  {
    WhenStarted(s, t, j, lo, hi);
    InputsAreSafe(s.version, j, lo, hi, Memory(s), u);
  }

  lemma InputsAreSafe(v: Version, j: Job, lo: UserKey, hi: UserKey, above: set<Entry>, u: UserKey)
    requires Layered(v) && ProperInputs(v, j.level, j.inputs0, j.inputs1, lo, hi) && j.base == v
    requires Newer(above, Contents(v)) && UniqueSequences(above + Contents(v)) && Intact(Contents(v))
    requires (j.level > 0 ==> NoSplitKey(v[j.level], j.inputs0)) && NoSplitKey(v[j.level + 1], j.inputs1)
    ensures LeavesNothingOlder(v, j)
    ensures !UncoversAt(j.Inputs(), above + Contents(Stripped(v, j.level, j.inputs0, j.inputs1)), u, j.smallestSnapshot,
                        IsBaseLevel(j.base, j.level, u), j.smallestSnapshot)
  {
    NoSplitKeyIsSafe(v, j.level, j.inputs0, j.inputs1, lo, hi, above, u, j.smallestSnapshot);
  }

  // The end of a merge that began safely.
  lemma SafeMergeEnds(run: seq<State>, steps: seq<Step>, i: nat, k: nat, j: Job, lo: UserKey, hi: UserKey)
    requires IsMerge(run, steps, i, k, j, lo, hi) && StackedTo(run, k) && ReadsAgree(run[k])
    requires SplitsNothing(run[i], steps[i])
    ensures Stacked(run[k + 1]) && ReadsAgree(run[k + 1])
  {
    MergeStarts(run, steps, i, k, j, lo, hi);
    RunBase(run, steps, i);
    StackedBefore(run, k, i);
    StartIsSafe(run[i], run[i + 1], j, lo, hi, 0.0);
    OlderWhenStarted(run[i], run[i + 1], j, lo, hi);
    OneSeedKeepsOrderExactly(run, steps, i, k, j, lo, hi);
    SafeMergeServes(run, steps, i, k, j, lo, hi);
  }

  lemma SafeMergeServes(run: seq<State>, steps: seq<Step>, i: nat, k: nat, j: Job, lo: UserKey, hi: UserKey)
    requires IsMerge(run, steps, i, k, j, lo, hi) && Stacked(run[i]) && ReadsAgree(run[k])
    requires SplitsNothing(run[i], steps[i])
    ensures ReadsAgree(run[k + 1])
  {
    MergeStarts(run, steps, i, k, j, lo, hi);
    MergeEnds(run, steps, i, k, j, lo, hi);
    RunBase(run, steps, i);
    var t := run[k + 1];
    forall u, n | Live(t, n)
      ensures Read(All(t), u, n) == Read(t.history, u, n)
    {
      assert Live(run[k], n);
      StartIsSafe(run[i], run[i + 1], j, lo, hi, u);
      MergeServesExactly(run, steps, i, k, j, lo, hi, u, n);
    }
  }

  /** Whatever the interleaving: if compactions take whole user keys and grow from one file, at every moment the
      levels are in order and every reader there is reads what was written. */
  lemma {:induction false} WholeKeysAreSafe(run: seq<State>, steps: seq<Step>, k: nat)
    requires IsRun(run, steps) && k < |run|
    requires forall i :: 0 <= i < k ==> SplitsNothing(run[i], steps[i])
    ensures StackedTo(run, k) && ReadsAgreeTo(run, k)
  {
    if k == 0 {
      RunStarts(run, steps);
    } else {
      WholeKeysAreSafe(run, steps, k - 1);
      SafeStep(run, steps, k - 1);
    }
  }

  lemma SafeStep(run: seq<State>, steps: seq<Step>, k: nat)
    requires IsRun(run, steps) && k < |steps| && StackedTo(run, k) && ReadsAgree(run[k])
    requires forall i :: 0 <= i <= k ==> SplitsNothing(run[i], steps[i])
    ensures Stacked(run[k + 1]) && ReadsAgree(run[k + 1])
  {
    if steps[k].FinishStep? {
      assert Next(run[k], run[k + 1], steps[k]);
      var i, j, lo, hi := StartOf(run, steps, k);
      SafeMergeEnds(run, steps, i, k, j, lo, hi);
    } else {
      RunReadsStep(run, steps, k);
      RunLayersStep(run, steps, k);
      OnlyMergesMatter(run[k], steps[k]);
    }
  }

  lemma OnlyMergesMatter(s: State, step: Step)
    requires !step.FinishStep? && SplitsNothing(s, step)
    ensures KeepsReads(s, step) && KeepsLayers(s, step)
  {
  }
}
