/** What comes back after a crash: of the write-ahead log whole groups of batches, and of the manifest
    the version as of some edit. */
module Recoveries {
  import opened Primitives
  import opened Coding
  import opened LogFormat
  import opened LogReaders
  import opened LogRecovery
  import opened GroupCommit
  import opened WriteBatches
  import VersionEdits
  import Manifests
  import VersionSets

  // ----- The write-ahead log -----

  // What has been read back: updates with their sequence numbers, and the largest of these.
  datatype Replayed = Replayed(mem: seq<(nat, Op)>, maxSequence: nat)

  const POW31: nat := 0x8000_0000

  // The stored count of a batch is taken for a signed 32-bit integer.
  function SignedCount(count: nat): int {
    if count < POW31 then count else count - POW32
  }

  // The number of the last update of a batch, in 64 bits.
  function LastOf(sequence: nat, count: nat): nat {
    (sequence + SignedCount(count) + (POW64 - 1)) % POW64
  }

  function Larger(a: nat, b: nat): nat {
    if a > b then a else b
  }

  function Numbers(sequence: nat, ops: seq<Op>): (r: seq<(nat, Op)>)
    ensures |r| == |ops|
  {
    seq(|ops|, i requires 0 <= i < |ops| => (sequence + i, ops[i]))
  }

  // Under sequence numbers that follow one another.
  function Inserted(r: Replayed, sequence: nat, count: nat, ops: seq<Op>): Replayed {
    Replayed(r.mem + Numbers(sequence, ops), Larger(LastOf(sequence, count), r.maxSequence))
  }

  // One record, which is passed over if it is too small to be a batch; what is wrong further on
  // leaves the updates before it in place.
  function ReplayOne(r: Replayed, record: Bytes): Replayed {
    if |record| < HEADER then r
    else Inserted(r, DecodeFixed(record[..8]), DecodeFixed(record[8..12]), ParseOps(record[HEADER..]).0)
  }

  function ReplayAll(r: Replayed, records: seq<Bytes>): Replayed
    decreases |records|
  {
    if records == [] then r else ReplayAll(ReplayOne(r, records[0]), records[1..])
  }

  /** Reads a log into memory, ignoring what is corrupt. */
  method RecoverLogFile(crc: Checksum, file: Bytes, maxSequence: nat) returns (r: Replayed)
    ensures r == ReplayAll(Replayed([], maxSequence), ReadAll(crc, true, file, FRESH).0)
  {
    r := Replayed([], maxSequence);
    var reader := new Reader(crc, file, true);
    var more := true;
    while more
      invariant reader.Valid() && reader.crc == crc && reader.file == file && reader.checksum && fresh(reader)
      invariant ReplayAll(Replayed([], maxSequence), ReadAll(crc, true, file, FRESH).0)
             == if more then ReplayAll(r, ReadAll(crc, true, file, reader.At()).0) else r
      decreases more, reader.At().Remaining(file)
    {
      var record := reader.ReadRecord();
      if record.None? {
        more := false;
      } else {
        r := InsertRecord(r, record.value);
      }
    }
  }

  method InsertRecord(r: Replayed, record: Bytes) returns (s: Replayed)
    ensures s == ReplayOne(r, record)
  {
    if |record| < HEADER {
      // Log record too small
      return r;
    }
    var ops, status := Iterate(record);
    var sequence, count := DecodeFixed(record[..8]), DecodeFixed(record[8..12]);
    s := Inserted(r, sequence, count, ops);
  }

  // The bytes of the records that the leaders of groups log.
  function GroupBytes(log: seq<Record>): (r: seq<Bytes>)
    ensures |r| == |log|
  {
    seq(|log|, i requires 0 <= i < |log| => BatchBytes(log[i].first, log[i].ops))
  }

  // Sequence numbers, counts and lengths are what a batch can hold.
  predicate Fits(record: Record) {
    && 0 < record.first < POW64 && record.first + |record.ops| <= POW64 && |record.ops| < POW31
    && forall op :: op in record.ops ==> Small(op)
  }

  predicate Storable(log: seq<Record>) {
    forall i :: 0 <= i < |log| ==> Fits(log[i])
  }

  /** The last number is right exactly when the count is that of a signed integer. */
  lemma LastOfBatch(sequence: nat, count: nat)
    requires 0 < sequence && sequence + count <= POW64 && count < POW32
    ensures LastOf(sequence, count) == sequence + count - 1 <==> count < POW31
  {
    var last := sequence + count - 1;
    if count < POW31 {
      assert sequence + count + (POW64 - 1) == last + POW64;
    } else if last >= POW32 {
      assert sequence + SignedCount(count) + (POW64 - 1) == (last - POW32) + POW64;
    } else {
      assert sequence + SignedCount(count) + (POW64 - 1) == last + (POW64 - POW32);
    }
  }

  lemma ReplayParts(r: Replayed, record: Bytes, sequence: nat, count: nat, ops: seq<Op>)
    requires |record| >= HEADER && DecodeFixed(record[..8]) == sequence && DecodeFixed(record[8..12]) == count
    requires ParseOps(record[HEADER..]).0 == ops
    ensures ReplayOne(r, record) == Inserted(r, sequence, count, ops)
  {
  }

  lemma ReplayGroup(r: Replayed, record: Record)
    requires Fits(record)
    ensures ReplayOne(r, BatchBytes(record.first, record.ops))
         == Replayed(r.mem + Numbers(record.first, record.ops), Larger(record.first + |record.ops| - 1, r.maxSequence))
  {
    HeaderIs(record.first, record.ops);
    OpsRoundTrip(record.ops);
    ReplayParts(r, BatchBytes(record.first, record.ops), record.first, |record.ops|, record.ops);
    LastOfBatch(record.first, |record.ops|);
  }

  lemma {:induction false} ReplayConcat(r: Replayed, a: seq<Bytes>, b: seq<Bytes>)
    ensures ReplayAll(r, a + b) == ReplayAll(ReplayAll(r, a), b)
    decreases |a|
  {
    if a == [] {
      assert a + b == b;
    } else {
      assert (a + b)[1..] == a[1..] + b;
      ReplayConcat(ReplayOne(r, a[0]), a[1..], b);
    }
  }

  lemma ReplayOnly(r: Replayed, record: Bytes)
    ensures ReplayAll(r, [record]) == ReplayOne(r, record)
  {
    var one: seq<Bytes> := [record];
    assert one[1..] == [];
  }

  lemma NumberedMore(mem: seq<(nat, Op)>, ops: seq<Op>, more: seq<Op>)
    requires Numbered(mem, ops)
    ensures Numbered(mem + Numbers(|ops| + 1, more), ops + more)
  {
  }

  lemma GroupBytesMore(log: seq<Record>, last: Record)
    ensures GroupBytes(log + [last]) == GroupBytes(log) + [BatchBytes(last.first, last.ops)]
  {
  }

  // What replaying contiguous groups gives: all their updates, numbered without gaps, and the last number.
  predicate Restored(r: Replayed, ops: seq<Op>, max: nat) {
    Numbered(r.mem, ops) && r.maxSequence == Larger(|ops|, max)
  }

  lemma OneGroupMore(log: seq<Record>, last: Record, max: nat)
    requires Restored(ReplayAll(Replayed([], max), GroupBytes(log)), LogOps(log), max)
    requires Fits(last) && last.first == |LogOps(log)| + 1
    ensures Restored(ReplayAll(Replayed([], max), GroupBytes(log + [last])), LogOps(log) + last.ops, max)
  {
    ReplayOneMore(Replayed([], max), log, last);
    RestoredMore(ReplayAll(Replayed([], max), GroupBytes(log)), LogOps(log), last, max);
  }

  lemma ReplayOneMore(start: Replayed, log: seq<Record>, last: Record)
    ensures ReplayAll(start, GroupBytes(log + [last])) == ReplayOne(ReplayAll(start, GroupBytes(log)), BatchBytes(last.first, last.ops))
  {
    var bytes := BatchBytes(last.first, last.ops);
    GroupBytesMore(log, last);
    ReplayConcat(start, GroupBytes(log), [bytes]);
    ReplayOnly(ReplayAll(start, GroupBytes(log)), bytes);
  }

  lemma RestoredMore(r: Replayed, ops: seq<Op>, last: Record, max: nat)
    requires Restored(r, ops, max) && Fits(last) && last.first == |ops| + 1
    ensures Restored(ReplayOne(r, BatchBytes(last.first, last.ops)), ops + last.ops, max)
  {
    ReplayGroup(r, last);
    NumberedMore(r.mem, ops, last.ops);
  }

  lemma {:induction false} ReplayIsNumbered(log: seq<Record>, n: nat, max: nat)
    requires LogIs(log, LogOps(log)) && Storable(log) && n <= |log|
    ensures Restored(ReplayAll(Replayed([], max), GroupBytes(log[..n])), LogOps(log[..n]), max)
  {
    if n > 0 {
      ReplayIsNumbered(log, n - 1, max);
      assert Follows(log, n - 1);
      OneGroupMore(log[..n - 1], log[n - 1], max);
      LastOfPrefix(log, n);
    }
  }

  lemma LastOfPrefix(log: seq<Record>, n: nat)
    requires 0 < n <= |log|
    ensures log[..n] == log[..n - 1] + [log[n - 1]]
    ensures LogOps(log[..n]) == LogOps(log[..n - 1]) + log[n - 1].ops
  {
    assert log[..n][..n - 1] == log[..n - 1];
  }

  // What replaying the first n bytes of a log gives is its first k groups.
  predicate Survives(crc: Checksum, log: seq<Record>, n: nat, k: nat, max: nat)
    requires n <= |LogOf(crc, GroupBytes(log))| && k <= |log|
  {
    var r := ReadAll(crc, true, LogOf(crc, GroupBytes(log))[..n], FRESH);
    Restored(ReplayAll(Replayed([], max), r.0), LogOps(log[..k]), max) && r.1 == []
  }

  lemma GroupsSurvive(crc: Checksum, log: seq<Record>, n: nat, max: nat) returns (k: nat)
    requires LogIs(log, LogOps(log)) && Storable(log) && n <= |LogOf(crc, GroupBytes(log))|
    ensures k <= |log| && Survives(crc, log, n, k, max)
    ensures k < |log| ==> n < |LogOf(crc, GroupBytes(log)[..k + 1])|
  {
    k := CrashLosesOnlyTheTail(crc, true, GroupBytes(log), n);
    assert GroupBytes(log)[..k] == GroupBytes(log[..k]);
    ReplayIsNumbered(log, k, max);
  }

  /** Whenever a run of writers is cut short, and whatever part of the log is in the file by then,
      what is recovered is the batches of whole groups, in order, from the first one on, and numbering
      goes on from there. */
  lemma WholeGroupsSurvive(crc: Checksum, sizes: Sizes, states: seq<State>, steps: seq<Step>, i: nat, n: nat, max: nat)
    returns (k: nat)
    requires Run(sizes, states, steps) && i <= |steps| && Storable(states[i].log)
    requires n <= |LogOf(crc, GroupBytes(states[i].log))|
    ensures k <= |states[i].log| && Survives(crc, states[i].log, n, k, max)
    ensures k < |states[i].log| ==> n < |LogOf(crc, GroupBytes(states[i].log)[..k + 1])|
  {
    LogIsContiguous(sizes, states, steps, i);
    k := GroupsSurvive(crc, states[i].log, n, max);
  }

  lemma LogIsContiguous(sizes: Sizes, states: seq<State>, steps: seq<Step>, i: nat)
    requires Run(sizes, states, steps) && i <= |steps|
    ensures LogIs(states[i].log, LogOps(states[i].log))
  {
    RunKeepsInv(sizes, states, steps, i);
  }

  // The records up to r are at least as long as those up to k.
  lemma PrefixIsShorter(crc: Checksum, records: seq<Bytes>, k: nat, r: nat)
    requires k <= r <= |records|
    ensures |LogOf(crc, records[..k])| <= |LogOf(crc, records[..r])|
  {
    assert records[..r][..k] == records[..k];
    LogGrows(crc, 0, records[..r], k);
    LogLength(crc, records[..k]);
    LogLength(crc, records[..r]);
  }

  lemma {:induction false} LogOpsPrefix(log: seq<Record>, k: nat)
    requires k <= |log|
    ensures LogOps(log[..k]) <= LogOps(log)
    decreases |log|
  {
    if k < |log| {
      LogOpsPrefix(log[..|log| - 1], k);
      assert log[..|log| - 1][..k] == log[..k];
    } else {
      assert log[..k] == log;
    }
  }

  // A record among the first k ends within their operations.
  lemma RecordEndsWithin(log: seq<Record>, r: nat, k: nat)
    requires LogIs(log, LogOps(log)) && r < k <= |log|
    ensures log[r].first + |log[r].ops| <= |LogOps(log[..k])| + 1
  {
    LogOpsPrefix(log[..k], r + 1);
    assert Follows(log, r);
    assert log[..k][..r + 1] == log[..r + 1] && log[..r + 1][..r] == log[..r];
  }

  // Whatever of the log is synced is in the file.
  predicate SyncedIsOnDisk(crc: Checksum, log: seq<Record>, n: nat) {
    forall r :: 0 <= r < |log| && log[r].synced ==> |LogOf(crc, GroupBytes(log)[..r + 1])| <= n
  }

  // What a synced record holds of a writer is within the groups that survive.
  lemma SyncedIsKept(crc: Checksum, arrived: seq<Writer>, w: nat, log: seq<Record>, n: nat, k: nat)
    requires w < |arrived| && arrived[w].batch.Some? && arrived[w].sync && Carried(arrived, w, log)
    requires LogIs(log, LogOps(log)) && SyncedIsOnDisk(crc, log, n)
    requires k <= |log| && (k < |log| ==> n < |LogOf(crc, GroupBytes(log)[..k + 1])|)
    ensures |Ops(arrived[..w])| + |OpsOf(arrived[w])| <= |LogOps(log[..k])|
  {
    var r :| 0 <= r < |log| && Carries(arrived, w, log[r]);
    SyncedRecordIsKept(crc, log, n, k, r);
    RecordEndsWithin(log, r, k);
  }

  lemma SyncedRecordIsKept(crc: Checksum, log: seq<Record>, n: nat, k: nat, r: nat)
    requires SyncedIsOnDisk(crc, log, n) && r < |log| && log[r].synced
    requires k <= |log| && (k < |log| ==> n < |LogOf(crc, GroupBytes(log)[..k + 1])|)
    ensures r < k
  {
    if k <= r {
      PrefixIsShorter(crc, GroupBytes(log), k + 1, r + 1);
    }
  }

  // The operations of a writer, as a memtable holds them.
  predicate Holds(mem: seq<(nat, Op)>, start: nat, ops: seq<Op>) {
    start + |ops| <= |mem| && forall j :: 0 <= j < |ops| ==> mem[start + j] == (start + j + 1, ops[j])
  }

  function MemAfterCrash(crc: Checksum, log: seq<Record>, n: nat, max: nat): seq<(nat, Op)>
    requires n <= |LogOf(crc, GroupBytes(log))|
  {
    ReplayAll(Replayed([], max), ReadAll(crc, true, LogOf(crc, GroupBytes(log))[..n], FRESH).0).mem
  }

  /** A writer that asked for a sync and has returned finds its batch again after any crash, under the
      sequence numbers it had. */
  lemma {:induction false} SyncedWriteSurvives(crc: Checksum, sizes: Sizes, states: seq<State>, steps: seq<Step>, i: nat,
                                               w: nat, n: nat, max: nat)
    requires Run(sizes, states, steps) && i <= |steps| && Storable(states[i].log)
    requires w < states[i].done && states[i].done <= |states[i].arrived|
    requires states[i].arrived[w].batch.Some? && states[i].arrived[w].sync
    requires n <= |LogOf(crc, GroupBytes(states[i].log))| && SyncedIsOnDisk(crc, states[i].log, n)
    ensures Holds(MemAfterCrash(crc, states[i].log, n, max), |Ops(states[i].arrived[..w])|, OpsOf(states[i].arrived[w]))
  {
    WriterIsServed(sizes, states, steps, i, w);
    LogIsContiguous(sizes, states, steps, i);
    ReadersSeeWholeBatches(sizes, states, steps, i);
    var s := states[i];
    WriterIsKept(crc, s.arrived, s.done, w, s.log, n, max);
  }

  lemma WriterIsKept(crc: Checksum, arrived: seq<Writer>, done: nat, w: nat, log: seq<Record>, n: nat, max: nat)
    requires w < done <= |arrived| && arrived[w].batch.Some? && arrived[w].sync && Carried(arrived, w, log)
    requires LogIs(log, LogOps(log)) && Storable(log) && Ops(arrived[..done]) <= LogOps(log)
    requires n <= |LogOf(crc, GroupBytes(log))| && SyncedIsOnDisk(crc, log, n)
    ensures Holds(MemAfterCrash(crc, log, n, max), |Ops(arrived[..w])|, OpsOf(arrived[w]))
  {
    var k := GroupsSurvive(crc, log, n, max);
    SyncedIsKept(crc, arrived, w, log, n, k);
    WriterIsSeenAgain(arrived, done, w, log, k, MemAfterCrash(crc, log, n, max));
  }

  lemma WriterIsSeenAgain(arrived: seq<Writer>, done: nat, w: nat, log: seq<Record>, k: nat, mem: seq<(nat, Op)>)
    requires w < done <= |arrived| && k <= |log| && Ops(arrived[..done]) <= LogOps(log)
    requires |Ops(arrived[..w])| + |OpsOf(arrived[w])| <= |LogOps(log[..k])|
    requires Numbered(mem, LogOps(log[..k]))
    ensures Holds(mem, |Ops(arrived[..w])|, OpsOf(arrived[w]))
  {
    LogOpsPrefix(log, k);
    OpsOfWriter(arrived, w, done);
    SeenAgain(mem, LogOps(log[..k]), LogOps(log), Ops(arrived[..done]), |Ops(arrived[..w])|, OpsOf(arrived[w]));
  }

  lemma SeenAgain(mem: seq<(nat, Op)>, kept: seq<Op>, logged: seq<Op>, done: seq<Op>, start: nat, ops: seq<Op>)
    requires Numbered(mem, kept) && kept <= logged && done <= logged
    requires start + |ops| <= |done| && done[start..start + |ops|] == ops && start + |ops| <= |kept|
    ensures Holds(mem, start, ops)
  {
    forall j | 0 <= j < |ops| ensures mem[start + j] == (start + j + 1, ops[j]) {
      assert done[start..start + |ops|][j] == done[start + j];
      assert kept[start + j] == logged[start + j] == done[start + j];
    }
  }

  // ----- The manifest -----

  /** A manifest that was cut off at any byte is that of its first k edits. */
  lemma {:induction false} FirstEditsSurvive(crc: Checksum, comparator: Bytes, es: seq<VersionEdits.VersionEdit>, n: nat)
    returns (k: nat)
    requires VersionSets.Readable(comparator, es)
    requires n <= |LogOf(crc, VersionSets.Records(es))|
    ensures k <= |es| && ReadAll(crc, true, LogOf(crc, VersionSets.Records(es))[..n], FRESH) == (VersionSets.Records(es[..k]), [])
    ensures VersionSets.Readable(comparator, es[..k]) && (VersionSets.NoneComesBack(es) ==> VersionSets.NoneComesBack(es[..k]))
    ensures k < |es| ==> n < |LogOf(crc, VersionSets.Records(es)[..k + 1])|
  {
    k := CrashLosesOnlyTheTail(crc, true, VersionSets.Records(es), n);
    assert VersionSets.Records(es)[..k] == VersionSets.Records(es[..k]);
    if VersionSets.NoneComesBack(es) {
      NoneComesBackBefore(es, k);
    }
  }

  lemma NoneComesBackBefore(es: seq<VersionEdits.VersionEdit>, k: nat)
    requires VersionSets.NoneComesBack(es) && k <= |es|
    ensures VersionSets.NoneComesBack(es[..k])
  {
    forall level: nat | level < NUM_LEVELS ensures Manifests.NeverBack({}, VersionSets.LevelEdits(es[..k], level)) {
      var all, some := VersionSets.LevelEdits(es, level), VersionSets.LevelEdits(es[..k], level);
      assert Manifests.NeverBack({}, all) && some == all[..k];
      assert forall j :: 0 <= j < k ==> some[..j] == all[..j];
    }
  }
}
