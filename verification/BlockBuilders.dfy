/** BlockBuilder: laying out entries one at a time, with a restart every few keys. */
module BlockBuilders {
  import opened Primitives
  import opened Coding
  import opened BlockFormat

  function Points(l: Layout): seq<nat>
    requires l.Valid()
  {
    seq(|l.starts|, k requires 0 <= k < |l.starts| => if l.entries == [] then 0 else l.Offset(l.starts[k]))
  }

  // The whole block: entries, restart array, number of restarts.
  function BlockBytes(l: Layout): Bytes
    requires l.Valid()
  {
    l.Body() + RestartBytes(Points(l)) + Fixed32(|l.starts|)
  }

  function LastKey(l: Layout): Bytes {
    if l.entries == [] then [] else l.entries[|l.entries| - 1].key
  }

  // A restart at every interval-th entry, the last one `counter` entries ago.
  predicate RestartsEvery(l: Layout, interval: nat, counter: nat)
    requires l.Valid()
  {
    && (forall k :: 0 <= k < |l.starts| - 1 ==> l.starts[k + 1] == l.starts[k] + interval)
    && l.starts[|l.starts| - 1] + counter == |l.entries|
    && counter <= interval
  }

  method CountShared(a: Bytes, b: Bytes) returns (shared: nat)
    ensures shared == CommonPrefix(a, b)
  {
    shared := 0;
    var minLength := if |a| < |b| then |a| else |b|;
    while shared < minLength && a[shared] == b[shared]
      invariant shared <= minLength
      invariant CommonPrefix(a, b) == shared + CommonPrefix(a[shared..], b[shared..])
    {
      assert a[shared..][1..] == a[shared + 1..] && b[shared..][1..] == b[shared + 1..];
      shared := shared + 1;
    }
  }

  // "<shared><non_shared><value_size>", then the key delta and the value.
  method EncodeEntry(shared: nat, key: Bytes, value: Bytes) returns (b: Bytes)
    requires shared <= |key| < POW32 && |value| < POW32
    ensures b == EntryBytes(shared, KeyValue(key, value))
  {
    var s := EncodeVarint32(shared);
    var n := EncodeVarint32(|key| - shared);
    var v := EncodeVarint32(|value|);
    b := s + (n + (v + (key[shared..] + value)));
  }

  class BlockBuilder {
    const blockRestartInterval: nat
    var buffer: Bytes
    var restarts: seq<nat>
    var counter: nat
    var finished: bool
    var lastKey: Bytes
    ghost var layout: Layout

    ghost predicate Valid()
      reads this
    {
      && blockRestartInterval >= 1
      && layout.Valid()
      && buffer == layout.Body()
      && restarts == Points(layout)
      && lastKey == LastKey(layout)
      && RestartsEvery(layout, blockRestartInterval, counter)
    }

    constructor (interval: nat)
      requires interval >= 1
      ensures Valid() && !finished && layout == Layout([], [], [0]) && blockRestartInterval == interval
    {
      blockRestartInterval := interval;
      buffer, restarts, counter, finished, lastKey := [], [0], 0, false, [];
      layout := Layout([], [], [0]);
    }

    method Reset()
      requires Valid() || finished
      requires blockRestartInterval >= 1
      modifies this
      ensures Valid() && !finished && layout == Layout([], [], [0])
    {
      buffer, restarts, counter, finished, lastKey := [], [0], 0, false, [];
      layout := Layout([], [], [0]);
    }

    method CurrentSizeEstimate() returns (size: nat)
      requires Valid()
      ensures size == |BlockBytes(layout)|
    {
      size := |buffer| + |restarts| * 4 + 4;
    }

    /** Appends an entry, sharing the longest prefix it can with the key before it. */
    method Add(key: Bytes, value: Bytes)
      requires Valid() && !finished
      requires |key| < POW32 && |value| < POW32
      modifies this
      ensures Valid() && !finished
      ensures layout == Extended(old(layout), blockRestartInterval, old(counter), KeyValue(key, value))
    {
      var shared := 0;
      ghost var extended := Extended(layout, blockRestartInterval, counter, KeyValue(key, value));
      AddStep(layout, blockRestartInterval, counter, KeyValue(key, value));
      if counter < blockRestartInterval {
        // Between restarts a key leaves out what it has in common with the one before.
        shared := CountShared(lastKey, key);
      } else {
        // Restart compression
        restarts := restarts + [|buffer|];
        counter := 0;
      }
      var delta := EncodeEntry(shared, key, value);
      buffer := buffer + delta;
      lastKey := lastKey[..shared] + key[shared..];
      counter := counter + 1;
      layout := extended;
    }

    /** Appends the restart array. */
    method Finish() returns (contents: Bytes)
      requires Valid() && !finished
      modifies this
      ensures contents == old(BlockBytes(layout)) && layout == old(layout) && finished
    {
      buffer := PutFixed32s(buffer, restarts);
      buffer := buffer + Fixed32(|restarts|);
      finished := true;
      contents := buffer;
    }
  }

  method PutFixed32s(b: Bytes, points: seq<nat>) returns (r: Bytes)
    ensures r == b + RestartBytes(points)
  {
    r := b;
    for i := 0 to |points|
      invariant r == b + RestartBytes(points[..i])
    {
      assert points[..i + 1][..i] == points[..i];
      Assoc(b, RestartBytes(points[..i]), Fixed32(points[i]));
      r := r + Fixed32(points[i]);
    }
    assert points[..|points|] == points;
  }

  // The layout after one entry more: it shares the longest prefix it can, unless it restarts.
  function Extended(l: Layout, interval: nat, counter: nat, e: KeyValue): Layout {
    if counter == interval then l.Append(e, 0, true) else l.Append(e, CommonPrefix(LastKey(l), e.key), false)
  }

  // One entry more keeps everything the builder promises.
  lemma {:induction false} AddStep(l: Layout, interval: nat, counter: nat, e: KeyValue)
    requires l.Valid() && RestartsEvery(l, interval, counter) && interval >= 1
    ensures
      var restart := counter == interval;
      var s := if restart then 0 else CommonPrefix(LastKey(l), e.key);
      var m := Extended(l, interval, counter, e);
      && m.Valid()
      && m.Body() == l.Body() + EntryBytes(s, e)
      && Points(m) == Points(l) + (if restart then [|l.Body()|] else [])
      && RestartsEvery(m, interval, if restart then 1 else counter + 1)
      && LastKey(l)[..s] + e.key[s..] == e.key == LastKey(m)
  {
    var restart := counter == interval;
    var s := if restart then 0 else CommonPrefix(LastKey(l), e.key);
    AppendIsValid(l, e, s, restart);
    AppendFrom(l, e, s, restart, 0);
    AppendPoints(l, e, s, restart);
    AppendKeepsSpacing(l, interval, counter, e, s, restart);
  }

  lemma {:induction false} AppendKeepsSpacing(l: Layout, interval: nat, counter: nat, e: KeyValue, s: nat, restart: bool)
    requires l.Valid() && l.Append(e, s, restart).Valid() && RestartsEvery(l, interval, counter) && interval >= 1
    requires restart == (counter == interval)
    ensures RestartsEvery(l.Append(e, s, restart), interval, if restart then 1 else counter + 1)
  {
  }

  lemma {:induction false} AppendIsValid(l: Layout, e: KeyValue, s: nat, restart: bool)
    requires l.Valid() && s <= |e.key|
    requires l.entries == [] ==> s == 0 && !restart
    requires l.entries != [] ==>
      var last := l.entries[|l.entries| - 1].key; s <= |last| && last[..s] == e.key[..s]
    requires restart ==> s == 0
    ensures l.Append(e, s, restart).Valid()
  {
    var m := l.Append(e, s, restart);
    forall i | 0 <= i < |m.entries|
      ensures m.SharesPrefix(i)
    {
      if i < |l.entries| {
        assert l.SharesPrefix(i);
      }
    }
  }

  lemma {:induction false} AppendPoints(l: Layout, e: KeyValue, s: nat, restart: bool)
    requires l.Valid() && l.Append(e, s, restart).Valid()
    ensures Points(l.Append(e, s, restart)) == Points(l) + if restart then [|l.Body()|] else []
  {
    var m := l.Append(e, s, restart);
    l.BodyAt(|l.entries|);
    forall k | 0 <= k < |m.starts|
      ensures m.Offset(m.starts[k]) == if k < |l.starts| then (if l.entries == [] then 0 else l.Offset(l.starts[k])) else |l.Body()|
    {
      AppendOffset(l, e, s, restart, m.starts[k]);
    }
  }
}
