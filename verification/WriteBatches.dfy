/** A batch of updates as bytes: a sequence number, a count, then a record for each update. */
module WriteBatches {
  import opened Primitives
  import opened Coding
  import opened BlockFormat
  import opened GroupCommit

  const HEADER: nat := 12
  const TYPE_DELETION: Byte := 0
  const TYPE_VALUE: Byte := 1

  function OpBytes(op: Op): Bytes {
    match op
    case Put(key, value) => [TYPE_VALUE] + (Prefixed(key) + Prefixed(value))
    case Delete(key) => [TYPE_DELETION] + Prefixed(key)
  }

  function OpsBytes(ops: seq<Op>): Bytes {
    if ops == [] then [] else OpBytes(ops[0]) + OpsBytes(ops[1..])
  }

  function BatchBytes(sequence: nat, ops: seq<Op>): Bytes {
    Fixed64(sequence) + (Fixed32(|ops|) + OpsBytes(ops))
  }

  // Lengths are kept in 32 bits.
  predicate Small(op: Op) {
    |op.key| < POW32 && (op.Put? ==> |op.value| < POW32)
  }

  lemma {:induction false} OpsBytesConcat(a: seq<Op>, b: seq<Op>)
    ensures OpsBytes(a + b) == OpsBytes(a) + OpsBytes(b)
  {
    if a == [] {
      assert a + b == b;
    } else {
      assert (a + b)[1..] == a[1..] + b;
      OpsBytesConcat(a[1..], b);
    }
  }

  lemma OneOpMore(ops: seq<Op>, op: Op)
    ensures OpsBytes(ops + [op]) == OpsBytes(ops) + OpBytes(op)
  {
    OpsBytesConcat(ops, [op]);
    assert [op][1..] == [] && OpBytes(op) + [] == OpBytes(op);
  }

  lemma DropTwo(a: Bytes, b: Bytes, c: Bytes)
    ensures (a + (b + c))[|a| + |b|..] == c && (a + (b + c))[|a|..|a| + |b|] == b && (a + (b + c))[..|a|] == a
  {
  }

  lemma AfterHeader(sequence: nat, ops: seq<Op>)
    ensures |BatchBytes(sequence, ops)| >= HEADER && BatchBytes(sequence, ops)[HEADER..] == OpsBytes(ops)
    ensures BatchBytes(sequence, ops)[..8] == Fixed64(sequence) && BatchBytes(sequence, ops)[8..12] == Fixed32(|ops|)
  {
    DropTwo(Fixed64(sequence), Fixed32(|ops|), OpsBytes(ops));
  }

  lemma BatchGrows(sequence: nat, ops: seq<Op>, more: seq<Op>)
    ensures (Fixed64(sequence) + (Fixed32(|ops + more|) + OpsBytes(ops))) + OpsBytes(more) == BatchBytes(sequence, ops + more)
  {
    Extend(Fixed64(sequence), Fixed32(|ops + more|), OpsBytes(ops), OpsBytes(more));
    OpsBytesConcat(ops, more);
  }

  // ----- Building -----

  class WriteBatch {
    var rep: Bytes
    ghost var sequence: nat
    ghost var ops: seq<Op>

    ghost predicate Valid()
      reads this
    {
      rep == BatchBytes(sequence, ops) && |ops| < POW32 && sequence < POW64
    }

    constructor ()
      ensures Valid() && ops == []
    {
      rep, sequence, ops := Fixed64(0) + (Fixed32(0) + []), 0, [];
    }

    method Count() returns (n: nat)
      requires Valid()
      ensures n == |ops|
    {
      HeaderIs(sequence, ops);
      n := DecodeFixed(rep[8..12]);
    }

    method Sequence() returns (n: nat)
      requires Valid()
      ensures n == sequence
    {
      HeaderIs(sequence, ops);
      n := DecodeFixed(rep[..8]);
    }

    // What comes after the header.
    method Records() returns (b: Bytes)
      requires Valid()
      ensures b == OpsBytes(ops)
    {
      AfterHeader(sequence, ops);
      b := rep[HEADER..];
    }

    method SetCount(n: nat, ghost more: seq<Op>, ghost bytes: Bytes)
      requires rep == Fixed64(sequence) + (Fixed32(|ops|) + bytes) && n == |more|
      modifies this`rep
      ensures rep == Fixed64(sequence) + (Fixed32(|more|) + bytes)
    {
      DropTwo(Fixed64(sequence), Fixed32(|ops|), bytes);
      rep := rep[..8] + (Fixed32(n) + rep[12..]);
    }

    method SetSequence(n: nat)
      requires Valid() && n < POW64
      modifies this
      ensures Valid() && sequence == n && ops == old(ops)
    {
      DropTwo([], Fixed64(sequence), Fixed32(|ops|) + OpsBytes(ops));
      rep := Fixed64(n) + rep[8..];
      sequence := n;
    }

    // One more record.
    method Add(op: Op)
      requires Valid() && |ops| + 1 < POW32
      modifies this
      ensures Valid() && ops == old(ops) + [op] && sequence == old(sequence)
    {
      var n := Count();
      SetCount(n + 1, ops + [op], OpsBytes(ops));
      Extend(Fixed64(sequence), Fixed32(n + 1), OpsBytes(ops), OpBytes(op));
      OneOpMore(ops, op);
      rep := rep + OpBytes(op);
      ops := ops + [op];
    }

    method PutKey(key: Bytes, value: Bytes)
      requires Valid() && |ops| + 1 < POW32
      modifies this
      ensures Valid() && ops == old(ops) + [Put(key, value)] && sequence == old(sequence)
    {
      Add(Put(key, value));
    }

    method DeleteKey(key: Bytes)
      requires Valid() && |ops| + 1 < POW32
      modifies this
      ensures Valid() && ops == old(ops) + [Delete(key)] && sequence == old(sequence)
    {
      Add(Delete(key));
    }

    /** All records of another batch after those of this one. */
    method Append(src: WriteBatch)
      requires Valid() && src.Valid() && src != this && |ops| + |src.ops| < POW32
      modifies this
      ensures Valid() && ops == old(ops) + src.ops && sequence == old(sequence)
    {
      var n := Count();
      var m := src.Count();
      SetCount(n + m, ops + src.ops, OpsBytes(ops));
      var tail := src.Records();
      BatchGrows(sequence, ops, src.ops);
      rep := rep + tail;
      ops := ops + src.ops;
    }
  }

  // ----- Reading -----

  datatype Status = Ok | TooSmall | BadPut | BadDelete | UnknownTag | WrongCount

  function ParsePrefixed(b: Bytes): (r: Option<(Bytes, Bytes)>)
    ensures r.Some? ==> |r.value.1| < |b|
  {
    match ParseVarint32(b)
    case None => None
    case Some(n) =>
      var rest := b[n.1..];
      if |rest| < n.0 then None else Some((rest[..n.0], rest[n.0..]))
  }

  // The first record, and what is after it; or what is wrong with it.
  datatype OpRead = Found(op: Op, rest: Bytes) | Wrong(status: Status)

  function ParseOp(b: Bytes): (r: OpRead)
    requires b != []
    ensures r.Found? ==> |r.rest| < |b|
  {
    if b[0] == TYPE_VALUE then
      match ParsePrefixed(b[1..])
      case None => Wrong(BadPut)
      case Some(k) =>
        (match ParsePrefixed(k.1)
         case None => Wrong(BadPut)
         case Some(v) => Found(Put(k.0, v.0), v.1))
    else if b[0] == TYPE_DELETION then
      match ParsePrefixed(b[1..])
      case None => Wrong(BadDelete)
      case Some(k) => Found(Delete(k.0), k.1)
    else Wrong(UnknownTag)
  }

  // The updates that a handler is given, up to the first record that is wrong.
  function ParseOps(b: Bytes): (r: (seq<Op>, Status))
    decreases |b|
  {
    if b == [] then ([], Ok)
    else
      match ParseOp(b)
      case Wrong(status) => ([], status)
      case Found(op, rest) =>
        var more := ParseOps(rest);
        ([op] + more.0, more.1)
  }

  /** Hands the updates of any bytes to a handler, in order, until something is wrong. */
  method Iterate(rep: Bytes) returns (handled: seq<Op>, status: Status)
    ensures |rep| < HEADER ==> handled == [] && status == TooSmall
    ensures |rep| >= HEADER ==>
      var r := ParseOps(rep[HEADER..]);
      && handled == r.0
      && status == if r.1 == Ok && |r.0| != DecodeFixed(rep[8..12]) then WrongCount else r.1
  {
    handled := [];
    if |rep| < HEADER {
      return handled, TooSmall;
    }
    ghost var all := ParseOps(rep[HEADER..]);
    var input := rep[HEADER..];
    while |input| > 0
      invariant handled + ParseOps(input).0 == all.0 && ParseOps(input).1 == all.1
      decreases |input|
    {
      var r := ParseOp(input);
      if r.Wrong? {
        assert handled + [] == handled;
        return handled, r.status;
      }
      assert handled + ([r.op] + ParseOps(r.rest).0) == (handled + [r.op]) + ParseOps(r.rest).0;
      handled := handled + [r.op];
      input := r.rest;
    }
    assert handled + [] == handled;
    status := if |handled| != DecodeFixed(rep[8..12]) then WrongCount else Ok;
  }

  lemma PrefixedRoundTrip(b: Bytes, rest: Bytes)
    requires |b| < POW32
    ensures ParsePrefixed(Prefixed(b) + rest) == Some((b, rest))
  {
    assert Prefixed(b) + rest == Varint(|b|) + (b + rest);
    ParseVarint32RoundTrip(|b|, b + rest);
    assert (b + rest)[..|b|] == b && (b + rest)[|b|..] == rest;
  }

  lemma OpRoundTrip(op: Op, rest: Bytes)
    requires Small(op)
    ensures ParseOp(OpBytes(op) + rest) == Found(op, rest)
  {
    var b := OpBytes(op) + rest;
    match op
    case Put(key, value) =>
      Extend([TYPE_VALUE], Prefixed(key), Prefixed(value), rest);
      assert b[1..] == Prefixed(key) + (Prefixed(value) + rest);
      PrefixedRoundTrip(key, Prefixed(value) + rest);
      PrefixedRoundTrip(value, rest);
    case Delete(key) =>
      assert b[1..] == Prefixed(key) + rest;
      PrefixedRoundTrip(key, rest);
  }

  lemma {:induction false} OpsRoundTrip(ops: seq<Op>)
    requires forall op :: op in ops ==> Small(op)
    ensures ParseOps(OpsBytes(ops)) == (ops, Ok)
  {
    if ops != [] {
      assert ops[0] in ops && forall op :: op in ops[1..] ==> op in ops;
      OpRoundTrip(ops[0], OpsBytes(ops[1..]));
      OpsRoundTrip(ops[1..]);
      ParsesFirst(OpsBytes(ops), ops[0], OpsBytes(ops[1..]));
      FirstAndRest(ops);
    }
  }

  lemma ParsesFirst(b: Bytes, op: Op, rest: Bytes)
    requires b != [] && ParseOp(b) == Found(op, rest)
    ensures ParseOps(b) == ([op] + ParseOps(rest).0, ParseOps(rest).1)
  {
  }

  lemma FirstAndRest(ops: seq<Op>)
    requires ops != []
    ensures [ops[0]] + ops[1..] == ops
  {
  }

  /** Inserts the updates of a batch under sequence numbers that follow one another. */
  method InsertInto(b: WriteBatch, mem: seq<(nat, Op)>) returns (r: seq<(nat, Op)>, status: Status)
    requires b.Valid() && forall op :: op in b.ops ==> Small(op)
    ensures status == Ok && |r| == |mem| + |b.ops| && r[..|mem|] == mem
    ensures forall i :: 0 <= i < |b.ops| ==> r[|mem| + i] == (b.sequence + i, b.ops[i])
  {
    var ops;
    ops, status := IterateBatch(b);
    var sequence := b.Sequence();
    r := Number(ops, sequence, mem);
  }

  method IterateBatch(b: WriteBatch) returns (ops: seq<Op>, status: Status)
    requires b.Valid() && forall op :: op in b.ops ==> Small(op)
    ensures ops == b.ops && status == Ok
  {
    OpsRoundTrip(b.ops);
    HeaderIs(b.sequence, b.ops);
    ops, status := Iterate(b.rep);
  }

  // What the memtable inserter does with each update.
  method Number(ops: seq<Op>, sequence: nat, mem: seq<(nat, Op)>) returns (r: seq<(nat, Op)>)
    ensures |r| == |mem| + |ops| && r[..|mem|] == mem
    ensures forall i :: 0 <= i < |ops| ==> r[|mem| + i] == (sequence + i, ops[i])
  {
    r := mem;
    for i := 0 to |ops|
      invariant |r| == |mem| + i && r[..|mem|] == mem
      invariant forall j :: 0 <= j < i ==> r[|mem| + j] == (sequence + j, ops[j])
    {
      r := r + [(sequence + i, ops[i])];
    }
  }

  lemma HeaderIs(sequence: nat, ops: seq<Op>)
    requires sequence < POW64 && |ops| < POW32
    ensures
      var rep := BatchBytes(sequence, ops);
      && |rep| >= HEADER && rep[HEADER..] == OpsBytes(ops)
      && DecodeFixed(rep[..8]) == sequence && DecodeFixed(rep[8..12]) == |ops|
  {
    Pow256Widths();
    FixedRoundTrip(sequence, 8);
    FixedRoundTrip(|ops|, 4);
    AfterHeader(sequence, ops);
  }
}
