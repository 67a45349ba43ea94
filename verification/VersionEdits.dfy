/** Changes to the set of files, as records of the manifest. */
module VersionEdits {
  import opened Primitives
  import opened Coding
  import opened BlockFormat
  import opened WriteBatches

  // What the manifest keeps of a table file; keys are encoded internal keys.
  datatype FileMeta = FileMeta(number: nat, size: nat, smallest: Bytes, largest: Bytes)

  datatype AtLevel<T> = AtLevel(level: nat, it: T)

  /** Deleted files are a set, kept as a sorted sequence. */
  datatype VersionEdit = VersionEdit(
    comparator: Option<Bytes>, logNumber: Option<nat>, prevLogNumber: Option<nat>, nextFileNumber: Option<nat>,
    lastSequence: Option<nat>, compactPointers: seq<AtLevel<Bytes>>, deletedFiles: seq<AtLevel<nat>>,
    newFiles: seq<AtLevel<FileMeta>>)

  const NO_EDIT := VersionEdit(None, None, None, None, None, [], [], [])

  // ----- The set of deleted files -----

  predicate Less(a: AtLevel<nat>, b: AtLevel<nat>) {
    a.level < b.level || (a.level == b.level && a.it < b.it)
  }

  predicate Increasing(s: seq<AtLevel<nat>>) {
    forall i, j :: 0 <= i < j < |s| ==> Less(s[i], s[j])
  }

  function Insert(s: seq<AtLevel<nat>>, x: AtLevel<nat>): (r: seq<AtLevel<nat>>)
    ensures forall y :: y in r <==> y in s || y == x
  {
    if s == [] || Less(x, s[0]) then [x] + s
    else if x == s[0] then s
    else [s[0]] + Insert(s[1..], x)
  }

  lemma {:induction false} InsertLargest(s: seq<AtLevel<nat>>, x: AtLevel<nat>)
    requires forall y :: y in s ==> Less(y, x)
    ensures Insert(s, x) == s + [x]
  {
    if s != [] {
      assert s[0] in s && forall y :: y in s[1..] ==> y in s;
      InsertLargest(s[1..], x);
    }
  }

  // ----- Items of a record -----

  // What items are made of.
  datatype Part = Level(n: nat) | Number(n: nat) | Text(b: Bytes) {
    predicate Valid() {
      match this
      case Level(n) => n < NUM_LEVELS
      case Number(n) => n < POW64
      case Text(b) => |b| < POW32
    }

    function Encoding(): Bytes {
      match this
      case Level(n) => Varint(n)
      case Number(n) => Varint(n)
      case Text(b) => Prefixed(b)
    }
  }

  function PartsBytes(parts: seq<Part>): Bytes {
    if parts == [] then [] else parts[0].Encoding() + PartsBytes(parts[1..])
  }

  datatype Item =
    | Comparator(name: Bytes)
    | LogNumber(n: nat)
    | NextFileNumber(n: nat)
    | LastSequence(n: nat)
    | CompactPointer(pointer: AtLevel<Bytes>)
    | DeletedFile(file: AtLevel<nat>)
    | NewFile(meta: AtLevel<FileMeta>)
    | PrevLogNumber(n: nat)
  {
    function Tag(): nat {
      match this
      case Comparator(_) => 1
      case LogNumber(_) => 2
      case NextFileNumber(_) => 3
      case LastSequence(_) => 4
      case CompactPointer(_) => 5
      case DeletedFile(_) => 6
      case NewFile(_) => 7
      case PrevLogNumber(_) => 9
    }

    function Parts(): seq<Part> {
      match this
      case Comparator(name) => [Text(name)]
      case LogNumber(n) => [Number(n)]
      case NextFileNumber(n) => [Number(n)]
      case LastSequence(n) => [Number(n)]
      case CompactPointer(p) => [Level(p.level), Text(p.it)]
      case DeletedFile(f) => [Level(f.level), Number(f.it)]
      case NewFile(m) =>
        [Level(m.level), Number(m.it.number), Number(m.it.size), Text(m.it.smallest), Text(m.it.largest)]
      case PrevLogNumber(n) => [Number(n)]
    }

    predicate Valid() {
      forall p :: p in Parts() ==> p.Valid()
    }

    function Encoding(): Bytes {
      Varint(Tag()) + PartsBytes(Parts())
    }
  }

  // Records the item in an edit.
  function Put(e: VersionEdit, item: Item): VersionEdit {
    match item
    case Comparator(name) => e.(comparator := Some(name))
    case LogNumber(n) => e.(logNumber := Some(n))
    case NextFileNumber(n) => e.(nextFileNumber := Some(n))
    case LastSequence(n) => e.(lastSequence := Some(n))
    case CompactPointer(p) => e.(compactPointers := e.compactPointers + [p])
    case DeletedFile(f) => e.(deletedFiles := Insert(e.deletedFiles, f))
    case NewFile(m) => e.(newFiles := e.newFiles + [m])
    case PrevLogNumber(n) => e.(prevLogNumber := Some(n))
  }

  function PutAll(e: VersionEdit, items: seq<Item>): VersionEdit
    decreases |items|
  {
    if items == [] then e else PutAll(Put(e, items[0]), items[1..])
  }

  function PointerItems(xs: seq<AtLevel<Bytes>>): seq<Item> {
    if xs == [] then [] else PointerItems(xs[..|xs| - 1]) + [CompactPointer(xs[|xs| - 1])]
  }

  function DeletedItems(xs: seq<AtLevel<nat>>): seq<Item> {
    if xs == [] then [] else DeletedItems(xs[..|xs| - 1]) + [DeletedFile(xs[|xs| - 1])]
  }

  function NewItems(xs: seq<AtLevel<FileMeta>>): seq<Item> {
    if xs == [] then [] else NewItems(xs[..|xs| - 1]) + [NewFile(xs[|xs| - 1])]
  }

  function HeadItems(e: VersionEdit): seq<Item> {
    (if e.comparator.Some? then [Comparator(e.comparator.value)] else [])
    + (if e.logNumber.Some? then [LogNumber(e.logNumber.value)] else [])
    + (if e.prevLogNumber.Some? then [PrevLogNumber(e.prevLogNumber.value)] else [])
    + (if e.nextFileNumber.Some? then [NextFileNumber(e.nextFileNumber.value)] else [])
    + (if e.lastSequence.Some? then [LastSequence(e.lastSequence.value)] else [])
  }

  // What is written of an edit: its items, always in one order.
  function Items(e: VersionEdit): seq<Item> {
    HeadItems(e) + (PointerItems(e.compactPointers) + (DeletedItems(e.deletedFiles) + NewItems(e.newFiles)))
  }

  function ItemsBytes(items: seq<Item>): Bytes {
    if items == [] then [] else items[0].Encoding() + ItemsBytes(items[1..])
  }

  // ----- The items make up the edit -----

  lemma {:induction false} PutConcat(e: VersionEdit, a: seq<Item>, b: seq<Item>)
    ensures PutAll(e, a + b) == PutAll(PutAll(e, a), b)
    decreases |a|
  {
    if a == [] {
      assert a + b == b;
    } else {
      assert (a + b)[1..] == a[1..] + b;
      PutConcat(Put(e, a[0]), a[1..], b);
    }
  }

  lemma PutOne(e: VersionEdit, item: Item)
    ensures PutAll(e, [item]) == Put(e, item)
  {
    assert [item][1..] == [];
  }

  lemma {:induction false} PutPointers(e: VersionEdit, xs: seq<AtLevel<Bytes>>)
    ensures PutAll(e, PointerItems(xs)) == e.(compactPointers := e.compactPointers + xs)
  {
    if xs == [] {
      assert e.compactPointers + xs == e.compactPointers;
    } else {
      var n := |xs| - 1;
      PutPointers(e, xs[..n]);
      PutConcat(e, PointerItems(xs[..n]), [CompactPointer(xs[n])]);
      PutOne(PutAll(e, PointerItems(xs[..n])), CompactPointer(xs[n]));
      assert e.compactPointers + xs[..n] + [xs[n]] == e.compactPointers + xs;
    }
  }

  lemma {:induction false} PutNewFiles(e: VersionEdit, xs: seq<AtLevel<FileMeta>>)
    ensures PutAll(e, NewItems(xs)) == e.(newFiles := e.newFiles + xs)
  {
    if xs == [] {
      assert e.newFiles + xs == e.newFiles;
    } else {
      var n := |xs| - 1;
      PutNewFiles(e, xs[..n]);
      PutConcat(e, NewItems(xs[..n]), [NewFile(xs[n])]);
      PutOne(PutAll(e, NewItems(xs[..n])), NewFile(xs[n]));
      assert e.newFiles + xs[..n] + [xs[n]] == e.newFiles + xs;
    }
  }

  lemma {:induction false} PutDeleted(e: VersionEdit, xs: seq<AtLevel<nat>>)
    requires Increasing(xs) && e.deletedFiles == []
    ensures PutAll(e, DeletedItems(xs)) == e.(deletedFiles := xs)
  {
    if xs != [] {
      var n := |xs| - 1;
      PutDeleted(e, xs[..n]);
      PutConcat(e, DeletedItems(xs[..n]), [DeletedFile(xs[n])]);
      PutOne(PutAll(e, DeletedItems(xs[..n])), DeletedFile(xs[n]));
      InsertLargest(xs[..n], xs[n]);
      assert xs[..n] + [xs[n]] == xs;
    }
  }

  lemma PutHead(e: VersionEdit)
    ensures PutAll(NO_EDIT, HeadItems(e))
         == VersionEdit(e.comparator, e.logNumber, e.prevLogNumber, e.nextFileNumber, e.lastSequence, [], [], [])
  {
    var a := if e.comparator.Some? then [Comparator(e.comparator.value)] else [];
    var b := if e.logNumber.Some? then [LogNumber(e.logNumber.value)] else [];
    var c := if e.prevLogNumber.Some? then [PrevLogNumber(e.prevLogNumber.value)] else [];
    var d := if e.nextFileNumber.Some? then [NextFileNumber(e.nextFileNumber.value)] else [];
    var f := if e.lastSequence.Some? then [LastSequence(e.lastSequence.value)] else [];
    var e1 := NO_EDIT.(comparator := e.comparator);
    var e2 := e1.(logNumber := e.logNumber);
    var e3 := e2.(prevLogNumber := e.prevLogNumber);
    var e4 := e3.(nextFileNumber := e.nextFileNumber);
    PutConcat(NO_EDIT, a + b + c + d, f);
    PutConcat(NO_EDIT, a + b + c, d);
    PutConcat(NO_EDIT, a + b, c);
    PutConcat(NO_EDIT, a, b);
    PutMaybe(NO_EDIT, a, e1);
    PutMaybe(e1, b, e2);
    PutMaybe(e2, c, e3);
    PutMaybe(e3, d, e4);
    PutMaybe(e4, f, e4.(lastSequence := e.lastSequence));
  }

  lemma PutMaybe(e: VersionEdit, items: seq<Item>, after: VersionEdit)
    requires |items| <= 1 && after == if items == [] then e else Put(e, items[0])
    ensures PutAll(e, items) == after
  {
    if items != [] {
      PutOne(e, items[0]);
      assert items == [items[0]];
    }
  }

  lemma ItemsMakeEdit(e: VersionEdit)
    requires Increasing(e.deletedFiles)
    ensures PutAll(NO_EDIT, Items(e)) == e
  {
    var p, d, n := PointerItems(e.compactPointers), DeletedItems(e.deletedFiles), NewItems(e.newFiles);
    PutHead(e);
    PutConcat(NO_EDIT, HeadItems(e), p + (d + n));
    var e1 := PutAll(NO_EDIT, HeadItems(e));
    PutConcat(e1, p, d + n);
    PutPointers(e1, e.compactPointers);
    assert [] + e.compactPointers == e.compactPointers && [] + e.newFiles == e.newFiles;
    var e2 := e1.(compactPointers := e.compactPointers);
    PutConcat(e2, d, n);
    PutDeleted(e2, e.deletedFiles);
    PutNewFiles(e2.(deletedFiles := e.deletedFiles), e.newFiles);
  }

  // ----- Encoding -----

  lemma {:induction false} ItemsBytesConcat(a: seq<Item>, b: seq<Item>)
    ensures ItemsBytes(a + b) == ItemsBytes(a) + ItemsBytes(b)
  {
    if a == [] {
      assert a + b == b;
    } else {
      assert (a + b)[1..] == a[1..] + b;
      ItemsBytesConcat(a[1..], b);
      Assoc(a[0].Encoding(), ItemsBytes(a[1..]), ItemsBytes(b));
    }
  }

  // One more item.
  method Emit(dst: Bytes, ghost items: seq<Item>, item: Item) returns (r: Bytes)
    requires dst == ItemsBytes(items)
    ensures r == ItemsBytes(items + [item])
  {
    ItemsBytesConcat(items, [item]);
    OneItem(item);
    r := dst + item.Encoding();
  }

  lemma OneItem(item: Item)
    ensures ItemsBytes([item]) == item.Encoding()
  {
    var b := item.Encoding();
    assert [item][1..] == [] && b + [] == b;
  }

  /** What is set, in a fixed order, then each compaction pointer, deleted file and new file. */
  method EncodeTo(e: VersionEdit) returns (dst: Bytes)
    ensures dst == ItemsBytes(Items(e))
  {
    var head := EncodeHead(e);
    var pointers := EncodePointers(e.compactPointers);
    var deleted := EncodeDeleted(e.deletedFiles);
    var added := EncodeNew(e.newFiles);
    ItemsBytesConcat(HeadItems(e), PointerItems(e.compactPointers) + (DeletedItems(e.deletedFiles) + NewItems(e.newFiles)));
    ItemsBytesConcat(PointerItems(e.compactPointers), DeletedItems(e.deletedFiles) + NewItems(e.newFiles));
    ItemsBytesConcat(DeletedItems(e.deletedFiles), NewItems(e.newFiles));
    dst := head + (pointers + (deleted + added));
  }

  method EncodePointers(pointers: seq<AtLevel<Bytes>>) returns (dst: Bytes)
    ensures dst == ItemsBytes(PointerItems(pointers))
  {
    dst := [];
    for i := 0 to |pointers|
      invariant dst == ItemsBytes(PointerItems(pointers[..i]))
    {
      assert pointers[..i + 1][..i] == pointers[..i];
      dst := Emit(dst, PointerItems(pointers[..i]), CompactPointer(pointers[i]));
    }
    assert pointers[..|pointers|] == pointers;
  }

  method EncodeHead(e: VersionEdit) returns (dst: Bytes)
    ensures dst == ItemsBytes(HeadItems(e))
  {
    dst := [];
    ghost var a := if e.comparator.Some? then [Comparator(e.comparator.value)] else [];
    ghost var b := if e.logNumber.Some? then [LogNumber(e.logNumber.value)] else [];
    ghost var c := if e.prevLogNumber.Some? then [PrevLogNumber(e.prevLogNumber.value)] else [];
    ghost var d := if e.nextFileNumber.Some? then [NextFileNumber(e.nextFileNumber.value)] else [];
    if e.comparator.Some? {
      dst := Emit(dst, [], Comparator(e.comparator.value));
    }
    if e.logNumber.Some? {
      dst := Emit(dst, a, LogNumber(e.logNumber.value));
    }
    NothingMore(a, b);
    if e.prevLogNumber.Some? {
      dst := Emit(dst, a + b, PrevLogNumber(e.prevLogNumber.value));
    }
    NothingMore(a + b, c);
    if e.nextFileNumber.Some? {
      dst := Emit(dst, a + b + c, NextFileNumber(e.nextFileNumber.value));
    }
    NothingMore(a + b + c, d);
    if e.lastSequence.Some? {
      dst := Emit(dst, a + b + c + d, LastSequence(e.lastSequence.value));
    } else {
      NothingMore(a + b + c + d, []);
    }
  }

  lemma NothingMore(items: seq<Item>, more: seq<Item>)
    ensures more == [] ==> items + more == items
  {
  }

  method EncodeDeleted(files: seq<AtLevel<nat>>) returns (dst: Bytes)
    ensures dst == ItemsBytes(DeletedItems(files))
  {
    dst := [];
    for i := 0 to |files|
      invariant dst == ItemsBytes(DeletedItems(files[..i]))
    {
      assert files[..i + 1][..i] == files[..i];
      dst := Emit(dst, DeletedItems(files[..i]), DeletedFile(files[i]));
    }
    assert files[..|files|] == files;
  }

  method EncodeNew(files: seq<AtLevel<FileMeta>>) returns (dst: Bytes)
    ensures dst == ItemsBytes(NewItems(files))
  {
    dst := [];
    for i := 0 to |files|
      invariant dst == ItemsBytes(NewItems(files[..i]))
    {
      assert files[..i + 1][..i] == files[..i];
      dst := Emit(dst, NewItems(files[..i]), NewFile(files[i]));
    }
    assert files[..|files|] == files;
  }

  // ----- Decoding -----

  // An item with this tag that cannot be read, a tag there is no item for, or no tag at all.
  datatype Failure = BadItem(tag: nat) | UnknownTag | InvalidTag

  datatype ItemRead = Read(item: Item, rest: Bytes) | Failed(failure: Failure)

  datatype PartKind = ALevel | ANumber | AText

  // The parts that come after a tag.
  function Format(tag: nat): Option<seq<PartKind>> {
    if tag == 1 then Some([AText])
    else if tag == 2 || tag == 3 || tag == 4 || tag == 9 then Some([ANumber])
    else if tag == 5 then Some([ALevel, AText])
    else if tag == 6 then Some([ALevel, ANumber])
    else if tag == 7 then Some([ALevel, ANumber, ANumber, AText, AText])
    else None
  }

  function KindOf(p: Part): PartKind {
    if p.Level? then ALevel else if p.Number? then ANumber else AText
  }

  predicate OfFormat(parts: seq<Part>, kinds: seq<PartKind>) {
    |parts| == |kinds| && forall i :: 0 <= i < |parts| ==> KindOf(parts[i]) == kinds[i]
  }

  function ParsePart(kind: PartKind, b: Bytes): (r: Option<(Part, Bytes)>)
    ensures r.Some? ==> KindOf(r.value.0) == kind && |r.value.1| < |b|
  {
    match kind
    case ALevel =>
      (match ParseVarint32(b)
       case None => None
       case Some(p) => if p.0 < NUM_LEVELS then Some((Level(p.0), b[p.1..])) else None)
    case ANumber =>
      (match ParseVarint(b, 10)
       case None => None
       case Some(p) => Some((Number(p.0 % POW64), b[p.1..])))
    case AText =>
      (match ParsePrefixed(b)
       case None => None
       case Some(p) => Some((Text(p.0), p.1)))
  }

  function ParseParts(kinds: seq<PartKind>, b: Bytes): (r: Option<(seq<Part>, Bytes)>)
    ensures r.Some? ==> OfFormat(r.value.0, kinds) && |r.value.1| <= |b|
  {
    if kinds == [] then Some(([], b))
    else
      match ParsePart(kinds[0], b)
      case None => None
      case Some(p) =>
        match ParseParts(kinds[1..], p.1)
        case None => None
        case Some(r) => Some(([p.0] + r.0, r.1))
  }

  function MakeItem(tag: nat, parts: seq<Part>): Item
    requires Format(tag).Some? && OfFormat(parts, Format(tag).value)
  {
    if tag == 1 then Comparator(parts[0].b)
    else if tag == 2 then LogNumber(parts[0].n)
    else if tag == 3 then NextFileNumber(parts[0].n)
    else if tag == 4 then LastSequence(parts[0].n)
    else if tag == 5 then CompactPointer(AtLevel(parts[0].n, parts[1].b))
    else if tag == 6 then DeletedFile(AtLevel(parts[0].n, parts[1].n))
    else if tag == 7 then NewFile(AtLevel(parts[0].n, FileMeta(parts[1].n, parts[2].n, parts[3].b, parts[4].b)))
    else PrevLogNumber(parts[0].n)
  }

  function ParseItem(b: Bytes): (r: ItemRead)
    ensures r.Read? ==> |r.rest| < |b|
  {
    match ParseVarint32(b)
    case None => Failed(InvalidTag)
    case Some(t) =>
      var format := Format(t.0);
      if format.None? then Failed(Failure.UnknownTag)
      else
        match ParseParts(format.value, b[t.1..])
        case None => Failed(BadItem(t.0))
        case Some(p) => Read(MakeItem(t.0, p.0), p.1)
  }

  // Any bytes, decoded on top of an edit.
  function ParseItems(e: VersionEdit, b: Bytes): (r: (VersionEdit, Option<Failure>))
    decreases |b|
  {
    if b == [] then (e, None)
    else
      match ParseItem(b)
      case Failed(failure) => (e, Some(failure))
      case Read(item, rest) => ParseItems(Put(e, item), rest)
  }

  /** Decodes any bytes; the compaction pointers an edit already has are kept. */
  method DecodeFrom(was: VersionEdit, src: Bytes) returns (e: VersionEdit, failure: Option<Failure>)
    ensures (e, failure) == ParseItems(NO_EDIT.(compactPointers := was.compactPointers), src)
  {
    e := NO_EDIT.(compactPointers := was.compactPointers);
    var input := src;
    while |input| > 0
      invariant ParseItems(e, input) == ParseItems(NO_EDIT.(compactPointers := was.compactPointers), src)
      decreases |input|
    {
      var r := ParseItem(input);
      if r.Failed? {
        return e, Some(r.failure);
      }
      e := Put(e, r.item);
      input := r.rest;
    }
    failure := None;
  }

  // ----- The round trip -----

  lemma PartRoundTrip(p: Part, rest: Bytes)
    requires p.Valid()
    ensures ParsePart(KindOf(p), p.Encoding() + rest) == Some((p, rest))
  {
    Pow128Bounds();
    match p
    case Level(n) => ParseVarint32RoundTrip(n, rest);
    case Number(n) => VarintRoundTrip(n, rest, 10);
    case Text(b) => PrefixedRoundTrip(b, rest);
  }

  lemma {:induction false} PartsRoundTrip(parts: seq<Part>, kinds: seq<PartKind>, rest: Bytes)
    requires OfFormat(parts, kinds) && forall p :: p in parts ==> p.Valid()
    ensures ParseParts(kinds, PartsBytes(parts) + rest) == Some((parts, rest))
  {
    if parts == [] {
      assert PartsBytes(parts) + rest == rest;
    } else {
      assert parts[0] in parts && forall p :: p in parts[1..] ==> p in parts;
      Assoc(parts[0].Encoding(), PartsBytes(parts[1..]), rest);
      PartRoundTrip(parts[0], PartsBytes(parts[1..]) + rest);
      PartsRoundTrip(parts[1..], kinds[1..], rest);
      assert [parts[0]] + parts[1..] == parts;
    }
  }

  lemma ItemIsMade(item: Item)
    ensures Format(item.Tag()).Some? && OfFormat(item.Parts(), Format(item.Tag()).value)
    ensures MakeItem(item.Tag(), item.Parts()) == item
  {
  }

  lemma ItemRoundTrip(item: Item, rest: Bytes)
    requires item.Valid()
    ensures ParseItem(item.Encoding() + rest) == Read(item, rest)
  {
    Assoc(Varint(item.Tag()), PartsBytes(item.Parts()), rest);
    ParseVarint32RoundTrip(item.Tag(), PartsBytes(item.Parts()) + rest);
    ItemIsMade(item);
    PartsRoundTrip(item.Parts(), Format(item.Tag()).value, rest);
  }

  lemma {:induction false} ItemsRoundTrip(e: VersionEdit, items: seq<Item>)
    requires forall item :: item in items ==> item.Valid()
    ensures ParseItems(e, ItemsBytes(items)) == (PutAll(e, items), None)
    decreases |items|
  {
    if items != [] {
      assert items[0] in items && forall item :: item in items[1..] ==> item in items;
      ItemRoundTrip(items[0], ItemsBytes(items[1..]));
      ItemsRoundTrip(Put(e, items[0]), items[1..]);
    }
  }

  // Numbers fit in 64 bits, lengths in 32, and levels exist.
  ghost predicate Encodable(e: VersionEdit) {
    Increasing(e.deletedFiles) && forall item :: item in Items(e) ==> item.Valid()
  }

  /** Decoding an encoded edit gives it back. */
  lemma EditRoundTrip(e: VersionEdit)
    requires Encodable(e)
    ensures ParseItems(NO_EDIT, ItemsBytes(Items(e))) == (e, None)
  {
    ItemsRoundTrip(NO_EDIT, Items(e));
    ItemsMakeEdit(e);
  }
}
