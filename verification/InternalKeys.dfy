/** Internal keys, entries, and what a read of the database means.

    A user comparator orders byte strings, of which there are countably many, so the
    order it induces embeds into the reals.  A user key is modelled by its rank in that
    order: two keys compare as their ranks do, and nothing else about a rank is used. */
module InternalKeys {
  import opened Primitives

  type UserKey = real

  // The value type is the low byte of an internal key's 8-byte trailer.
  type Kind = k: nat | k < 256

  const DELETION: Kind := 0
  const VALUE: Kind := 1
  const KIND_FOR_SEEK: Kind := VALUE
  const MAX_SEQUENCE: nat := 0xFF_FFFF_FFFF_FFFF

  type SequenceNumber = s: nat | s <= MAX_SEQUENCE

  datatype InternalKey = InternalKey(user: UserKey, sequence: SequenceNumber, kind: Kind) {
    // The trailer of the key: sequence number and value type packed together.
    function Pack(): (tag: nat) {
      sequence * 256 + kind
    }

    // A key whose value type is unknown is corrupt.
    predicate Parses() {
      kind <= VALUE
    }
  }

  datatype Entry = Entry(key: InternalKey, value: Bytes)

  // Increasing user key, then decreasing trailer.
  function Compare(a: InternalKey, b: InternalKey): int {
    if a.user < b.user then -1
    else if a.user > b.user then 1
    else if a.Pack() > b.Pack() then -1
    else if a.Pack() < b.Pack() then 1
    else 0
  }

  // The same order, spelled out on the parts of the key.
  predicate Before(a: InternalKey, b: InternalKey) {
    || a.user < b.user
    || (a.user == b.user && (a.sequence > b.sequence || (a.sequence == b.sequence && a.kind > b.kind)))
  }

  lemma ComparePacksCorrectly(a: InternalKey, b: InternalKey)
    ensures Compare(a, b) < 0 <==> Before(a, b)
    ensures Compare(a, b) == 0 <==> a == b
    ensures Compare(a, b) > 0 <==> Before(b, a)
  {
    assert a.sequence < b.sequence ==> a.Pack() < b.Pack();
    assert b.sequence < a.sequence ==> b.Pack() < a.Pack();
  }

  function LookupKey(u: UserKey, s: SequenceNumber): InternalKey {
    InternalKey(u, s, KIND_FOR_SEEK)
  }

  predicate Sorted(es: seq<Entry>) {
    forall i, j :: 0 <= i < j < |es| ==> Before(es[i].key, es[j].key)
  }

  ghost function Elements(es: seq<Entry>): set<Entry> {
    set e | e in es
  }

  // ----- Reads -----

  predicate Visible(e: Entry, u: UserKey, s: nat) {
    e.key.user == u && e.key.Parses() && e.key.sequence <= s
  }

  // e is the newest entry for u that a reader at sequence s may see.
  ghost predicate IsNewest(es: set<Entry>, u: UserKey, s: nat, e: Entry) {
    && e in es
    && Visible(e, u, s)
    && forall x :: x in es && Visible(x, u, s) ==> x.key.sequence <= e.key.sequence
  }

  // A sequence number is given to one write only.
  ghost predicate UniqueSequences(es: set<Entry>) {
    forall x, y | x in es && y in es && x.key.Parses() && y.key.Parses() ::
      x.key.user == y.key.user && x.key.sequence == y.key.sequence ==> x == y
  }

  // The value a reader at sequence s must get for u: that of the newest visible entry,
  // or nothing when there is none or it is a deletion marker.
  ghost function Read(es: set<Entry>, u: UserKey, s: nat): Option<Bytes> {
    if exists e :: IsNewest(es, u, s, e) && e.key.kind == VALUE then
      var e :| IsNewest(es, u, s, e) && e.key.kind == VALUE; Some(e.value)
    else
      None
  }

  lemma ReadNewest(es: set<Entry>, u: UserKey, s: nat, e: Entry)
    requires UniqueSequences(es)
    requires IsNewest(es, u, s, e)
    ensures Read(es, u, s) == if e.key.kind == VALUE then Some(e.value) else None
  {
    forall x | IsNewest(es, u, s, x)
      ensures x == e
    {
      assert x.key.sequence == e.key.sequence;
    }
  }

  lemma {:induction false} NewestExists(es: set<Entry>, u: UserKey, s: nat, c: Entry) returns (e: Entry)
    requires c in es && Visible(c, u, s)
    ensures IsNewest(es, u, s, e)
    decreases es
  {
    var rest := es - {c};
    if d :| d in rest && Visible(d, u, s) {
      var m := NewestExists(rest, u, s, d);
      e := if m.key.sequence < c.key.sequence then c else m;
      forall x | x in es && Visible(x, u, s)
        ensures x.key.sequence <= e.key.sequence
      {
        assert x == c || x in rest;
      }
    } else {
      e := c;
      forall x | x in es && Visible(x, u, s)
        ensures x.key.sequence <= e.key.sequence
      {
        assert x == c || x in rest;
      }
    }
  }

  lemma ReadNothing(es: set<Entry>, u: UserKey, s: nat)
    requires forall e :: e in es ==> !Visible(e, u, s)
    ensures Read(es, u, s) == None
  {
  }

  // Entries that are not visible do not change a read.
  lemma ReadIgnores(es: set<Entry>, more: set<Entry>, u: UserKey, s: nat)
    requires UniqueSequences(es + more)
    requires forall e :: e in more ==> !Visible(e, u, s)
    ensures Read(es + more, u, s) == Read(es, u, s)
  {
    if c :| c in es && Visible(c, u, s) {
      var e := NewestExists(es, u, s, c);
      ReadNewest(es, u, s, e);
      ReadNewest(es + more, u, s, e);
    }
  }

  // ----- Seeking in a sorted run of entries -----

  // Index of the first entry at or after k; the length of es when there is none.
  function FirstAtOrAfter(es: seq<Entry>, k: InternalKey): (i: nat)
    ensures i <= |es|
    ensures forall j :: 0 <= j < i ==> Before(es[j].key, k)
    ensures i < |es| ==> !Before(es[i].key, k)
  {
    if es == [] || !Before(es[0].key, k) then 0 else 1 + FirstAtOrAfter(es[1..], k)
  }

  // In a sorted run, a seek to (u, s) either lands on the newest visible entry for u,
  // or proves that there is none.
  lemma SeekFindsNewest(es: seq<Entry>, u: UserKey, s: SequenceNumber)
    requires Sorted(es)
    ensures
      var i := FirstAtOrAfter(es, LookupKey(u, s));
      if i < |es| && es[i].key.user == u && es[i].key.Parses() then
        IsNewest(Elements(es), u, s, es[i])
      else if i < |es| && es[i].key.user == u then
        true
      else
        forall e :: e in es ==> !Visible(e, u, s)
  {
    var i := FirstAtOrAfter(es, LookupKey(u, s));
    forall j | 0 <= j < |es| && Visible(es[j], u, s)
      ensures i <= j && (i < j ==> Before(es[i].key, es[j].key))
    {
    }
  }
}
