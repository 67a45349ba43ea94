/** A cache shard against a plain list: items in order of use, the handles clients hold, and what each insertion
    was charged.  No references are counted there, and nothing is looked up by hash. */
module LruRuns {
  import opened Primitives
  import opened HandleTables
  import opened LruCaches

  datatype Call = LookupCall(key: Bytes) | ReleaseCall(id: nat) | EraseCall(key: Bytes) | InsertCall(key: Bytes, charge: nat)

  // Handles are numbered as they are made: the id-th insertion was charged charges[id].
  datatype Item = Item(key: Bytes, id: nat)
  datatype Plain = Plain(items: seq<Item>, held: multiset<nat>, charges: seq<nat>)

  // ----- The plain list -----

  predicate InUse(a: Plain, id: nat) {
    id in a.held || exists i :: 0 <= i < |a.items| && a.items[i].id == id
  }

  // What the handles below n that are in use are charged.
  function Usage(a: Plain, n: nat): nat
    requires n <= |a.charges|
  {
    if n == 0 then 0 else Usage(a, n - 1) + if InUse(a, n - 1) then a.charges[n - 1] else 0
  }

  function Others(items: seq<Item>, key: Bytes): seq<Item> {
    if items == [] then []
    else if items[0].key == key then Others(items[1..], key)
    else [items[0]] + Others(items[1..], key)
  }

  function With(items: seq<Item>, key: Bytes): (found: Option<Item>)
    ensures found.Some? ==> found.value in items && found.value.key == key
    ensures found.None? ==> forall i :: 0 <= i < |items| ==> items[i].key != key
  {
    if items == [] then None
    else if items[0].key == key then Some(items[0])
    else With(items[1..], key)
  }

  // The oldest go while too much is in use.
  function Trim(a: Plain, capacity: nat): Plain
    decreases |a.items|
  {
    if a.items != [] && Usage(a, |a.charges|) > capacity then Trim(a.(items := a.items[1..]), capacity) else a
  }

  function Do(a: Plain, call: Call, capacity: nat): Plain {
    match call
    case LookupCall(key) =>
      var found := With(a.items, key);
      if found.None? then a
      else a.(items := Others(a.items, key) + [found.value], held := a.held + multiset{found.value.id})
    case ReleaseCall(id) => a.(held := a.held - multiset{id})
    case EraseCall(key) => a.(items := Others(a.items, key))
    case InsertCall(key, charge) => Trim(Added(a, key, charge), capacity)
  }

  function Added(a: Plain, key: Bytes, charge: nat): Plain {
    Plain(Others(a.items, key) + [Item(key, |a.charges|)], a.held + multiset{|a.charges|}, a.charges + [charge])
  }

  // The handle a call gives out.
  function Given(a: Plain, call: Call): Option<nat> {
    match call
    case LookupCall(key) => if With(a.items, key).Some? then Some(With(a.items, key).value.id) else None
    case InsertCall(_, _) => Some(|a.charges|)
    case _ => None
  }

  function Replay(calls: seq<Call>, capacity: nat): Plain {
    if calls == [] then Plain([], multiset{}, [])
    else Do(Replay(calls[..|calls| - 1], capacity), calls[|calls| - 1], capacity)
  }

  // ----- A shard and the plain list -----

  function ItemsOf(lru: seq<Handle>): (items: seq<Item>)
    ensures |items| == |lru|
    ensures forall i :: 0 <= i < |lru| ==> items[i] == Item(lru[i].key, lru[i].id)
  {
    seq(|lru|, i requires 0 <= i < |lru| => Item(lru[i].key, lru[i].id))
  }

  ghost predicate Matches(s: State, a: Plain) {
    && a.items == ItemsOf(s.lru) && a.held == s.clients && |a.charges| == s.next
    && forall id :: id in s.entries ==> id < s.next && s.entries[id].charge == a.charges[id]
  }

  // The list without the handle for a key, if it has one.
  function Rest(lru: seq<Handle>, key: Bytes): seq<Handle> {
    var i := Find(lru, key);
    if i < |lru| then Without(lru, i) else lru
  }

  lemma {:induction false} OthersIs(lru: seq<Handle>, key: Bytes)
    requires Unique(lru)
    ensures Others(ItemsOf(lru), key) == ItemsOf(Rest(lru, key))
  {
    if lru != [] {
      assert ItemsOf(lru)[1..] == ItemsOf(lru[1..]);
      if lru[0].key == key {
        NoOther(lru[1..], key);
        assert Without(lru, 0) == lru[1..];
      } else {
        OthersIs(lru[1..], key);
        RestOfLater(lru, key);
        ItemsOfFirst(lru[0], Rest(lru[1..], key));
      }
    }
  }

  lemma RestOfLater(lru: seq<Handle>, key: Bytes)
    requires lru != [] && lru[0].key != key
    ensures Rest(lru, key) == [lru[0]] + Rest(lru[1..], key)
  {
    var i := Find(lru[1..], key);
    if i < |lru| - 1 {
      assert Without(lru, i + 1) == [lru[0]] + Without(lru[1..], i);
    }
  }

  lemma {:induction false} WithIs(lru: seq<Handle>, key: Bytes)
    ensures With(ItemsOf(lru), key) == var i := Find(lru, key); if i < |lru| then Some(Item(lru[i].key, lru[i].id)) else None
  {
    if lru != [] && lru[0].key != key {
      assert ItemsOf(lru)[1..] == ItemsOf(lru[1..]);
      WithIs(lru[1..], key);
    }
  }

  lemma ItemsOfFirst(h: Handle, lru: seq<Handle>)
    ensures ItemsOf([h] + lru) == [Item(h.key, h.id)] + ItemsOf(lru)
  {
  }

  lemma ItemsOfLast(lru: seq<Handle>, h: Handle)
    ensures ItemsOf(lru + [h]) == ItemsOf(lru) + [Item(h.key, h.id)]
  {
  }

  lemma {:induction false} NoOther(lru: seq<Handle>, key: Bytes)
    requires forall i :: 0 <= i < |lru| ==> lru[i].key != key
    ensures Others(ItemsOf(lru), key) == ItemsOf(lru)
  {
    if lru != [] {
      assert ItemsOf(lru)[1..] == ItemsOf(lru[1..]);
      NoOther(lru[1..], key);
      ItemsOfFirst(lru[0], lru[1..]);
      assert [lru[0]] + lru[1..] == lru;
    }
  }

  // A handle is in use exactly while it has an entry: it is listed or held by a client.
  lemma InUseHasEntry(s: State, a: Plain, id: nat)
    requires Sound(s, None) && Matches(s, a)
    ensures InUse(a, id) <==> id in s.entries
  {
    assert Listed(s.lru, id) <==> exists i :: 0 <= i < |a.items| && a.items[i].id == id by {
      if i :| 0 <= i < |s.lru| && s.lru[i].id == id {
        assert a.items[i].id == id;
      }
      if i :| 0 <= i < |a.items| && a.items[i].id == id {
        assert s.lru[i].id == id;
      }
    }
  }

  lemma {:induction false} UsageIs(s: State, a: Plain, n: nat)
    requires Sound(s, None) && Matches(s, a) && n <= s.next
    ensures Usage(a, n) == Total(s.entries, n)
  {
    if n > 0 {
      UsageIs(s, a, n - 1);
      InUseHasEntry(s, a, n - 1);
    }
  }

  lemma LookedMatches(s: State, a: Plain, key: Bytes, capacity: nat)
    requires Inv(s) && Matches(s, a)
    ensures var i := Find(s.lru, key); i < |s.lru| ==> s.lru[i].id in s.entries
    ensures Matches(Looked(s, key), Do(a, LookupCall(key), capacity))
    ensures Given(a, LookupCall(key)) == var i := Find(s.lru, key); if i < |s.lru| then Some(s.lru[i].id) else None
  {
    OthersIs(s.lru, key);
    WithIs(s.lru, key);
    var i := Find(s.lru, key);
    if i < |s.lru| {
      ItemsOfLast(Without(s.lru, i), s.lru[i]);
    }
  }

  lemma UnreferencedMatches(s: State, a: Plain, id: nat)
    requires Matches(s, a) && id in s.entries && s.entries[id].refs > 0
    ensures Matches(Unreferenced(s, id), a)
  {
  }

  lemma ReleasedMatches(s: State, a: Plain, id: nat, capacity: nat)
    requires Inv(s) && Matches(s, a) && id in s.clients
    ensures id in s.entries && s.entries[id].refs > 0
    ensures Matches(Released(s, id), Do(a, ReleaseCall(id), capacity))
  {
    ReleasedKeeps(s, id);
    UnreferencedMatches(s.(clients := s.clients - multiset{id}), a.(held := a.held - multiset{id}), id);
  }

  lemma DroppedMatches(s: State, a: Plain, i: nat)
    requires Sound(s, None) && Matches(s, a) && i < |s.lru|
    ensures s.lru[i].id in s.entries && s.entries[s.lru[i].id].refs > 0
    ensures Matches(Drop(s, i), a.(items := ItemsOf(Without(s.lru, i))))
  {
    DropKeeps(s, i);
    UnreferencedMatches(s.(lru := Without(s.lru, i)), a.(items := ItemsOf(Without(s.lru, i))), s.lru[i].id);
  }

  lemma ErasedMatches(s: State, a: Plain, key: Bytes, capacity: nat)
    requires Inv(s) && Matches(s, a)
    ensures var i := Find(s.lru, key); i < |s.lru| ==> s.lru[i].id in s.entries && s.entries[s.lru[i].id].refs > 0
    ensures Matches(Erased(s, key), Do(a, EraseCall(key), capacity))
  {
    OthersIs(s.lru, key);
    var i := Find(s.lru, key);
    if i < |s.lru| {
      DroppedMatches(s, a, i);
    }
  }

  lemma AppendedMatches(s: State, a: Plain, h: Handle, charge: nat)
    requires Matches(s, a) && h.id == s.next
    ensures Matches(Appended(s, h, charge),
                    Plain(a.items + [Item(h.key, h.id)], a.held + multiset{h.id}, a.charges + [charge]))
  {
    ItemsOfLast(s.lru, h);
  }

  lemma EnteredMatches(s: State, a: Plain, h: Handle, charge: nat)
    requires Inv(s) && Matches(s, a) && h.id == s.next
    ensures var i := Find(s.lru, h.key); i < |s.lru| ==> s.lru[i].id in s.entries && s.entries[s.lru[i].id].refs > 0
    ensures Matches(Entered(s, h, charge), Added(a, h.key, charge))
  {
    EnteredKeeps(s, h, charge);
    AppendedKeeps(s, h, charge);
    AppendedMatches(s, a, h, charge);
    OthersIs(s.lru, h.key);
    var i := Find(s.lru, h.key);
    if i < |s.lru| {
      var b := Plain(a.items + [Item(h.key, h.id)], a.held + multiset{h.id}, a.charges + [charge]);
      DroppedMatches(Appended(s, h, charge), b, i);
      WithoutThenAppended(s.lru, i, h);
      ItemsOfLast(Without(s.lru, i), h);
    }
  }

  lemma {:induction false} EvictMatches(s: State, a: Plain, capacity: nat)
    requires Sound(s, None) && Matches(s, a)
    ensures Matches(Evict(s, capacity), Trim(a, capacity))
    decreases |s.lru|
  {
    UsageIs(s, a, s.next);
    if s.usage > capacity && s.lru != [] {
      DropsFirst(s);
      DroppedMatches(s, a, 0);
      assert Without(s.lru, 0) == s.lru[1..] && ItemsOf(s.lru[1..]) == a.items[1..];
      EvictMatches(Drop(s, 0), a.(items := a.items[1..]), capacity);
    }
  }

  lemma InsertedMatches(s: State, a: Plain, key: Bytes, hash: nat, charge: nat, capacity: nat)
    requires Inv(s) && Matches(s, a)
    ensures Matches(Inserted(s, key, hash, charge, capacity), Trim(Added(a, key, charge), capacity))
  {
    var h := Handle(s.next, key, hash);
    EnteredKeeps(s, h, charge);
    EnteredMatches(s, a, h, charge);
    InsertedIs(s, Entered(s, h, charge), key, hash, charge, capacity);
    EvictedMatches(Entered(s, h, charge), Inserted(s, key, hash, charge, capacity), Added(a, key, charge), capacity);
  }

  lemma EvictedMatches(t: State, evicted: State, b: Plain, capacity: nat)
    requires Sound(t, None) && Matches(t, b) && evicted == Evict(t, capacity)
    ensures Matches(evicted, Trim(b, capacity))
  {
    EvictMatches(t, b, capacity);
  }

  lemma InsertedIs(s: State, t: State, key: Bytes, hash: nat, charge: nat, capacity: nat)
    requires Inv(s) && Sound(t, None)
    requires var i := Find(s.lru, key); i < |s.lru| ==> s.lru[i].id in s.entries && s.entries[s.lru[i].id].refs > 0
    requires t == Entered(s, Handle(s.next, key, hash), charge)
    ensures Inserted(s, key, hash, charge, capacity) == Evict(t, capacity)
  {
  }

  // ----- Runs -----

  /** What a shard does for its clients is what the plain list does: it is charged for what is in use, and has freed
      what is not. */
  lemma UsageAndFreed(s: State, a: Plain)
    requires Inv(s) && Matches(s, a)
    ensures s.usage == Usage(a, |a.charges|)
    ensures forall id: nat :: id < |a.charges| ==> (id in s.deleted <==> !InUse(a, id))
  {
    UsageIs(s, a, s.next);
    forall id: nat | id < |a.charges|
      ensures id in s.deleted <==> !InUse(a, id)
    {
      InUseHasEntry(s, a, id);
    }
  }

  function AllGiven(calls: seq<Call>, capacity: nat): (given: seq<Option<nat>>)
    ensures |given| == |calls|
  {
    if calls == [] then []
    else
      var front := calls[..|calls| - 1];
      AllGiven(front, capacity) + [Given(Replay(front, capacity), calls[|calls| - 1])]
  }

  ghost predicate Follows(c: LRUCache, a: Plain)
    reads c, c.table
  {
    c.Valid() && Matches(c.Current(), a)
  }

  lemma FollowsMeans(c: LRUCache, a: Plain)
    requires Follows(c, a)
    ensures c.usage == Usage(a, |a.charges|)
    ensures forall id: nat :: id < |a.charges| ==> (id in c.deleted <==> !InUse(a, id))
  {
    UsageAndFreed(c.Current(), a);
  }

  lemma StartsEmpty(c: LRUCache)
    requires c.Valid() && c.Current() == State([], map[], 0, multiset{}, [], 0)
    ensures Follows(c, Plain([], multiset{}, []))
  {
  }

  lemma OneCallMore(calls: seq<Call>, i: nat, capacity: nat)
    requires i < |calls|
    ensures Replay(calls[..i + 1], capacity) == Do(Replay(calls[..i], capacity), calls[i], capacity)
    ensures AllGiven(calls[..i + 1], capacity) == AllGiven(calls[..i], capacity) + [Given(Replay(calls[..i], capacity), calls[i])]
  {
    assert calls[..i + 1][..i] == calls[..i];
  }

  /** After any calls whatever a shard holds what the plain list does, has given out the same handles, is charged for
      what is in use and has freed just what is not. */
  method Drive(c: LRUCache, calls: seq<Call>) returns (given: seq<Option<nat>>)
    requires c.Valid() && c.Current() == State([], map[], 0, multiset{}, [], 0)
    modifies c, c.table
    ensures Follows(c, Replay(calls, c.capacity))
    ensures given == AllGiven(calls, c.capacity)
    ensures var a := Replay(calls, c.capacity);
            && c.usage == Usage(a, |a.charges|)
            && forall id: nat :: id < |a.charges| ==> (id in c.deleted <==> !InUse(a, id))
  {
    given := [];
    var a := Plain([], multiset{}, []);
    StartsEmpty(c);
    for i := 0 to |calls|
      invariant Follows(c, a) && a == Replay(calls[..i], c.capacity)
      invariant given == AllGiven(calls[..i], c.capacity)
    {
      OneCallMore(calls, i, c.capacity);
      var g := Make(c, calls[i], a);
      given := given + [g];
      a := Do(a, calls[i], c.capacity);
    }
    assert calls[..|calls|] == calls;
    FollowsMeans(c, a);
  }

  method Make(c: LRUCache, call: Call, a: Plain) returns (given: Option<nat>)
    requires Follows(c, a)
    modifies c, c.table
    ensures Follows(c, Do(a, call, c.capacity)) && given == Given(a, call)
  {
    given := None;
    match call
    case LookupCall(key) => given := MakeLookup(c, key, a);
    case ReleaseCall(id) => MakeRelease(c, id, a);
    case EraseCall(key) =>
      ErasedMatches(c.Current(), a, key, c.capacity);
      c.Erase(key);
    case InsertCall(key, charge) => given := MakeInsert(c, key, charge, a);
  }

  method MakeLookup(c: LRUCache, key: Bytes, ghost a: Plain) returns (given: Option<nat>)
    requires Follows(c, a)
    modifies c, c.table
    ensures Follows(c, Do(a, LookupCall(key), c.capacity)) && given == Given(a, LookupCall(key))
  {
    LookedMatches(c.Current(), a, key, c.capacity);
    given := c.Lookup(key);
  }

  // A client releases only what it holds.
  method MakeRelease(c: LRUCache, id: nat, a: Plain)
    requires Follows(c, a)
    modifies c, c.table
    ensures Follows(c, Do(a, ReleaseCall(id), c.capacity))
  {
    if id in a.held {
      ReleasedMatches(c.Current(), a, id, c.capacity);
      c.Release(id);
    } else {
      assert a.held - multiset{id} == a.held;
    }
  }

  method MakeInsert(c: LRUCache, key: Bytes, charge: nat, ghost a: Plain) returns (given: Option<nat>)
    requires Follows(c, a)
    modifies c, c.table
    ensures Follows(c, Trim(Added(a, key, charge), c.capacity)) && given == Some(|a.charges|)
  {
    InsertedMatches(c.Current(), a, key, c.hash(key), charge, c.capacity);
    var id := c.Insert(key, charge);
    given := Some(id);
  }
}
