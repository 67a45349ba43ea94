/** A cache shard: what it holds in order of use, and the handles its clients hold. */
module LruCaches {
  import opened Primitives
  import opened HandleTables

  datatype Info = Info(charge: nat, refs: nat)

  /** A shard.  Handles below next have been allocated; those that are not in entries have been
      freed, in the order of deleted. */
  datatype State = State(lru: seq<Handle>, entries: map<nat, Info>, usage: int, clients: multiset<nat>,
                         deleted: seq<nat>, next: nat)

  // The sum of the charges of entries below n.
  function Total(entries: map<nat, Info>, n: nat): nat {
    if n == 0 then 0 else Total(entries, n - 1) + if n - 1 in entries then entries[n - 1].charge else 0
  }

  predicate Listed(lru: seq<Handle>, id: nat) {
    exists i :: 0 <= i < |lru| && lru[i].id == id
  }

  // Handles in the list are for different keys.
  predicate Unique(lru: seq<Handle>) {
    forall i, j :: 0 <= i < j < |lru| ==> lru[i].key != lru[j].key
  }

  // Handles in the list are allocated, each there once.
  predicate ListIn(lru: seq<Handle>, entries: map<nat, Info>) {
    && (forall i :: 0 <= i < |lru| ==> lru[i].id in entries)
    && (forall i, j :: 0 <= i < j < |lru| ==> lru[i].id != lru[j].id)
  }

  // Each entry is kept by the list and by every handle that clients hold, and by nothing else
  // but a reference about to be dropped.
  ghost predicate Counted(s: State, loose: Option<nat>) {
    && (forall id :: id in s.entries ==>
          0 < s.entries[id].refs == s.clients[id] + (if Listed(s.lru, id) then 1 else 0) + (if loose == Some(id) then 1 else 0))
    && (forall id :: id in s.clients ==> id in s.entries)
  }

  // Each deleter has run once, and only for what is freed.
  ghost predicate Freed(entries: map<nat, Info>, deleted: seq<nat>, next: nat) {
    && (forall id :: id in entries ==> id < next)
    && (forall id: nat :: id < next ==> (id in deleted <==> id !in entries))
    && (forall id :: id in deleted ==> id < next)
    && (forall i, j :: 0 <= i < j < |deleted| ==> deleted[i] != deleted[j])
  }

  ghost predicate Sound(s: State, loose: Option<nat>) {
    && ListIn(s.lru, s.entries) && Counted(s, loose) && Freed(s.entries, s.deleted, s.next)
    && s.usage == Total(s.entries, s.next)
  }

  ghost predicate Inv(s: State) {
    Sound(s, None) && Unique(s.lru)
  }

  // ----- What the operations do -----

  function Unreferenced(s: State, id: nat): State
    requires id in s.entries && s.entries[id].refs > 0
  {
    var e := s.entries[id];
    if e.refs == 1 then
      s.(usage := s.usage - e.charge, entries := s.entries - {id}, deleted := s.deleted + [id])
    else s.(entries := s.entries[id := e.(refs := e.refs - 1)])
  }

  // Where the handle for a key is in the list; its length if there is none.
  function Find(lru: seq<Handle>, key: Bytes): (i: nat)
    ensures i <= |lru| && (i < |lru| ==> lru[i].key == key)
    ensures forall j :: 0 <= j < i ==> lru[j].key != key
  {
    if lru == [] || lru[0].key == key then 0 else Find(lru[1..], key) + 1
  }

  function Without(lru: seq<Handle>, i: nat): seq<Handle>
    requires i < |lru|
  {
    lru[..i] + lru[i + 1..]
  }

  // Takes the i-th handle out of the list.
  function Drop(s: State, i: nat): State
    requires i < |s.lru| && s.lru[i].id in s.entries && s.entries[s.lru[i].id].refs > 0
  {
    Unreferenced(s.(lru := Without(s.lru, i)), s.lru[i].id)
  }

  function Looked(s: State, key: Bytes): State
    requires var i := Find(s.lru, key); i < |s.lru| ==> s.lru[i].id in s.entries
  {
    var i := Find(s.lru, key);
    if i == |s.lru| then s else Touched(s, i)
  }

  function Touched(s: State, i: nat): State
    requires i < |s.lru| && s.lru[i].id in s.entries
  {
    var h := s.lru[i];
    s.(lru := Without(s.lru, i) + [h], clients := s.clients + multiset{h.id},
       entries := s.entries[h.id := s.entries[h.id].(refs := s.entries[h.id].refs + 1)])
  }

  function Released(s: State, id: nat): State
    requires id in s.entries && s.entries[id].refs > 0
  {
    Unreferenced(s.(clients := s.clients - multiset{id}), id)
  }

  function Erased(s: State, key: Bytes): State
    requires var i := Find(s.lru, key); i < |s.lru| ==> s.lru[i].id in s.entries && s.entries[s.lru[i].id].refs > 0
  {
    var i := Find(s.lru, key);
    if i == |s.lru| then s else Drop(s, i)
  }

  // A new newest entry, with one reference from the list and one from the client.
  function Appended(s: State, h: Handle, charge: nat): State {
    s.(lru := s.lru + [h], entries := s.entries[h.id := Info(charge, 2)], usage := s.usage + charge,
       clients := s.clients + multiset{h.id}, next := s.next + 1)
  }

  // ----- What they keep -----

  lemma {:induction false} TotalOf(entries: map<nat, Info>, other: map<nat, Info>, id: nat, n: nat)
    requires forall x: nat :: x != id ==> (x in entries <==> x in other) && (x in entries ==> entries[x].charge == other[x].charge)
    ensures Total(other, n) == Total(entries, n) + if id < n then Charge(other, id) - Charge(entries, id) else 0
  {
    if n > 0 {
      TotalOf(entries, other, id, n - 1);
    }
  }

  function Charge(entries: map<nat, Info>, id: nat): nat {
    if id in entries then entries[id].charge else 0
  }

  lemma UnrefKeeps(s: State, id: nat)
    requires id in s.entries && Sound(s, Some(id))
    ensures Sound(Unreferenced(s, id), None) && Unreferenced(s, id).lru == s.lru
  {
    var t := Unreferenced(s, id);
    TotalOf(s.entries, t.entries, id, s.next);
    assert s.entries[id].refs == 1 ==> !Listed(s.lru, id);
    forall i | 0 <= i < |s.lru| ensures s.lru[i].id in t.entries {
      assert Listed(s.lru, s.lru[i].id);
    }
  }

  lemma ListedWithout(lru: seq<Handle>, i: nat, id: nat)
    requires i < |lru| && forall j, k :: 0 <= j < k < |lru| ==> lru[j].id != lru[k].id
    ensures Listed(Without(lru, i), id) <==> Listed(lru, id) && id != lru[i].id
  {
    if Listed(lru, id) && id != lru[i].id {
      var j :| 0 <= j < |lru| && lru[j].id == id;
      assert Without(lru, i)[if j < i then j else j - 1].id == id;
    }
    if Listed(Without(lru, i), id) {
      var j :| 0 <= j < |Without(lru, i)| && Without(lru, i)[j].id == id;
      assert lru[if j < i then j else j + 1].id == id;
    }
  }

  lemma DropKeeps(s: State, i: nat)
    requires Sound(s, None) && i < |s.lru|
    ensures s.lru[i].id in s.entries && s.entries[s.lru[i].id].refs > 0
    ensures Sound(Drop(s, i), None) && Drop(s, i).lru == Without(s.lru, i)
  {
    var id := s.lru[i].id;
    var t := s.(lru := Without(s.lru, i));
    assert Listed(s.lru, id);
    forall x ensures Listed(t.lru, x) <==> Listed(s.lru, x) && x != id {
      ListedWithout(s.lru, i, x);
    }
    UnrefKeeps(t, id);
  }

  lemma ListedAppended(lru: seq<Handle>, h: Handle)
    ensures forall id :: Listed(lru + [h], id) <==> Listed(lru, id) || id == h.id
  {
    var t := lru + [h];
    assert t[|lru|].id == h.id;
    forall id | Listed(lru, id) ensures Listed(t, id) {
      var j :| 0 <= j < |lru| && lru[j].id == id;
      assert t[j].id == id;
    }
  }

  lemma AppendedKeeps(s: State, h: Handle, charge: nat)
    requires Sound(s, None) && h.id == s.next
    ensures Sound(Appended(s, h, charge), None)
  {
    var t := Appended(s, h, charge);
    TotalOf(s.entries, t.entries, h.id, s.next);
    AppendedCounts(s, h, charge);
    AppendedIn(s.lru, h, s.entries, Info(charge, 2));
    FreedWithNewest(s.entries, Info(charge, 2), s.deleted, s.next);
  }

  lemma AppendedIn(lru: seq<Handle>, h: Handle, entries: map<nat, Info>, e: Info)
    requires ListIn(lru, entries) && h.id !in entries
    ensures ListIn(lru + [h], entries[h.id := e])
  {
  }

  lemma FreedWithNewest(entries: map<nat, Info>, e: Info, deleted: seq<nat>, next: nat)
    requires Freed(entries, deleted, next)
    ensures Freed(entries[next := e], deleted, next + 1)
  {
  }

  lemma AppendedCounts(s: State, h: Handle, charge: nat)
    requires ListIn(s.lru, s.entries) && Counted(s, None) && h.id !in s.entries
    ensures Counted(Appended(s, h, charge), None)
  {
    ListedAppended(s.lru, h);
    assert h.id !in s.clients && s.clients[h.id] == 0;
  }

  // Drops the oldest handles while too much is in use.
  ghost function Evict(s: State, capacity: nat): (t: State)
    requires Sound(s, None)
    ensures Sound(t, None) && (t.usage <= capacity || t.lru == [])
    decreases |s.lru|
  {
    if s.usage > capacity && s.lru != [] then
      DropKeeps(s, 0);
      Evict(Drop(s, 0), capacity)
    else s
  }

  // With a new newest entry, in the place of any other one for its key.
  function Entered(s: State, h: Handle, charge: nat): State
    requires var i := Find(s.lru, h.key); i < |s.lru| ==> s.lru[i].id in s.entries && s.entries[s.lru[i].id].refs > 0
  {
    var i := Find(s.lru, h.key);
    if i < |s.lru| && s.lru[i].id != h.id then Drop(Appended(s, h, charge), i) else Appended(s, h, charge)
  }

  lemma EnteredKeeps(s: State, h: Handle, charge: nat)
    requires Inv(s) && h.id == s.next
    ensures var i := Find(s.lru, h.key); i < |s.lru| ==> s.lru[i].id in s.entries && s.entries[s.lru[i].id].refs > 0 && s.lru[i].id != h.id
    ensures Sound(Entered(s, h, charge), None) && Unique(Entered(s, h, charge).lru)
    ensures ListIn(s.lru + [h], s.entries[h.id := Info(charge, 2)])
  {
    var t, i := Appended(s, h, charge), Find(s.lru, h.key);
    AppendedKeeps(s, h, charge);
    if i < |s.lru| {
      DropKeeps(s, i);
      DropKeeps(t, i);
    }
    NewestIsUnique(s.lru, h, i, Entered(s, h, charge).lru);
  }

  ghost function Inserted(s: State, key: Bytes, hash: nat, charge: nat, capacity: nat): State
    requires Inv(s)
  {
    EnteredKeeps(s, Handle(s.next, key, hash), charge);
    Evict(Entered(s, Handle(s.next, key, hash), charge), capacity)
  }

  lemma LookedKeeps(s: State, key: Bytes)
    requires Inv(s)
    ensures var i := Find(s.lru, key); i < |s.lru| ==> s.lru[i].id in s.entries
    ensures Inv(Looked(s, key))
  {
    var i := Find(s.lru, key);
    if i < |s.lru| {
      var id, t := s.lru[i].id, Looked(s, key);
      TotalOf(s.entries, t.entries, id, s.next);
      MovedToEnd(s.lru, i);
      LookedCounts(s, i);
    }
  }

  // Moving a handle to the end of the list changes nothing but the order.
  lemma MovedToEnd(lru: seq<Handle>, i: nat)
    requires i < |lru| && Unique(lru) && forall j, k :: 0 <= j < k < |lru| ==> lru[j].id != lru[k].id
    ensures
      var t := Without(lru, i) + [lru[i]];
      && Unique(t) && (forall j, k :: 0 <= j < k < |t| ==> t[j].id != t[k].id)
      && (forall j :: 0 <= j < |t| ==> t[j] in lru)
      && forall id :: Listed(t, id) <==> Listed(lru, id)
  {
    var t := Without(lru, i) + [lru[i]];
    forall id ensures Listed(t, id) <==> Listed(lru, id) {
      ListedWithout(lru, i, id);
      if Listed(Without(lru, i), id) {
        var j :| 0 <= j < |lru| - 1 && Without(lru, i)[j].id == id;
        assert t[j].id == id;
      }
      assert t[|lru| - 1].id == lru[i].id;
      if Listed(t, id) && id != lru[i].id {
        var j :| 0 <= j < |t| && t[j].id == id;
        assert Without(lru, i)[j].id == id;
      }
    }
  }

  lemma LookedCounts(s: State, i: nat)
    requires Inv(s) && i < |s.lru|
    requires
      var t := Without(s.lru, i) + [s.lru[i]];
      forall id :: Listed(t, id) <==> Listed(s.lru, id)
    ensures
      var h := s.lru[i];
      Counted(s.(lru := Without(s.lru, i) + [h], clients := s.clients + multiset{h.id},
                 entries := s.entries[h.id := s.entries[h.id].(refs := s.entries[h.id].refs + 1)]), None)
  {
    assert Listed(s.lru, s.lru[i].id);
  }

  lemma ReleasedKeeps(s: State, id: nat)
    requires Inv(s) && id in s.clients
    ensures id in s.entries && s.entries[id].refs > 0 && Inv(Released(s, id))
  {
    var t := s.(clients := s.clients - multiset{id});
    UnrefKeeps(t, id);
  }

  lemma ErasedKeeps(s: State, key: Bytes)
    requires Inv(s)
    ensures var i := Find(s.lru, key); i < |s.lru| ==> s.lru[i].id in s.entries && s.entries[s.lru[i].id].refs > 0
    ensures Inv(Erased(s, key))
  {
    var i := Find(s.lru, key);
    if i < |s.lru| {
      DropKeeps(s, i);
      UniqueWithout(s.lru, i);
    }
  }

  lemma InsertedKeeps(s: State, key: Bytes, hash: nat, charge: nat, capacity: nat)
    requires Inv(s)
    ensures Inv(Inserted(s, key, hash, charge, capacity))
  {
    var h := Handle(s.next, key, hash);
    EnteredKeeps(s, h, charge);
    var n := EvictsOldest(Entered(s, h, charge), capacity);
    UniqueAfter(Entered(s, h, charge).lru, n);
  }

  lemma UniqueAfter(lru: seq<Handle>, n: nat)
    requires Unique(lru) && n <= |lru|
    ensures Unique(lru[n..])
  {
  }

  lemma UniqueWithout(lru: seq<Handle>, i: nat)
    requires Unique(lru) && i < |lru|
    ensures Unique(Without(lru, i))
    ensures forall g :: g in Without(lru, i) ==> g in lru && g.key != lru[i].key
  {
  }

  lemma UniqueAppended(lru: seq<Handle>, h: Handle)
    requires Unique(lru) && forall g :: g in lru ==> g.key != h.key
    ensures Unique(lru + [h])
  {
  }

  lemma WithoutThenAppended(lru: seq<Handle>, i: nat, h: Handle)
    requires i < |lru|
    ensures Without(lru + [h], i) == Without(lru, i) + [h]
  {
  }

  lemma NewestIsUnique(lru: seq<Handle>, h: Handle, i: nat, t: seq<Handle>)
    requires Unique(lru) && i == Find(lru, h.key) && t == if i < |lru| then Without(lru + [h], i) else lru + [h]
    ensures Unique(t)
  {
    if i < |lru| {
      WithoutThenAppended(lru, i, h);
      UniqueWithout(lru, i);
      UniqueAppended(Without(lru, i), h);
    } else {
      UniqueAppended(lru, h);
    }
  }

  // The state after n of the oldest handles have been dropped.
  ghost function Dropped(s: State, n: nat): (t: State)
    requires Sound(s, None) && n <= |s.lru|
    ensures Sound(t, None) && t.lru == s.lru[n..]
    decreases n
  {
    if n == 0 then s
    else
      DropKeeps(s, 0);
      assert Without(s.lru, 0) == s.lru[1..];
      Dropped(Drop(s, 0), n - 1)
  }

  lemma DropsFirst(s: State)
    requires Sound(s, None) && s.lru != []
    ensures s.lru[0].id in s.entries && s.entries[s.lru[0].id].refs > 0
    ensures Sound(Drop(s, 0), None) && Drop(s, 0).lru == s.lru[1..]
  {
    DropKeeps(s, 0);
  }

  /** Eviction drops the oldest handles, and only while too much is in use. */
  lemma {:induction false} EvictsOldest(s: State, capacity: nat) returns (n: nat)
    requires Sound(s, None)
    ensures EvictsJust(s, n, capacity)
    decreases |s.lru|
  {
    n := 0;
    if s.usage > capacity && s.lru != [] {
      DropsFirst(s);
      n := EvictsOldest(Drop(s, 0), capacity);
      EvictsOneMore(s, n, capacity);
      n := n + 1;
    }
  }

  // Eviction drops the n oldest handles, and before the last of them too much was in use.
  ghost predicate EvictsJust(s: State, n: nat, capacity: nat)
    requires Sound(s, None)
  {
    && n <= |s.lru| && Evict(s, capacity) == Dropped(s, n)
    && forall m: nat :: m < n ==> Dropped(s, m).usage > capacity
  }

  lemma EvictsOneMore(s: State, n: nat, capacity: nat)
    requires Sound(s, None) && s.lru != [] && s.usage > capacity
    requires Sound(Drop(s, 0), None) && Drop(s, 0).lru == s.lru[1..] && EvictsJust(Drop(s, 0), n, capacity)
    ensures EvictsJust(s, n + 1, capacity)
  {
    DroppedOneMore(s, n, capacity);
    assert Dropped(s, n + 1) == Dropped(Drop(s, 0), n);
    assert Evict(s, capacity) == Evict(Drop(s, 0), capacity);
  }

  lemma DroppedOneMore(s: State, n: nat, capacity: nat)
    requires Sound(s, None) && s.lru != [] && s.usage > capacity
    requires Sound(Drop(s, 0), None) && Drop(s, 0).lru == s.lru[1..] && n <= |Drop(s, 0).lru|
    requires forall m: nat :: m < n ==> Dropped(Drop(s, 0), m).usage > capacity
    ensures forall m: nat :: m < n + 1 ==> Dropped(s, m).usage > capacity
  {
    forall m: nat | m < n + 1 ensures Dropped(s, m).usage > capacity {
      if m > 0 {
        assert Dropped(s, m) == Dropped(Drop(s, 0), m - 1);
      }
    }
  }

  // ----- A shard -----

  function Elements(lru: seq<Handle>): set<Handle> {
    set h | h in lru
  }

  class LRUCache {
    const capacity: nat
    const hash: Hash
    const table: HandleTable
    var lru: seq<Handle>  // oldest first
    var entries: map<nat, Info>
    var usage: int
    var next: nat
    ghost var clients: multiset<nat>
    ghost var deleted: seq<nat>

    ghost function Current(): State
      reads this
    {
      State(lru, entries, usage, clients, deleted, next)
    }

    ghost predicate Valid()
      reads this, table
    {
      && Inv(Current()) && TableAgrees()
    }

    // The table holds what the list holds.
    ghost predicate TableAgrees()
      reads this, table
    {
      && table.Valid() && table.contents == Elements(lru)
      && forall h :: h in lru ==> h.hash == hash(h.key)
    }
  
    constructor (capacity: nat, hash: Hash)
      ensures Valid() && Current() == State([], map[], 0, multiset{}, [], 0)
      ensures this.capacity == capacity && this.hash == hash && fresh(table)
    {
      this.capacity, this.hash := capacity, hash;
      table := new HandleTable();
      lru, entries, usage, next, clients, deleted := [], map[], 0, 0, multiset{}, [];
    }

    /** A handle for the key, which becomes the most recently used, if there is one. */
    method Lookup(key: Bytes) returns (r: Option<nat>)
      requires Valid()
      modifies this, table
      ensures Valid() && Current() == old(Looked(Current(), key))
      ensures r == var i := old(Find(lru, key)); if i < old(|lru|) then Some(old(lru)[i].id) else None
    {
      LookedKeeps(Current(), key);
      var e := FindEntry(key);
      if e.None? {
        return None;
      }
      Touch(e.value, Find(lru, key));
      return Some(e.value.id);
    }

    method FindEntry(key: Bytes) returns (e: Option<Handle>)
      requires Valid()
      ensures var i := Find(lru, key); e == if i < |lru| then Some(lru[i]) else None
    {
      e := table.Lookup(key, hash(key));
      if e.None? {
        NotListed(lru, key);
      } else {
        FoundIs(lru, e.value);
      }
    }

    // Gives out a handle, and makes it the newest.
    method Touch(h: Handle, ghost i: nat)
      requires ListIn(lru, entries) && i < |lru| && lru[i] == h && TableAgrees()
      modifies this
      ensures Current() == old(Touched(Current(), i)) && TableAgrees()
    {
      SameElements(lru, i);
      entries := entries[h.id := entries[h.id].(refs := entries[h.id].refs + 1)];
      LruRemove(h, i);
      LruAppend(h);
      clients := clients + multiset{h.id};
    }

    method Release(id: nat)
      requires Valid() && id in clients
      modifies this
      ensures Valid() && Current() == old(Released(Current(), id))
    {
      ReleasedKeeps(Current(), id);
      clients := clients - multiset{id};
      Unref(id);
    }

    method Erase(key: Bytes)
      requires Valid()
      modifies this, table
      ensures Valid() && Current() == old(Erased(Current(), key))
    {
      ErasedKeeps(Current(), key);
      EraseEntry(key);
    }

    method EraseEntry(key: Bytes)
      requires ListIn(lru, entries) && Unique(lru) && TableAgrees()
      requires forall i :: 0 <= i < |lru| ==> entries[lru[i].id].refs > 0
      modifies this, table
      ensures Current() == old(Erased(Current(), key)) && TableAgrees()
    {
      var e := table.Remove(key, hash(key));
      if e.Some? {
        FoundIs(lru, e.value);
        WithoutElement(lru, Find(lru, key));
        DropHandle(e.value, Find(lru, key));
      } else {
        NotListed(lru, key);
      }
    }

    // Takes a handle out of the list, and its reference with it.
    method DropHandle(h: Handle, ghost i: nat)
      requires ListIn(lru, entries) && i < |lru| && lru[i] == h && entries[h.id].refs > 0
      modifies this
      ensures Current() == old(Drop(Current(), i))
    {
      LruRemove(h, i);
      Unref(h.id);
    }

    /** A new entry in the place of any other one for its key; then the oldest are dropped while too
        much is in use. */
    method Insert(key: Bytes, charge: nat) returns (id: nat)
      requires Valid()
      modifies this, table
      ensures Valid() && Current() == old(Inserted(Current(), key, hash(key), charge, capacity))
      ensures id == old(next) && (usage <= capacity || lru == [])
    {
      InsertedKeeps(Current(), key, hash(key), charge, capacity);
      id := next;
      InsertEntry(key, charge);
      EvictOldest();
    }

    method InsertEntry(key: Bytes, charge: nat)
      requires Valid()
      modifies this, table
      ensures Sound(Current(), None) && Unique(lru) && TableAgrees()
      ensures Evict(Current(), capacity) == old(Inserted(Current(), key, hash(key), charge, capacity))
    {
      var h := Handle(next, key, hash(key));
      EnteredKeeps(Current(), h, charge);
      ghost var others := lru;
      AddEntry(h, charge);
      EnterInTable(h, others, Find(others, key));
    }

    // Enters the newest handle in the table, and drops another one for its key.
    method EnterInTable(h: Handle, ghost others: seq<Handle>, ghost i: nat)
      requires lru == others + [h] && ListIn(lru, entries) && Unique(others) && i == Find(others, h.key)
      requires i < |others| ==> entries[lru[i].id].refs > 0
      requires table.Valid() && table.contents == Elements(others) && forall g :: g in lru ==> g.hash == hash(g.key)
      modifies this, table
      ensures Current() == old(if i < |others| then Drop(Current(), i) else Current())
      ensures TableAgrees()
    {
      NewIsNotListed(others, h);
      var other := table.Insert(h);
      if other.Some? {
        FoundIs(others, other.value);
        DropReplaced(h, other.value, others, i);
      } else {
        NotListed(others, h.key);
        ElementsMore(others, h);
      }
    }

    // Drops the handle whose place the newest one has taken in the table.
    method DropReplaced(ghost h: Handle, other: Handle, ghost others: seq<Handle>, ghost i: nat)
      requires ListIn(lru, entries) && lru == others + [h] && h !in others && i < |others| && lru[i] == other
      requires entries[other.id].refs > 0 && forall g :: g in lru ==> g.hash == hash(g.key)
      requires table.Valid() && table.contents == Elements(others) - {other} + {h}
      modifies this
      ensures Current() == old(Drop(Current(), i)) && TableAgrees()
    {
      NewInPlaceOf(others, h, i);
      SubsetWithout(lru, i);
      DropHandle(other, i);
    }

    method AddEntry(h: Handle, charge: nat)
      requires h.id == next
      modifies this
      ensures Current() == old(Appended(Current(), h, charge))
    {
      entries := entries[h.id := Info(charge, 2)];
      next := next + 1;
      clients := clients + multiset{h.id};
      LruAppend(h);
      usage := usage + charge;
    }

    method EvictOldest()
      requires Sound(Current(), None) && Unique(lru) && TableAgrees()
      modifies this, table
      ensures Current() == old(Evict(Current(), capacity)) && TableAgrees()
    {
      while usage > capacity && |lru| > 0
        invariant Sound(Current(), None) && Unique(lru) && TableAgrees()
        invariant Evict(Current(), capacity) == old(Evict(Current(), capacity))
        decreases |lru|
      {
        EvictOne();
      }
    }

    method EvictOne()
      requires Sound(Current(), None) && Unique(lru) && TableAgrees() && lru != [] && usage > capacity
      modifies this, table
      ensures Sound(Current(), None) && Unique(lru) && TableAgrees() && lru == old(lru)[1..]
      ensures Evict(Current(), capacity) == old(Evict(Current(), capacity))
    {
      DropKeeps(Current(), 0);
      var h := lru[0];
      WithoutElement(lru, 0);
      assert Without(lru, 0) == lru[1..];
      var _ := table.Remove(h.key, h.hash);
      DropHandle(h, 0);
    }

    method LruAppend(h: Handle)
      modifies this`lru
      ensures lru == old(lru) + [h]
    {
      lru := lru + [h];
    }

    method LruRemove(h: Handle, ghost i: nat)
      requires i < |lru| && lru[i] == h && forall j, k :: 0 <= j < k < |lru| ==> lru[j].id != lru[k].id
      modifies this`lru
      ensures lru == old(Without(lru, i))
    {
      var p := 0;
      while lru[p] != h
        invariant p <= i
        decreases i - p
      {
        p := p + 1;
      }
      lru := lru[..p] + lru[p + 1..];
    }

    method Unref(id: nat)
      requires id in entries && entries[id].refs > 0
      modifies this`entries, this`usage, this`deleted
      ensures Current() == old(Unreferenced(Current(), id))
    {
      var e := entries[id];
      entries := entries[id := e.(refs := e.refs - 1)];
      if e.refs - 1 == 0 {
        usage := usage - e.charge;
        deleted := deleted + [id];
        entries := entries - {id};
      }
    }
  }

  // The handle for a key that the table finds is the one in the list.
  lemma {:induction false} FoundIs(lru: seq<Handle>, h: Handle)
    requires Unique(lru) && h in lru
    ensures Find(lru, h.key) < |lru| && lru[Find(lru, h.key)] == h
  {
    var i :| 0 <= i < |lru| && lru[i] == h;
    if Find(lru, h.key) < i {
    } else {
    }
  }

  lemma {:induction false} NotListed(lru: seq<Handle>, key: Bytes)
    requires forall h :: h in lru ==> h.key != key
    ensures Find(lru, key) == |lru|
  {
  }

  lemma WithoutElement(lru: seq<Handle>, i: nat)
    requires i < |lru| && forall j, k :: 0 <= j < k < |lru| ==> lru[j].id != lru[k].id
    ensures Elements(Without(lru, i)) == Elements(lru) - {lru[i]}
  {
    forall h | h in lru && h != lru[i] ensures h in Without(lru, i) {
      var j :| 0 <= j < |lru| && lru[j] == h;
      assert Without(lru, i)[if j < i then j else j - 1] == h;
    }
  }

  lemma ElementsMore(others: seq<Handle>, h: Handle)
    ensures Elements(others + [h]) == Elements(others) + {h}
  {
  }

  lemma NewIsNotListed(others: seq<Handle>, h: Handle)
    requires forall j, k :: 0 <= j < k < |others + [h]| ==> (others + [h])[j].id != (others + [h])[k].id
    ensures h !in others
  {
    forall j | 0 <= j < |others| ensures others[j] != h {
      assert (others + [h])[j].id != (others + [h])[|others|].id;
    }
  }

  lemma SubsetWithout(lru: seq<Handle>, i: nat)
    requires i < |lru|
    ensures forall g :: g in Without(lru, i) ==> g in lru
  {
  }

  lemma NewInPlaceOf(lru: seq<Handle>, h: Handle, i: nat)
    requires i < |lru| && h !in lru && forall j, k :: 0 <= j < k < |lru + [h]| ==> (lru + [h])[j].id != (lru + [h])[k].id
    ensures Elements(Without(lru + [h], i)) == Elements(lru) - {lru[i]} + {h}
  {
    WithoutElement(lru + [h], i);
    assert lru[i] == (lru + [h])[i];
    assert Elements(lru + [h]) == Elements(lru) + {h};
  }

  lemma SameElements(lru: seq<Handle>, i: nat)
    requires i < |lru| && forall j, k :: 0 <= j < k < |lru| ==> lru[j].id != lru[k].id
    ensures Elements(Without(lru, i) + [lru[i]]) == Elements(lru)
  {
    WithoutElement(lru, i);
  }
}
