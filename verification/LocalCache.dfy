/**
 The local materials cache: a hash table by identifier, a list by recency and a heap by expiry, all over the
 same reference-counted entries. Entries live in a store keyed by their address, as the allocator hands it out.
 */
module LocalCache {
  import opened Bytes
  import opened RecencyList
  import opened SessionModel

  datatype Payload = ForEncrypt(enc: EncMaterials) | ForDecrypt(dec: DecMaterials)

  datatype Entry = Entry(
    id: Octets,
    creation: nat,
    expiry: nat,
    payload: Payload,
    messages: nat,
    bytes: nat,
    zombie: bool,
    refcount: nat)

  /** The cache's memory: allocated entries, hash table, recency list and expiry heap. */
  datatype Links = Links(store: map<nat, Entry>, table: map<Octets, nat>, lru: seq<nat>, heap: set<nat>)

  /** The three structures hold the same entries, and every entry is counted once per reference to it. */
  ghost predicate Linked(c: Links, handles: multiset<nat>) {
    NoRepeats(c.lru) && LruIsLive(c) && TableMatches(c) && HeapMatches(c) && Counted(c, handles)
  }

  ghost predicate NoRepeats(lru: seq<nat>) {
    forall i, j :: 0 <= i < j < |lru| ==> lru[i] != lru[j]
  }

  ghost predicate LruIsLive(c: Links) {
    forall a :: a in c.lru <==> a in c.store && !c.store[a].zombie
  }

  ghost predicate TableMatches(c: Links) {
    && (forall a :: a in c.store && !c.store[a].zombie ==> c.store[a].id in c.table && c.table[c.store[a].id] == a)
    && (forall id :: id in c.table ==>
          c.table[id] in c.store && !c.store[c.table[id]].zombie && c.store[c.table[id]].id == id)
  }

  ghost predicate HeapMatches(c: Links) {
    && (forall a :: a in c.heap <==> a in c.store && !c.store[a].zombie && c.store[a].expiry != NO_EXPIRY)
    && (forall a :: a in c.store ==> c.store[a].expiry <= NO_EXPIRY)
  }

  /** An entry stays allocated exactly as long as someone refers to it: a caller, or the cache itself. */
  ghost predicate Counted(c: Links, handles: multiset<nat>) {
    && (forall a :: a in c.store ==>
          c.store[a].refcount == handles[a] + (if c.store[a].zombie then 0 else 1) && c.store[a].refcount > 0)
    && (forall a :: a in handles ==> a in c.store)
  }

  ghost predicate Listed(c: Links) {
    forall a :: a in c.lru ==> a in c.store
  }

  /** The recency list the links stand for. */
  ghost function Items(c: Links): (items: seq<Item>)
    requires Listed(c)
    ensures |items| == |c.lru|
  {
    ItemsIn(c.store, c.lru)
  }

  ghost function ItemsIn(store: map<nat, Entry>, lru: seq<nat>): (items: seq<Item>)
    requires forall a :: a in lru ==> a in store
    ensures |items| == |lru| && forall i :: 0 <= i < |lru| ==> items[i] == ItemAt(store, lru[i])
  {
    seq(|lru|, i requires 0 <= i < |lru| => assert lru[i] in lru; ItemAt(store, lru[i]))
  }

  lemma ItemsAlike(store: map<nat, Entry>, store': map<nat, Entry>, lru: seq<nat>)
    requires forall a :: a in lru ==> a in store && a in store' && ItemAt(store, a) == ItemAt(store', a)
    ensures ItemsIn(store, lru) == ItemsIn(store', lru)
  {
    assert forall i :: 0 <= i < |lru| ==> lru[i] in lru;
  }

  lemma ItemsRemoved(store: map<nat, Entry>, lru: seq<nat>, i: nat)
    requires (forall a :: a in lru ==> a in store) && i < |lru|
    ensures (forall a :: a in RemoveAt(lru, i) ==> a in store)
    ensures ItemsIn(store, RemoveAt(lru, i)) == RemoveAt(ItemsIn(store, lru), i)
  {
    var rest := RemoveAt(lru, i);
    assert forall j :: 0 <= j < |rest| ==> rest[j] == if j < i then lru[j] else lru[j + 1];
  }

  lemma ItemsPushed(store: map<nat, Entry>, a: nat, lru: seq<nat>)
    requires (forall b :: b in lru ==> b in store) && a in store
    ensures ItemsIn(store, [a] + lru) == [ItemAt(store, a)] + ItemsIn(store, lru)
  {
  }

  function ItemAt(store: map<nat, Entry>, a: nat): Item
    requires a in store
  {
    Item(a, store[a].id, store[a].expiry)
  }

  lemma ItemsDistinct(c: Links, handles: multiset<nat>)
    requires Linked(c, handles)
    ensures Listed(c) && Distinct(Items(c))
  {
    var items := Items(c);
    forall i, j | 0 <= i < j < |items|
      ensures items[i].addr != items[j].addr && items[i].id != items[j].id
    {
      assert c.lru[i] in c.lru && c.lru[j] in c.lru;
    }
  }

  /** Where an address stands in the recency list, or the length of the list. */
  function Place(lru: seq<nat>, a: nat): (i: nat)
    ensures i <= |lru| && (i < |lru| ==> lru[i] == a)
    ensures forall j :: 0 <= j < i ==> lru[j] != a
  {
    if lru == [] || lru[0] == a then 0 else 1 + Place(lru[1..], a)
  }

  // ---------- Dropping an entry ----------

  /** Taking the entry at position `i` out of all three structures; it is freed unless a caller still holds it. */
  function Dropped(c: Links, i: nat): Links
    requires i < |c.lru| && c.lru[i] in c.store
  {
    var a := c.lru[i];
    var e := c.store[a];
    Links(if e.refcount <= 1 then c.store - {a} else c.store[a := e.(zombie := true, refcount := e.refcount - 1)],
          c.table - {e.id}, RemoveAt(c.lru, i), c.heap - {a})
  }

  /**
   An entry that is dropped while a caller holds it leaves table, list and heap but keeps its expiry: that is unset
   afterwards if and only if it was never set.
   */
  lemma DroppedKeepsExpiry(c: Links, handles: multiset<nat>, i: nat)
    requires Linked(c, handles) && i < |c.lru| && c.lru[i] in handles
    ensures var a := c.lru[i];
            && a in c.store
            && var d := Dropped(c, i);
            && a in d.store && d.store[a].zombie && a !in d.lru && a !in d.heap && a !in d.table.Values
            && (d.store[a].expiry == NO_EXPIRY <==> a !in c.heap)
  {
    var a := c.lru[i];
    RemovedMembers(c.lru, i);
  }

  lemma RemovedMembers(lru: seq<nat>, i: nat)
    requires NoRepeats(lru) && i < |lru|
    ensures NoRepeats(RemoveAt(lru, i))
    ensures forall b :: b in RemoveAt(lru, i) <==> b in lru && b != lru[i]
  {
    var rest := RemoveAt(lru, i);
    assert forall j :: 0 <= j < |rest| ==> rest[j] == if j < i then lru[j] else lru[j + 1];
    forall b | b in lru && b != lru[i]
      ensures b in rest
    {
      var j :| 0 <= j < |lru| && lru[j] == b;
      assert rest[if j < i then j else j - 1] == b;
    }
  }

  lemma DropKeepsTable(c: Links, handles: multiset<nat>, i: nat)
    requires Linked(c, handles) && i < |c.lru| && c.lru[i] in c.store
    ensures TableMatches(Dropped(c, i)) && HeapMatches(Dropped(c, i))
  {
    hide RemoveAt, NoRepeats;
    var a := c.lru[i];
    assert a in c.lru;
    var d := Dropped(c, i);
    assert forall b :: b in d.store && !d.store[b].zombie <==> b in c.store && !c.store[b].zombie && b != a;
  }

  lemma DropKeepsCount(c: Links, handles: multiset<nat>, i: nat)
    requires Linked(c, handles) && i < |c.lru| && c.lru[i] in c.store
    ensures Counted(Dropped(c, i), handles)
  {
    hide RemoveAt, NoRepeats, TableMatches, HeapMatches;
    assert c.lru[i] in c.lru;
  }

  lemma DropKeeps(c: Links, handles: multiset<nat>, i: nat)
    requires Linked(c, handles) && i < |c.lru|
    ensures c.lru[i] in c.store && Linked(Dropped(c, i), handles)
  {
    hide RemoveAt, NoRepeats, TableMatches, HeapMatches, Counted;
    assert c.lru[i] in c.lru;
    RemovedMembers(c.lru, i);
    DropKeepsTable(c, handles, i);
    DropKeepsCount(c, handles, i);
  }

  lemma DropItems(c: Links, handles: multiset<nat>, i: nat)
    requires Linked(c, handles) && i < |c.lru|
    ensures c.lru[i] in c.store && Listed(c) && Listed(Dropped(c, i))
    ensures Items(Dropped(c, i)) == RemoveAt(Items(c), i)
  {
    hide TableMatches, HeapMatches, Counted, Linked;
    LinkedParts(c, handles);
    assert c.lru[i] in c.lru;
    RemovedMembers(c.lru, i);
    ItemsRemoved(c.store, c.lru, i);
    ItemsAlike(c.store, Dropped(c, i).store, RemoveAt(c.lru, i));
  }

  lemma LinkedParts(c: Links, handles: multiset<nat>)
    requires Linked(c, handles)
    ensures NoRepeats(c.lru) && LruIsLive(c) && Listed(c)
  {
  }

  // ---------- Reading the heap ----------

  predicate Earlier(store: map<nat, Entry>, a: nat, b: nat)
    requires a in store && b in store
  {
    a == b || Before(ItemAt(store, a), ItemAt(store, b))
  }

  lemma {:induction false} HeapHasTop(store: map<nat, Entry>, heap: set<nat>)
    requires heap != {} && forall a :: a in heap ==> a in store
    ensures exists a :: a in heap && forall b :: b in heap ==> Earlier(store, a, b)
    decreases |heap|
  {
    var x :| x in heap;
    if heap == {x} {
      assert forall b :: b in heap ==> Earlier(store, x, b);
    } else {
      var rest := heap - {x};
      HeapHasTop(store, rest);
      var y :| y in rest && forall b :: b in rest ==> Earlier(store, y, b);
      var top := if Earlier(store, x, y) then x else y;
      assert forall b :: b in heap ==> b == x || b in rest;
      assert forall b :: b in heap ==> Earlier(store, top, b);
    }
  }

  /** The heap's top is the top of the recency list. */
  lemma TopMatches(c: Links, handles: multiset<nat>, i: nat)
    requires Linked(c, handles) && Listed(c) && i < |c.lru| && c.lru[i] in c.heap
    requires forall b :: b in c.heap ==> b in c.store && Earlier(c.store, c.lru[i], b)
    ensures IsTop(Items(c), i)
  {
    hide TableMatches, Counted;
    var items := Items(c);
    assert c.lru[i] in c.lru;
    forall j | 0 <= j < |items| && items[j].expiry != NO_EXPIRY && j != i
      ensures Before(items[i], items[j])
    {
      assert c.lru[j] in c.lru;
      assert c.lru[j] in c.heap;
      assert c.lru[i] != c.lru[j];
    }
  }

  /** Nothing is due when the heap is empty or its top lies ahead. */
  lemma NothingDue(c: Links, handles: multiset<nat>, now: nat)
    requires Linked(c, handles) && Listed(c)
    requires forall b :: b in c.heap ==> b in c.store && c.store[b].expiry > now
    ensures forall x :: x in Items(c) ==> !Due(x, now)
  {
    hide TableMatches, Counted, NoRepeats;
    var items := Items(c);
    forall x | x in items
      ensures !Due(x, now)
    {
      var j :| 0 <= j < |items| && items[j] == x;
      assert c.lru[j] in c.lru;
    }
  }

  /** What an operation does not touch in an entry. */
  predicate SameData(x: Entry, y: Entry) {
    x.id == y.id && x.creation == y.creation && x.payload == y.payload && x.messages == y.messages && x.bytes == y.bytes
  }

  /** No entry appears or changes its data, and whatever a caller holds is still there. */
  ghost predicate Inherits(was: Links, c: Links, handles: multiset<nat>) {
    && (forall a :: a in c.store ==> a in was.store && SameData(c.store[a], was.store[a]))
    && (forall a :: a in handles && a in was.store ==> a in c.store)
    && (forall a :: a in c.lru ==> a in was.lru)
  }

  lemma InheritsSelf(c: Links, handles: multiset<nat>)
    ensures Inherits(c, c, handles)
  {
  }

  lemma InheritsTwice(was: Links, mid: Links, c: Links, handles: multiset<nat>)
    requires Inherits(was, mid, handles) && Inherits(mid, c, handles)
    ensures Inherits(was, c, handles)
  {
  }

  lemma DropInherits(c: Links, handles: multiset<nat>, i: nat)
    requires Linked(c, handles) && i < |c.lru| && c.lru[i] in c.store
    ensures Inherits(c, Dropped(c, i), handles)
  {
    hide TableMatches, HeapMatches;
    assert c.lru[i] in c.lru;
  }

  class LocalCache {
    const capacity: nat
    var c: Links
    ghost var handles: multiset<nat>

    ghost predicate Valid()
      reads this
    {
      capacity >= 2 && |c.lru| <= capacity && Linked(c, handles) && Listed(c)
    }

    constructor (capacity: nat)
      ensures Valid() && Items(c) == [] && handles == multiset{} && this.capacity == Max(2, capacity)
      ensures c.store == map[]
    {
      this.capacity := if capacity < 2 then 2 else capacity;
      c := Links(map[], map[], [], {});
      handles := multiset{};
    }

    /** Removes an entry from the structures and gives up the cache's own reference to it. */
    method InvalidateEntry(a: nat, skipHash: bool)
      requires a in c.store && (!c.store[a].zombie ==> a in c.lru && c.store[a].refcount > 0)
      requires c.store[a].expiry == NO_EXPIRY ==> a !in c.heap
      modifies this`c
      ensures c.store.Keys <= old(c.store.Keys)
      ensures c == if old(c).store[a].zombie then old(c) else
                     var d := Dropped(old(c), Place(old(c).lru, a));
                     if skipHash then d.(table := old(c).table) else d
      decreases if c.store[a].zombie then 0 else 1, 0
    {
      if c.store[a].zombie { return; }
      if c.store[a].expiry != NO_EXPIRY {
        c := c.(heap := c.heap - {a});
      }
      if !skipHash {
        c := c.(table := c.table - {c.store[a].id});
      }
      c := c.(lru := RemoveAt(c.lru, Place(c.lru, a)));
      c := c.(store := c.store[a := c.store[a].(zombie := true)]);
      ReleaseLocked(a, false);
    }

    /** Gives up one reference; the last one frees the entry. */
    method ReleaseLocked(a: nat, invalidate: bool)
      requires a in c.store && c.store[a].refcount > 0 && (c.store[a].refcount == 1 ==> c.store[a].zombie)
      requires invalidate ==> (!c.store[a].zombie ==> a in c.lru) && (c.store[a].expiry == NO_EXPIRY ==> a !in c.heap)
      modifies this`c
      ensures !invalidate || old(c).store[a].zombie ==> c == Released(old(c), a)
      ensures invalidate && !old(c).store[a].zombie ==>
                c == Dropped(Released(old(c), a), Place(old(c).lru, a))
      decreases if c.store[a].zombie then 0 else 1, 1
    {
      var count := c.store[a].refcount;
      c := c.(store := c.store[a := c.store[a].(refcount := count - 1)]);
      if count == 1 {
        c := c.(store := c.store - {a});
        return;
      }
      if invalidate && !c.store[a].zombie {
        InvalidateEntry(a, false);
      }
    }

    /** Drops a linked entry. */
    method Evict(a: nat)
      requires Linked(c, handles) && Listed(c) && a in c.lru
      modifies this`c
      ensures Linked(c, handles) && Listed(c) && Inherits(old(c), c, handles)
      ensures |c.lru| == |old(c).lru| - 1
      ensures Items(c) == RemoveAt(Items(old(c)), Place(old(c).lru, a))
    {
      hide TableMatches, Counted, NoRepeats;
      ghost var i := Place(c.lru, a);
      DropKeeps(c, handles, i);
      DropItems(c, handles, i);
      DropInherits(c, handles, i);
      EntryCounted(c, handles, a);
      InvalidateEntry(a, false);
    }

    /** Sweeps the entries that are due, earliest first and at most a batch of them; a failing clock sweeps none. */
    method ProcessTtls(now: Option<nat>)
      requires Valid()
      modifies this`c
      ensures Valid() && Inherits(old(c), c, handles)
      ensures Items(c) == if now.None? then Items(old(c)) else Sweep(Items(old(c)), now.value, TTL_EXPIRATION_BATCH_SIZE)
    {
      hide Linked, Sweep, Items, Inherits, Earlier, Due, Listed;
      InheritsSelf(c, handles);
      if now.None? { return; }
      var budget := TTL_EXPIRATION_BATCH_SIZE;
      while budget > 0 && c.heap != {}
        invariant Valid() && Inherits(old(c), c, handles) && budget >= 0
        invariant Sweep(Items(c), now.value, budget) == Sweep(Items(old(c)), now.value, TTL_EXPIRATION_BATCH_SIZE)
        decreases budget
      {
        HeapInStore(c, handles);
        HeapHasTop(c.store, c.heap);
        var top :| top in c.heap && forall b :: b in c.heap ==> Earlier(c.store, top, b);
        if c.store[top].expiry > now.value {
          LaterThanTop(c, top, now.value);
          break;
        }
        SweepTop(c, handles, top, now.value, budget);
        ghost var was := c;
        Evict(top);
        InheritsTwice(old(c), was, c, handles);
        budget := budget - 1;
      }
      if budget > 0 {
        NothingDue(c, handles, now.value);
      }
      SweepStops(Items(c), now.value, budget);
    }

    /** Looks an identifier up; a hit becomes the most recently used entry and gains a reference. */
    method FindEntry(id: Octets, now: Option<nat>) returns (entry: Option<nat>)
      requires Valid()
      modifies this
      ensures Valid() && Inherits(old(c), c, old(handles))
      ensures Items(c) == Touch(AfterClock(Items(old(c)), now), id)
      ensures var swept := AfterClock(Items(old(c)), now);
              var i := IdPlace(swept, id);
              entry == if i < |swept| then Some(swept[i].addr) else None
      ensures entry.Some? ==> entry.value in c.lru && entry.value in c.store && c.store[entry.value].id == id
      ensures handles == if entry.Some? then old(handles) + multiset{entry.value} else old(handles)
    {
      hide Linked, Sweep, Inherits, Items, Listed, Touch, Due;
      ProcessTtls(now);
      LookupMatches(c, handles, id);
      if id !in c.table { return None; }
      ghost var was := c;
      var a := c.table[id];
      var i := Place(c.lru, a);
      TouchKeeps(c, handles, id);
      c := c.(lru := [a] + RemoveAt(c.lru, i));
      c := c.(store := c.store[a := c.store[a].(refcount := c.store[a].refcount + 1)]);
      handles := handles + multiset{a};
      InheritsTwice(old(c), was, c, old(handles));
      return Some(a);
    }

    /** Links a new entry at the front, in place of one with the same identifier. */
    method Link(at: nat, e: Entry)
      requires Valid() && at !in c.store && e.refcount == 1 && !e.zombie && e.expiry == NO_EXPIRY
      modifies this`c
      ensures Linked(c, handles) && Listed(c) && 0 < |c.lru| <= capacity + 1
      ensures Items(c) == [Item(at, e.id, e.expiry)] + Others(Items(old(c)), e.id)
      ensures InheritsBut(old(c), c, handles, at) && c.lru[0] == at && at in c.store && c.store[at] == e
    {
      hide Linked, Listed, Items, Inherits, InheritsBut, Others;
      LookupMatches(c, handles, e.id);
      ghost var d := c;
      if e.id in c.table {
        d := Unlink(e.id);
      } else {
        InheritsSelf(c, handles);
      }
      LinkKeeps(d, handles, at, e);
      InheritsLinked(old(c), d, handles, at, e);
      assert c.table[e.id := at] == d.table[e.id := at];
      c := Links(c.store[at := e], c.table[e.id := at], [at] + c.lru, c.heap);
    }

    /** Takes the entry with the given identifier out, leaving its slot in the hash table to be overwritten. */
    method Unlink(id: Octets) returns (ghost d: Links)
      requires Valid() && id in c.table && c.table[id] in c.lru && c.table[id] in c.store
      modifies this`c
      ensures Linked(d, handles) && Listed(d) && id !in d.table && |d.lru| <= |old(c).lru|
      ensures d.table == old(c).table - {id} && c == d.(table := old(c).table) && d.store.Keys <= old(c).store.Keys
      ensures Items(d) == Others(Items(old(c)), id) && Inherits(old(c), d, handles)
    {
      hide Inherits, TableMatches, Counted, HeapMatches, NoRepeats;
      var a := c.table[id];
      ghost var i := Place(c.lru, a);
      LookupMatches(c, handles, id);
      SamePlace(c, handles, i);
      assert Items(c)[i].id == id;
      DropKeeps(c, handles, i);
      DropItems(c, handles, i);
      DropInherits(c, handles, i);
      EntryCounted(c, handles, a);
      d := Dropped(c, i);
      InvalidateEntry(a, true);
    }

    /** Evicts the least recently used entries until the capacity is respected again. */
    method EvictExcess(at: nat)
      requires capacity >= 2 && Linked(c, handles) && Listed(c) && c.lru != [] && c.lru[0] == at
      modifies this`c
      ensures Valid() && Inherits(old(c), c, handles) && c.lru != [] && c.lru[0] == at
      ensures Items(c) == Items(old(c))[..Min(capacity, |old(c).lru|)] && Items(c)[0] == Items(old(c))[0]
    {
      hide Linked, Listed, Inherits, Sweep, RemoveAt;
      InheritsSelf(c, handles);
      TableSize(c, handles);
      while |c.table| > capacity
        invariant Linked(c, handles) && Listed(c) && Inherits(old(c), c, handles) && |c.table| == |c.lru|
        invariant Min(capacity, |old(c).lru|) <= |c.lru| <= |old(c).lru|
        invariant c.lru[0] == at && Items(c) == Items(old(c))[..|c.lru|]
      {
        ghost var was := c;
        LastPlace(c, handles);
        Evict(c.lru[|c.lru| - 1]);
        TableSize(c, handles);
        InheritsTwice(old(c), was, c, handles);
        assert Items(c)[0] == Items(was)[0];
      }
    }

    /**
     Puts a new entry in front, in place of an equal identifier, and evicts from the back. `at` is where the
     allocator put the entry; `created` and `now` are the two readings of the clock.
     */
    method PutEntry(id: Octets, payload: Payload, messages: nat, bytes: nat, at: nat, created: Option<nat>,
                    now: Option<nat>)
      returns (entry: Option<nat>)
      requires Valid() && at !in c.store
      modifies this
      ensures Valid()
      ensures created.None? ==> entry == None && c == old(c) && handles == old(handles)
      ensures created.Some? ==>
        && entry == Some(at) && handles == old(handles) + multiset{at} && InheritsBut(old(c), c, old(handles), at)
        && Items(c) == Insert(AfterClock(Items(old(c)), now), Item(at, id, NO_EXPIRY), capacity)
        && at in c.lru && c.store[at] == Entry(id, created.value, NO_EXPIRY, payload, messages, bytes, false, 2)
    {
      hide Linked, Listed, Items, Inherits, InheritsBut, Sweep;
      if created.None? { return None; }
      ghost var was := c;
      ProcessTtls(now);
      NotRevived(was, c, handles, at);
      ghost var swept := c;
      Link(at, Entry(id, created.value, NO_EXPIRY, payload, messages, bytes, false, 1));
      ghost var linked := c;
      EvictExcess(at);
      NewEntryIntact(was, linked, c, handles, at);
      PutInherits(was, swept, linked, c, handles, at);
      HandOut(c, handles, at);
      c := c.(store := c.store[at := c.store[at].(refcount := c.store[at].refcount + 1)]);
      handles := handles + multiset{at};
      return Some(at);
    }

    /** Brings the expiry of an entry forward. */
    method SetExpirationHint(a: nat, time: nat)
      requires Valid() && a in handles && a in c.store && time <= UINT64_MAX
      modifies this`c
      ensures Valid() && Inherits(old(c), c, handles) && c.lru == old(c).lru
      ensures Items(c) == Hint(Items(old(c)), a, time)
      ensures var e := old(c).store[a]; a in c.store && c.store[a].expiry == if e.zombie then e.expiry else Min(e.expiry, time)
    {
      hide Linked, Listed, Items, Inherits;
      HintKeeps(c, handles, a, time);
      InheritsSelf(c, handles);
      if c.store[a].zombie || c.store[a].expiry <= time { return; }
      if c.store[a].expiry < NO_EXPIRY {
        c := c.(heap := c.heap - {a});
      }
      c := c.(store := c.store[a := c.store[a].(expiry := time)]);
      c := c.(heap := c.heap + {a});
    }

    /** Gives a reference back, on request taking the entry out of the cache. */
    method ReleaseEntry(a: nat, invalidate: bool)
      requires Valid() && a in handles && a in c.store
      modifies this
      ensures Valid() && Inherits(old(c), c, handles)
      ensures handles == old(handles) - multiset{a}
      ensures Items(c) == if invalidate then Remove(Items(old(c)), a) else Items(old(c))
      ensures a in c.store <==> a in handles || a in c.lru
      ensures invalidate ==> a !in c.lru
      ensures a in c.store ==> c.store[a].expiry == old(c).store[a].expiry
    {
      hide Linked, Listed, Items, Inherits, Remove;
      ReleaseKeeps(c, handles, a);
      ReleaseDrops(c, handles, a);
      handles := handles - multiset{a};
      if invalidate && !c.store[a].zombie {
        ReleaseLocked(a, true);
      } else {
        var count := c.store[a].refcount;
        c := c.(store := c.store[a := c.store[a].(refcount := count - 1)]);
        if count == 1 {
          c := c.(store := c.store - {a});
          assert c.store == old(c).store - {a};
        }
      }
    }

    /** Adds to the usage of an entry in 64-bit arithmetic and reports the new totals. */
    method UpdateUsageStats(a: nat, messages: nat, bytes: nat) returns (ok: bool, totalMessages: nat, totalBytes: nat)
      requires Valid() && a in handles && a in c.store
      modifies this`c
      ensures Valid() && Items(c) == Items(old(c)) && c.lru == old(c).lru
      ensures ok == (!old(c).store[a].zombie && old(c).store[a].payload.ForEncrypt?)
      ensures var e := old(c).store[a];
              if ok then
                && totalMessages == (e.messages + messages) % TWO_64 && totalBytes == (e.bytes + bytes) % TWO_64
                && c.store == old(c).store[a := e.(messages := totalMessages, bytes := totalBytes)]
              else c == old(c)
    {
      hide Linked, Listed, Items;
      var e := c.store[a];
      if e.zombie || !e.payload.ForEncrypt? { return false, 0, 0; }
      totalBytes := (e.bytes + bytes) % TWO_64;
      totalMessages := (e.messages + messages) % TWO_64;
      UsageKeeps(c, handles, a, totalMessages, totalBytes);
      c := c.(store := c.store[a := e.(messages := totalMessages, bytes := totalBytes)]);
      return true, totalMessages, totalBytes;
    }

    /** Drops every entry while iterating over the hash table. */
    method ClearCache()
      requires Valid()
      modifies this`c
      ensures Valid() && Inherits(old(c), c, handles) && Items(c) == [] && c.table == map[]
    {
      hide Linked, Listed, Items, Inherits, Others;
      InheritsSelf(c, handles);
      while c.table != map[]
        invariant Valid() && Inherits(old(c), c, handles)
        decreases |c.table|
      {
        var id :| id in c.table.Keys;
        LookupMatches(c, handles, id);
        ghost var was := c;
        ghost var d := Unlink(id);
        c := c.(table := c.table - {id});
        InheritsTwice(old(c), was, c, handles);
        assert |c.table.Keys| < |was.table.Keys| by {
          assert was.table.Keys == c.table.Keys + {id};
        }
      }
      TableSize(c, handles);
    }

    method EntryCount() returns (n: nat)
      requires Valid()
      ensures n == |Items(c)| <= capacity
    {
      TableSize(c, handles);
      n := |c.table|;
    }
  }

  lemma UsageKeeps(c: Links, handles: multiset<nat>, a: nat, messages: nat, bytes: nat)
    requires Linked(c, handles) && Listed(c) && a in c.store
    ensures var d := c.(store := c.store[a := c.store[a].(messages := messages, bytes := bytes)]);
            Linked(d, handles) && Listed(d) && Items(d) == Items(c)
  {
    hide NoRepeats, TableMatches, HeapMatches;
    var d := c.(store := c.store[a := c.store[a].(messages := messages, bytes := bytes)]);
    SameLive(c, d);
    ItemsAlike(c.store, d.store, c.lru);
  }

  function Hinted(c: Links, a: nat, time: nat): Links
    requires a in c.store
  {
    c.(store := c.store[a := c.store[a].(expiry := time)], heap := c.heap + {a})
  }

  lemma HintKeeps(c: Links, handles: multiset<nat>, a: nat, time: nat)
    requires Linked(c, handles) && Listed(c) && a in c.store && time <= UINT64_MAX
    ensures c.store[a].zombie || c.store[a].expiry <= time ==> Hint(Items(c), a, time) == Items(c)
    ensures !c.store[a].zombie && c.store[a].expiry > time ==>
      var d := Hinted(c, a, time);
      Linked(d, handles) && Listed(d) && Items(d) == Hint(Items(c), a, time) && Inherits(c, d, handles)
    ensures c.heap - {a} + {a} == c.heap + {a}
  {
    hide NoRepeats, Counted, TableMatches, LruIsLive;
    if a in c.lru {
      SamePlace(c, handles, Place(c.lru, a));
    }
    if !c.store[a].zombie && c.store[a].expiry > time {
      HintLinks(c, handles, a, time);
      HintItems(c, handles, a, time);
    } else {
      ZombieUnlisted(c, handles, a);
    }
  }

  lemma ZombieUnlisted(c: Links, handles: multiset<nat>, a: nat)
    requires Linked(c, handles) && Listed(c) && a in c.store
    ensures a in c.lru <==> !c.store[a].zombie
    ensures c.store[a].zombie ==> AddrPlace(Items(c), a) == |c.lru| && Place(c.lru, a) == |c.lru|
  {
    hide NoRepeats, Counted, TableMatches, HeapMatches;
    var i := AddrPlace(Items(c), a);
    if i < |c.lru| {
      assert c.lru[i] in c.lru;
    }
  }

  lemma HintLinks(c: Links, handles: multiset<nat>, a: nat, time: nat)
    requires Linked(c, handles) && Listed(c) && a in c.store && !c.store[a].zombie && time < NO_EXPIRY
    ensures var d := Hinted(c, a, time); Linked(d, handles) && Listed(d) && Inherits(c, d, handles)
  {
    hide NoRepeats;
  }

  lemma HintItems(c: Links, handles: multiset<nat>, a: nat, time: nat)
    requires Linked(c, handles) && Listed(c) && a in c.store && !c.store[a].zombie && c.store[a].expiry > time
    ensures Listed(Hinted(c, a, time)) && Items(Hinted(c, a, time)) == Hint(Items(c), a, time)
  {
    hide Counted, TableMatches, HeapMatches;
    assert a in c.lru;
    var i := Place(c.lru, a);
    SamePlace(c, handles, i);
    var d := Hinted(c, a, time);
    assert Items(d) == Items(c)[i := Items(c)[i].(expiry := time)];
  }

  lemma ReleaseKeeps(c: Links, handles: multiset<nat>, a: nat)
    requires Linked(c, handles) && Listed(c) && a in handles && a in c.store
    ensures c.store[a].refcount > 0 && (c.store[a].refcount == 1 ==> c.store[a].zombie)
    ensures var d := Released(c, a);
            && Linked(d, handles - multiset{a}) && Listed(d) && Items(d) == Items(c) && Inherits(c, d, handles - multiset{a})
            && (a in d.store <==> a in handles - multiset{a} || a in d.lru)
  {
    hide NoRepeats, TableMatches, HeapMatches, Items;
    StillCounted(c, handles, a);
    if c.store[a].refcount > 1 {
      SameLive(c, Released(c, a));
    } else {
      ZombieGone(c, a);
    }
    ReleasedItems(c, a);
  }

  lemma ReleasedItems(c: Links, a: nat)
    requires LruIsLive(c) && Listed(c) && a in c.store && (c.store[a].refcount <= 1 ==> c.store[a].zombie)
    ensures Listed(Released(c, a)) && Items(Released(c, a)) == Items(c) && LruIsLive(Released(c, a))
  {
    assert forall b :: b in c.lru ==> b in Released(c, a).store;
    ItemsAlike(c.store, Released(c, a).store, c.lru);
  }

  lemma StillCounted(c: Links, handles: multiset<nat>, a: nat)
    requires Counted(c, handles) && a in handles && a in c.store
    ensures c.store[a].refcount > 0 && (c.store[a].refcount == 1 ==> c.store[a].zombie)
    ensures Counted(Released(c, a), handles - multiset{a})
  {
  }

  lemma ZombieGone(c: Links, a: nat)
    requires TableMatches(c) && HeapMatches(c) && a in c.store && c.store[a].zombie
    ensures TableMatches(c.(store := c.store - {a})) && HeapMatches(c.(store := c.store - {a}))
  {
  }

  lemma ReleaseDrops(c: Links, handles: multiset<nat>, a: nat)
    requires Linked(c, handles) && Listed(c) && a in handles && a in c.store
    ensures c.store[a].zombie ==> Remove(Items(c), a) == Items(c)
    ensures c.store[a].expiry == NO_EXPIRY ==> a !in c.heap
    ensures !c.store[a].zombie ==>
      && a in c.lru && a in Released(c, a).store
      && var d := Dropped(Released(c, a), Place(c.lru, a));
      && Linked(d, handles - multiset{a}) && Listed(d) && Items(d) == Remove(Items(c), a)
      && Inherits(c, d, handles - multiset{a}) && (a in d.store <==> a in handles - multiset{a} || a in d.lru)
      && a !in d.lru
    ensures c.store[a].zombie ==> a !in c.lru
  {
    hide Linked, Inherits, Items, Listed;
    ZombieUnlisted(c, handles, a);
    ReleaseKeeps(c, handles, a);
    if !c.store[a].zombie {
      EntryCounted(c, handles, a);
      var i, r := Place(c.lru, a), Released(c, a);
      SamePlace(c, handles, i);
      DropKeeps(r, handles - multiset{a}, i);
      DropItems(r, handles - multiset{a}, i);
      DropInherits(r, handles - multiset{a}, i);
      InheritsTwice(c, r, Dropped(r, i), handles - multiset{a});
      EntryCounted(r, handles - multiset{a}, a);
      GoneFromList(c, handles, i);
    } else {
      HeapInStore(c, handles);
    }
  }

  lemma GoneFromList(c: Links, handles: multiset<nat>, i: nat)
    requires Linked(c, handles) && i < |c.lru|
    ensures c.lru[i] !in RemoveAt(c.lru, i)
  {
    hide TableMatches, Counted, HeapMatches;
    RemovedMembers(c.lru, i);
  }

  /** As many identifiers as entries. */
  lemma TableSize(c: Links, handles: multiset<nat>)
    requires Linked(c, handles) && Listed(c)
    ensures |c.table| == |c.lru|
    decreases |c.lru|
  {
    hide Counted, HeapMatches, NoRepeats, TableMatches;
    if c.lru == [] {
      EmptyTable(c, handles);
    } else {
      DropKeeps(c, handles, 0);
      LinkedParts(Dropped(c, 0), handles);
      TableSize(Dropped(c, 0), handles);
      FirstInTable(c, handles);
    }
  }

  lemma EmptyTable(c: Links, handles: multiset<nat>)
    requires Linked(c, handles) && c.lru == []
    ensures c.table == map[]
  {
    assert forall id :: id in c.table ==> c.table[id] in c.lru;
  }

  lemma FirstInTable(c: Links, handles: multiset<nat>)
    requires Linked(c, handles) && c.lru != [] && c.lru[0] in c.store
    ensures |c.table - {c.store[c.lru[0]].id}| == |c.table| - 1
  {
    var id := c.store[c.lru[0]].id;
    assert c.lru[0] in c.lru;
    assert c.table.Keys == (c.table - {id}).Keys + {id};
  }

  lemma LastPlace(c: Links, handles: multiset<nat>)
    requires Linked(c, handles) && Listed(c) && c.lru != []
    ensures var last := |c.lru| - 1;
            && Place(c.lru, c.lru[last]) == last
            && RemoveAt(Items(c), last) == Items(c)[..last]
  {
    hide Linked;
    SamePlace(c, handles, |c.lru| - 1);
  }

  lemma NotRevived(was: Links, c: Links, handles: multiset<nat>, at: nat)
    requires Inherits(was, c, handles) && at !in was.store
    ensures at !in c.store
  {
  }

  /** Evicting others leaves the new entry as it was. */
  lemma NewEntryIntact(was: Links, linked: Links, c: Links, handles: multiset<nat>, at: nat)
    requires Linked(was, handles) && at !in was.store && Linked(linked, handles) && at in linked.store
    requires Inherits(linked, c, handles) && Linked(c, handles) && Listed(c) && Listed(linked)
    requires linked.lru != [] && linked.lru[0] == at && c.lru != [] && c.lru[0] == at && Items(c)[0] == Items(linked)[0]
    ensures at in c.lru && at in c.store && c.store[at] == linked.store[at] && c.store[at].refcount == 1
  {
    hide TableMatches, HeapMatches, NoRepeats;
    assert c.lru[0] in c.lru && linked.lru[0] in linked.lru;
  }

  lemma PutInherits(was: Links, swept: Links, linked: Links, c: Links, handles: multiset<nat>, at: nat)
    requires Inherits(was, swept, handles) && InheritsBut(swept, linked, handles, at) && Inherits(linked, c, handles)
    requires at in c.store && at !in was.store
    ensures InheritsBut(was, c.(store := c.store[at := c.store[at].(refcount := c.store[at].refcount + 1)]), handles, at)
  {
  }

  /** One more reference to a linked entry. */
  lemma HandOut(c: Links, handles: multiset<nat>, a: nat)
    requires Linked(c, handles) && Listed(c) && a in c.lru && a in c.store
    ensures var d := c.(store := c.store[a := c.store[a].(refcount := c.store[a].refcount + 1)]);
            Linked(d, handles + multiset{a}) && Listed(d) && Items(d) == Items(c)
  {
    hide NoRepeats, TableMatches, HeapMatches;
    var d := c.(store := c.store[a := c.store[a].(refcount := c.store[a].refcount + 1)]);
    SameLive(c, d);
    ItemsAlike(c.store, d.store, c.lru);
  }

  ghost predicate InheritsBut(was: Links, c: Links, handles: multiset<nat>, at: nat) {
    && (forall a :: a in c.store && a != at ==> a in was.store && SameData(c.store[a], was.store[a]))
    && (forall a :: a in handles && a in was.store ==> a in c.store)
    && (forall a :: a in c.lru && a != at ==> a in was.lru)
  }

  lemma InheritsLinked(was: Links, d: Links, handles: multiset<nat>, at: nat, e: Entry)
    requires Inherits(was, d, handles)
    ensures InheritsBut(was, LinkedIn(d, at, e), handles, at)
  {
  }

  function LinkedIn(d: Links, at: nat, e: Entry): Links {
    Links(d.store[at := e], d.table[e.id := at], [at] + d.lru, d.heap)
  }

  lemma LinkTable(d: Links, at: nat, e: Entry)
    requires TableMatches(d) && HeapMatches(d) && at !in d.store && e.id !in d.table && !e.zombie && e.expiry == NO_EXPIRY
    ensures TableMatches(LinkedIn(d, at, e)) && HeapMatches(LinkedIn(d, at, e))
  {
  }

  lemma LinkCount(d: Links, handles: multiset<nat>, at: nat, e: Entry)
    requires Counted(d, handles) && at !in d.store && e.refcount == 1 && !e.zombie
    ensures Counted(LinkedIn(d, at, e), handles)
  {
  }

  lemma LinkList(d: Links, at: nat, e: Entry)
    requires NoRepeats(d.lru) && LruIsLive(d) && at !in d.store && !e.zombie
    ensures NoRepeats(LinkedIn(d, at, e).lru) && LruIsLive(LinkedIn(d, at, e))
  {
    assert at !in d.lru;
  }

  lemma LinkKeeps(d: Links, handles: multiset<nat>, at: nat, e: Entry)
    requires Linked(d, handles) && Listed(d) && at !in d.store && e.id !in d.table
    requires e.refcount == 1 && !e.zombie && e.expiry == NO_EXPIRY
    ensures var c := LinkedIn(d, at, e);
            && Linked(c, handles) && Listed(c)
            && Items(c) == [Item(at, e.id, e.expiry)] + Items(d)
  {
    hide TableMatches, HeapMatches, Counted, NoRepeats, LruIsLive;
    LinkTable(d, at, e);
    LinkCount(d, handles, at, e);
    LinkList(d, at, e);
    ItemsAlike(d.store, d.store[at := e], d.lru);
    ItemsPushed(d.store[at := e], at, d.lru);
  }

  /** The list after the sweep an operation starts with. */
  ghost function AfterClock(items: seq<Item>, now: Option<nat>): seq<Item> {
    if now.None? then items else Sweep(items, now.value, TTL_EXPIRATION_BATCH_SIZE)
  }

  lemma LookupMatches(c: Links, handles: multiset<nat>, id: Octets)
    requires Linked(c, handles) && Listed(c)
    ensures var i := IdPlace(Items(c), id);
            if id in c.table then i < |c.lru| && Items(c)[i].addr == c.table[id] else i == |c.lru|
    ensures id in c.table ==> c.table[id] in c.lru && c.table[id] in c.store && c.store[c.table[id]].id == id
    ensures id !in c.table ==> Touch(Items(c), id) == Items(c) && Others(Items(c), id) == Items(c)
  {
    hide Counted, HeapMatches;
    var items := Items(c);
    if id in c.table {
      var a := c.table[id];
      assert a in c.lru;
      var i :| 0 <= i < |c.lru| && c.lru[i] == a;
      SamePlace(c, handles, i);
    }
    var j := IdPlace(items, id);
    if j < |items| {
      assert c.lru[j] in c.lru;
    }
  }

  /** Looking an entry up by identifier and by address finds the same place. */
  lemma SamePlace(c: Links, handles: multiset<nat>, i: nat)
    requires Linked(c, handles) && Listed(c) && i < |c.lru|
    ensures Place(c.lru, c.lru[i]) == i
    ensures AddrPlace(Items(c), c.lru[i]) == i
    ensures IdPlace(Items(c), Items(c)[i].id) == i
  {
    hide Linked;
    LinkedParts(c, handles);
    ItemsDistinct(c, handles);
    var items := Items(c);
    var j := Place(c.lru, c.lru[i]);
    var k := AddrPlace(items, c.lru[i]);
    var l := IdPlace(items, items[i].id);
    assert items[i].addr == c.lru[i];
  }

  function Touched(c: Links, a: nat): Links
    requires a in c.lru && a in c.store
  {
    c.(lru := [a] + RemoveAt(c.lru, Place(c.lru, a)),
       store := c.store[a := c.store[a].(refcount := c.store[a].refcount + 1)])
  }

  /** Table and heap only look at which entries are live, their identifiers and their expiry. */
  lemma SameLive(c: Links, d: Links)
    requires TableMatches(c) && HeapMatches(c) && d.table == c.table && d.heap == c.heap && d.store.Keys == c.store.Keys
    requires forall b :: b in c.store ==>
      d.store[b].zombie == c.store[b].zombie && d.store[b].id == c.store[b].id && d.store[b].expiry == c.store[b].expiry
    ensures TableMatches(d) && HeapMatches(d)
  {
  }

  lemma MovedToFront(lru: seq<nat>, i: nat)
    requires NoRepeats(lru) && i < |lru|
    ensures NoRepeats([lru[i]] + RemoveAt(lru, i))
    ensures forall b :: b in [lru[i]] + RemoveAt(lru, i) <==> b in lru
  {
    RemovedMembers(lru, i);
  }

  lemma TouchLinks(c: Links, handles: multiset<nat>, a: nat)
    requires Linked(c, handles) && a in c.lru && a in c.store
    ensures var d := Touched(c, a);
            Linked(d, handles + multiset{a}) && Listed(d) && Inherits(c, d, handles)
  {
    hide NoRepeats, TableMatches, HeapMatches, RemoveAt;
    var i := Place(c.lru, a);
    MovedToFront(c.lru, i);
    SameLive(c, Touched(c, a));
  }

  lemma TouchKeeps(c: Links, handles: multiset<nat>, id: Octets)
    requires Linked(c, handles) && Listed(c) && id in c.table && c.table[id] in c.lru && c.table[id] in c.store
    requires c.store[c.table[id]].id == id
    ensures var d := Touched(c, c.table[id]);
            && Linked(d, handles + multiset{c.table[id]}) && Listed(d)
            && Items(d) == Touch(Items(c), id) && Inherits(c, d, handles)
  {
    hide Linked, Inherits, RemoveAt;
    var a := c.table[id];
    var i := Place(c.lru, a);
    SamePlace(c, handles, i);
    TouchLinks(c, handles, a);
    assert Items(c)[i].id == id;
    ItemsRemoved(c.store, c.lru, i);
    ItemsPushed(c.store, a, RemoveAt(c.lru, i));
    ItemsAlike(c.store, Touched(c, a).store, [a] + RemoveAt(c.lru, i));
  }

  lemma EntryCounted(c: Links, handles: multiset<nat>, a: nat)
    requires Linked(c, handles) && a in c.lru
    ensures a in c.store && !c.store[a].zombie && c.store[a].refcount == handles[a] + 1
    ensures a in c.heap <==> c.store[a].expiry != NO_EXPIRY
  {
  }

  lemma HeapInStore(c: Links, handles: multiset<nat>)
    requires Linked(c, handles)
    ensures forall b :: b in c.heap ==> b in c.store && b in c.lru
  {
  }

  lemma LaterThanTop(c: Links, top: nat, now: nat)
    requires top in c.heap && forall b :: b in c.heap ==> b in c.store
    requires (forall b :: b in c.heap ==> Earlier(c.store, top, b)) && c.store[top].expiry > now
    ensures forall b :: b in c.heap ==> c.store[b].expiry > now
  {
  }

  lemma SweepTop(c: Links, handles: multiset<nat>, top: nat, now: nat, budget: nat)
    requires Linked(c, handles) && Listed(c) && top in c.heap && top in c.lru && budget > 0 && top in c.store
    requires (forall b :: b in c.heap ==> b in c.store) && (forall b :: b in c.heap ==> Earlier(c.store, top, b))
    requires c.store[top].expiry <= now
    ensures Sweep(Items(c), now, budget) == Sweep(RemoveAt(Items(c), Place(c.lru, top)), now, budget - 1)
  {
    hide Linked, Sweep, Items, Distinct, IsTop, Due, Earlier;
    var i := Place(c.lru, top);
    TopMatches(c, handles, i);
    ItemsDistinct(c, handles);
    EntryCounted(c, handles, top);
    TopDue(c, i, now);
    SweepStep(Items(c), now, budget, i);
  }

  lemma TopDue(c: Links, i: nat, now: nat)
    requires Listed(c) && i < |c.lru| && c.lru[i] in c.store && c.store[c.lru[i]].expiry <= now
    ensures c.store[c.lru[i]].expiry != NO_EXPIRY ==> Due(Items(c)[i], now)
  {
  }

  function Released(c: Links, a: nat): Links
    requires a in c.store
  {
    var e := c.store[a];
    c.(store := if e.refcount <= 1 then c.store - {a} else c.store[a := e.(refcount := e.refcount - 1)])
  }
}
