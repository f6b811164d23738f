/**
 Whole runs of the local cache: any sequence of operations leaves the cache with exactly the entries, in
 exactly the order, and with exactly the outstanding references of the reference model.
 */
module CacheRuns {
  import opened Bytes
  import opened RecencyList
  import opened LocalCache

  datatype Op =
    | Find(id: Octets, now: Option<nat>)
    | Put(id: Octets, payload: Payload, at: nat, created: Option<nat>, now: Option<nat>)
    | SetHint(addr: nat, time: nat)
    | Release(addr: nat, invalidate: bool)
    | Clear

  /** The reference cache: the recency list and the references callers hold. */
  datatype Reference = Reference(items: seq<Item>, handles: multiset<nat>)

  /** Callers use references they hold, and the allocator hands out memory that is not in use. */
  ghost predicate Legal(r: Reference, op: Op) {
    match op
    case Put(_, _, at, _, _) => at !in r.handles && AddrPlace(r.items, at) == |r.items|
    case SetHint(addr, time) => addr in r.handles && time <= UINT64_MAX
    case Release(addr, _) => addr in r.handles
    case _ => true
  }

  ghost function Step(r: Reference, op: Op, capacity: nat): Reference {
    match op
    case Find(id, now) =>
      var swept := AfterClock(r.items, now);
      var i := IdPlace(swept, id);
      Reference(Touch(swept, id), if i < |swept| then r.handles + multiset{swept[i].addr} else r.handles)
    case Put(id, _, at, created, now) =>
      if created.None? then r else
        Reference(Insert(AfterClock(r.items, now), Item(at, id, NO_EXPIRY), capacity), r.handles + multiset{at})
    case SetHint(addr, time) => r.(items := Hint(r.items, addr, time))
    case Release(addr, invalidate) =>
      Reference(if invalidate then Remove(r.items, addr) else r.items, r.handles - multiset{addr})
    case Clear => r.(items := [])
  }

  ghost function After(r: Reference, ops: seq<Op>, capacity: nat): Reference {
    if ops == [] then r else Step(After(r, ops[..|ops| - 1], capacity), ops[|ops| - 1], capacity)
  }

  ghost predicate AllLegal(r: Reference, ops: seq<Op>, capacity: nat) {
    forall i :: 0 <= i < |ops| ==> Legal(After(r, ops[..i], capacity), ops[i])
  }

  ghost function View(cache: LocalCache): Reference
    requires Listed(cache.c)
    reads cache
  {
    Reference(Items(cache.c), cache.handles)
  }

  /** An entry is allocated exactly when it is in the list or someone holds it. */
  lemma AllocatedWhenReferenced(c: Links, handles: multiset<nat>, a: nat)
    requires Linked(c, handles) && Listed(c)
    ensures a in c.store <==> a in handles || AddrPlace(Items(c), a) < |c.lru|
  {
    hide NoRepeats, TableMatches, HeapMatches;
    var i := AddrPlace(Items(c), a);
    if i < |c.lru| {
      assert c.lru[i] in c.lru;
    }
    if a in c.lru {
      var j :| 0 <= j < |c.lru| && c.lru[j] == a;
      assert Items(c)[j].addr == a;
    }
  }

  method Apply(cache: LocalCache, op: Op)
    requires cache.Valid() && Legal(View(cache), op)
    modifies cache
    ensures cache.Valid() && View(cache) == Step(old(View(cache)), op, cache.capacity)
  {
    hide Linked, Listed, Items, Inherits, InheritsBut, Touch, Insert, Hint, Remove, Sweep;
    match op {
      case Find(id, now) =>
        var entry := cache.FindEntry(id, now);
      case Put(id, payload, at, created, now) =>
        AllocatedWhenReferenced(cache.c, cache.handles, at);
        var entry := cache.PutEntry(id, payload, 0, 0, at, created, now);
      case SetHint(addr, time) =>
        AllocatedWhenReferenced(cache.c, cache.handles, addr);
        cache.SetExpirationHint(addr, time);
      case Release(addr, invalidate) =>
        AllocatedWhenReferenced(cache.c, cache.handles, addr);
        cache.ReleaseEntry(addr, invalidate);
      case Clear =>
        cache.ClearCache();
    }
  }

  /**
   The comment on the entry has its expiry unset when it is invalidated. Whatever the cache holds, an entry that gets
   an expiry, is found again and then invalidated keeps it as long as the other reference is out.
   */
  method InvalidatedKeepsExpiry(cache: LocalCache, id: Octets, payload: Payload, at: nat, created: nat, time: nat)
    requires cache.Valid() && Legal(View(cache), Put(id, payload, at, Some(created), None)) && time < NO_EXPIRY
    modifies cache
    ensures cache.Valid() && at in cache.handles && at in cache.c.store && at !in cache.c.lru
    ensures cache.c.store[at].zombie && cache.c.store[at].expiry == time
  {
    hide Linked, Listed, Items, Inherits, InheritsBut, Sweep, Touch, Insert, Hint;
    AllocatedWhenReferenced(cache.c, cache.handles, at);
    ghost var items := Items(cache.c);
    var entry := cache.PutEntry(id, payload, 0, 0, at, Some(created), None);
    AllocatedWhenReferenced(cache.c, cache.handles, at);
    cache.SetExpirationHint(at, time);
    HintedFirst(items, id, at, time, cache.capacity);
    entry := cache.FindEntry(id, None);
    FirstEntry(cache.c, Item(at, id, time));
    cache.ReleaseEntry(at, true);
    OutOfListIsZombie(cache.c, cache.handles, at);
  }

  lemma HintedFirst(items: seq<Item>, id: Octets, at: nat, time: nat, capacity: nat)
    requires capacity > 0 && time < NO_EXPIRY
    ensures var hinted := Hint(Insert(items, Item(at, id, NO_EXPIRY), capacity), at, time);
            && hinted != [] && hinted[0] == Item(at, id, time) && IdPlace(hinted, id) == 0
            && Touch(hinted, id) != [] && Touch(hinted, id)[0] == hinted[0]
  {
  }

  lemma FirstEntry(c: Links, item: Item)
    requires Listed(c) && c.lru != [] && Items(c)[0] == item
    ensures item.addr in c.store && c.store[item.addr].expiry == item.expiry
  {
    assert c.lru[0] in c.lru;
  }

  lemma OutOfListIsZombie(c: Links, handles: multiset<nat>, a: nat)
    requires Linked(c, handles) && a in c.store && a !in c.lru
    ensures c.store[a].zombie
  {
  }

  /** Every sequence of operations agrees with the reference. */
  method Replay(cache: LocalCache, ops: seq<Op>)
    requires cache.Valid() && AllLegal(View(cache), ops, cache.capacity)
    modifies cache
    ensures cache.Valid() && View(cache) == After(old(View(cache)), ops, cache.capacity)
  {
    hide Linked, Listed, Items, Step, Legal;
    for i := 0 to |ops|
      invariant cache.Valid() && View(cache) == After(old(View(cache)), ops[..i], cache.capacity)
    {
      Apply(cache, ops[i]);
      assert ops[..i + 1][..i] == ops[..i];
    }
    assert ops[..|ops|] == ops;
  }
}
