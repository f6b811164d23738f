/**
 The caching materials manager: answers from the cache while an entry is fresh and within its limits, and asks
 upstream otherwise. A ledger of every data key handed out lets the limits be stated over whole runs.
 */
module CachingCmm {
  import opened Bytes
  import opened Algorithms
  import opened EncryptionContext
  import opened MessageHeader
  import opened SessionModel
  import opened RecencyList
  import opened LocalCache
  import opened CacheIds

  const MAX_LIMIT_MESSAGES: nat := 0x1_0000_0000

  /** One handing-out of a cached data key; `serial` is the place in the ledger where the key first appears. */
  datatype Issue = Issue(
    serial: nat,
    bytes: nat,
    key: EncKey,
    materials: EncMaterials,
    limitMessages: nat,
    limitBytes: nat,
    created: nat,
    ttl: nat,
    now: Option<nat>)

  function Uses(issued: seq<Issue>, serial: nat): nat {
    if issued == [] then 0 else
      Uses(issued[..|issued| - 1], serial) + if issued[|issued| - 1].serial == serial then 1 else 0
  }

  function Volume(issued: seq<Issue>, serial: nat): nat {
    if issued == [] then 0 else
      Volume(issued[..|issued| - 1], serial) + if issued[|issued| - 1].serial == serial then issued[|issued| - 1].bytes else 0
  }

  /** Every time a key was handed out it was within the limits of whoever did so, and every reuse was in time. */
  ghost predicate WithinLimits(issued: seq<Issue>) {
    forall i :: 0 <= i < |issued| ==> IssueWithin(issued, i)
  }

  ghost predicate IssueWithin(issued: seq<Issue>, i: nat)
    requires i < |issued|
  {
    && issued[i].serial <= i && issued[issued[i].serial].materials == issued[i].materials
    && (issued[i].serial < i ==> Fresh(issued[issued[i].serial].created, issued[i].ttl, issued[i].now))
    && Uses(issued[..i + 1], issued[i].serial) <= issued[i].limitMessages
    && Volume(issued[..i + 1], issued[i].serial) <= issued[i].limitBytes
  }

  /** The entry's counters are what the ledger says about its key. */
  ghost predicate EntryBooked(e: Entry, issued: seq<Issue>, serial: nat, digest: Digest) {
    && e.payload.ForEncrypt? && serial < |issued| && issued[serial].serial == serial
    && e.payload.enc == issued[serial].materials && e.creation == issued[serial].created
    && EncId(digest, issued[serial].key) == Some(e.id)
    && e.messages == Uses(issued, serial) <= MAX_LIMIT_MESSAGES && e.bytes == Volume(issued, serial) <= INT64_MAX
  }

  ghost predicate Booked(c: Links, issued: seq<Issue>, serials: map<nat, nat>, digest: Digest) {
    && (forall a :: Issuing(c, a) ==> a in serials && EntryBooked(c.store[a], issued, serials[a], digest))
    && (forall a, b :: Issuing(c, a) && Issuing(c, b) && a in serials && b in serials && a != b ==> serials[a] != serials[b])
  }

  /** A live entry that holds a data key for encryption. */
  predicate Issuing(c: Links, a: nat) {
    a in c.lru && a in c.store && c.store[a].payload.ForEncrypt?
  }

  /** An answer upstream gave to a request for decryption. */
  datatype Answer = Answer(key: DecKey, materials: DecMaterials)

  /** Every live entry for decryption holds an answer upstream gave to a request with that identifier. */
  ghost predicate Learned(c: Links, answers: set<Answer>, digest: Digest) {
    forall a :: a in c.lru && a in c.store && c.store[a].payload.ForDecrypt? ==> AnswerKnown(c.store[a], answers, digest)
  }

  ghost predicate AnswerKnown(e: Entry, answers: set<Answer>, digest: Digest)
    requires e.payload.ForDecrypt?
  {
    exists x :: x in answers && x.materials == e.payload.dec && DecId(digest, x.key) == Some(e.id)
  }

  /** A cache and its ledger, shared by any number of managers. */
  class SharedCache {
    const cache: LocalCache
    const digest: Digest
    ghost var issued: seq<Issue>
    ghost var serials: map<nat, nat>
    ghost var answers: set<Answer>

    ghost predicate Valid()
      reads this, cache
    {
      && LawfulDigest(digest) && cache.Valid() && WithinLimits(issued)
      && Booked(cache.c, issued, serials, digest) && Learned(cache.c, answers, digest)
    }

    constructor (capacity: nat, digest: Digest)
      requires LawfulDigest(digest)
      ensures Valid() && fresh(cache) && issued == [] && cache.handles == multiset{} && this.digest == digest
      ensures cache.c.lru == [] && cache.c.store == map[]
    {
      cache := new LocalCache(capacity);
      this.digest := digest;
      issued, serials, answers := [], map[], {};
    }
  }

  /** Times at which an entry created at `creation` may still be used. */
  predicate Fresh(creation: nat, ttl: nat, now: Option<nat>) {
    ttl == UINT64_MAX || creation + ttl >= TWO_64 || (now.Some? && now.value < creation + ttl)
  }

  /** The recency list once an entry's time to live is known to the cache; one that never expires is not announced. */
  function WithExpiry(items: seq<Item>, a: nat, creation: nat, ttl: nat): seq<Item> {
    if ttl == UINT64_MAX || creation + ttl >= TWO_64 then items else Hint(items, a, creation + ttl)
  }

  function ExpiryOf(creation: nat, ttl: nat): nat {
    if ttl == UINT64_MAX || creation + ttl >= TWO_64 then NO_EXPIRY else creation + ttl
  }

  /** The code's own idea of a suite whose keys may be cached: every known one. */
  predicate CanCacheAlgorithm(alg: nat) {
    AlgProps(alg).Some?
  }

  /** Where a lookup finds an identifier, after the sweep it starts with. */
  ghost function Located(c: Links, id: Octets, lookup: Option<nat>): Option<nat>
    requires Listed(c)
  {
    var swept := AfterClock(Items(c), lookup);
    var i := IdPlace(swept, id);
    if i < |swept| then Some(swept[i].addr) else None
  }

  /** Saturating conversion to nanoseconds; zero stands for an invalid argument. */
  function TtlNanos(ttl: nat, unitsPerSecond: nat): (nanos: nat)
    requires ttl <= UINT64_MAX
    ensures nanos <= UINT64_MAX
    ensures nanos == 0 <==> ttl == 0 || unitsPerSecond !in {1, 1000, 1000_000, 1000_000_000}
  {
    Min(NanosPerUnit(unitsPerSecond) * ttl, UINT64_MAX)
  }

  function NanosPerUnit(unitsPerSecond: nat): nat {
    match unitsPerSecond
    case 1 => 1000_000_000
    case 1000 => 1000_000
    case 1000_000 => 1000
    case 1000_000_000 => 1
    case _ => 0
  }

  /** The conversion is exact unless the result exceeds 64 bits, and then the largest value stands for it. */
  lemma TtlNanosExact(ttl: nat, unitsPerSecond: nat)
    requires ttl <= UINT64_MAX && unitsPerSecond in {1, 1000, 1000_000, 1000_000_000}
    ensures var nanos := TtlNanos(ttl, unitsPerSecond);
            if ttl * 1000_000_000 <= UINT64_MAX * unitsPerSecond then nanos * unitsPerSecond == ttl * 1000_000_000
            else nanos == UINT64_MAX
  {
    if unitsPerSecond == 1 {
    } else if unitsPerSecond == 1000 {
    } else if unitsPerSecond == 1000_000 {
    }
  }

  // ---------- Keeping the ledger ----------

  /** An operation that only drops entries keeps the books. */
  lemma InheritsBooks(was: Links, c: Links, handles: multiset<nat>, issued: seq<Issue>, serials: map<nat, nat>,
                      answers: set<Answer>, digest: Digest)
    requires Booked(was, issued, serials, digest) && Learned(was, answers, digest) && Inherits(was, c, handles)
    ensures Booked(c, issued, serials, digest) && Learned(c, answers, digest)
  {
    hide EntryBooked, EncId, AnswerKnown;
    LearnedAlike(was, c, answers, digest);
    forall a | Issuing(c, a)
      ensures a in serials && EntryBooked(c.store[a], issued, serials[a], digest)
    {
      assert Issuing(was, a);
      SameBooking(was.store[a], c.store[a], issued, serials[a], digest);
    }
  }

  lemma LearnedAlike(was: Links, c: Links, answers: set<Answer>, digest: Digest)
    requires Learned(was, answers, digest)
    requires forall a :: a in c.lru && a in c.store && c.store[a].payload.ForDecrypt? ==>
      a in was.lru && a in was.store && c.store[a].payload == was.store[a].payload && c.store[a].id == was.store[a].id
    ensures Learned(c, answers, digest)
  {
    hide DecId;
  }

  lemma SameBooking(e: Entry, f: Entry, issued: seq<Issue>, serial: nat, digest: Digest)
    requires SameData(e, f)
    ensures EntryBooked(e, issued, serial, digest) == EntryBooked(f, issued, serial, digest)
  {
    hide EncId;
  }

  lemma OneMore(issued: seq<Issue>, x: Issue, serial: nat)
    ensures Uses(issued + [x], serial) == Uses(issued, serial) + if x.serial == serial then 1 else 0
    ensures Volume(issued + [x], serial) == Volume(issued, serial) + if x.serial == serial then x.bytes else 0
  {
    assert (issued + [x])[..|issued|] == issued;
  }

  lemma LimitsExtended(issued: seq<Issue>, x: Issue)
    requires WithinLimits(issued) && x.serial <= |issued|
    requires (issued + [x])[x.serial].materials == x.materials
    requires x.serial < |issued| ==> Fresh(issued[x.serial].created, x.ttl, x.now)
    requires Uses(issued, x.serial) + 1 <= x.limitMessages && Volume(issued, x.serial) + x.bytes <= x.limitBytes
    ensures WithinLimits(issued + [x])
  {
    hide IssueWithin, Uses, Volume;
    var all := issued + [x];
    forall i | 0 <= i < |all|
      ensures IssueWithin(all, i)
    {
      if i < |issued| {
        SameIssue(issued, x, i);
      } else {
        LastIssue(issued, x);
      }
    }
  }

  lemma SameIssue(issued: seq<Issue>, x: Issue, i: nat)
    requires i < |issued|
    ensures IssueWithin(issued + [x], i) == IssueWithin(issued, i)
  {
    hide Uses, Volume;
    assert (issued + [x])[..i + 1] == issued[..i + 1];
    if issued[i].serial <= i {
      assert (issued + [x])[issued[i].serial] == issued[issued[i].serial];
    }
  }

  lemma LastIssue(issued: seq<Issue>, x: Issue)
    requires x.serial <= |issued| && (issued + [x])[x.serial].materials == x.materials
    requires x.serial < |issued| ==> Fresh(issued[x.serial].created, x.ttl, x.now)
    requires Uses(issued, x.serial) + 1 <= x.limitMessages && Volume(issued, x.serial) + x.bytes <= x.limitBytes
    ensures IssueWithin(issued + [x], |issued|)
  {
    hide Uses, Volume;
    assert (issued + [x])[..|issued| + 1] == issued + [x];
    OneMore(issued, x, x.serial);
  }

  /** No key is used more often, or for more octets, than any limit in force when it was handed out. */
  lemma {:induction false} KeyUseBounded(issued: seq<Issue>, serial: nat, messages: nat, bytes: nat)
    requires WithinLimits(issued)
    requires forall i :: 0 <= i < |issued| ==> issued[i].limitMessages <= messages && issued[i].limitBytes <= bytes
    ensures Uses(issued, serial) <= messages && Volume(issued, serial) <= bytes
    decreases |issued|
  {
    if issued != [] {
      var last := |issued| - 1;
      assert IssueWithin(issued, last) && issued[..last + 1] == issued;
      if issued[last].serial != serial {
        EarlierLimits(issued);
        KeyUseBounded(issued[..last], serial, messages, bytes);
      }
    }
  }

  lemma EarlierLimits(issued: seq<Issue>)
    requires WithinLimits(issued) && issued != []
    ensures WithinLimits(issued[..|issued| - 1])
  {
    hide IssueWithin;
    var front, last := issued[..|issued| - 1], issued[|issued| - 1];
    assert issued == front + [last];
    forall i | 0 <= i < |front|
      ensures IssueWithin(front, i)
    {
      SameIssue(front, last, i);
    }
  }

  lemma BookingOf(c: Links, issued: seq<Issue>, serials: map<nat, nat>, digest: Digest, a: nat)
    requires Booked(c, issued, serials, digest) && Issuing(c, a)
    ensures a in serials && EntryBooked(c.store[a], issued, serials[a], digest)
  {
    hide EntryBooked;
  }

  /** Handing a cached key out once more, with the entry's counters brought up to date. */
  lemma BookHit(c: Links, d: Links, issued: seq<Issue>, serials: map<nat, nat>, digest: Digest, a: nat, x: Issue)
    requires Booked(c, issued, serials, digest) && Issuing(c, a) && a in serials && x.serial == serials[a]
    requires d.lru == c.lru
    requires d.store == c.store[a := c.store[a].(messages := c.store[a].messages + 1, bytes := c.store[a].bytes + x.bytes)]
    requires c.store[a].messages + 1 <= MAX_LIMIT_MESSAGES && c.store[a].bytes + x.bytes <= INT64_MAX
    ensures Booked(d, issued + [x], serials, digest)
  {
    hide EncId;
    forall b | Issuing(d, b)
      ensures b in serials && EntryBooked(d.store[b], issued + [x], serials[b], digest)
    {
      assert Issuing(c, b);
      OneMore(issued, x, serials[b]);
    }
    assert forall b :: Issuing(d, b) ==> Issuing(c, b);
  }

  /** Entering a new key. */
  lemma BookMiss(was: Links, c: Links, handles: multiset<nat>, issued: seq<Issue>, serials: map<nat, nat>,
                 digest: Digest, at: nat, x: Issue)
    requires Booked(was, issued, serials, digest) && InheritsBut(was, c, handles, at) && at in c.store && at !in was.store
    requires c.store[at].payload == ForEncrypt(x.materials) && c.store[at].creation == x.created
    requires c.store[at].messages == 1 && c.store[at].bytes == x.bytes <= INT64_MAX
    requires x.serial == |issued| && Uses(issued, |issued|) == 0 && Volume(issued, |issued|) == 0
    requires EncId(digest, x.key) == Some(c.store[at].id)
    ensures Booked(c, issued + [x], serials[at := |issued|], digest)
  {
    hide EncId;
    var serials' := serials[at := |issued|];
    forall b | Issuing(c, b)
      ensures b in serials' && EntryBooked(c.store[b], issued + [x], serials'[b], digest)
    {
      OneMore(issued, x, serials'[b]);
      if b != at {
        assert Issuing(was, b);
        SameBooking(was.store[b], c.store[b], issued, serials[b], digest);
      }
    }
    assert forall b :: Issuing(c, b) && b != at ==> Issuing(was, b);
  }

  lemma {:induction false} UnusedSerial(issued: seq<Issue>, serial: nat)
    requires WithinLimits(issued) && serial >= |issued|
    ensures Uses(issued, serial) == 0 && Volume(issued, serial) == 0
    decreases |issued|
  {
    if issued != [] {
      EarlierLimits(issued);
      UnusedSerial(issued[..|issued| - 1], serial);
      assert IssueWithin(issued, |issued| - 1);
    }
  }

  // ---------- The manager ----------

  /** The readings of the clock during one request: on lookup, for the time to live, on creation and on insertion. */
  datatype Clocks = Clocks(lookup: Option<nat>, check: Option<nat>, create: Option<nat>, insert: Option<nat>)

  class Manager {
    const shared: SharedCache
    const partition: Octets
    const canCache: nat -> bool
    var limitMessages: nat
    var limitBytes: nat
    var ttl: nat

    ghost predicate Valid()
      reads this, shared, shared.cache
    {
      && |partition| == DIGEST_LEN && 0 < limitMessages <= MAX_LIMIT_MESSAGES && limitBytes <= INT64_MAX
      && 0 < ttl <= UINT64_MAX
      && shared.Valid()
    }

    constructor (shared: SharedCache, partition: Octets, canCache: nat -> bool, ttl: nat)
      requires |partition| == DIGEST_LEN && 0 < ttl <= UINT64_MAX && shared.Valid()
      ensures Valid() && this.shared == shared && limitMessages == MAX_LIMIT_MESSAGES && limitBytes == INT64_MAX
      ensures this.partition == partition && this.canCache == canCache && this.ttl == ttl
    {
      this.shared, this.partition, this.canCache, this.ttl := shared, partition, canCache, ttl;
      limitMessages, limitBytes := MAX_LIMIT_MESSAGES, INT64_MAX;
    }

    method SetLimitBytes(limit: nat) returns (ok: bool)
      requires Valid()
      modifies this`limitBytes
      ensures Valid() && ok == (limit <= INT64_MAX) && limitBytes == if ok then limit else old(limitBytes)
    {
      if limit > INT64_MAX { return false; }
      limitBytes := limit;
      return true;
    }

    method SetLimitMessages(limit: nat) returns (ok: bool)
      requires Valid()
      modifies this`limitMessages
      ensures Valid() && ok == (0 < limit <= MAX_LIMIT_MESSAGES) && limitMessages == if ok then limit else old(limitMessages)
    {
      if limit == 0 || limit > MAX_LIMIT_MESSAGES { return false; }
      limitMessages := limit;
      return true;
    }

    method SetTtl(amount: nat, unitsPerSecond: nat) returns (ok: bool)
      requires Valid() && amount <= UINT64_MAX
      modifies this`ttl
      ensures Valid() && ok == (TtlNanos(amount, unitsPerSecond) != 0)
      ensures ttl == if ok then TtlNanos(amount, unitsPerSecond) else old(ttl)
    {
      var nanos := TtlNanos(amount, unitsPerSecond);
      if nanos == 0 { return false; }
      ttl := nanos;
      return true;
    }

    /** The books survive a cache operation that only drops entries. */
    lemma KeepBooks(was: Links)
      requires Booked(was, shared.issued, shared.serials, shared.digest) && Learned(was, shared.answers, shared.digest)
      requires Inherits(was, shared.cache.c, shared.cache.handles)
      ensures Booked(shared.cache.c, shared.issued, shared.serials, shared.digest)
      ensures Learned(shared.cache.c, shared.answers, shared.digest)
    {
      InheritsBooks(was, shared.cache.c, shared.cache.handles, shared.issued, shared.serials, shared.answers,
                    shared.digest);
    }

    /** Whether an entry may still be used; if so, and if it will ever expire, the cache is told when. */
    method CheckTtl(a: nat, now: Option<nat>) returns (usable: bool)
      requires Valid() && a in shared.cache.handles && a in shared.cache.c.store
      modifies shared.cache
      ensures Valid() && usable == Fresh(old(shared.cache.c).store[a].creation, ttl, now)
      ensures Inherits(old(shared.cache.c), shared.cache.c, shared.cache.handles)
      ensures shared.cache.handles == old(shared.cache.handles)
      ensures a in shared.cache.c.store && shared.cache.c.lru == old(shared.cache.c).lru
      ensures var was := old(shared.cache.c);
              Items(shared.cache.c) == if usable then WithExpiry(Items(was), a, was.store[a].creation, ttl) else Items(was)
    {
      hide Linked, Listed, Inherits, Items, Booked, Learned, WithinLimits, LawfulDigest;
      InheritsSelf(shared.cache.c, shared.cache.handles);
      if ttl == UINT64_MAX { return true; }
      var creation := shared.cache.c.store[a].creation;
      var expiration := (creation + ttl) % TWO_64;
      if expiration < creation { return true; }
      if now.None? || now.value >= expiration { return false; }
      shared.cache.SetExpirationHint(a, expiration);
      KeepBooks(old(shared.cache.c));
      StillHeld(old(shared.cache.c), shared.cache.c, shared.cache.handles, a);
      return true;
    }

    /** Tells the cache when a new entry expires, if it ever does. */
    method SetTtlOnMiss(entry: Option<nat>)
      requires Valid() && (entry.Some? ==> entry.value in shared.cache.handles && entry.value in shared.cache.c.store)
      modifies shared.cache
      ensures Valid() && shared.cache.handles == old(shared.cache.handles)
      ensures Inherits(old(shared.cache.c), shared.cache.c, shared.cache.handles)
      ensures var was := old(shared.cache.c);
              Items(shared.cache.c) == if entry.None? then Items(was) else
                                       WithExpiry(Items(was), entry.value, was.store[entry.value].creation, ttl)
    {
      hide Linked, Listed, Inherits, Items, Booked, Learned, WithinLimits, LawfulDigest;
      InheritsSelf(shared.cache.c, shared.cache.handles);
      if entry.Some? && ttl != UINT64_MAX {
        var creation := shared.cache.c.store[entry.value].creation;
        var expiration := (creation + ttl) % TWO_64;
        if expiration > creation {
          shared.cache.SetExpirationHint(entry.value, expiration);
          KeepBooks(old(shared.cache.c));
        }
      }
    }

    /** Gives an entry back. */
    method Release(a: nat, invalidate: bool)
      requires Valid() && a in shared.cache.handles && a in shared.cache.c.store
      modifies shared.cache
      ensures Valid() && shared.cache.handles == old(shared.cache.handles) - multiset{a}
      ensures Inherits(old(shared.cache.c), shared.cache.c, shared.cache.handles)
      ensures invalidate ==> a !in shared.cache.c.lru
      ensures var was := old(shared.cache.c);
              Items(shared.cache.c) == if invalidate then RecencyList.Remove(Items(was), a) else Items(was)
    {
      hide Linked, Listed, Inherits, Items, Booked, Learned, WithinLimits, LawfulDigest;
      ghost var was := shared.cache.c;
      shared.cache.ReleaseEntry(a, invalidate);
      KeepBooks(was);
    }

    /**
     Answers from the entry at `a` if it is fresh and within the limits, counting this use; an entry that is
     found but not usable is taken out of the cache. Either way the reference is given back.
     */
    method UseEntry(a: nat, key: EncKey, size: nat, now: Option<nat>) returns (found: Option<EncMaterials>)
      requires Valid() && size <= limitBytes
      requires a in shared.cache.handles && a in shared.cache.c.lru && a in shared.cache.c.store
      requires EncId(shared.digest, key) == Some(shared.cache.c.store[a].id)
      modifies shared, shared.cache
      ensures Valid() && shared.cache.handles == old(shared.cache.handles) - multiset{a}
      ensures shared.cache.c.store.Keys <= old(shared.cache.c).store.Keys
      ensures found.None? ==> shared.issued == old(shared.issued)
      ensures found.Some? ==>
        && Hit(old(shared.issued), shared.issued, shared.digest, key, found.value, size)
        && Stamped(shared.issued[|old(shared.issued)|])
        && Fresh(old(shared.cache.c).store[a].creation, ttl, now)
        && old(shared.cache.c).store[a].payload == ForEncrypt(found.value)
      ensures found.Some? <==> Servable(old(shared.cache.c).store[a], size, now)
    {
      hide Linked, Listed, Inherits, Items, WithinLimits, AnswerKnown, LawfulDigest, EncId, Uses, Volume, Fresh;
      var cache := shared.cache;
      ghost var was := cache.c;
      if !cache.c.store[a].payload.ForEncrypt? {
        Release(a, true);
        StoreShrinks(was, cache.c, cache.handles);
        return None;
      }
      var usable := CheckTtl(a, now);
      StillHeld(was, cache.c, cache.handles, a);
      StoreShrinks(was, cache.c, cache.handles);
      if !usable {
        ghost var mid := cache.c;
        Release(a, true);
        StoreShrinks(mid, cache.c, cache.handles);
        return None;
      }
      found := CountUse(a, key, size, now);
    }

    /** Adds one use to the entry; over the limit, the entry goes. */
    method CountUse(a: nat, key: EncKey, size: nat, now: Option<nat>) returns (found: Option<EncMaterials>)
      requires Valid() && size <= limitBytes && a in shared.cache.handles && Issuing(shared.cache.c, a)
      requires EncId(shared.digest, key) == Some(shared.cache.c.store[a].id)
      requires Fresh(shared.cache.c.store[a].creation, ttl, now)
      modifies shared, shared.cache
      ensures Valid() && shared.cache.handles == old(shared.cache.handles) - multiset{a}
      ensures shared.cache.c.store.Keys <= old(shared.cache.c).store.Keys
      ensures found.None? ==> shared.issued == old(shared.issued)
      ensures found.Some? ==>
        && Hit(old(shared.issued), shared.issued, shared.digest, key, found.value, size)
        && Stamped(shared.issued[|old(shared.issued)|])
        && old(shared.cache.c).store[a].payload == ForEncrypt(found.value)
      ensures found.Some? <==> Servable(old(shared.cache.c).store[a], size, now)
    {
      hide Linked, Listed, Inherits, Items, WithinLimits, Booked, Learned, LawfulDigest, EncId, Uses, Volume, Fresh,
        RecencyList.Remove;
      var cache := shared.cache;
      ghost var was := cache.c;
      BookingOf(was, shared.issued, shared.serials, shared.digest, a);
      ghost var serial := shared.serials[a];
      EntryCounted(was, cache.handles, a);
      var ok, messages, bytes := cache.UpdateUsageStats(a, 1, size);
      ghost var mid := cache.c;
      if !ok || bytes > limitBytes || messages > limitMessages {
        DropOverdrawn(a, was);
        return None;
      }
      found := Some(cache.c.store[a].payload.enc);
      ghost var x := Issue(serial, size, key, found.value, limitMessages, limitBytes, was.store[a].creation, ttl, now);
      BookHit(was, mid, shared.issued, shared.serials, shared.digest, a, x);
      LearnedAlike(was, mid, shared.answers, shared.digest);
      LimitsExtended(shared.issued, x);
      shared.issued := shared.issued + [x];
      Release(a, messages == limitMessages);
      StoreShrinks(mid, cache.c, cache.handles);
    }

    /** Takes out an entry whose counters have just gone over a limit. */
    method DropOverdrawn(a: nat, ghost was: Links)
      requires a in shared.cache.handles && a in was.store && shared.cache.Valid()
      requires var c := shared.cache.c;
               && c.lru == was.lru && c.store.Keys == was.store.Keys
               && forall b :: b in was.store && b != a ==> c.store[b] == was.store[b]
      requires Booked(was, shared.issued, shared.serials, shared.digest) && Learned(was, shared.answers, shared.digest)
      modifies shared.cache
      ensures shared.cache.Valid() && shared.cache.handles == old(shared.cache.handles) - multiset{a}
      ensures Booked(shared.cache.c, shared.issued, shared.serials, shared.digest)
      ensures Learned(shared.cache.c, shared.answers, shared.digest)
      ensures shared.cache.c.store.Keys <= was.store.Keys
    {
      hide Linked, Listed, Inherits, Items, Booked, Learned, RecencyList.Remove;
      ghost var mid := shared.cache.c;
      shared.cache.ReleaseEntry(a, true);
      BooksAfterDrop(was, mid, shared.cache.c, shared.cache.handles, shared.issued, shared.serials, shared.digest, a);
      LearnedAfterDrop(was, mid, shared.cache.c, shared.cache.handles, shared.answers, shared.digest, a);
      StoreShrinks(mid, shared.cache.c, shared.cache.handles);
    }

    /** Looks a request for encryption up in the cache. */
    method FromCache(key: EncKey, id: Octets, size: nat, clocks: Clocks) returns (found: Option<EncMaterials>)
      requires Valid() && size <= limitBytes && EncId(shared.digest, key) == Some(id)
      modifies shared, shared.cache
      ensures Valid() && shared.cache.handles == old(shared.cache.handles)
      ensures shared.cache.c.store.Keys <= old(shared.cache.c).store.Keys
      ensures found.None? ==> shared.issued == old(shared.issued)
      ensures found.Some? ==> && Hit(old(shared.issued), shared.issued, shared.digest, key, found.value, size)
                              && Stamped(shared.issued[|old(shared.issued)|])
      ensures found.Some? <==> Serves(old(shared.cache.c), id, size, clocks)
    {
      hide Linked, Listed, Inherits, Items, Booked, Learned, WithinLimits, LawfulDigest, EncId, Touch, Hit;
      var cache := shared.cache;
      var entry := cache.FindEntry(id, clocks.lookup);
      InheritsBooks(old(cache.c), cache.c, old(cache.handles), shared.issued, shared.serials, shared.answers, shared.digest);
      StoreShrinks(old(cache.c), cache.c, old(cache.handles));
      if entry.None? { return None; }
      SameEntry(old(cache.c), cache.c, old(cache.handles), entry.value);
      found := UseEntry(entry.value, key, size, clocks.check);
    }

    /** Caches fresh materials; their first use is counted from the start. */
    method AddToCache(key: EncKey, id: Octets, size: nat, m: EncMaterials, at: nat, clocks: Clocks)
      requires Valid() && size <= limitBytes && EncId(shared.digest, key) == Some(id) && at !in shared.cache.c.store
      modifies shared, shared.cache
      ensures Valid() && shared.cache.handles == old(shared.cache.handles)
      ensures shared.issued == if clocks.create.None? then old(shared.issued) else
                old(shared.issued)
                + [Issue(|old(shared.issued)|, size, key, m, limitMessages, limitBytes, clocks.create.value, ttl, None)]
      ensures clocks.create.Some? ==>
        var created := clocks.create.value;
        InFront(shared.cache.c, Item(at, id, ExpiryOf(created, ttl)), ForEncrypt(m), 1, size, created)
      ensures shared.cache.c.store.Keys <= old(shared.cache.c).store.Keys + {at}
    {
      hide Linked, Listed, Inherits, InheritsBut, Items, Booked, Learned, WithinLimits, LawfulDigest, EncId,
        RecencyList.Insert, Uses, Volume, AfterClock, WithExpiry;
      var cache := shared.cache;
      var entry := cache.PutEntry(id, ForEncrypt(m), 1, size, at, clocks.create, clocks.insert);
      if entry.Some? {
        InsertedFirst(AfterClock(Items(old(cache.c)), clocks.insert), Item(at, id, NO_EXPIRY), cache.capacity);
        ghost var x := Issue(|shared.issued|, size, key, m, limitMessages, limitBytes, clocks.create.value, ttl, None);
        UnusedSerial(shared.issued, |shared.issued|);
        HasStored(cache.c, cache.handles, at);
        LearnedBut(old(cache.c), cache.c, old(cache.handles), shared.answers, shared.digest, at);
        BookMiss(old(cache.c), cache.c, old(cache.handles), shared.issued, shared.serials, shared.digest, at, x);
        LimitsExtended(shared.issued, x);
        shared.serials := shared.serials[at := |shared.issued|];
        shared.issued := shared.issued + [x];
        ghost var mid := cache.c;
        SetTtlOnMiss(entry);
        StillHeld(mid, cache.c, cache.handles, at);
        ghost var late := cache.c;
        Release(at, false);
        FrontStays(mid, late, cache.c, cache.handles, at, id, clocks.create.value, ttl);
        StoreGrows(old(cache.c), mid, old(cache.handles), at);
        StoreShrinks(mid, late, old(cache.handles) + multiset{at});
        StoreShrinks(late, cache.c, cache.handles);
      }
    }

    /** Answers a request for encryption materials, from the cache or from upstream. */
    method GenerateEncMaterials(alg: nat, ctx: Context, order: seq<Pair>, size: nat, upstream: Option<EncMaterials>,
                                at: nat, clocks: Clocks)
      returns (r: Option<EncMaterials>, hit: bool)
      requires Valid() && Lists(order, ctx) && at !in shared.cache.c.store
      modifies shared, shared.cache
      ensures Valid() && shared.cache.handles == old(shared.cache.handles)
      ensures hit ==> !Bypasses(alg, size) && r.Some?
                      && Hit(old(shared.issued), shared.issued, shared.digest, EncKey(partition, alg, ctx), r.value, size)
                      && Stamped(shared.issued[|old(shared.issued)|])
      ensures var id := EncId(shared.digest, EncKey(partition, alg, ctx));
              hit <==> !Bypasses(alg, size) && id.Some? && Serves(old(shared.cache.c), id.value, size, clocks)
      ensures !hit ==> r == if Bypasses(alg, size) || Encodable(ctx) then upstream else None
      ensures !hit ==>
        var unkept := Bypasses(alg, size) || r.None? || !canCache(r.value.alg) || clocks.create.None?;
        var n := |old(shared.issued)|;
        shared.issued == old(shared.issued)
          + if unkept then [] else [Issue(n, size, EncKey(partition, alg, ctx), r.value, limitMessages, limitBytes,
                                        clocks.create.value, ttl, None)]
      ensures var id := EncId(shared.digest, EncKey(partition, alg, ctx));
              !hit && !Bypasses(alg, size) && r.Some? && canCache(r.value.alg) && clocks.create.Some? && id.Some? ==>
                var created := clocks.create.value;
                InFront(shared.cache.c, Item(at, id.value, ExpiryOf(created, ttl)), ForEncrypt(r.value), 1, size, created)
      ensures shared.cache.c.store.Keys <= old(shared.cache.c).store.Keys + {at}
    {
      hide Linked, Listed, Inherits, Items, Booked, Learned, WithinLimits, LawfulDigest, Hit, Lists, Encoded,
        EncPreimage, Encodable;
      hit := false;
      if size > limitBytes || (alg != 0 && !canCache(alg)) { return upstream, false; }
      var key := EncKey(partition, alg, ctx);
      var id := HashEncRequest(shared.digest, key, order);
      if id.None? { return None, false; }
      var found := FromCache(key, id.value, size, clocks);
      if found.Some? { return found, true; }
      if upstream.Some? && canCache(upstream.value.alg) {
        AddToCache(key, id.value, size, upstream.value, at, clocks);
      }
      return upstream, false;
    }

    /** Answers from the entry at `a` if it holds fresh materials for decryption; otherwise the entry goes. */
    method UseAnswer(a: nat, now: Option<nat>) returns (found: Option<DecMaterials>)
      requires Valid() && a in shared.cache.handles && a in shared.cache.c.lru && a in shared.cache.c.store
      modifies shared.cache
      ensures Valid() && shared.cache.handles == old(shared.cache.handles) - multiset{a}
      ensures shared.cache.c.store.Keys <= old(shared.cache.c).store.Keys
      ensures found.Some? ==>
        && Fresh(old(shared.cache.c).store[a].creation, ttl, now)
        && old(shared.cache.c).store[a].payload == ForDecrypt(found.value)
      ensures var e := old(shared.cache.c).store[a];
              found.Some? <==> e.payload.ForDecrypt? && Fresh(e.creation, ttl, now)
    {
      hide Linked, Listed, Inherits, Items, Booked, Learned, WithinLimits, LawfulDigest, Fresh;
      var cache := shared.cache;
      ghost var was := cache.c;
      if cache.c.store[a].payload.ForEncrypt? {
        Release(a, true);
        StoreShrinks(was, cache.c, cache.handles);
        return None;
      }
      var usable := CheckTtl(a, now);
      StillHeld(was, cache.c, cache.handles, a);
      StoreShrinks(was, cache.c, cache.handles);
      ghost var mid := cache.c;
      found := if usable then Some(cache.c.store[a].payload.dec) else None;
      Release(a, !usable);
      StoreShrinks(mid, cache.c, cache.handles);
    }

    method FindAnswer(id: Octets, clocks: Clocks) returns (found: Option<DecMaterials>)
      requires Valid()
      modifies shared.cache
      ensures Valid() && shared.cache.handles == old(shared.cache.handles)
      ensures shared.cache.c.store.Keys <= old(shared.cache.c).store.Keys
      ensures found.Some? ==>
        exists x :: x in shared.answers && x.materials == found.value && DecId(shared.digest, x.key) == Some(id)
      ensures found.Some? <==> Answers(old(shared.cache.c), id, clocks)
    {
      hide Linked, Listed, Inherits, Items, Booked, WithinLimits, LawfulDigest, DecId, Touch;
      var cache := shared.cache;
      var entry := cache.FindEntry(id, clocks.lookup);
      InheritsBooks(old(cache.c), cache.c, old(cache.handles), shared.issued, shared.serials, shared.answers, shared.digest);
      StoreShrinks(old(cache.c), cache.c, old(cache.handles));
      if entry.None? { return None; }
      SameEntry(old(cache.c), cache.c, old(cache.handles), entry.value);
      ghost var e := cache.c.store[entry.value];
      found := UseAnswer(entry.value, clocks.check);
      assert found.Some? ==> AnswerKnown(e, shared.answers, shared.digest);
    }

    /** Caches an answer for decryption. */
    method AddAnswer(key: DecKey, id: Octets, m: DecMaterials, at: nat, clocks: Clocks)
      requires Valid() && DecId(shared.digest, key) == Some(id) && at !in shared.cache.c.store
      modifies shared, shared.cache
      ensures Valid() && shared.cache.handles == old(shared.cache.handles) && shared.issued == old(shared.issued)
      ensures shared.answers == old(shared.answers) + {Answer(key, m)}
    {
      hide Linked, Listed, Inherits, InheritsBut, Items, Booked, Learned, WithinLimits, LawfulDigest, DecId,
        RecencyList.Insert;
      var cache := shared.cache;
      shared.answers := shared.answers + {Answer(key, m)};
      LearnedMore(cache.c, old(shared.answers), shared.answers, shared.digest);
      var entry := cache.PutEntry(id, ForDecrypt(m), 0, 0, at, clocks.create, clocks.insert);
      if entry.Some? {
        HasStored(cache.c, cache.handles, at);
        assert Answer(key, m) in shared.answers;
        LearnedBut(old(cache.c), cache.c, old(cache.handles), shared.answers, shared.digest, at);
        BooksBut(old(cache.c), cache.c, old(cache.handles), shared.issued, shared.serials, shared.digest, at);
        ghost var mid := cache.c;
        SetTtlOnMiss(entry);
        StillHeld(mid, cache.c, cache.handles, at);
        Release(at, false);
      }
    }

    /** Answers a request for decryption materials, from the cache or from upstream. */
    method DecryptMaterials(alg: nat, edks: seq<Edk>, ctx: Context, order: seq<Pair>, upstream: Option<DecMaterials>,
                            at: nat, clocks: Clocks)
      returns (r: Option<DecMaterials>, hit: bool)
      requires Valid() && Lists(order, ctx) && at !in shared.cache.c.store
      modifies shared, shared.cache
      ensures Valid() && shared.cache.handles == old(shared.cache.handles) && shared.issued == old(shared.issued)
      ensures var id := DecId(shared.digest, DecKey(partition, alg, edks, ctx));
              hit <==> canCache(alg) && id.Some? && Answers(old(shared.cache.c), id.value, clocks)
      ensures var key := DecKey(partition, alg, edks, ctx);
              var id := DecId(shared.digest, key);
              if hit then
                && canCache(alg) && id.Some? && r.Some? && shared.answers == old(shared.answers)
                && exists x :: x in shared.answers && x.materials == r.value && DecId(shared.digest, x.key) == id
              else
                && r == (if !canCache(alg) || id.Some? then upstream else None)
                && shared.answers == old(shared.answers) + if canCache(alg) && r.Some? then {Answer(key, r.value)} else {}
    {
      hide Linked, Listed, Inherits, Items, Booked, Learned, WithinLimits, LawfulDigest, DecId, Lists;
      hit := false;
      if !canCache(alg) { return upstream, false; }
      var key := DecKey(partition, alg, edks, ctx);
      var id := HashDecRequest(shared.digest, key, order);
      if id.None? { return None, false; }
      var found := FindAnswer(id.value, clocks);
      if found.Some? { return found, true; }
      if upstream.Some? {
        AddAnswer(key, id.value, upstream.value, at, clocks);
      }
      return upstream, false;
    }

    /** An issue under the limits that are set. */
    ghost predicate Stamped(x: Issue)
      reads this
    {
      x.limitMessages == limitMessages && x.limitBytes == limitBytes && x.ttl == ttl
    }

    /** An entry that a request for encryption of `size` octets may be answered from. */
    predicate Servable(e: Entry, size: nat, now: Option<nat>)
      reads this
    {
      && e.payload.ForEncrypt? && Fresh(e.creation, ttl, now)
      && e.messages + 1 <= limitMessages && e.bytes + size <= limitBytes
    }

    /** The lookup finds such an entry. */
    ghost predicate Serves(c: Links, id: Octets, size: nat, clocks: Clocks)
      requires Listed(c)
      reads this
    {
      var a := Located(c, id, clocks.lookup);
      a.Some? && a.value in c.store && Servable(c.store[a.value], size, clocks.check)
    }

    /** The lookup finds a fresh answer for decryption. */
    ghost predicate Answers(c: Links, id: Octets, clocks: Clocks)
      requires Listed(c)
      reads this
    {
      var a := Located(c, id, clocks.lookup);
      && a.Some? && a.value in c.store
      && c.store[a.value].payload.ForDecrypt? && Fresh(c.store[a.value].creation, ttl, clocks.check)
    }

    /** Requests that never touch the cache. */
    predicate Bypasses(alg: nat, size: nat)
      reads this
    {
      size > limitBytes || (alg != 0 && !canCache(alg))
    }
  }

  /** The given entry is the most recently used one and holds what is said. */
  ghost predicate InFront(c: Links, item: Item, payload: Payload, messages: nat, bytes: nat, creation: nat) {
    && Listed(c) && c.lru != [] && Items(c)[0] == item && item.addr in c.store
    && var e := c.store[item.addr];
    e.id == item.id && e.payload == payload && e.messages == messages && e.bytes == bytes && e.creation == creation
  }

  /** A lookup that comes before the entry in front is due finds it. */
  lemma FrontIsLocated(c: Links, item: Item, payload: Payload, messages: nat, bytes: nat, creation: nat, lookup: Option<nat>)
    requires InFront(c, item, payload, messages, bytes, creation)
    requires lookup.Some? ==> !Due(item, lookup.value)
    ensures Located(c, item.id, lookup) == Some(item.addr)
  {
    hide Items, Due, DueBefore;
    if lookup.Some? {
      assert Survives(Items(c), lookup.value, TTL_EXPIRATION_BATCH_SIZE, Items(c)[0]);
    }
  }

  lemma InsertedFirst(items: seq<Item>, item: Item, capacity: nat)
    requires capacity > 0
    ensures RecencyList.Insert(items, item, capacity) != [] && RecencyList.Insert(items, item, capacity)[0] == item
  {
  }

  /** Announcing the expiry and giving the reference back leave the new entry in front. */
  lemma FrontStays(mid: Links, late: Links, c: Links, handles: multiset<nat>, at: nat, id: Octets, creation: nat, ttl: nat)
    requires Listed(mid) && Listed(late) && Listed(c) && mid.lru != [] && Items(mid)[0] == Item(at, id, NO_EXPIRY)
    requires Items(late) == WithExpiry(Items(mid), at, creation, ttl) && Items(c) == Items(late)
    requires at in late.store && at in mid.store && SameData(late.store[at], mid.store[at]) && Inherits(late, c, handles)
    ensures c.lru != [] && Items(c)[0] == Item(at, id, ExpiryOf(creation, ttl))
    ensures at in c.store && SameData(c.store[at], mid.store[at])
  {
    assert |Items(c)| == |Items(mid)|;
    assert c.lru[0] in c.lru;
  }

  lemma SameEntry(was: Links, c: Links, handles: multiset<nat>, a: nat)
    requires Inherits(was, c, handles) && a in c.store
    ensures a in was.store && SameData(c.store[a], was.store[a])
  {
  }

  lemma LearnedAfterDrop(was: Links, mid: Links, c: Links, handles: multiset<nat>, answers: set<Answer>,
                         digest: Digest, a: nat)
    requires Learned(was, answers, digest) && a in was.store && mid.lru == was.lru && mid.store.Keys == was.store.Keys
    requires (forall b :: b in was.store && b != a ==> mid.store[b] == was.store[b])
    requires Inherits(mid, c, handles) && a !in c.lru
    ensures Learned(c, answers, digest)
  {
    LearnedAlike(was, c, answers, digest);
  }

  lemma LearnedBut(was: Links, c: Links, handles: multiset<nat>, answers: set<Answer>, digest: Digest, at: nat)
    requires Learned(was, answers, digest) && InheritsBut(was, c, handles, at) && at in c.store
    requires c.store[at].payload.ForDecrypt? ==> AnswerKnown(c.store[at], answers, digest)
    ensures Learned(c, answers, digest)
  {
    hide DecId;
  }

  lemma LearnedMore(c: Links, answers: set<Answer>, more: set<Answer>, digest: Digest)
    requires Learned(c, answers, digest) && answers <= more
    ensures Learned(c, more, digest)
  {
    hide DecId;
  }

  /** A new entry for decryption leaves the books about encryption alone. */
  lemma BooksBut(was: Links, c: Links, handles: multiset<nat>, issued: seq<Issue>, serials: map<nat, nat>,
                 digest: Digest, at: nat)
    requires Booked(was, issued, serials, digest) && InheritsBut(was, c, handles, at)
    requires at in c.store && c.store[at].payload.ForDecrypt?
    ensures Booked(c, issued, serials, digest)
  {
    hide EntryBooked;
    forall b | Issuing(c, b)
      ensures b in serials && EntryBooked(c.store[b], issued, serials[b], digest)
    {
      assert Issuing(was, b);
      SameBooking(was.store[b], c.store[b], issued, serials[b], digest);
    }
    assert forall b :: Issuing(c, b) ==> Issuing(was, b);
  }

  lemma HasStored(c: Links, handles: multiset<nat>, a: nat)
    requires Listed(c) && a in c.lru
    ensures a in c.store
  {
  }

  lemma StoreGrows(was: Links, c: Links, handles: multiset<nat>, at: nat)
    requires InheritsBut(was, c, handles, at)
    ensures c.store.Keys <= was.store.Keys + {at}
  {
  }

  lemma StoreShrinks(was: Links, c: Links, handles: multiset<nat>)
    requires Inherits(was, c, handles)
    ensures c.store.Keys <= was.store.Keys
  {
  }

  /** Counters that went over a limit leave no trace once their entry is out of the cache. */
  lemma BooksAfterDrop(was: Links, mid: Links, c: Links, handles: multiset<nat>, issued: seq<Issue>,
                       serials: map<nat, nat>,
                       digest: Digest, a: nat)
    requires Booked(was, issued, serials, digest) && a in was.store && mid.lru == was.lru && mid.store.Keys == was.store.Keys
    requires (forall b :: b in was.store && b != a ==> mid.store[b] == was.store[b])
    requires Inherits(mid, c, handles) && a !in c.lru
    ensures Booked(c, issued, serials, digest)
  {
    hide EntryBooked;
    forall b | Issuing(c, b)
      ensures b in serials && EntryBooked(c.store[b], issued, serials[b], digest)
    {
      assert Issuing(was, b);
      SameBooking(was.store[b], c.store[b], issued, serials[b], digest);
    }
    assert forall b :: Issuing(c, b) ==> Issuing(was, b);
  }

  /** What a hit means for the ledger: one more use of a key that was first handed out for the same identifier. */
  ghost predicate Hit(was: seq<Issue>, issued: seq<Issue>, digest: Digest, key: EncKey, materials: EncMaterials,
                      size: nat) {
    && |issued| == |was| + 1 && was <= issued
    && var x := issued[|was|];
    && x.serial < |was| && x.bytes == size && x.key == key && x.materials == materials == was[x.serial].materials
    && EncId(digest, was[x.serial].key) == EncId(digest, key)
  }

  lemma StillHeld(was: Links, c: Links, handles: multiset<nat>, a: nat)
    requires Inherits(was, c, handles) && a in handles && a in was.store
    ensures a in c.store && SameData(c.store[a], was.store[a])
  {
  }

  /**
   A hit answers with the very materials upstream generated for the same partition, suite and encryption
   context, as long as the digest tells the hashed strings of the two requests apart.
   */
  lemma HitIsTheSameRequest(was: seq<Issue>, issued: seq<Issue>, digest: Digest, key: EncKey, materials: EncMaterials,
                            size: nat)
    requires LawfulDigest(digest) && Hit(was, issued, digest, key, materials, size) && ValidEncKey(key)
    requires var first := was[issued[|was|].serial].key;
             ValidEncKey(first) && NoCollision(digest, EncStrings(digest, first) + EncStrings(digest, key))
    ensures was[issued[|was|].serial].key == key && was[issued[|was|].serial].materials == materials
  {
    EncIdsDecide(digest, was[issued[|was|].serial].key, key);
  }

  /** An answer found for decryption was given for the same partition, suite, context and bag of encrypted keys. */
  lemma AnswerIsToTheSameRequest(digest: Digest, answers: set<Answer>, key: DecKey, materials: DecMaterials)
    requires LawfulDigest(digest) && ValidDecKey(key) && DecId(digest, key).Some?
    requires exists x :: x in answers && x.materials == materials && DecId(digest, x.key) == DecId(digest, key)
    requires forall x :: x in answers ==>
      ValidDecKey(x.key) && NoCollision(digest, DecStrings(digest, x.key) + DecStrings(digest, key))
    ensures exists x :: x in answers && x.materials == materials && SameRequest(x.key, key)
  {
    hide DecId, ValidDecKey, NoCollision;
    var x :| x in answers && x.materials == materials && DecId(digest, x.key) == DecId(digest, key);
    DecIdsDecide(digest, x.key, key);
    assert SameRequest(x.key, key);
  }

  ghost predicate SameRequest(a: DecKey, b: DecKey) {
    a.partition == b.partition && a.alg == b.alg && a.encCtx == b.encCtx && multiset(a.edks) == multiset(b.edks)
  }
}
