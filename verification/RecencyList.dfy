/**
 The reference model of the local materials cache: a list of entries, most recently used first. The cache
 proper is three linked structures; every one of its operations is proved to do to this list what is said here.
 */
module RecencyList {
  import opened Bytes

  const NO_EXPIRY: nat := UINT64_MAX
  const TTL_EXPIRATION_BATCH_SIZE: nat := 8

  /** `addr` is where the entry lives in memory: it names the entry and breaks ties between expiry times. */
  datatype Item = Item(addr: nat, id: Octets, expiry: nat)

  ghost predicate Distinct(items: seq<Item>) {
    forall i, j :: 0 <= i < j < |items| ==> items[i].addr != items[j].addr && items[i].id != items[j].id
  }

  /** Where the entry at `addr` stands, or the length of the list. */
  function AddrPlace(items: seq<Item>, addr: nat): (i: nat)
    ensures i <= |items| && (i < |items| ==> items[i].addr == addr)
    ensures forall j :: 0 <= j < i ==> items[j].addr != addr
  {
    if items == [] || items[0].addr == addr then 0 else 1 + AddrPlace(items[1..], addr)
  }

  /** Where the entry with identifier `id` stands, or the length of the list. */
  function IdPlace(items: seq<Item>, id: Octets): (i: nat)
    ensures i <= |items| && (i < |items| ==> items[i].id == id)
    ensures forall j :: 0 <= j < i ==> items[j].id != id
  {
    if items == [] || items[0].id == id then 0 else 1 + IdPlace(items[1..], id)
  }

  /** The list without the entry at `addr`. */
  function Remove(items: seq<Item>, addr: nat): seq<Item> {
    var i := AddrPlace(items, addr);
    if i == |items| then items else RemoveAt(items, i)
  }

  /** A hit makes its entry the most recently used one. */
  function Touch(items: seq<Item>, id: Octets): seq<Item> {
    var i := IdPlace(items, id);
    if i == |items| then items else [items[i]] + RemoveAt(items, i)
  }

  /** The list without the entry of the given identifier. */
  function Others(items: seq<Item>, id: Octets): seq<Item> {
    var i := IdPlace(items, id);
    if i == |items| then items else RemoveAt(items, i)
  }

  /** A new entry replaces the one with the same identifier and pushes out the least recently used. */
  function Insert(items: seq<Item>, item: Item, capacity: nat): seq<Item> {
    var all := [item] + Others(items, item.id);
    all[..Min(capacity, |all|)]
  }

  /** A hint only ever brings the expiry forward. */
  function Hint(items: seq<Item>, addr: nat, time: nat): seq<Item> {
    var i := AddrPlace(items, addr);
    if i == |items| || items[i].expiry <= time then items else items[i := items[i].(expiry := time)]
  }

  // ---------- Expiry ----------

  predicate Due(x: Item, now: nat) {
    x.expiry != NO_EXPIRY && x.expiry <= now
  }

  /** The order of the expiry heap. */
  predicate Before(x: Item, y: Item) {
    x.expiry < y.expiry || (x.expiry == y.expiry && x.addr < y.addr)
  }

  /** Whether the entry at position `i` is the one the heap shows on top. */
  ghost predicate IsTop(items: seq<Item>, i: nat) {
    && i < |items| && items[i].expiry != NO_EXPIRY
    && forall j :: 0 <= j < |items| && items[j].expiry != NO_EXPIRY && j != i ==> Before(items[i], items[j])
  }

  /** The due entries that expire before `x`. */
  ghost function DueBefore(items: seq<Item>, now: nat, x: Item): set<nat> {
    set j | 0 <= j < |items| && Due(items[j], now) && Before(items[j], x) :: items[j].addr
  }

  ghost predicate Survives(items: seq<Item>, now: nat, budget: nat, x: Item) {
    !Due(x, now) || |DueBefore(items, now, x)| >= budget
  }

  /** Those of `part` that survive a sweep of `items`, in their order. */
  ghost function Survivors(items: seq<Item>, now: nat, budget: nat, part: seq<Item>): seq<Item> {
    if part == [] then [] else
      (if Survives(items, now, budget, part[0]) then [part[0]] else []) + Survivors(items, now, budget, part[1..])
  }

  /** One sweep: the `budget` due entries that expire first are gone, all others stay in their order. */
  ghost function Sweep(items: seq<Item>, now: nat, budget: nat): seq<Item> {
    Survivors(items, now, budget, items)
  }

  lemma {:induction false} SurvivorsSplit(items: seq<Item>, now: nat, budget: nat, a: seq<Item>, b: seq<Item>)
    ensures Survivors(items, now, budget, a + b) == Survivors(items, now, budget, a) + Survivors(items, now, budget, b)
  {
    if a == [] {
      assert a + b == b;
    } else {
      SurvivorsSplit(items, now, budget, a[1..], b);
      assert (a + b)[1..] == a[1..] + b;
    }
  }

  lemma {:induction false} SurvivorsAlike(items: seq<Item>, budget: nat, items': seq<Item>, budget': nat, now: nat,
                                          part: seq<Item>)
    requires forall x :: x in part ==> Survives(items, now, budget, x) == Survives(items', now, budget', x)
    ensures Survivors(items, now, budget, part) == Survivors(items', now, budget', part)
  {
    if part != [] {
      assert part[0] in part;
      SurvivorsAlike(items, budget, items', budget', now, part[1..]);
    }
  }

  lemma {:induction false} AllSurvive(items: seq<Item>, now: nat, budget: nat, part: seq<Item>)
    requires forall x :: x in part ==> Survives(items, now, budget, x)
    ensures Survivors(items, now, budget, part) == part
  {
    if part != [] {
      assert part[0] in part;
      AllSurvive(items, now, budget, part[1..]);
    }
  }

  /** Once the budget is used up or the top is not due, the sweep is over. */
  lemma SweepStops(items: seq<Item>, now: nat, budget: nat)
    requires budget == 0 || forall x :: x in items ==> !Due(x, now)
    ensures Sweep(items, now, budget) == items
  {
    AllSurvive(items, now, budget, items);
  }

  lemma FewerBefore(items: seq<Item>, now: nat, i: nat, x: Item)
    requires i < |items| && Distinct(items) && IsTop(items, i) && Due(items[i], now)
    requires x in RemoveAt(items, i) && Due(x, now)
    ensures |DueBefore(items, now, x)| == |DueBefore(RemoveAt(items, i), now, x)| + 1
  {
    hide Before, Due, IsTop, Distinct, DueBefore, RemoveAt;
    var top, all, fewer := items[i].addr, DueBefore(items, now, x), DueBefore(RemoveAt(items, i), now, x);
    TopIsBefore(items, now, i, x);
    forall a
      ensures a in all <==> a in fewer || a == top
    {
      StillBefore(items, now, i, x, a);
    }
    StillBefore(items, now, i, x, top);
    assert all == fewer + {top};
  }

  lemma StillBefore(items: seq<Item>, now: nat, i: nat, x: Item, a: nat)
    requires Distinct(items) && i < |items| && Due(items[i], now) && Before(items[i], x)
    ensures a in DueBefore(items, now, x) <==> a in DueBefore(RemoveAt(items, i), now, x) || a == items[i].addr
    ensures items[i].addr !in DueBefore(RemoveAt(items, i), now, x)
  {
    hide Before, Due;
    var rest := RemoveAt(items, i);
    assert forall j :: 0 <= j < |rest| ==> rest[j] == items[if j < i then j else j + 1];
    if a in DueBefore(items, now, x) && a != items[i].addr {
      var j :| 0 <= j < |items| && Due(items[j], now) && Before(items[j], x) && items[j].addr == a;
      assert rest[if j < i then j else j - 1] == items[j];
    }
  }

  lemma TopIsBefore(items: seq<Item>, now: nat, i: nat, x: Item)
    requires IsTop(items, i) && x in RemoveAt(items, i) && Due(x, now)
    ensures Before(items[i], x)
  {
    var rest := RemoveAt(items, i);
    var j :| 0 <= j < |rest| && rest[j] == x;
    assert items[if j < i then j else j + 1] == x;
  }

  /** Taking the top off a sweep leaves a sweep of the rest with one less to go. */
  lemma SweepStep(items: seq<Item>, now: nat, budget: nat, i: nat)
    requires i < |items| && Distinct(items) && IsTop(items, i) && Due(items[i], now) && budget > 0
    ensures Sweep(items, now, budget) == Sweep(RemoveAt(items, i), now, budget - 1)
  {
    hide Sweep, DueBefore, IsTop, Due, Distinct;
    var rest := RemoveAt(items, i);
    forall x | x in rest
      ensures Survives(items, now, budget, x) == Survives(rest, now, budget - 1, x)
    {
      if Due(x, now) {
        FewerBefore(items, now, i, x);
      }
    }
    TopGoes(items, now, budget, i);
    assert items == items[..i] + ([items[i]] + items[i + 1..]);
    SurvivorsSplit(items, now, budget, items[..i], [items[i]] + items[i + 1..]);
    SurvivorsSplit(items, now, budget, [items[i]], items[i + 1..]);
    SurvivorsSplit(items, now, budget, items[..i], items[i + 1..]);
    SurvivorsAlike(items, budget, rest, budget - 1, now, rest);
    SweepIs(items, now, budget);
    SweepIs(rest, now, budget - 1);
  }

  lemma SweepIs(items: seq<Item>, now: nat, budget: nat)
    ensures Sweep(items, now, budget) == Survivors(items, now, budget, items)
  {
  }

  lemma TopGoes(items: seq<Item>, now: nat, budget: nat, i: nat)
    requires IsTop(items, i) && Due(items[i], now) && budget > 0
    ensures Survivors(items, now, budget, [items[i]]) == []
  {
    assert DueBefore(items, now, items[i]) == {};
  }
}
