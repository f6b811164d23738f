/** The encryption context: a map of octet strings with a canonical serialization. */
module EncryptionContext {
  import opened Bytes
  import opened Parsing

  type Context = map<Octets, Octets>

  datatype Pair = Pair(key: Octets, value: Octets)

  // ---------- Orders of iteration ----------

  predicate DistinctKeys(pairs: seq<Pair>) {
    forall i, j :: 0 <= i < j < |pairs| ==> pairs[i].key != pairs[j].key
  }

  /** `order` lists the entries of `ctx`, each once: one way a hash table may be walked. */
  ghost predicate Lists(order: seq<Pair>, ctx: Context) {
    && DistinctKeys(order)
    && (forall i :: 0 <= i < |order| ==> order[i].key in ctx && ctx[order[i].key] == order[i].value)
    && (forall k :: k in ctx ==> Pair(k, ctx[k]) in order)
  }

  function FromPairs(pairs: seq<Pair>): Context {
    if |pairs| == 0 then map[] else FromPairs(pairs[..|pairs| - 1])[pairs[|pairs| - 1].key := pairs[|pairs| - 1].value]
  }

  lemma {:induction false} LookupFromPairs(pairs: seq<Pair>, i: nat)
    requires DistinctKeys(pairs) && i < |pairs|
    ensures pairs[i].key in FromPairs(pairs) && FromPairs(pairs)[pairs[i].key] == pairs[i].value
  {
    if i < |pairs| - 1 {
      LookupFromPairs(pairs[..|pairs| - 1], i);
    }
  }

  lemma FromPairsLists(pairs: seq<Pair>)
    requires DistinctKeys(pairs)
    ensures Lists(pairs, FromPairs(pairs))
  {
    hide FromPairs;
    forall i | 0 <= i < |pairs|
      ensures pairs[i].key in FromPairs(pairs) && FromPairs(pairs)[pairs[i].key] == pairs[i].value
    {
      LookupFromPairs(pairs, i);
    }
    forall k | k in FromPairs(pairs)
      ensures Pair(k, FromPairs(pairs)[k]) in pairs
    {
      KeysFromPairs(pairs, k);
      var i :| 0 <= i < |pairs| && pairs[i].key == k;
      assert pairs[i] == Pair(k, FromPairs(pairs)[k]);
    }
  }

  lemma {:induction false} KeysFromPairs(pairs: seq<Pair>, key: Octets)
    ensures key in FromPairs(pairs) <==> exists i :: 0 <= i < |pairs| && pairs[i].key == key
  {
    if |pairs| > 0 {
      var front, last := pairs[..|pairs| - 1], pairs[|pairs| - 1];
      KeysFromPairs(front, key);
      if key in FromPairs(front) {
        var i :| 0 <= i < |front| && front[i].key == key;
        assert pairs[i].key == key;
      } else if last.key == key {
        assert pairs[|pairs| - 1].key == key;
      }
    }
  }

  lemma ListsDetermines(order: seq<Pair>, a: Context, b: Context)
    requires Lists(order, a) && Lists(order, b)
    ensures a == b
  {
    forall k | k in a
      ensures k in b && a[k] == b[k]
    {
      assert Pair(k, a[k]) in order;
    }
    forall k | k in b
      ensures k in a
    {
      assert Pair(k, b[k]) in order;
    }
  }

  ghost function SomeOrder(ctx: Context): (order: seq<Pair>)
    ensures Lists(order, ctx) && |order| == |ctx|
  {
    if ctx == map[] then [] else
      var k :| k in ctx;
      var rest := SomeOrder(ctx - {k});
      assert forall p :: p in rest ==> p.key in ctx - {k};
      assert forall i :: 0 <= i < |rest| ==> rest[i].key != k;
      var order := rest + [Pair(k, ctx[k])];
      SomeOrderStep(ctx, k, rest);
      order
  }

  lemma SomeOrderStep(ctx: Context, k: Octets, rest: seq<Pair>)
    requires k in ctx && Lists(rest, ctx - {k}) && |rest| == |ctx - {k}|
    ensures Lists(rest + [Pair(k, ctx[k])], ctx) && |rest| + 1 == |ctx|
  {
    var order := rest + [Pair(k, ctx[k])];
    assert order[|rest|] == Pair(k, ctx[k]);
    forall k' | k' in ctx
      ensures Pair(k', ctx[k']) in order
    {
      if k' != k {
        assert Pair(k', (ctx - {k})[k']) in rest;
      }
    }
    assert (ctx - {k}).Keys == ctx.Keys - {k};
  }

  // ---------- Sorting by key ----------

  /** The order of memcmp, a proper prefix first. */
  predicate KeyLess(a: Octets, b: Octets) {
    if |b| == 0 then false
    else if |a| == 0 then true
    else a[0] < b[0] || (a[0] == b[0] && KeyLess(a[1..], b[1..]))
  }

  lemma {:induction false} KeyLessTotal(a: Octets, b: Octets)
    ensures KeyLess(a, b) || a == b || KeyLess(b, a)
    ensures !(KeyLess(a, b) && KeyLess(b, a)) && (a == b ==> !KeyLess(a, b))
  {
    if |a| > 0 && |b| > 0 {
      KeyLessTotal(a[1..], b[1..]);
      assert a == [a[0]] + a[1..] && b == [b[0]] + b[1..];
    }
  }

  lemma {:induction false} KeyLessTransitive(a: Octets, b: Octets, c: Octets)
    requires KeyLess(a, b) && KeyLess(b, c)
    ensures KeyLess(a, c)
  {
    if |a| > 0 && a[0] == b[0] && b[0] == c[0] {
      KeyLessTransitive(a[1..], b[1..], c[1..]);
    }
  }

  predicate Sorted(pairs: seq<Pair>) {
    forall i, j :: 0 <= i < j < |pairs| ==> KeyLess(pairs[i].key, pairs[j].key)
  }

  function Insert(p: Pair, sorted: seq<Pair>): seq<Pair> {
    if |sorted| == 0 || KeyLess(p.key, sorted[0].key) then [p] + sorted
    else [sorted[0]] + Insert(p, sorted[1..])
  }

  /** The list sort the serializer calls. */
  function Sort(pairs: seq<Pair>): seq<Pair> {
    if |pairs| == 0 then [] else Insert(pairs[0], Sort(pairs[1..]))
  }

  lemma {:induction false} InsertKeeps(p: Pair, sorted: seq<Pair>)
    ensures multiset(Insert(p, sorted)) == multiset(sorted) + multiset{p}
  {
    if !(|sorted| == 0 || KeyLess(p.key, sorted[0].key)) {
      InsertKeeps(p, sorted[1..]);
      assert sorted == [sorted[0]] + sorted[1..];
    }
  }

  lemma {:induction false} SortKeeps(pairs: seq<Pair>)
    ensures multiset(Sort(pairs)) == multiset(pairs)
  {
    hide Insert, KeyLess;
    if |pairs| > 0 {
      SortKeeps(pairs[1..]);
      InsertKeeps(pairs[0], Sort(pairs[1..]));
      assert pairs == [pairs[0]] + pairs[1..];
    }
  }

  lemma {:induction false} InsertSorts(p: Pair, sorted: seq<Pair>)
    requires Sorted(sorted)
    requires forall i :: 0 <= i < |sorted| ==> sorted[i].key != p.key
    ensures Sorted(Insert(p, sorted))
  {
    if |sorted| > 0 {
      KeyLessTotal(p.key, sorted[0].key);
      if KeyLess(p.key, sorted[0].key) {
        forall j | 0 < j < |sorted|
          ensures KeyLess(p.key, sorted[j].key)
        {
          KeyLessTransitive(p.key, sorted[0].key, sorted[j].key);
        }
      } else {
        InsertSorts(p, sorted[1..]);
        InsertKeeps(p, sorted[1..]);
        var tail := Insert(p, sorted[1..]);
        forall j | 0 <= j < |tail|
          ensures KeyLess(sorted[0].key, tail[j].key)
        {
          assert tail[j] in multiset(tail);
          assert tail[j] == p || tail[j] in sorted[1..];
        }
      }
    }
  }

  lemma {:induction false} SortSorts(pairs: seq<Pair>)
    requires DistinctKeys(pairs)
    ensures Sorted(Sort(pairs))
  {
    if |pairs| > 0 {
      SortSorts(pairs[1..]);
      SortKeeps(pairs[1..]);
      var tail := Sort(pairs[1..]);
      forall i | 0 <= i < |tail|
        ensures tail[i].key != pairs[0].key
      {
        assert tail[i] in multiset(tail);
        assert tail[i] in pairs[1..];
      }
      InsertSorts(pairs[0], tail);
    }
  }

  lemma SortedFirst(a: seq<Pair>, b: seq<Pair>)
    requires Sorted(a) && Sorted(b) && multiset(a) == multiset(b) && |a| > 0 && |b| > 0
    ensures a[0] == b[0]
  {
    assert a[0] in multiset(b) && b[0] in multiset(a);
    var i :| 0 <= i < |b| && b[i] == a[0];
    var j :| 0 <= j < |a| && a[j] == b[0];
    KeyLessTotal(a[0].key, b[0].key);
  }

  /** A set of entries has only one sorted listing. */
  lemma {:induction false} SortedUnique(a: seq<Pair>, b: seq<Pair>)
    requires Sorted(a) && Sorted(b) && multiset(a) == multiset(b)
    ensures a == b
  {
    assert |a| == |multiset(a)| == |multiset(b)| == |b|;
    if |a| > 0 {
      SortedFirst(a, b);
      assert a == [a[0]] + a[1..] && b == [b[0]] + b[1..];
      assert multiset(a[1..]) == multiset(a) - multiset{a[0]};
      assert multiset(b[1..]) == multiset(b) - multiset{b[0]};
      SortedUnique(a[1..], b[1..]);
    }
  }

  lemma ListsSameEntries(a: seq<Pair>, b: seq<Pair>, ctx: Context)
    requires Lists(a, ctx) && Lists(b, ctx)
    ensures multiset(a) == multiset(b)
  {
    DistinctCounts(a);
    DistinctCounts(b);
    forall p
      ensures multiset(a)[p] == multiset(b)[p]
    {
      if p in a {
        assert Pair(p.key, ctx[p.key]) in b;
      }
      if p in b {
        assert Pair(p.key, ctx[p.key]) in a;
      }
    }
  }

  lemma {:induction false} DistinctCounts(a: seq<Pair>)
    requires DistinctKeys(a)
    ensures forall p :: multiset(a)[p] == if p in a then 1 else 0
  {
    if |a| > 0 {
      DistinctCounts(a[1..]);
      assert a == [a[0]] + a[1..];
    }
  }

  // ---------- Serialization ----------

  function EncodePair(p: Pair): Octets {
    BigEndian(|p.key|, 2) + p.key + BigEndian(|p.value|, 2) + p.value
  }

  function EncodePairs(pairs: seq<Pair>): Octets {
    if |pairs| == 0 then [] else EncodePair(pairs[0]) + EncodePairs(pairs[1..])
  }

  function EncodeOrder(order: seq<Pair>): Octets {
    if |order| == 0 then [] else BigEndian(|order|, 2) + EncodePairs(Sort(order))
  }

  /** The canonical octets of a context. */
  ghost function Encoded(ctx: Context): Octets {
    EncodeOrder(SomeOrder(ctx))
  }

  /** A context the SDK agrees to serialize. */
  ghost predicate Encodable(ctx: Context) {
    |Encoded(ctx)| <= UINT16_MAX
  }

  /** The octets depend on the map alone, not on the order in which it is walked. */
  lemma EncodingCanonical(order: seq<Pair>, ctx: Context)
    requires Lists(order, ctx)
    ensures EncodeOrder(order) == Encoded(ctx)
  {
    var other := SomeOrder(ctx);
    ListsSameEntries(order, other, ctx);
    SortSorts(order);
    SortSorts(other);
    SortKeeps(order);
    SortKeeps(other);
    SortedUnique(Sort(order), Sort(other));
    assert |order| == |multiset(order)| == |multiset(other)| == |other|;
  }

  lemma {:induction false} EncodePairsAppend(pairs: seq<Pair>, p: Pair)
    ensures EncodePairs(pairs + [p]) == EncodePairs(pairs) + EncodePair(p)
  {
    hide EncodePair;
    if |pairs| == 0 {
      assert EncodePairs([p]) == EncodePair(p) + EncodePairs([]);
    } else {
      EncodePairsAppend(pairs[1..], p);
      assert (pairs + [p])[1..] == pairs[1..] + [p];
    }
  }

  lemma {:induction false} InsertSize(p: Pair, sorted: seq<Pair>)
    ensures |EncodePairs(Insert(p, sorted))| == |EncodePair(p)| + |EncodePairs(sorted)|
  {
    if |sorted| == 0 || KeyLess(p.key, sorted[0].key) {
      assert ([p] + sorted)[1..] == sorted;
    } else {
      InsertSize(p, sorted[1..]);
      assert ([sorted[0]] + Insert(p, sorted[1..]))[1..] == Insert(p, sorted[1..]);
    }
  }

  /** Sorting does not change the size. */
  lemma {:induction false} SortSize(pairs: seq<Pair>)
    ensures |EncodePairs(Sort(pairs))| == |EncodePairs(pairs)|
  {
    if |pairs| > 0 {
      SortSize(pairs[1..]);
      InsertSize(pairs[0], Sort(pairs[1..]));
    }
  }

  lemma EncodedSize(order: seq<Pair>, ctx: Context)
    requires Lists(order, ctx)
    ensures |Encoded(ctx)| == if |order| == 0 then 0 else 2 + |EncodePairs(order)|
    ensures |order| == |ctx|
  {
    EncodingCanonical(order, ctx);
    SortSize(order);
    ListsSameEntries(order, SomeOrder(ctx), ctx);
    assert |order| == |multiset(order)| == |multiset(SomeOrder(ctx))|;
  }

  /** The size of the listed entries behind their count. */
  function OrderSize(order: seq<Pair>): nat {
    if |order| == 0 then 0 else 2 + |EncodePairs(order)|
  }

  lemma SizeStep(order: seq<Pair>, i: nat)
    requires i < |order|
    ensures |EncodePairs(order[..i + 1])| == |EncodePairs(order[..i])| + |order[i].key| + |order[i].value| + 4
    ensures |EncodePairs(order[..i + 1])| <= |EncodePairs(order)|
    ensures EncodePairs(order[..i + 1]) == EncodePairs(order[..i]) + EncodePair(order[i])
  {
    EncodePairsAppend(order[..i], order[i]);
    assert order[..i + 1] == order[..i] + [order[i]];
    PrefixSize(order, i + 1);
  }

  /** Adds up the size of the listed entries, giving up as soon as it exceeds 16 bits. */
  method SumSizes(order: seq<Pair>) returns (size: Option<nat>)
    ensures size == if OrderSize(order) <= UINT16_MAX then Some(OrderSize(order)) else None
  {
    if |order| > UINT16_MAX {
      ManyPairsAreLong(order);
      return None;
    }
    if |order| == 0 {
      return Some(0);
    }
    var length, i := 2, 0;
    while i < |order|
      invariant 0 <= i <= |order|
      invariant length == 2 + |EncodePairs(order[..i])| <= UINT16_MAX
    {
      SizeStep(order, i);
      length := length + |order[i].key| + |order[i].value| + 4;
      if length > UINT16_MAX {
        return None;
      }
      i := i + 1;
    }
    assert order[..i] == order;
    size := Some(length);
  }

  method ContextSize(ctx: Context, order: seq<Pair>) returns (size: Option<nat>)
    requires Lists(order, ctx)
    ensures size == if Encodable(ctx) then Some(|Encoded(ctx)|) else None
  {
    EncodedSize(order, ctx);
    size := SumSizes(order);
  }

  lemma {:induction false} ManyPairsAreLong(pairs: seq<Pair>)
    ensures |EncodePairs(pairs)| >= 4 * |pairs|
  {
    if |pairs| > 0 {
      ManyPairsAreLong(pairs[1..]);
    }
  }

  lemma {:induction false} PrefixSize(pairs: seq<Pair>, i: nat)
    requires i <= |pairs|
    ensures |EncodePairs(pairs[..i])| <= |EncodePairs(pairs)|
  {
    if i > 0 {
      PrefixSize(pairs[1..], i - 1);
      assert pairs[..i][1..] == pairs[1..][..i - 1];
    }
  }

  /** Writes entries one after the other behind `written` while they fit. */
  method WritePairs(elems: seq<Pair>, written: Octets, capacity: nat) returns (ok: bool, output: Octets)
    requires |written| <= capacity
    ensures ok <==> |written| + |EncodePairs(elems)| <= capacity
    ensures ok ==> output == written + EncodePairs(elems)
  {
    output := written;
    var i := 0;
    while i < |elems|
      invariant 0 <= i <= |elems|
      invariant output == written + EncodePairs(elems[..i])
      invariant |output| <= capacity
    {
      SizeStep(elems, i);
      var field := EncodePair(elems[i]);
      if capacity - |output| < |field| {
        return false, output;
      }
      output := output + field;
      i := i + 1;
    }
    assert elems[..i] == elems;
    ok := true;
  }

  /** Appends the serialized context to `written`, which may grow up to `capacity`. */
  method SerializeContext(ctx: Context, order: seq<Pair>, written: Octets, capacity: nat)
    returns (ok: bool, output: Octets)
    requires Lists(order, ctx) && |written| <= capacity
    ensures ok <==> Encodable(ctx) && |written| + |Encoded(ctx)| <= capacity
    ensures ok ==> output == written + Encoded(ctx)
  {
    hide Lists, Encoded, EncodeOrder, EncodePairs, Sort;
    var length := ContextSize(ctx, order);
    output := written;
    EncodingCanonical(order, ctx);
    EncodedSize(order, ctx);
    if length.None? {
      return false, output;
    }
    if length.value == 0 {
      return true, output;
    }
    if capacity < length.value || capacity - |output| < 2 {
      return false, output;
    }
    SortSize(order);
    EncodeOrderNonEmpty(order);
    ok, output := WritePairs(Sort(order), output + BigEndian(|order|, 2), capacity);
    assert written + BigEndian(|order|, 2) + EncodePairs(Sort(order))
        == written + (BigEndian(|order|, 2) + EncodePairs(Sort(order)));
  }

  // ---------- Deserialization ----------

  function ParsePair(s: Octets): (r: Parsed<Pair>)
    ensures !r.Bad?
  {
    var (klen, s1) :- TakeInt(s, 2);
    var (key, s2) :- Take(s1, klen);
    var (vlen, s3) :- TakeInt(s2, 2);
    var (value, s4) :- Take(s3, vlen);
    Ok(Pair(key, value), s4)
  }

  /** Reads `count` further entries into `ctx`; a repeated key is a malformed context. */
  function ParsePairs(s: Octets, count: nat, ctx: Context): Parsed<Context> {
    if count == 0 then Ok(ctx, s) else
      var (p, rest) :- ParsePair(s);
      if p.key in ctx then Bad(BadCiphertext)
      else ParsePairs(rest, count - 1, ctx[p.key := p.value])
  }

  function ParseContext(s: Octets): Parsed<Context> {
    if |s| == 0 then Ok(map[], s) else
      var (count, rest) :- TakeInt(s, 2);
      if count == 0 then Bad(BadCiphertext) else ParsePairs(rest, count, map[])
  }

  /** Reads `count` entries from the cursor into an empty context. */
  method ReadPairs(s: Octets, count: nat) returns (r: Parsed<Context>)
    ensures r == ParsePairs(s, count, map[])
  {
    hide ParsePair;
    var ctx: Context := map[];
    var rest, i := s, 0;
    while i < count
      invariant 0 <= i <= count
      invariant ParsePairs(s, count, map[]) == ParsePairs(rest, count - i, ctx)
    {
      var p := ParsePair(rest);
      if !p.Ok? {
        return Short;
      }
      if p.value.key in ctx {
        return Bad(BadCiphertext);
      }
      ctx, rest, i := ctx[p.value.key := p.value.value], p.rest, i + 1;
    }
    r := Ok(ctx, rest);
  }

  /** Fills a context from the cursor `s`. */
  method DeserializeContext(s: Octets) returns (r: Parsed<Context>)
    ensures r == ParseContext(s)
  {
    if |s| == 0 {
      return Ok(map[], s);
    }
    var count := TakeInt(s, 2);
    if !count.Ok? {
      return Short;
    }
    if count.value == 0 {
      return Bad(BadCiphertext);
    }
    r := ReadPairs(count.rest, count.value);
  }

  lemma ParsesEncodedPair(p: Pair, rest: Octets)
    requires |p.key| <= UINT16_MAX && |p.value| <= UINT16_MAX
    ensures ParsePair(EncodePair(p) + rest) == Ok(p, rest)
  {
    RadixValues();
    var s4 := rest;
    var s3 := p.value + s4;
    var s2 := BigEndian(|p.value|, 2) + s3;
    var s1 := p.key + s2;
    assert EncodePair(p) + rest == BigEndian(|p.key|, 2) + s1;
    TakeIntWritten(|p.key|, 2, s1);
    TakeWritten(p.key, s2);
    TakeIntWritten(|p.value|, 2, s3);
    TakeWritten(p.value, s4);
  }

  lemma {:induction false} ParsesEncodedPairs(done: seq<Pair>, pairs: seq<Pair>, rest: Octets)
    requires DistinctKeys(done + pairs)
    requires |EncodePairs(pairs)| <= UINT16_MAX
    ensures ParsePairs(EncodePairs(pairs) + rest, |pairs|, FromPairs(done)) == Ok(FromPairs(done + pairs), rest)
    decreases |pairs|
  {
    hide ParsePair, DistinctKeys, FromPairs;
    if |pairs| == 0 {
      assert done + pairs == done;
      assert EncodePairs(pairs) + rest == rest;
    } else {
      var p := pairs[0];
      var tail := EncodePairs(pairs[1..]) + rest;
      assert EncodePairs(pairs) + rest == EncodePair(p) + tail;
      ParsesEncodedPair(p, tail);
      assert done + pairs == (done + [p]) + pairs[1..];
      FreshKey(done, pairs);
      ParsesEncodedPairs(done + [p], pairs[1..], rest);
    }
  }

  lemma FreshKey(done: seq<Pair>, pairs: seq<Pair>)
    requires DistinctKeys(done + pairs) && |pairs| > 0
    ensures pairs[0].key !in FromPairs(done)
    ensures FromPairs(done + [pairs[0]]) == FromPairs(done)[pairs[0].key := pairs[0].value]
  {
    KeysFromPairs(done, pairs[0].key);
    forall i | 0 <= i < |done|
      ensures done[i].key != pairs[0].key
    {
      assert (done + pairs)[i] == done[i] && (done + pairs)[|done|] == pairs[0];
    }
    assert (done + [pairs[0]])[..|done|] == done;
  }

  /** Deserialization inverts serialization; only the empty context cannot be followed by more octets. */
  lemma ContextRoundTrip(ctx: Context, rest: Octets)
    requires Encodable(ctx) && (ctx == map[] ==> rest == [])
    ensures ParseContext(Encoded(ctx) + rest) == Ok(ctx, rest)
  {
    var order := SomeOrder(ctx);
    EncodedSize(order, ctx);
    if |order| == 0 {
      assert ctx == map[];
    } else {
      SortedLists(order, ctx);
      SortSize(order);
      OrderRoundTrip(Sort(order), ctx, rest);
      EncodedNonEmpty(order, ctx, rest);
    }
  }

  lemma EncodedNonEmpty(order: seq<Pair>, ctx: Context, rest: Octets)
    requires Lists(order, ctx) && |order| > 0 && |Sort(order)| == |order|
    ensures Encoded(ctx) + rest == BigEndian(|Sort(order)|, 2) + (EncodePairs(Sort(order)) + rest)
  {
    hide *;
    EncodingCanonical(order, ctx);
    EncodeOrderNonEmpty(order);
  }

  lemma EncodeOrderNonEmpty(order: seq<Pair>)
    requires |order| > 0
    ensures EncodeOrder(order) == BigEndian(|order|, 2) + EncodePairs(Sort(order))
  {
  }

  lemma OrderRoundTrip(pairs: seq<Pair>, ctx: Context, rest: Octets)
    requires Lists(pairs, ctx) && |pairs| > 0 && |EncodePairs(pairs)| <= UINT16_MAX
    ensures ParseContext(BigEndian(|pairs|, 2) + (EncodePairs(pairs) + rest)) == Ok(ctx, rest)
  {
    ManyPairsAreLong(pairs);
    RadixValues();
    TakeIntWritten(|pairs|, 2, EncodePairs(pairs) + rest);
    assert [] + pairs == pairs;
    ParsesEncodedPairs([], pairs, rest);
    FromPairsLists(pairs);
    ListsDetermines(pairs, FromPairs(pairs), ctx);
  }

  lemma SortedLists(order: seq<Pair>, ctx: Context)
    requires Lists(order, ctx)
    ensures Lists(Sort(order), ctx) && |Sort(order)| == |order|
  {
    SortSorts(order);
    SortKeeps(order);
    var pairs := Sort(order);
    assert |pairs| == |multiset(pairs)| == |multiset(order)| == |order|;
    forall i, j | 0 <= i < j < |pairs|
      ensures pairs[i].key != pairs[j].key
    {
      KeyLessTotal(pairs[i].key, pairs[j].key);
    }
    forall i | 0 <= i < |pairs|
      ensures pairs[i].key in ctx && ctx[pairs[i].key] == pairs[i].value
    {
      assert pairs[i] in multiset(pairs);
      assert pairs[i] in order;
    }
    forall k | k in ctx
      ensures Pair(k, ctx[k]) in pairs
    {
      assert Pair(k, ctx[k]) in multiset(order);
      assert Pair(k, ctx[k]) in multiset(pairs);
    }
  }

  /** Different contexts never share their octets. */
  lemma EncodingInjective(a: Context, b: Context)
    requires Encodable(a) && Encodable(b) && Encoded(a) == Encoded(b)
    ensures a == b
  {
    ContextRoundTrip(a, []);
    ContextRoundTrip(b, []);
    assert Encoded(a) + [] == Encoded(a);
    assert Encoded(b) + [] == Encoded(b);
  }

  /** An accepted context occupies exactly the octets its canonical encoding would. */
  lemma AcceptedContextSize(s: Octets)
    requires ParseContext(s).Ok?
    ensures |ParseContext(s).rest| <= |s|
    ensures |Encoded(ParseContext(s).value)| == |s| - |ParseContext(s).rest|
  {
    if |s| == 0 {
      EncodedSize([], map[]);
    } else {
      var count := TakeInt(s, 2);
      var pairs := AcceptedPairs(count.rest, count.value, []);
      EncodedSize(pairs, ParseContext(s).value);
    }
  }

  lemma {:induction false} AcceptedPairs(s: Octets, count: nat, done: seq<Pair>) returns (pairs: seq<Pair>)
    requires DistinctKeys(done) && ParsePairs(s, count, FromPairs(done)).Ok?
    ensures |pairs| == |done| + count
    ensures var r := ParsePairs(s, count, FromPairs(done));
            && Lists(pairs, r.value) && |r.rest| <= |s|
            && |EncodePairs(pairs)| == |EncodePairs(done)| + |s| - |r.rest|
    decreases count
  {
    hide ParsePair;
    FromPairsLists(done);
    if count == 0 {
      pairs := done;
    } else {
      var p := ParsePair(s);
      AcceptedPairSize(s);
      EncodePairsAppend(done, p.value);
      var more := done + [p.value];
      assert more[..|done|] == done;
      KeysFromPairs(done, p.value.key);
      pairs := AcceptedPairs(p.rest, count - 1, more);
    }
  }

  lemma AcceptedPairSize(s: Octets)
    requires ParsePair(s).Ok?
    ensures |s| == |EncodePair(ParsePair(s).value)| + |ParsePair(s).rest|
  {
  }

  // ---------- Cloning ----------

  /** Drops from `dest` the keys that `src` lacks. */
  method DropForeignKeys(dest: Context, destOrder: seq<Pair>, src: Context) returns (kept: Context)
    requires Lists(destOrder, dest)
    ensures forall k :: k in kept ==> k in src
  {
    kept := dest;
    var i := 0;
    while i < |destOrder|
      invariant 0 <= i <= |destOrder|
      invariant forall k :: k in kept ==> k in dest && kept[k] == dest[k]
      invariant forall k :: k in kept && k !in src ==> Pair(k, dest[k]) in destOrder[i..]
    {
      var key := destOrder[i].key;
      if key !in src {
        kept := kept - {key};
      }
      i := i + 1;
    }
  }

  /** Edits `dest` into a copy of `src`; the two orders are the ways the tables happen to be walked. */
  method CloneContext(dest: Context, destOrder: seq<Pair>, src: Context, srcOrder: seq<Pair>) returns (copy: Context)
    requires Lists(destOrder, dest) && Lists(srcOrder, src)
    ensures copy == src
  {
    copy := DropForeignKeys(dest, destOrder, src);
    var i := 0;
    while i < |srcOrder|
      invariant 0 <= i <= |srcOrder|
      invariant forall k :: k in copy ==> k in src
      invariant forall j :: 0 <= j < i ==> srcOrder[j].key in copy && copy[srcOrder[j].key] == srcOrder[j].value
    {
      var p := srcOrder[i];
      if p.key !in copy || copy[p.key] != p.value {
        copy := copy[p.key := p.value];
      }
      i := i + 1;
    }
    forall k | k in src
      ensures k in copy && copy[k] == src[k]
    {
      assert Pair(k, src[k]) in srcOrder;
    }
  }
}
