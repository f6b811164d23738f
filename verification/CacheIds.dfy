/**
 Cache identifiers: digests over everything a cached answer depends on. Two requests share an identifier
 exactly when they agree on those things, as long as the digest does not collide on the strings hashed for them.
 */
module CacheIds {
  import opened Bytes
  import opened EncryptionContext
  import opened MessageHeader

  const DIGEST_LEN: nat := 64

  type Digest = Octets -> Octets

  ghost predicate LawfulDigest(digest: Digest) {
    forall x :: |digest(x)| == DIGEST_LEN
  }

  /** The digest tells the given strings apart. */
  ghost predicate NoCollision(digest: Digest, strings: set<Octets>) {
    forall x, y :: x in strings && y in strings && digest(x) == digest(y) ==> x == y
  }

  // ---------- Requests for encryption ----------

  datatype EncKey = EncKey(partition: Octets, alg: nat, encCtx: Context)

  ghost predicate ValidEncKey(k: EncKey) {
    |k.partition| == DIGEST_LEN && k.alg <= UINT16_MAX && Encodable(k.encCtx)
  }

  function AlgField(alg: nat): Octets {
    if alg == 0 then [0] else [1] + BigEndian(alg, 2)
  }

  ghost function EncPreimage(digest: Digest, k: EncKey): Octets {
    k.partition + AlgField(k.alg) + digest(Encoded(k.encCtx))
  }

  /** The identifier of a request for encryption; a context that cannot be serialized has none. */
  ghost function EncId(digest: Digest, k: EncKey): Option<Octets> {
    if Encodable(k.encCtx) then Some(digest(EncPreimage(digest, k))) else None
  }

  ghost function EncStrings(digest: Digest, k: EncKey): set<Octets> {
    {Encoded(k.encCtx), EncPreimage(digest, k)}
  }

  lemma AlgFieldInjective(a: nat, b: nat)
    requires a <= UINT16_MAX && b <= UINT16_MAX && AlgField(a) == AlgField(b)
    ensures a == b
  {
    if a != 0 && b != 0 {
      assert AlgField(a)[1..] == BigEndian(a, 2) && AlgField(b)[1..] == BigEndian(b, 2);
      RadixValues();
      BigEndianInjective(a, b, 2);
    }
  }

  lemma EncIdsDecide(digest: Digest, a: EncKey, b: EncKey)
    requires LawfulDigest(digest) && ValidEncKey(a) && ValidEncKey(b)
    requires NoCollision(digest, EncStrings(digest, a) + EncStrings(digest, b))
    ensures EncId(digest, a) == EncId(digest, b) <==> a == b
  {
    hide Encoded, BigEndian;
    if EncId(digest, a) == EncId(digest, b) {
      var x, y := EncPreimage(digest, a), EncPreimage(digest, b);
      assert x in EncStrings(digest, a) && y in EncStrings(digest, b);
      assert x == y;
      assert x[..DIGEST_LEN] == a.partition && y[..DIGEST_LEN] == b.partition;
      assert |AlgField(a.alg)| == |AlgField(b.alg)|;
      assert x[DIGEST_LEN..|x| - DIGEST_LEN] == AlgField(a.alg) && y[DIGEST_LEN..|y| - DIGEST_LEN] == AlgField(b.alg);
      assert x[|x| - DIGEST_LEN..] == digest(Encoded(a.encCtx)) && y[|y| - DIGEST_LEN..] == digest(Encoded(b.encCtx));
      AlgFieldInjective(a.alg, b.alg);
      assert Encoded(a.encCtx) in EncStrings(digest, a) && Encoded(b.encCtx) in EncStrings(digest, b);
      EncodingInjective(a.encCtx, b.encCtx);
    }
  }

  // ---------- Requests for decryption ----------

  datatype DecKey = DecKey(partition: Octets, alg: nat, edks: seq<Edk>, encCtx: Context)

  ghost predicate ValidDecKey(k: DecKey) {
    |k.partition| == DIGEST_LEN && k.alg <= UINT16_MAX && Encodable(k.encCtx) && forall e :: e in k.edks ==> FieldsFit(e)
  }

  function EdkHashes(digest: Digest, edks: seq<Edk>): (hashes: seq<Octets>)
    ensures |hashes| == |edks|
    ensures forall i :: 0 <= i < |edks| ==> hashes[i] == digest(EncodeEdk(edks[i]))
  {
    seq(|edks|, i requires 0 <= i < |edks| => digest(EncodeEdk(edks[i])))
  }

  /** Ascending in the order of octet-wise comparison, repetitions allowed. */
  predicate Ascending(s: seq<Octets>) {
    forall i, j :: 0 <= i < j < |s| ==> !KeyLess(s[j], s[i])
  }

  function Place(x: Octets, s: seq<Octets>): seq<Octets> {
    if s == [] || !KeyLess(s[0], x) then [x] + s else [s[0]] + Place(x, s[1..])
  }

  function SortHashes(s: seq<Octets>): seq<Octets> {
    if s == [] then [] else Place(s[0], SortHashes(s[1..]))
  }

  lemma {:induction false} PlaceKeeps(x: Octets, s: seq<Octets>)
    requires Ascending(s)
    ensures multiset(Place(x, s)) == multiset(s) + multiset{x} && Ascending(Place(x, s))
    decreases |s|
  {
    if s == [] {
    } else if !KeyLess(s[0], x) {
      forall j | 0 <= j < |s|
        ensures !KeyLess(s[j], x)
      {
        NotLessTransitive(x, s[0], s[j]);
      }
    } else {
      AscendingRest(s);
      PlaceKeeps(x, s[1..]);
      KeyLessTotal(s[0], x);
      PutFirst(x, s, Place(x, s[1..]));
    }
  }

  lemma PutFirst(x: Octets, s: seq<Octets>, tail: seq<Octets>)
    requires s != [] && Ascending(s) && !KeyLess(x, s[0]) && Ascending(tail) && multiset(tail) == multiset(s[1..]) + multiset{x}
    ensures Ascending([s[0]] + tail) && multiset([s[0]] + tail) == multiset(s) + multiset{x}
  {
    hide KeyLess;
    assert s == [s[0]] + s[1..];
    forall j | 0 <= j < |tail|
      ensures !KeyLess(tail[j], s[0])
    {
      assert tail[j] in multiset(tail);
      if tail[j] != x {
        assert tail[j] in s[1..];
      }
    }
  }

  lemma NotLessTransitive(x: Octets, y: Octets, z: Octets)
    requires !KeyLess(y, x) && (y == z || !KeyLess(z, y))
    ensures !KeyLess(z, x)
  {
    if y != z && KeyLess(z, x) {
      KeyLessTotal(y, z);
      KeyLessTransitive(y, z, x);
    }
  }

  lemma {:induction false} SortsHashes(s: seq<Octets>)
    ensures multiset(SortHashes(s)) == multiset(s) && Ascending(SortHashes(s))
    decreases |s|
  {
    if s != [] {
      SortsHashes(s[1..]);
      PlaceKeeps(s[0], SortHashes(s[1..]));
      assert s == [s[0]] + s[1..];
    }
  }

  lemma SameFirst(a: seq<Octets>, b: seq<Octets>)
    requires Ascending(a) && Ascending(b) && multiset(a) == multiset(b) && a != [] && b != []
    ensures a[0] == b[0]
  {
    hide KeyLess;
    SameSize(a, b);
    SameSize(b, a);
    assert a[0] in a && b[0] in b;
    var i :| 0 <= i < |b| && b[i] == a[0];
    var j :| 0 <= j < |a| && a[j] == b[0];
    KeyLessTotal(a[0], b[0]);
  }

  lemma SameRest(a: seq<Octets>, b: seq<Octets>)
    requires multiset(a) == multiset(b) && a != [] && b != [] && a[0] == b[0]
    ensures multiset(a[1..]) == multiset(b[1..])
  {
    hide RemoveAt;
    TakenOut(a, 0);
    TakenOut(b, 0);
    FirstOut(a);
    FirstOut(b);
  }

  lemma AscendingRest(a: seq<Octets>)
    requires Ascending(a) && a != []
    ensures Ascending(a[1..])
  {
    hide KeyLess;
  }

  lemma {:induction false} AscendingUnique(a: seq<Octets>, b: seq<Octets>)
    requires Ascending(a) && Ascending(b) && multiset(a) == multiset(b)
    ensures a == b
    decreases |a|
  {
    hide Ascending;
    SameSize(a, b);
    if a != [] {
      SameFirst(a, b);
      SameRest(a, b);
      AscendingRest(a);
      AscendingRest(b);
      AscendingUnique(a[1..], b[1..]);
      assert a == [a[0]] + a[1..] && b == [b[0]] + b[1..];
    }
  }

  lemma FirstOut<T>(s: seq<T>)
    requires s != []
    ensures RemoveAt(s, 0) == s[1..]
  {
  }

  ghost function DecPreimage(digest: Digest, k: DecKey): Octets {
    k.partition + BigEndian(k.alg, 2) + Concat(SortHashes(EdkHashes(digest, k.edks))) + Zeros(DIGEST_LEN)
    + digest(Encoded(k.encCtx))
  }

  /** The identifier of a request for decryption; an oversized field or context leaves it without one. */
  ghost function DecId(digest: Digest, k: DecKey): Option<Octets> {
    if Encodable(k.encCtx) && (forall e :: e in k.edks ==> FieldsFit(e)) then Some(digest(DecPreimage(digest, k))) else None
  }

  ghost function DecStrings(digest: Digest, k: DecKey): set<Octets> {
    {Encoded(k.encCtx), DecPreimage(digest, k)} + (set e | e in k.edks :: EncodeEdk(e))
  }

  ghost predicate AllOfLength(parts: seq<Octets>, n: nat) {
    forall i :: 0 <= i < |parts| ==> |parts[i]| == n
  }

  lemma {:induction false} ConcatLength(parts: seq<Octets>, n: nat)
    requires AllOfLength(parts, n)
    ensures |Concat(parts)| == |parts| * n
    decreases |parts|
  {
    if parts != [] {
      ConcatLength(parts[1..], n);
    }
  }

  lemma {:induction false} ConcatInjective(a: seq<Octets>, b: seq<Octets>, n: nat)
    requires AllOfLength(a, n) && AllOfLength(b, n) && |a| == |b| && Concat(a) == Concat(b)
    ensures a == b
    decreases |a|
  {
    if a != [] {
      assert a[0] == Concat(a)[..n] == Concat(b)[..n] == b[0];
      assert Concat(a[1..]) == Concat(a)[n..] && Concat(b[1..]) == Concat(b)[n..];
      ConcatInjective(a[1..], b[1..], n);
      assert a == [a[0]] + a[1..] && b == [b[0]] + b[1..];
    }
  }

  lemma SortedHashesShape(digest: Digest, edks: seq<Edk>)
    requires LawfulDigest(digest)
    ensures var s := SortHashes(EdkHashes(digest, edks));
            |s| == |edks| && AllOfLength(s, DIGEST_LEN) && |Concat(s)| == |edks| * DIGEST_LEN
  {
    var hashes := EdkHashes(digest, edks);
    var s := SortHashes(hashes);
    SortsHashes(hashes);
    assert |s| == |multiset(s)| == |multiset(hashes)| == |hashes|;
    forall i | 0 <= i < |s|
      ensures |s[i]| == DIGEST_LEN
    {
      assert s[i] in multiset(s);
      assert s[i] in multiset(hashes);
    }
    ConcatLength(s, DIGEST_LEN);
  }

  lemma FieldInjective(f: Octets, g: Octets, more: Octets, more': Octets)
    requires |f| <= UINT16_MAX && |g| <= UINT16_MAX && EncodeField(f) + more == EncodeField(g) + more'
    ensures f == g && more == more'
  {
    hide BigEndian;
    var x, y := EncodeField(f) + more, EncodeField(g) + more';
    assert x[..2] == BigEndian(|f|, 2) && y[..2] == BigEndian(|g|, 2);
    RadixValues();
    BigEndianInjective(|f|, |g|, 2);
    assert x[2..2 + |f|] == f && y[2..2 + |g|] == g;
    assert x[2 + |f|..] == more && y[2 + |g|..] == more';
  }

  lemma EdkInjective(a: Edk, b: Edk)
    requires FieldsFit(a) && FieldsFit(b) && EncodeEdk(a) == EncodeEdk(b)
    ensures a == b
  {
    hide EncodeField;
    var a2, b2 := EncodeField(a.ciphertext), EncodeField(b.ciphertext);
    var a1, b1 := EncodeField(a.providerInfo), EncodeField(b.providerInfo);
    assert EncodeEdk(a) == EncodeField(a.providerId) + (a1 + a2);
    assert EncodeEdk(b) == EncodeField(b.providerId) + (b1 + b2);
    FieldInjective(a.providerId, b.providerId, a1 + a2, b1 + b2);
    FieldInjective(a.providerInfo, b.providerInfo, a2, b2);
    assert a2 + [] == a2 && b2 + [] == b2;
    FieldInjective(a.ciphertext, b.ciphertext, [], []);
  }

  lemma TakenOut<T>(s: seq<T>, j: nat)
    requires j < |s|
    ensures multiset(RemoveAt(s, j)) == multiset(s) - multiset{s[j]}
    ensures forall x :: x in RemoveAt(s, j) ==> x in s
  {
    assert s == s[..j] + ([s[j]] + s[j + 1..]);
  }

  lemma HashesWithout(digest: Digest, edks: seq<Edk>, j: nat)
    requires j < |edks|
    ensures EdkHashes(digest, RemoveAt(edks, j)) == RemoveAt(EdkHashes(digest, edks), j)
  {
  }

  lemma SameSize<T>(a: seq<T>, b: seq<T>)
    requires multiset(a) == multiset(b)
    ensures |a| == |b|
    ensures forall x :: x in a ==> exists j :: 0 <= j < |b| && b[j] == x
  {
    assert |a| == |multiset(a)| == |multiset(b)| == |b|;
    forall x | x in a
      ensures exists j :: 0 <= j < |b| && b[j] == x
    {
      assert x in multiset(b);
    }
  }

  lemma PutBack<T>(a: seq<T>, b: seq<T>, i: nat, j: nat)
    requires i < |a| && j < |b| && a[i] == b[j] && multiset(RemoveAt(a, i)) == multiset(RemoveAt(b, j))
    ensures multiset(a) == multiset(b)
  {
    hide RemoveAt;
    TakenOut(a, i);
    TakenOut(b, j);
    assert multiset(a) == multiset(RemoveAt(a, i)) + multiset{a[i]};
    assert multiset(b) == multiset(RemoveAt(b, j)) + multiset{b[j]};
  }

  /** Equal bags of hashes come from equal bags of keys. */
  lemma {:induction false} HashesDecide(digest: Digest, a: seq<Edk>, b: seq<Edk>)
    requires (forall e :: e in a ==> FieldsFit(e)) && (forall e :: e in b ==> FieldsFit(e))
    requires forall x, y :: x in a + b && y in a + b && digest(EncodeEdk(x)) == digest(EncodeEdk(y)) ==> x == y
    requires multiset(EdkHashes(digest, a)) == multiset(EdkHashes(digest, b))
    ensures multiset(a) == multiset(b)
    decreases |a|
  {
    hide EncodeEdk, FieldsFit, RemoveAt;
    var ha, hb := EdkHashes(digest, a), EdkHashes(digest, b);
    SameSize(ha, hb);
    if a == [] {
      assert b == [];
    } else {
      assert ha[0] in ha;
      var j :| 0 <= j < |hb| && hb[j] == ha[0];
      assert a[0] in a + b && b[j] in a + b;
      TakenOut(a, 0);
      TakenOut(b, j);
      TakenOut(ha, 0);
      TakenOut(hb, j);
      HashesWithout(digest, a, 0);
      HashesWithout(digest, b, j);
      HashesDecide(digest, RemoveAt(a, 0), RemoveAt(b, j));
      PutBack(a, b, 0, j);
    }
  }

  /** The other way: a permutation of the keys has the same bag of hashes. */
  lemma {:induction false} SameHashes(digest: Digest, a: seq<Edk>, b: seq<Edk>)
    requires multiset(a) == multiset(b)
    ensures multiset(EdkHashes(digest, a)) == multiset(EdkHashes(digest, b))
    decreases |a|
  {
    hide EncodeEdk, RemoveAt;
    var ha, hb := EdkHashes(digest, a), EdkHashes(digest, b);
    SameSize(a, b);
    if a == [] {
      assert ha == hb;
    } else {
      assert a[0] in a;
      var j :| 0 <= j < |b| && b[j] == a[0];
      TakenOut(a, 0);
      TakenOut(b, j);
      HashesWithout(digest, a, 0);
      HashesWithout(digest, b, j);
      SameHashes(digest, RemoveAt(a, 0), RemoveAt(b, j));
      PutBack(ha, hb, 0, j);
    }
  }

  /** Preimages of equal length agree part by part. */
  lemma DecPreimageParts(digest: Digest, a: DecKey, b: DecKey)
    requires LawfulDigest(digest) && |a.partition| == DIGEST_LEN && |b.partition| == DIGEST_LEN
    requires DecPreimage(digest, a) == DecPreimage(digest, b)
    ensures a.partition == b.partition && BigEndian(a.alg, 2) == BigEndian(b.alg, 2)
    ensures SortHashes(EdkHashes(digest, a.edks)) == SortHashes(EdkHashes(digest, b.edks))
    ensures digest(Encoded(a.encCtx)) == digest(Encoded(b.encCtx))
  {
    hide Encoded, BigEndian, SortHashes, EdkHashes, Concat, Zeros;
    SortedHashesShape(digest, a.edks);
    SortedHashesShape(digest, b.edks);
    var sa, sb := SortHashes(EdkHashes(digest, a.edks)), SortHashes(EdkHashes(digest, b.edks));
    var x, y := DecPreimage(digest, a), DecPreimage(digest, b);
    assert |x| == 194 + |sa| * DIGEST_LEN && |y| == 194 + |sb| * DIGEST_LEN;
    assert x[..64] == a.partition && y[..64] == b.partition;
    assert x[64..66] == BigEndian(a.alg, 2) && y[64..66] == BigEndian(b.alg, 2);
    assert x[66..|x| - 128] == Concat(sa) && y[66..|y| - 128] == Concat(sb);
    assert x[|x| - 64..] == digest(Encoded(a.encCtx)) && y[|y| - 64..] == digest(Encoded(b.encCtx));
    ConcatInjective(sa, sb, DIGEST_LEN);
  }

  lemma DecIdsDecide(digest: Digest, a: DecKey, b: DecKey)
    requires LawfulDigest(digest) && ValidDecKey(a) && ValidDecKey(b)
    requires NoCollision(digest, DecStrings(digest, a) + DecStrings(digest, b))
    ensures DecId(digest, a) == DecId(digest, b) <==>
              a.partition == b.partition && a.alg == b.alg && a.encCtx == b.encCtx && multiset(a.edks) == multiset(b.edks)
  {
    hide Encoded, BigEndian, SortHashes, EdkHashes, FieldsFit, EncodeEdk, DecPreimage, Encodable, LawfulDigest;
    var ha, hb := EdkHashes(digest, a.edks), EdkHashes(digest, b.edks);
    SortsHashes(ha);
    SortsHashes(hb);
    if DecId(digest, a) == DecId(digest, b) {
      assert DecPreimage(digest, a) in DecStrings(digest, a) && DecPreimage(digest, b) in DecStrings(digest, b);
      assert Encoded(a.encCtx) in DecStrings(digest, a) && Encoded(b.encCtx) in DecStrings(digest, b);
      DecPreimageParts(digest, a, b);
      RadixValues();
      BigEndianInjective(a.alg, b.alg, 2);
      EncodingInjective(a.encCtx, b.encCtx);
      TellsEdksApart(digest, a, b);
      HashesDecide(digest, a.edks, b.edks);
    }
    if a.partition == b.partition && a.alg == b.alg && a.encCtx == b.encCtx && multiset(a.edks) == multiset(b.edks) {
      SameHashes(digest, a.edks, b.edks);
      AscendingUnique(SortHashes(ha), SortHashes(hb));
      SamePreimage(digest, a, b);
    }
  }

  lemma SamePreimage(digest: Digest, a: DecKey, b: DecKey)
    requires a.partition == b.partition && a.alg == b.alg && a.encCtx == b.encCtx
    requires SortHashes(EdkHashes(digest, a.edks)) == SortHashes(EdkHashes(digest, b.edks))
    ensures DecPreimage(digest, a) == DecPreimage(digest, b)
  {
    hide Encoded, SortHashes, EdkHashes, BigEndian, Concat, Zeros;
  }

  lemma TellsEdksApart(digest: Digest, a: DecKey, b: DecKey)
    requires NoCollision(digest, DecStrings(digest, a) + DecStrings(digest, b)) && ValidDecKey(a) && ValidDecKey(b)
    ensures forall x, y ::
      x in a.edks + b.edks && y in a.edks + b.edks && digest(EncodeEdk(x)) == digest(EncodeEdk(y)) ==> x == y
  {
    hide Encoded, DecPreimage, EncodeEdk, FieldsFit, Encodable;
    forall x, y | x in a.edks + b.edks && y in a.edks + b.edks && digest(EncodeEdk(x)) == digest(EncodeEdk(y))
      ensures x == y
    {
      EdkInjective(x, y);
    }
  }

  /** An identifier never serves both directions. */
  lemma DirectionsApart(digest: Digest, a: EncKey, b: DecKey)
    requires LawfulDigest(digest) && ValidEncKey(a) && ValidDecKey(b)
    requires NoCollision(digest, EncStrings(digest, a) + DecStrings(digest, b))
    ensures EncId(digest, a) != DecId(digest, b)
  {
    hide Encoded, BigEndian, SortHashes, EdkHashes, FieldsFit, EncodeEdk, Concat, Zeros;
    SortedHashesShape(digest, b.edks);
    var x, y := EncPreimage(digest, a), DecPreimage(digest, b);
    assert |x| <= 131 && |y| >= 194;
    assert x in EncStrings(digest, a) && y in DecStrings(digest, b);
  }

  // ---------- The code that computes them ----------

  method HashEncRequest(digest: Digest, k: EncKey, order: seq<Pair>) returns (id: Option<Octets>)
    requires Lists(order, k.encCtx)
    ensures id == EncId(digest, k)
  {
    hide Encoded, BigEndian;
    var hashed := k.partition;
    if k.alg != 0 {
      hashed := hashed + [1];
      hashed := hashed + BigEndian(k.alg, 2);
    } else {
      hashed := hashed + [0];
    }
    assert hashed == k.partition + AlgField(k.alg);
    var context := ContextOctets(k.encCtx, order);
    if context.None? { return None; }
    return Some(digest(hashed + digest(context.value)));
  }

  /** Sizes and serializes a context into a buffer of exactly that size. */
  method ContextOctets(ctx: Context, order: seq<Pair>) returns (octets: Option<Octets>)
    requires Lists(order, ctx)
    ensures octets == if Encodable(ctx) then Some(Encoded(ctx)) else None
  {
    hide Encoded, Lists;
    var size := ContextSize(ctx, order);
    if size.None? { return None; }
    var ok, written := SerializeContext(ctx, order, [], size.value);
    if !ok { return None; }
    assert [] + Encoded(ctx) == Encoded(ctx);
    return Some(written);
  }

  method HashDecRequest(digest: Digest, k: DecKey, order: seq<Pair>) returns (id: Option<Octets>)
    requires Lists(order, k.encCtx)
    ensures id == DecId(digest, k)
  {
    hide Encoded, BigEndian, SortHashes, EncodeEdk, Encodable;
    var context := ContextOctets(k.encCtx, order);
    if context.None? { return None; }
    var hashes: seq<Octets> := [];
    for i := 0 to |k.edks|
      invariant hashes == EdkHashes(digest, k.edks[..i])
      invariant forall e :: e in k.edks[..i] ==> FieldsFit(e)
    {
      var e := k.edks[i];
      assert e in k.edks;
      if |e.providerId| > UINT16_MAX || |e.providerInfo| > UINT16_MAX || |e.ciphertext| > UINT16_MAX { return None; }
      assert k.edks[..i + 1] == k.edks[..i] + [e];
      hashes := hashes + [digest(EncodeEdk(e))];
    }
    assert k.edks[..|k.edks|] == k.edks;
    var sorted := SortHashes(hashes);
    var hashed := k.partition + BigEndian(k.alg, 2);
    for i := 0 to |sorted|
      invariant hashed == k.partition + BigEndian(k.alg, 2) + Concat(sorted[..i])
    {
      assert sorted[..i + 1] == sorted[..i] + [sorted[i]];
      ConcatAppend(sorted[..i], sorted[i]);
      hashed := hashed + sorted[i];
    }
    assert sorted[..|sorted|] == sorted;
    return Some(digest(hashed + Zeros(DIGEST_LEN) + digest(context.value)));
  }
}
