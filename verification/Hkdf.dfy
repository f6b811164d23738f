/**
 The extract-and-expand key derivation of section 2 of RFC 5869, as the SDK computes it when it has
 to run the block loop itself. The keyed hash is a parameter of every member.
 */
module Hkdf {
  import opened Bytes

  datatype Sha = NoSha | Sha256 | Sha384 | Sha512

  type Hmac = (Sha, Octets, Octets) -> Octets

  function HashLen(sha: Sha): (n: nat)
    ensures sha.NoSha? <==> n == 0
  {
    match sha
    case NoSha => 0
    case Sha256 => 32
    case Sha384 => 48
    case Sha512 => 64
  }

  ghost predicate LawfulHmac(hmac: Hmac) {
    forall sha, key, data :: |hmac(sha, key, data)| == HashLen(sha)
  }

  /** T(i) of section 2.3 of RFC 5869. */
  function Block(hmac: Hmac, sha: Sha, prk: Octets, info: Octets, i: nat): Octets {
    if i == 0 then [] else
      hmac(sha, prk, Block(hmac, sha, prk, info, i - 1) + info + [i % 256])
  }

  /** T(1) | T(2) | ... | T(n). */
  function Blocks(hmac: Hmac, sha: Sha, prk: Octets, info: Octets, n: nat): Octets {
    if n == 0 then [] else Blocks(hmac, sha, prk, info, n - 1) + Block(hmac, sha, prk, info, n)
  }

  function Extract(hmac: Hmac, sha: Sha, salt: Octets, ikm: Octets): Octets {
    hmac(sha, if |salt| == 0 then Zeros(HashLen(sha)) else salt, ikm)
  }

  predicate ExpandAccepts(sha: Sha, prk: Octets, length: nat) {
    !sha.NoSha? && |prk| > 0 && 1 <= length <= 255 * HashLen(sha)
  }

  function Expand(hmac: Hmac, sha: Sha, prk: Octets, info: Octets, length: nat): Option<Octets>
    requires LawfulHmac(hmac)
  {
    if ExpandAccepts(sha, prk, length) then
      BlocksLength(hmac, sha, prk, info, 255);
      Some(Blocks(hmac, sha, prk, info, 255)[..length])
    else
      None
  }

  function Derive(hmac: Hmac, sha: Sha, salt: Octets, ikm: Octets, info: Octets, length: nat): (r: Option<Octets>)
    requires LawfulHmac(hmac)
    ensures r.Some? <==> !sha.NoSha? && 1 <= length <= 255 * HashLen(sha)
    ensures r.Some? ==> |r.value| == length
  {
    BlocksLength(hmac, sha, Extract(hmac, sha, salt, ikm), info, 255);
    Expand(hmac, sha, Extract(hmac, sha, salt, ikm), info, length)
  }

  lemma {:induction false} BlocksLength(hmac: Hmac, sha: Sha, prk: Octets, info: Octets, n: nat)
    requires LawfulHmac(hmac)
    ensures |Blocks(hmac, sha, prk, info, n)| == n * HashLen(sha)
  {
    if n > 0 {
      BlocksLength(hmac, sha, prk, info, n - 1);
    }
  }

  /** The block stream only grows: a later prefix extends an earlier one. */
  lemma {:induction false} BlocksPrefix(hmac: Hmac, sha: Sha, prk: Octets, info: Octets, m: nat, n: nat)
    requires LawfulHmac(hmac) && m <= n
    ensures Blocks(hmac, sha, prk, info, m) <= Blocks(hmac, sha, prk, info, n)
    decreases n
  {
    if m < n {
      BlocksPrefix(hmac, sha, prk, info, m, n - 1);
    }
  }

  /** Octet j of the stream is octet j mod HashLen of block j div HashLen + 1. */
  lemma {:induction false} StreamOctet(hmac: Hmac, sha: Sha, prk: Octets, info: Octets, n: nat, j: nat)
    requires LawfulHmac(hmac) && !sha.NoSha? && j < n * HashLen(sha)
    ensures |Blocks(hmac, sha, prk, info, n)| == n * HashLen(sha)
    ensures |Block(hmac, sha, prk, info, j / HashLen(sha) + 1)| == HashLen(sha)
    ensures Blocks(hmac, sha, prk, info, n)[j]
         == Block(hmac, sha, prk, info, j / HashLen(sha) + 1)[j % HashLen(sha)]
  {
    var h := HashLen(sha);
    BlocksLength(hmac, sha, prk, info, n);
    BlocksLength(hmac, sha, prk, info, n - 1);
    if j < (n - 1) * h {
      StreamOctet(hmac, sha, prk, info, n - 1, j);
    } else {
      assert j / h == n - 1 && j % h == j - (n - 1) * h;
    }
  }

  /** What expansion yields, octet by octet, and exactly which lengths it accepts. */
  lemma ExpandMatchesStandard(hmac: Hmac, sha: Sha, prk: Octets, info: Octets, length: nat)
    requires LawfulHmac(hmac)
    ensures Expand(hmac, sha, prk, info, length).Some? <==> ExpandAccepts(sha, prk, length)
    ensures ExpandAccepts(sha, prk, length) ==>
      && |Expand(hmac, sha, prk, info, length).value| == length
      && forall j :: 0 <= j < length ==>
           && |Block(hmac, sha, prk, info, j / HashLen(sha) + 1)| == HashLen(sha)
           && Expand(hmac, sha, prk, info, length).value[j]
              == Block(hmac, sha, prk, info, j / HashLen(sha) + 1)[j % HashLen(sha)]
  {
    if ExpandAccepts(sha, prk, length) {
      BlocksLength(hmac, sha, prk, info, 255);
      forall j | 0 <= j < length
        ensures |Block(hmac, sha, prk, info, j / HashLen(sha) + 1)| == HashLen(sha)
        ensures Expand(hmac, sha, prk, info, length).value[j]
             == Block(hmac, sha, prk, info, j / HashLen(sha) + 1)[j % HashLen(sha)]
      {
        StreamOctet(hmac, sha, prk, info, 255, j);
      }
    }
  }

  /** Blocks needed for `length` octets. */
  function BlockCount(sha: Sha, length: nat): nat
    requires !sha.NoSha?
  {
    (length + HashLen(sha) - 1) / HashLen(sha)
  }

  lemma BlockCountLimit(sha: Sha, length: nat)
    requires !sha.NoSha?
    ensures BlockCount(sha, length) > 255 <==> length > 255 * HashLen(sha)
    ensures length > 0 ==> (BlockCount(sha, length) - 1) * HashLen(sha) < length
    ensures length <= BlockCount(sha, length) * HashLen(sha)
  {
  }

  /** The first `length` octets do not depend on how many further blocks one would compute. */
  lemma ExpandFromBlocks(hmac: Hmac, sha: Sha, prk: Octets, info: Octets, length: nat, n: nat)
    requires LawfulHmac(hmac) && ExpandAccepts(sha, prk, length)
    requires n <= 255 && length <= n * HashLen(sha)
    ensures |Blocks(hmac, sha, prk, info, n)| == n * HashLen(sha)
    ensures Expand(hmac, sha, prk, info, length) == Some(Blocks(hmac, sha, prk, info, n)[..length])
  {
    BlocksLength(hmac, sha, prk, info, n);
    BlocksLength(hmac, sha, prk, info, 255);
    BlocksPrefix(hmac, sha, prk, info, n, 255);
    var whole := Blocks(hmac, sha, prk, info, 255);
    assert Blocks(hmac, sha, prk, info, n)[..length] == whole[..length];
  }

  /** Copies the useful part of the next block of `stream` behind what is already there. */
  method WriteBlock(okm: array<byte>, t: Octets, at: nat, count: nat, ghost stream: Octets)
    requires at + count <= okm.Length && count <= |t| && at + |t| <= |stream|
    requires okm[..at] == stream[..at]
    requires stream[at..at + |t|] == t
    modifies okm
    ensures okm[..at + count] == stream[..at + count]
  {
    var k := 0;
    while k < count
      invariant 0 <= k <= count
      invariant okm[..at + k] == stream[..at + k]
    {
      okm[at + k] := t[k];
      assert t[k] == stream[at + k];
      k := k + 1;
    }
  }

  method ZeroOut(okm: array<byte>)
    modifies okm
    ensures okm[..] == Zeros(okm.Length)
  {
    var k := 0;
    while k < okm.Length
      invariant 0 <= k <= okm.Length
      invariant forall i :: 0 <= i < k ==> okm[i] == 0
    {
      okm[k] := 0;
      k := k + 1;
    }
  }

  /** The block loop. */
  method FillBlocks(hmac: Hmac, okm: array<byte>, sha: Sha, prk: Octets, info: Octets, n: nat)
    requires LawfulHmac(hmac) && !sha.NoSha? && okm.Length > 0
    requires (n - 1) * HashLen(sha) < okm.Length <= n * HashLen(sha)
    modifies okm
    ensures okm.Length <= |Blocks(hmac, sha, prk, info, n)|
    ensures okm[..] == Blocks(hmac, sha, prk, info, n)[..okm.Length]
  {
    ghost var stream := Blocks(hmac, sha, prk, info, n);
    BlocksLength(hmac, sha, prk, info, n);
    var t: Octets := [];
    var idx, remaining := 1, okm.Length;
    while idx <= n
      invariant 1 <= idx <= n + 1
      invariant t == Block(hmac, sha, prk, info, idx - 1)
      invariant remaining == if idx <= n then okm.Length - (idx - 1) * HashLen(sha) else 0
      invariant 0 <= remaining <= okm.Length
      invariant okm[..okm.Length - remaining] == stream[..okm.Length - remaining]
    {
      t, remaining := NextBlock(hmac, okm, sha, prk, info, n, t, idx, remaining);
      idx := idx + 1;
    }
    assert okm[..okm.Length] == okm[..];
  }

  method NextBlock(hmac: Hmac, okm: array<byte>, sha: Sha, prk: Octets, info: Octets, ghost n: nat,
                   t: Octets, idx: nat, remaining: nat)
    returns (t': Octets, remaining': nat)
    requires LawfulHmac(hmac) && !sha.NoSha? && 1 <= idx <= n
    requires (n - 1) * HashLen(sha) < okm.Length <= n * HashLen(sha)
    requires t == Block(hmac, sha, prk, info, idx - 1)
    requires remaining == okm.Length - (idx - 1) * HashLen(sha)
    requires okm.Length <= |Blocks(hmac, sha, prk, info, n)| && remaining <= okm.Length
    requires okm[..okm.Length - remaining] == Blocks(hmac, sha, prk, info, n)[..okm.Length - remaining]
    modifies okm
    ensures t' == Block(hmac, sha, prk, info, idx)
    ensures remaining' == if idx < n then okm.Length - idx * HashLen(sha) else 0
    ensures remaining' <= okm.Length
    ensures okm[..okm.Length - remaining'] == Blocks(hmac, sha, prk, info, n)[..okm.Length - remaining']
  {
    var h := HashLen(sha);
    t' := hmac(sha, prk, t + info + [idx % 256]);
    BlockAt(hmac, sha, prk, info, n, idx);
    TurnFits(h, n, idx, okm.Length);
    var count := Min(remaining, h);
    WriteBlock(okm, t', (idx - 1) * h, count, Blocks(hmac, sha, prk, info, n));
    remaining' := remaining - count;
  }

  /** Fills `okm`, whose length is the number of octets asked for. */
  method ExpandInto(hmac: Hmac, okm: array<byte>, sha: Sha, prk: Octets, info: Octets) returns (ok: bool)
    requires LawfulHmac(hmac)
    modifies okm
    ensures ok <==> Expand(hmac, sha, prk, info, okm.Length).Some?
    ensures ok ==> Some(okm[..]) == Expand(hmac, sha, prk, info, okm.Length)
    ensures !ok && !sha.NoSha? ==> okm[..] == Zeros(okm.Length)
    ensures sha.NoSha? ==> okm[..] == old(okm[..])
  {
    if sha.NoSha? {
      return false;
    }
    var n := BlockCount(sha, okm.Length);
    BlockCountLimit(sha, okm.Length);
    if |prk| == 0 || okm.Length == 0 || n > 255 {
      ZeroOut(okm);
      return false;
    }
    ExpandFromBlocks(hmac, sha, prk, info, okm.Length, n);
    FillBlocks(hmac, okm, sha, prk, info, n);
    ok := true;
  }

  /** The whole derivation, extraction first. */
  method DeriveInto(hmac: Hmac, okm: array<byte>, sha: Sha, salt: Octets, ikm: Octets, info: Octets)
    returns (ok: bool)
    requires LawfulHmac(hmac)
    modifies okm
    ensures ok <==> Derive(hmac, sha, salt, ikm, info, okm.Length).Some?
    ensures ok ==> Some(okm[..]) == Derive(hmac, sha, salt, ikm, info, okm.Length)
  {
    if sha.NoSha? {
      return false;
    }
    var prk := hmac(sha, if |salt| > 0 then salt else Zeros(HashLen(sha)), ikm);
    ok := ExpandInto(hmac, okm, sha, prk, info);
  }

  lemma {:induction false} BlockAt(hmac: Hmac, sha: Sha, prk: Octets, info: Octets, n: nat, idx: nat)
    requires LawfulHmac(hmac) && 1 <= idx <= n
    ensures |Blocks(hmac, sha, prk, info, n)| == n * HashLen(sha)
    ensures 0 <= (idx - 1) * HashLen(sha) <= idx * HashLen(sha) <= n * HashLen(sha)
    ensures Blocks(hmac, sha, prk, info, n)[(idx - 1) * HashLen(sha)..idx * HashLen(sha)]
         == Block(hmac, sha, prk, info, idx)
    decreases n
  {
    BlocksLength(hmac, sha, prk, info, n);
    BlocksLength(hmac, sha, prk, info, n - 1);
    if idx < n {
      BlockAt(hmac, sha, prk, info, n - 1, idx);
    }
  }

  lemma TurnFits(h: nat, n: nat, idx: nat, length: nat)
    requires 1 <= idx <= n && h > 0
    requires (n - 1) * h < length <= n * h
    ensures 0 <= (idx - 1) * h < length
    ensures (idx - 1) * h + Min(length - (idx - 1) * h, h) == if idx < n then idx * h else length
  {
    MulMonotone(idx - 1, n - 1, h);
    assert idx * h == (idx - 1) * h + h;
    if idx < n {
      MulMonotone(idx, n - 1, h);
    }
  }
}
