/**
 Keyrings and trees of multi-keyrings: how one data key is generated, wrapped by every leaf and recovered by
 any tree that shares a leaf. Leaves are arbitrary functions; what is asked of them is stated as laws.
 */
module Keyrings {
  import opened Bytes
  import opened Algorithms
  import opened EncryptionContext
  import opened MessageHeader

  /** One record of the keyring trace. */
  datatype Record = Record(namespace: Octets, name: Octets, flags: nat)

  /** A data key in a buffer of the caller's; `at` stands for where and how the buffer is allocated. */
  datatype KeyBuffer = KeyBuffer(at: nat, octets: Octets)

  /** What a comparison of the buffer's descriptor can see: place and length, not the octets. */
  predicate SameBuffer(a: Option<KeyBuffer>, b: Option<KeyBuffer>) {
    if a.None? || b.None? then a == b else a.value.at == b.value.at && |a.value.octets| == |b.value.octets|
  }

  /** What the caller passes by reference and a keyring updates. */
  datatype Wrapping = Wrapping(key: Option<KeyBuffer>, edks: seq<Edk>, trace: seq<Record>)

  datatype EncryptCall = EncryptCall(ok: bool, s: Wrapping)
  datatype DecryptCall = DecryptCall(ok: bool, key: Option<Octets>, trace: seq<Record>)

  /** What a leaf adds: its verdict, the key afterwards, and its own encrypted keys and records. */
  datatype Contribution = Contribution(ok: bool, key: Option<KeyBuffer>, edks: seq<Edk>, trace: seq<Record>)

  datatype LeafKeyring = LeafKeyring(
    onEncrypt: (Option<KeyBuffer>, Context, nat) -> Contribution,
    onDecrypt: (seq<Edk>, Context, nat) -> DecryptCall)

  datatype Keyring = Leaf(leaf: LeafKeyring) | Multi(generator: Option<Keyring>, children: seq<Keyring>)

  predicate RightLength(key: Octets, alg: nat) {
    AlgProps(alg).Some? && |key| == AlgProps(alg).value.dataKeyLen
  }

  // ---------- Encryption ----------

  /** The contract wrapper around every keyring call. */
  function OnEncrypt(k: Keyring, s: Wrapping, ctx: Context, alg: nat): EncryptCall
    decreases k, 1
  {
    if s.key.None? && s.edks != [] then EncryptCall(false, s) else
      var r := CallEncrypt(k, s, ctx, alg);
      if s.key.None? && r.s.key.Some? && !RightLength(r.s.key.value.octets, alg) then EncryptCall(false, r.s)
      else if s.key.Some? && !SameBuffer(r.s.key, s.key) then EncryptCall(false, r.s)
      else r
  }

  function CallEncrypt(k: Keyring, s: Wrapping, ctx: Context, alg: nat): EncryptCall
    decreases k, 0
  {
    match k
    case Leaf(leaf) =>
      var c := leaf.onEncrypt(s.key, ctx, alg);
      EncryptCall(c.ok, Wrapping(c.key, s.edks + c.edks, s.trace + c.trace))
    case Multi(generator, children) =>
      var first := match generator
                   case None => EncryptCall(true, Wrapping(s.key, [], []))
                   case Some(g) => OnEncrypt(g, Wrapping(s.key, [], []), ctx, alg);
      if !first.ok || first.s.key.None? then EncryptCall(false, s.(key := first.s.key)) else
        var all := EncryptAll(k, |children|, first.s, ctx, alg);
        if !all.ok then EncryptCall(false, s.(key := all.s.key))
        else EncryptCall(true, Wrapping(all.s.key, s.edks + all.s.edks, s.trace + all.s.trace))
  }

  /** The first `n` children of a multi-keyring, in order, until one fails. */
  function EncryptAll(k: Keyring, n: nat, s: Wrapping, ctx: Context, alg: nat): EncryptCall
    requires k.Multi? && n <= |k.children|
    decreases k, 0, n
  {
    if n == 0 then EncryptCall(true, s) else
      var r := EncryptAll(k, n - 1, s, ctx, alg);
      if !r.ok then r else OnEncrypt(k.children[n - 1], r.s, ctx, alg)
  }

  // ---------- A tree does what its leaves do one after the other ----------

  /** The leaves in the order they are called: generator first, then the children. */
  function Leaves(k: Keyring): seq<LeafKeyring>
    decreases k, 1
  {
    match k
    case Leaf(leaf) => [leaf]
    case Multi(generator, children) => FirstLeaves(generator) + ChildLeaves(k, |children|)
  }

  function FirstLeaves(generator: Option<Keyring>): seq<LeafKeyring>
    decreases generator, 0
  {
    match generator
    case None => []
    case Some(g) => Leaves(g)
  }

  function ChildLeaves(k: Keyring, n: nat): seq<LeafKeyring>
    requires k.Multi? && n <= |k.children|
    decreases k, 0, n
  {
    if n == 0 then [] else ChildLeaves(k, n - 1) + Leaves(k.children[n - 1])
  }

  /** Calling a list of leaves in order, each under the contract wrapper. */
  function RunLeaves(leaves: seq<LeafKeyring>, s: Wrapping, ctx: Context, alg: nat): EncryptCall {
    if leaves == [] then EncryptCall(true, s) else
      var r := RunLeaves(leaves[..|leaves| - 1], s, ctx, alg);
      if !r.ok then r else OnEncrypt(Leaf(leaves[|leaves| - 1]), r.s, ctx, alg)
  }

  lemma {:induction false} RunConcat(a: seq<LeafKeyring>, b: seq<LeafKeyring>, s: Wrapping, ctx: Context, alg: nat)
    ensures RunLeaves(a + b, s, ctx, alg)
            == var r := RunLeaves(a, s, ctx, alg); if r.ok then RunLeaves(b, r.s, ctx, alg) else r
    decreases |b|
  {
    hide OnEncrypt;
    if b == [] {
      assert a + b == a;
    } else {
      RunConcat(a, b[..|b| - 1], s, ctx, alg);
      assert (a + b)[..|a + b| - 1] == a + b[..|b| - 1];
    }
  }

  /** Records and encrypted keys that were there before stay in front. */
  function Behind(s: Wrapping, r: EncryptCall): EncryptCall {
    r.(s := Wrapping(r.s.key, s.edks + r.s.edks, s.trace + r.s.trace))
  }

  lemma LeafBehind(l: LeafKeyring, s: Wrapping, t: Wrapping, ctx: Context, alg: nat)
    requires t.key.Some? || s.edks == []
    ensures var moved := Wrapping(t.key, s.edks + t.edks, s.trace + t.trace);
            OnEncrypt(Leaf(l), moved, ctx, alg) == Behind(s, OnEncrypt(Leaf(l), t, ctx, alg))
  {
    var c := l.onEncrypt(t.key, ctx, alg);
    assert s.edks + t.edks + c.edks == s.edks + (t.edks + c.edks);
    assert s.trace + t.trace + c.trace == s.trace + (t.trace + c.trace);
  }

  lemma KeyStays(k: Keyring, s: Wrapping, ctx: Context, alg: nat)
    requires OnEncrypt(k, s, ctx, alg).ok && s.key.Some?
    ensures SameBuffer(OnEncrypt(k, s, ctx, alg).s.key, s.key)
  {
    hide CallEncrypt;
  }

  lemma {:induction false} RunBehind(leaves: seq<LeafKeyring>, s: Wrapping, ctx: Context, alg: nat)
    requires s.key.Some?
    ensures RunLeaves(leaves, s, ctx, alg) == Behind(s, RunLeaves(leaves, Wrapping(s.key, [], []), ctx, alg))
    ensures RunLeaves(leaves, s, ctx, alg).ok ==> SameBuffer(RunLeaves(leaves, s, ctx, alg).s.key, s.key)
    decreases |leaves|
  {
    hide OnEncrypt;
    if leaves == [] {
      assert s.edks + [] == s.edks && s.trace + [] == s.trace;
    } else {
      RunBehind(leaves[..|leaves| - 1], s, ctx, alg);
      var r := RunLeaves(leaves[..|leaves| - 1], Wrapping(s.key, [], []), ctx, alg);
      if r.ok {
        var last := leaves[|leaves| - 1];
        LeafBehind(last, s, r.s, ctx, alg);
        if OnEncrypt(Leaf(last), RunLeaves(leaves[..|leaves| - 1], s, ctx, alg).s, ctx, alg).ok {
          KeyStays(Leaf(last), RunLeaves(leaves[..|leaves| - 1], s, ctx, alg).s, ctx, alg);
        }
      }
    }
  }

  lemma BehindNothing(key: Option<KeyBuffer>, r: EncryptCall)
    ensures Behind(Wrapping(key, [], []), r) == r
  {
    assert [] + r.s.edks == r.s.edks && [] + r.s.trace == r.s.trace;
  }

  /**
   However multi-keyrings are nested, a call that succeeds has called the leaves one after the other on one
   key buffer, and has appended in that order what they contributed.
   */
  lemma {:induction false} EncryptFlattens(k: Keyring, s: Wrapping, ctx: Context, alg: nat)
    requires OnEncrypt(k, s, ctx, alg).ok
    ensures OnEncrypt(k, s, ctx, alg) == Behind(s, RunLeaves(Leaves(k), Wrapping(s.key, [], []), ctx, alg))
    decreases k, 1
  {
    var empty := Wrapping(s.key, [], []);
    match k {
      case Leaf(l) =>
        assert [l][..0] == [];
        LeafBehind(l, s, empty, ctx, alg);
        assert s.edks + [] == s.edks && s.trace + [] == s.trace;
      case Multi(generator, children) =>
        hide OnEncrypt, EncryptAll, RunLeaves, Leaves;
        MultiSucceeds(k, s, ctx, alg);
        var first := FirstCall(generator, s.key, ctx, alg);
        if generator.Some? {
          EncryptFlattens(generator.value, empty, ctx, alg);
          BehindNothing(s.key, RunLeaves(Leaves(generator.value), empty, ctx, alg));
        } else {
          NoLeaves(empty, ctx, alg);
        }
        FlattenAll(k, |children|, first.s, ctx, alg);
        RunConcat(FirstLeaves(generator), ChildLeaves(k, |children|), empty, ctx, alg);
        LeavesOf(k);
    }
  }

  function FirstCall(generator: Option<Keyring>, key: Option<KeyBuffer>, ctx: Context, alg: nat): EncryptCall {
    match generator
    case None => EncryptCall(true, Wrapping(key, [], []))
    case Some(g) => OnEncrypt(g, Wrapping(key, [], []), ctx, alg)
  }

  lemma MultiSucceeds(k: Keyring, s: Wrapping, ctx: Context, alg: nat)
    requires k.Multi? && OnEncrypt(k, s, ctx, alg).ok
    ensures var first := FirstCall(k.generator, s.key, ctx, alg);
            && first.ok && first.s.key.Some?
            && var all := EncryptAll(k, |k.children|, first.s, ctx, alg);
            && all.ok && OnEncrypt(k, s, ctx, alg) == Behind(s, all)
  {
  }

  lemma NoLeaves(s: Wrapping, ctx: Context, alg: nat)
    ensures RunLeaves([], s, ctx, alg) == EncryptCall(true, s)
  {
  }

  lemma LeavesOf(k: Keyring)
    requires k.Multi?
    ensures Leaves(k) == FirstLeaves(k.generator) + ChildLeaves(k, |k.children|)
  {
  }

  lemma {:induction false} FlattenAll(k: Keyring, n: nat, s: Wrapping, ctx: Context, alg: nat)
    requires k.Multi? && n <= |k.children| && s.key.Some? && EncryptAll(k, n, s, ctx, alg).ok
    ensures EncryptAll(k, n, s, ctx, alg) == RunLeaves(ChildLeaves(k, n), s, ctx, alg)
    decreases k, 0, n
  {
    hide OnEncrypt, RunLeaves;
    if n == 0 {
      NoLeaves(s, ctx, alg);
    } else {
      FlattenAll(k, n - 1, s, ctx, alg);
      var r, child := EncryptAll(k, n - 1, s, ctx, alg), k.children[n - 1];
      RunBehind(ChildLeaves(k, n - 1), s, ctx, alg);
      EncryptFlattens(child, r.s, ctx, alg);
      RunBehind(Leaves(child), r.s, ctx, alg);
      RunConcat(ChildLeaves(k, n - 1), Leaves(child), s, ctx, alg);
    }
  }

  // ---------- What a failure leaves behind ----------

  /** A multi-keyring that fails, for whatever reason, leaves the caller's lists as they were. */
  lemma FailureLeavesNoTrace(k: Keyring, s: Wrapping, ctx: Context, alg: nat)
    requires k.Multi? && !OnEncrypt(k, s, ctx, alg).ok
    ensures OnEncrypt(k, s, ctx, alg).s.edks == s.edks && OnEncrypt(k, s, ctx, alg).s.trace == s.trace
  {
    hide EncryptAll;
    var first := FirstCall(k.generator, s.key, ctx, alg);
    if first.ok && first.s.key.Some? {
      AllKeepKey(k, |k.children|, first.s, ctx, alg);
    }
  }

  /** Children never replace a key buffer that is there. */
  lemma {:induction false} AllKeepKey(k: Keyring, n: nat, s: Wrapping, ctx: Context, alg: nat)
    requires k.Multi? && n <= |k.children| && s.key.Some?
    ensures EncryptAll(k, n, s, ctx, alg).ok ==> SameBuffer(EncryptAll(k, n, s, ctx, alg).s.key, s.key)
    decreases n
  {
    hide OnEncrypt;
    if n > 0 {
      AllKeepKey(k, n - 1, s, ctx, alg);
      var r := EncryptAll(k, n - 1, s, ctx, alg);
      if r.ok && OnEncrypt(k.children[n - 1], r.s, ctx, alg).ok {
        KeyStays(k.children[n - 1], r.s, ctx, alg);
      }
    }
  }

  // ---------- One data key ----------

  /** "This encrypted key decrypts to that data key", for one context and suite. */
  type Wraps = (Edk, Octets) -> bool

  /** A leaf that succeeds leaves a key that is there alone; what it hands out wraps the key, and there is something. */
  ghost predicate SoundEncrypter(l: LeafKeyring, wraps: Wraps, ctx: Context, alg: nat) {
    forall key :: l.onEncrypt(key, ctx, alg).ok ==>
      var c := l.onEncrypt(key, ctx, alg);
      && (key.Some? ==> c.key == key) && (c.key.Some? <==> c.edks != [])
      && forall e :: e in c.edks && c.key.Some? ==> wraps(e, c.key.value.octets)
  }

  /** The leaf was called on the way to this result, on no key or on the final one, and its part is in it. */
  ghost predicate Contributed(l: LeafKeyring, s: Wrapping, ctx: Context, alg: nat) {
    exists before: Option<KeyBuffer> :: (before.None? || before == s.key) && ContributedFrom(l, before, s, ctx, alg)
  }

  ghost predicate ContributedFrom(l: LeafKeyring, before: Option<KeyBuffer>, s: Wrapping, ctx: Context, alg: nat) {
    var c := l.onEncrypt(before, ctx, alg);
    c.ok && c.key == s.key && forall e :: e in c.edks ==> e in s.edks
  }

  lemma LeafWraps(l: LeafKeyring, t: Wrapping, wraps: Wraps, ctx: Context, alg: nat)
    requires SoundEncrypter(l, wraps, ctx, alg) && OnEncrypt(Leaf(l), t, ctx, alg).ok
    ensures var s := OnEncrypt(Leaf(l), t, ctx, alg).s;
            && (t.key.Some? ==> s.key == t.key) && (t.key.None? && s.key.Some? ==> RightLength(s.key.value.octets, alg))
            && t.edks <= s.edks && (forall e :: e in s.edks[|t.edks|..] ==> s.key.Some? && wraps(e, s.key.value.octets))
            && Contributed(l, s, ctx, alg)
  {
    var c, s := l.onEncrypt(t.key, ctx, alg), OnEncrypt(Leaf(l), t, ctx, alg).s;
    assert s.edks[|t.edks|..] == c.edks;
    assert ContributedFrom(l, t.key, s, ctx, alg);
  }

  /** A run whose first leaf has or makes a key: one key of the right length, wrapped by all that was contributed. */
  lemma {:induction false} RunWrapsOneKey(leaves: seq<LeafKeyring>, key: Option<KeyBuffer>, wraps: Wraps, ctx: Context,
                                          alg: nat)
    requires forall l :: l in leaves ==> SoundEncrypter(l, wraps, ctx, alg)
    requires RunLeaves(leaves, Wrapping(key, [], []), ctx, alg).ok
    requires key.Some? || leaves == [] || OnEncrypt(Leaf(leaves[0]), Wrapping(None, [], []), ctx, alg).s.key.Some?
    ensures var s := RunLeaves(leaves, Wrapping(key, [], []), ctx, alg).s;
            && (leaves != [] ==> s.key.Some?) && (key.Some? ==> s.key == key)
            && (key.None? && s.key.Some? ==> RightLength(s.key.value.octets, alg))
            && (forall e :: e in s.edks ==> s.key.Some? && wraps(e, s.key.value.octets))
            && (forall l :: l in leaves ==> Contributed(l, s, ctx, alg))
    decreases |leaves|
  {
    hide SoundEncrypter, OnEncrypt, Contributed;
    if leaves != [] {
      var front, last := leaves[..|leaves| - 1], leaves[|leaves| - 1];
      var t := RunLeaves(front, Wrapping(key, [], []), ctx, alg).s;
      var s := RunLeaves(leaves, Wrapping(key, [], []), ctx, alg).s;
      assert leaves == front + [last] && last in leaves;
      RunWrapsOneKey(front, key, wraps, ctx, alg);
      LeafWraps(last, t, wraps, ctx, alg);
      assert s.edks == t.edks + s.edks[|t.edks|..];
      forall l | l in leaves
        ensures Contributed(l, s, ctx, alg)
      {
        if l in front {
          ContributedBehind(l, t, s, ctx, alg);
        }
      }
    }
  }

  /** A tree that ends up with a key got it from its caller or from its very first leaf. */
  lemma {:induction false} StartsKeyed(k: Keyring, ctx: Context, alg: nat)
    requires var r := OnEncrypt(k, Wrapping(None, [], []), ctx, alg); r.ok && r.s.key.Some?
    ensures Leaves(k) != [] && OnEncrypt(Leaf(Leaves(k)[0]), Wrapping(None, [], []), ctx, alg).s.key.Some?
    decreases k
  {
    if k.Multi? {
      hide EncryptAll;
      MultiSucceeds(k, Wrapping(None, [], []), ctx, alg);
      StartsKeyed(k.generator.value, ctx, alg);
      var first := Leaves(k.generator.value);
      assert first == FirstLeaves(k.generator) && Leaves(k) == first + ChildLeaves(k, |k.children|);
      assert Leaves(k)[0] == first[0];
    }
  }

  /**
   A tree that succeeds and holds a key: everything it appended wraps that one key, every leaf has its part in
   it, and a key generated on the way has the length the suite asks for.
   */
  lemma TreeWrapsOneKey(k: Keyring, s: Wrapping, wraps: Wraps, ctx: Context, alg: nat)
    requires forall l :: l in Leaves(k) ==> SoundEncrypter(l, wraps, ctx, alg)
    requires var r := OnEncrypt(k, s, ctx, alg); r.ok && r.s.key.Some?
    ensures var r := OnEncrypt(k, s, ctx, alg).s;
            && (s.key.Some? ==> r.key == s.key) && (s.key.None? ==> RightLength(r.key.value.octets, alg))
            && s.edks <= r.edks && s.trace <= r.trace
            && (forall e :: e in r.edks[|s.edks|..] ==> wraps(e, r.key.value.octets))
            && (forall l :: l in Leaves(k) ==> Contributed(l, r, ctx, alg))
  {
    hide SoundEncrypter, CallEncrypt, Leaves, RunLeaves, Contributed;
    var empty := Wrapping(s.key, [], []);
    EncryptFlattens(k, s, ctx, alg);
    var flat := RunLeaves(Leaves(k), empty, ctx, alg).s;
    if s.key.None? {
      KeylessStart(k, s, ctx, alg);
      StartsKeyed(k, ctx, alg);
    }
    RunWrapsOneKey(Leaves(k), s.key, wraps, ctx, alg);
    var r := OnEncrypt(k, s, ctx, alg).s;
    assert r.edks[|s.edks|..] == flat.edks;
    forall l | l in Leaves(k)
      ensures Contributed(l, r, ctx, alg)
    {
      ContributedBehind(l, flat, r, ctx, alg);
    }
  }

  lemma ContributedBehind(l: LeafKeyring, t: Wrapping, s: Wrapping, ctx: Context, alg: nat)
    requires Contributed(l, t, ctx, alg) && s.key == t.key && forall e :: e in t.edks ==> e in s.edks
    ensures Contributed(l, s, ctx, alg)
  {
    var before: Option<KeyBuffer> :| (before.None? || before == t.key) && ContributedFrom(l, before, t, ctx, alg);
    assert ContributedFrom(l, before, s, ctx, alg);
  }

  lemma KeylessStart(k: Keyring, s: Wrapping, ctx: Context, alg: nat)
    requires s.key.None? && OnEncrypt(k, s, ctx, alg).ok && OnEncrypt(k, s, ctx, alg).s.key.Some?
    ensures var r := OnEncrypt(k, Wrapping(None, [], []), ctx, alg); r.ok && r.s.key.Some?
  {
    hide EncryptAll;
  }

  // ---------- Decryption ----------

  /** The contract wrapper; a key of the wrong length is reported as an error but stays in the buffer. */
  function OnDecrypt(k: Keyring, trace: seq<Record>, edks: seq<Edk>, ctx: Context, alg: nat): DecryptCall
    decreases k, 1
  {
    var r := CallDecrypt(k, trace, edks, ctx, alg);
    if r.key.Some? && !RightLength(r.key.value, alg) then r.(ok := false) else r
  }

  function CallDecrypt(k: Keyring, trace: seq<Record>, edks: seq<Edk>, ctx: Context, alg: nat): DecryptCall
    decreases k, 0
  {
    match k
    case Leaf(leaf) =>
      var c := leaf.onDecrypt(edks, ctx, alg);
      c.(trace := trace + c.trace)
    case Multi(generator, children) =>
      var first := match generator
                   case None => DecryptCall(true, None, trace)
                   case Some(g) => Heed(true, OnDecrypt(g, trace, edks, ctx, alg));
      DecryptAny(k, |children|, first, edks, ctx, alg)
  }

  /** A key makes up for every error; without one, an error is remembered. */
  function Heed(soFar: bool, r: DecryptCall): DecryptCall {
    r.(ok := r.key.Some? || (soFar && r.ok))
  }

  /** The first `n` children, in order, until one produces a key. */
  function DecryptAny(k: Keyring, n: nat, first: DecryptCall, edks: seq<Edk>, ctx: Context, alg: nat): DecryptCall
    requires k.Multi? && n <= |k.children|
    decreases k, 0, n
  {
    if n == 0 then first else
      var r := DecryptAny(k, n - 1, first, edks, ctx, alg);
      if r.key.Some? then r else Heed(r.ok, OnDecrypt(k.children[n - 1], r.trace, edks, ctx, alg))
  }

  /** The key of the first leaf that finds one. */
  function FirstKey(leaves: seq<LeafKeyring>, edks: seq<Edk>, ctx: Context, alg: nat): Option<Octets> {
    if leaves == [] then None else
      var key := FirstKey(leaves[..|leaves| - 1], edks, ctx, alg);
      if key.Some? then key else leaves[|leaves| - 1].onDecrypt(edks, ctx, alg).key
  }

  lemma {:induction false} FirstKeyConcat(a: seq<LeafKeyring>, b: seq<LeafKeyring>, edks: seq<Edk>, ctx: Context,
                                          alg: nat)
    ensures FirstKey(a + b, edks, ctx, alg)
            == var key := FirstKey(a, edks, ctx, alg); if key.Some? then key else FirstKey(b, edks, ctx, alg)
    decreases |b|
  {
    if b == [] {
      assert a + b == a;
    } else {
      FirstKeyConcat(a, b[..|b| - 1], edks, ctx, alg);
      assert (a + b)[..|a + b| - 1] == a + b[..|b| - 1];
    }
  }

  ghost predicate NoErrors(leaves: seq<LeafKeyring>, edks: seq<Edk>, ctx: Context, alg: nat) {
    forall l :: l in leaves ==> l.onDecrypt(edks, ctx, alg).ok
  }

  /**
   However multi-keyrings are nested, the key is that of the first leaf that finds one. A multi-keyring then
   succeeds exactly when that key has the right length or, without a key, when no leaf reported an error.
   */
  lemma {:induction false} DecryptFlattens(k: Keyring, trace: seq<Record>, edks: seq<Edk>, ctx: Context, alg: nat)
    ensures var r := OnDecrypt(k, trace, edks, ctx, alg);
            && r.key == FirstKey(Leaves(k), edks, ctx, alg)
            && (r.key.None? ==> (r.ok <==> NoErrors(Leaves(k), edks, ctx, alg)))
            && (r.key.Some? && k.Multi? ==> (r.ok <==> RightLength(r.key.value, alg)))
            && (r.key.Some? && r.ok ==> RightLength(r.key.value, alg))
    decreases k, 1
  {
    match k {
      case Leaf(l) =>
        assert [l][..0] == [];
      case Multi(generator, children) =>
        var first := match generator
                     case None => DecryptCall(true, None, trace)
                     case Some(g) => Heed(true, OnDecrypt(g, trace, edks, ctx, alg));
        if generator.Some? {
          DecryptFlattens(generator.value, trace, edks, ctx, alg);
        }
        AnyFlattens(k, |children|, first, FirstLeaves(generator), edks, ctx, alg);
    }
  }

  lemma {:induction false} AnyFlattens(k: Keyring, n: nat, first: DecryptCall, before: seq<LeafKeyring>, edks: seq<Edk>,
                                       ctx: Context, alg: nat)
    requires k.Multi? && n <= |k.children| && first.key == FirstKey(before, edks, ctx, alg)
    requires if first.key.Some? then first.ok else first.ok <==> NoErrors(before, edks, ctx, alg)
    ensures var r, leaves := DecryptAny(k, n, first, edks, ctx, alg), before + ChildLeaves(k, n);
            && r.key == FirstKey(leaves, edks, ctx, alg)
            && (if r.key.Some? then r.ok else r.ok <==> NoErrors(leaves, edks, ctx, alg))
    decreases k, 0, n
  {
    hide OnDecrypt, FirstKey;
    if n == 0 {
      assert before + [] == before;
    } else {
      AnyFlattens(k, n - 1, first, before, edks, ctx, alg);
      var r := DecryptAny(k, n - 1, first, edks, ctx, alg);
      DecryptFlattens(k.children[n - 1], r.trace, edks, ctx, alg);
      var earlier, own := before + ChildLeaves(k, n - 1), Leaves(k.children[n - 1]);
      assert before + ChildLeaves(k, n) == earlier + own;
      FirstKeyConcat(earlier, own, edks, ctx, alg);
    }
  }

  // ---------- Recovery ----------

  ghost predicate AllWrap(edks: seq<Edk>, key: Octets, wraps: Wraps) {
    forall e :: e in edks ==> wraps(e, key)
  }

  /** Offered only encryptions of one key, the leaf comes up with that key or with none. */
  ghost predicate SoundDecrypter(l: LeafKeyring, wraps: Wraps, ctx: Context, alg: nat) {
    forall edks, key :: AllWrap(edks, key, wraps) ==>
      l.onDecrypt(edks, ctx, alg).key.None? || l.onDecrypt(edks, ctx, alg).key == Some(key)
  }

  /** Among encryptions of one key of the right length, the leaf finds what it handed out itself. */
  ghost predicate KnowsItsOwn(l: LeafKeyring, wraps: Wraps, ctx: Context, alg: nat) {
    forall before, edks :: OwnAmong(l.onEncrypt(before, ctx, alg), edks, wraps, alg) ==> l.onDecrypt(edks, ctx, alg).key.Some?
  }

  ghost predicate OwnAmong(c: Contribution, edks: seq<Edk>, wraps: Wraps, alg: nat) {
    && c.ok && c.key.Some? && RightLength(c.key.value.octets, alg)
    && (exists e :: e in c.edks && e in edks) && AllWrap(edks, c.key.value.octets, wraps)
  }

  lemma {:induction false} SharedLeafFinds(leaves: seq<LeafKeyring>, l: LeafKeyring, key: Octets, edks: seq<Edk>,
                                           wraps: Wraps,
                                           ctx: Context, alg: nat)
    requires forall x :: x in leaves ==> SoundDecrypter(x, wraps, ctx, alg)
    requires l in leaves && l.onDecrypt(edks, ctx, alg).key.Some? && AllWrap(edks, key, wraps)
    ensures FirstKey(leaves, edks, ctx, alg) == Some(key)
    decreases |leaves|
  {
    var front, last := leaves[..|leaves| - 1], leaves[|leaves| - 1];
    assert leaves == front + [last] && last in leaves;
    OnlyThatKey(front, key, edks, wraps, ctx, alg);
    if l in front {
      SharedLeafFinds(front, l, key, edks, wraps, ctx, alg);
    }
  }

  lemma {:induction false} OnlyThatKey(leaves: seq<LeafKeyring>, key: Octets, edks: seq<Edk>, wraps: Wraps,
                                       ctx: Context, alg: nat)
    requires forall x :: x in leaves ==> SoundDecrypter(x, wraps, ctx, alg)
    requires AllWrap(edks, key, wraps)
    ensures var found := FirstKey(leaves, edks, ctx, alg); found.None? || found.value == key
    decreases |leaves|
  {
    if leaves != [] {
      var front, last := leaves[..|leaves| - 1], leaves[|leaves| - 1];
      assert leaves == front + [last] && last in leaves;
      OnlyThatKey(front, key, edks, wraps, ctx, alg);
    }
  }

  /**
   Any keyring that shares a leaf with the tree that encrypted recovers the data key, whatever errors its other
   leaves report. A multi-keyring then succeeds; the leaf alone succeeds if it says so itself.
   */
  lemma SharedLeafRecovers(k: Keyring, other: Keyring, l: LeafKeyring, wraps: Wraps, ctx: Context, alg: nat)
    requires l in Leaves(k) && l in Leaves(other)
    requires forall x :: x in Leaves(k) ==> SoundEncrypter(x, wraps, ctx, alg)
    requires forall x :: x in Leaves(other) ==> SoundDecrypter(x, wraps, ctx, alg)
    requires KnowsItsOwn(l, wraps, ctx, alg)
    requires var r := OnEncrypt(k, Wrapping(None, [], []), ctx, alg); r.ok && r.s.key.Some?
    ensures var made := OnEncrypt(k, Wrapping(None, [], []), ctx, alg).s;
            var r := OnDecrypt(other, [], made.edks, ctx, alg);
            && r.key == Some(made.key.value.octets)
            && (r.ok <==> other.Multi? || l.onDecrypt(made.edks, ctx, alg).ok)
  {
    hide OnEncrypt, OnDecrypt, Leaves, SoundDecrypter, FirstKey;
    var made := OnEncrypt(k, Wrapping(None, [], []), ctx, alg).s;
    TreeWrapsOneKey(k, Wrapping(None, [], []), wraps, ctx, alg);
    assert made.edks[0..] == made.edks;
    var before: Option<KeyBuffer> :| (before.None? || before == made.key) && ContributedFrom(l, before, made, ctx, alg);
    var c := l.onEncrypt(before, ctx, alg);
    assert c.edks[0] in c.edks && c.edks[0] in made.edks;
    assert OwnAmong(c, made.edks, wraps, alg);
    SharedLeafFinds(Leaves(other), l, made.key.value.octets, made.edks, wraps, ctx, alg);
    DecryptFlattens(other, [], made.edks, ctx, alg);
    if other.Leaf? {
      LeafAlone(other, l, made.edks, ctx, alg);
    }
  }

  lemma LeafAlone(k: Keyring, l: LeafKeyring, edks: seq<Edk>, ctx: Context, alg: nat)
    requires k.Leaf? && l in Leaves(k)
    ensures var c := l.onDecrypt(edks, ctx, alg);
            && OnDecrypt(k, [], edks, ctx, alg).key == c.key
            && (OnDecrypt(k, [], edks, ctx, alg).ok <==> c.ok && (c.key.Some? ==> RightLength(c.key.value, alg)))
  {
  }

  // ---------- The code that walks the lists ----------

  /** Moves all elements over; the source is left empty so that nothing is freed twice. */
  method TransferList<T>(dest: seq<T>, src: seq<T>) returns (dest': seq<T>, src': seq<T>)
    ensures dest' == dest + src && src' == []
  {
    dest' := dest;
    for i := 0 to |src|
      invariant dest' == dest + src[..i]
    {
      dest' := dest' + [src[i]];
    }
    src' := [];
  }

  function Clones<T>(src: seq<T>, clone: T -> Option<T>): (r: seq<T>)
    requires forall x :: x in src ==> clone(x).Some?
    ensures |r| == |src|
  {
    if src == [] then [] else Clones(src[..|src| - 1], clone) + [clone(src[|src| - 1]).value]
  }

  /** Appends clones of all elements or, when one cannot be cloned, cleans up every clone made and restores the list. */
  method ListCopyAll<T>(dest: seq<T>, src: seq<T>,
                        clone: T -> Option<T>) returns (ok: bool, dest': seq<T>, cleaned: seq<T>)
    ensures ok <==> forall x :: x in src ==> clone(x).Some?
    ensures ok ==> dest' == dest + Clones(src, clone) && cleaned == []
    ensures !ok ==> dest' == dest
    ensures !ok ==> exists n ::
      && 0 <= n < |src| && clone(src[n]).None? && (forall x :: x in src[..n] ==> clone(x).Some?)
      && multiset(cleaned) == multiset(Clones(src[..n], clone))
  {
    dest', cleaned := dest, [];
    ok := true;
    for i := 0 to |src|
      invariant (forall x :: x in src[..i] ==> clone(x).Some?) && dest' == dest + Clones(src[..i], clone) && ok
      invariant cleaned == []
    {
      var item := clone(src[i]);
      if item.None? {
        cleaned := RollBack(dest, Clones(src[..i], clone), dest');
        assert src[i] in src;
        return false, dest, cleaned;
      }
      assert src[..i + 1][..i] == src[..i];
      dest' := dest' + [item.value];
    }
    assert src[..|src|] == src;
  }

  /** Pops and cleans up until only the initial elements are left. */
  method RollBack<T>(initial: seq<T>, added: seq<T>, list: seq<T>) returns (cleaned: seq<T>)
    requires list == initial + added
    ensures multiset(cleaned) == multiset(added)
  {
    var left := list;
    cleaned := [];
    while |left| > |initial|
      invariant |initial| <= |left| <= |list| && left == list[..|left|]
      invariant multiset(cleaned) == multiset(added[|left| - |initial|..])
    {
      var n := |left| - 1;
      assert added[n - |initial|..] == [left[n]] + added[n + 1 - |initial|..];
      cleaned := cleaned + [left[n]];
      left := left[..n];
    }
    assert added[0..] == added;
  }

  method KeyringOnEncrypt(k: Keyring, s: Wrapping, ctx: Context, alg: nat) returns (r: EncryptCall)
    ensures r == OnEncrypt(k, s, ctx, alg)
    decreases k, 1
  {
    if s.key.None? && s.edks != [] { return EncryptCall(false, s); }
    if k.Leaf? {
      var c := k.leaf.onEncrypt(s.key, ctx, alg);
      r := EncryptCall(c.ok, Wrapping(c.key, s.edks + c.edks, s.trace + c.trace));
    } else {
      r := MultiOnEncrypt(k, s, ctx, alg);
    }
    if s.key.None? && r.s.key.Some? {
      var p := AlgProps(alg);
      if p.None? || |r.s.key.value.octets| != p.value.dataKeyLen { return r.(ok := false); }
    }
    if s.key.Some? && !SameBuffer(r.s.key, s.key) { return r.(ok := false); }
  }

  /** Collects everything in lists of its own and hands it over only when all keyrings have succeeded. */
  method MultiOnEncrypt(k: Keyring, s: Wrapping, ctx: Context, alg: nat) returns (r: EncryptCall)
    requires k.Multi?
    ensures r == CallEncrypt(k, s, ctx, alg)
    decreases k, 0
  {
    hide OnEncrypt, RightLength;
    var mine := Wrapping(s.key, [], []);
    if k.generator.Some? {
      var g := KeyringOnEncrypt(k.generator.value, mine, ctx, alg);
      mine := g.s;
      if !g.ok { return EncryptCall(false, s.(key := mine.key)); }
    }
    if mine.key.None? { return EncryptCall(false, s.(key := mine.key)); }
    ghost var first := mine;
    for i := 0 to |k.children|
      invariant EncryptAll(k, i, first, ctx, alg) == EncryptCall(true, mine)
    {
      var c := KeyringOnEncrypt(k.children[i], mine, ctx, alg);
      mine := c.s;
      if !c.ok {
        FailureStays(k, i + 1, |k.children|, first, ctx, alg);
        return EncryptCall(false, s.(key := mine.key));
      }
    }
    var edks, noEdks := TransferList(s.edks, mine.edks);
    var trace, noTrace := TransferList(s.trace, mine.trace);
    return EncryptCall(true, Wrapping(mine.key, edks, trace));
  }

  lemma {:induction false} FailureStays(k: Keyring, i: nat, n: nat, s: Wrapping, ctx: Context, alg: nat)
    requires k.Multi? && i <= n <= |k.children| && !EncryptAll(k, i, s, ctx, alg).ok
    ensures EncryptAll(k, n, s, ctx, alg) == EncryptAll(k, i, s, ctx, alg)
    decreases n
  {
    hide OnEncrypt;
    if i < n {
      FailureStays(k, i, n - 1, s, ctx, alg);
    }
  }

  method KeyringOnDecrypt(k: Keyring, trace: seq<Record>, edks: seq<Edk>, ctx: Context,
                          alg: nat) returns (r: DecryptCall)
    ensures r == OnDecrypt(k, trace, edks, ctx, alg)
    decreases k, 1
  {
    if k.Leaf? {
      r := k.leaf.onDecrypt(edks, ctx, alg);
      r := r.(trace := trace + r.trace);
    } else {
      r := MultiOnDecrypt(k, trace, edks, ctx, alg);
    }
    if r.key.Some? {
      var p := AlgProps(alg);
      if p.None? || |r.key.value| != p.value.dataKeyLen { r := r.(ok := false); }
    }
  }

  /** Asks one keyring after the other and stops at the first key. */
  method MultiOnDecrypt(k: Keyring, trace: seq<Record>, edks: seq<Edk>, ctx: Context, alg: nat) returns (r: DecryptCall)
    requires k.Multi?
    ensures r == CallDecrypt(k, trace, edks, ctx, alg)
    decreases k, 0
  {
    hide OnDecrypt, RightLength;
    var records, success := trace, true;
    ghost var first := DecryptCall(true, None, trace);
    if k.generator.Some? {
      var g := KeyringOnDecrypt(k.generator.value, records, edks, ctx, alg);
      first := Heed(true, g);
      if g.key.Some? {
        KeyWins(k, 0, |k.children|, first, edks, ctx, alg);
        return DecryptCall(true, g.key, g.trace);
      }
      records, success := g.trace, g.ok;
    }
    for i := 0 to |k.children|
      invariant DecryptAny(k, i, first, edks, ctx, alg) == DecryptCall(success, None, records)
    {
      var c := KeyringOnDecrypt(k.children[i], records, edks, ctx, alg);
      if c.key.Some? {
        KeyWins(k, i + 1, |k.children|, first, edks, ctx, alg);
        return DecryptCall(true, c.key, c.trace);
      }
      records := c.trace;
      if !c.ok { success := false; }
    }
    return DecryptCall(success, None, records);
  }

  lemma {:induction false} KeyWins(k: Keyring, i: nat, n: nat, first: DecryptCall, edks: seq<Edk>, ctx: Context,
                                   alg: nat)
    requires k.Multi? && i <= n <= |k.children| && DecryptAny(k, i, first, edks, ctx, alg).key.Some?
    ensures DecryptAny(k, n, first, edks, ctx, alg) == DecryptAny(k, i, first, edks, ctx, alg)
    decreases n
  {
    hide OnDecrypt;
    if i < n {
      KeyWins(k, i, n - 1, first, edks, ctx, alg);
    }
  }
}
