/**
 Whole runs of caching managers that share one cache: whatever requests they get and however their limits are set in
 between, no cached data key is handed out more often, or for more octets, than the limits in force ever allowed.
 */
module CmmRuns {
  import opened Bytes
  import opened EncryptionContext
  import opened MessageHeader
  import opened SessionModel
  import opened CacheIds
  import opened CachingCmm

  datatype Request =
    | Generate(alg: nat, ctx: Context, order: seq<Pair>, size: nat, made: Option<EncMaterials>, clocks: Clocks)
    | Unwrap(alg: nat, edks: seq<Edk>, ctx: Context, order: seq<Pair>, got: Option<DecMaterials>, clocks: Clocks)
    | LimitMessages(messages: nat)
    | LimitBytes(bytes: nat)
    | LimitAge(amount: nat, unitsPerSecond: nat)

  /** A request to one of the managers; upstream's answer is part of it. */
  datatype Step = Step(who: nat, request: Request)

  ghost predicate Legal(step: Step, managers: nat) {
    && step.who < managers
    && match step.request
       case Generate(_, ctx, order, _, _, _) => Lists(order, ctx)
       case Unwrap(_, _, ctx, order, _, _) => Lists(order, ctx)
       case LimitAge(amount, _) => amount <= UINT64_MAX
       case _ => true
  }

  /** No setting is above the given limits. */
  predicate Below(step: Step, messages: nat, bytes: nat) {
    match step.request
    case LimitMessages(n) => n <= messages
    case LimitBytes(n) => n <= bytes
    case _ => true
  }

  predicate IssuedBelow(issued: seq<Issue>, messages: nat, bytes: nat) {
    forall i :: 0 <= i < |issued| ==> issued[i].limitMessages <= messages && issued[i].limitBytes <= bytes
  }

  ghost predicate Together(shared: SharedCache, managers: seq<Manager>)
    reads managers, shared, shared.cache
  {
    shared.Valid() && forall m :: m in managers ==> m.shared == shared && m.Valid()
  }

  ghost predicate SetBelow(managers: seq<Manager>, messages: nat, bytes: nat)
    reads managers
  {
    forall m :: m in managers ==> m.limitMessages <= messages && m.limitBytes <= bytes
  }

  // ---------- Counting the answers of a run ----------

  /** One answer: the materials, and the place of their key in the ledger if it is cached. */
  datatype Answered = Answered(materials: Option<EncMaterials>, serial: Option<nat>, size: nat)

  /** The answer is for the octets asked for; what is not cached is upstream's answer or none. */
  predicate Replies(request: Request, a: Answered) {
    if request.Generate? then
      a.size == request.size && (a.serial.None? ==> a.materials == request.made || a.materials == None)
    else a == Answered(None, None, 0)
  }

  /** How often a run answered with the key of the given serial. */
  function Times(log: seq<Answered>, serial: nat): nat {
    if log == [] then 0 else
      Times(log[..|log| - 1], serial) + if log[|log| - 1].serial == Some(serial) then 1 else 0
  }

  /** For how many octets. */
  function Total(log: seq<Answered>, serial: nat): nat {
    if log == [] then 0 else
      Total(log[..|log| - 1], serial) + if log[|log| - 1].serial == Some(serial) then log[|log| - 1].size else 0
  }

  /** The ledger has grown by exactly the answers of the run, each with the materials its key was entered with. */
  ghost predicate Accounted(was: seq<Issue>, issued: seq<Issue>, log: seq<Answered>) {
    && was <= issued
    && (forall k :: Uses(issued, k) == Uses(was, k) + Times(log, k) && Volume(issued, k) == Volume(was, k) + Total(log, k))
    && forall a :: a in log && a.serial.Some? ==> FromLedger(a, issued)
  }

  predicate FromLedger(a: Answered, issued: seq<Issue>)
    requires a.serial.Some?
  {
    a.serial.value < |issued| && a.materials == Some(issued[a.serial.value].materials)
  }

  /** What one request does to the ledger. */
  ghost predicate Entered(was: seq<Issue>, issued: seq<Issue>, a: Answered) {
    if a.serial.None? then issued == was else
      && |issued| == |was| + 1 && was <= issued && issued[|was|].serial == a.serial.value <= |was|
      && issued[|was|].bytes == a.size && a.materials == Some(issued[|was|].materials)
      && issued[a.serial.value].materials == issued[|was|].materials
  }

  lemma AccountedOnce(start: seq<Issue>, was: seq<Issue>, issued: seq<Issue>, log: seq<Answered>, a: Answered)
    requires Accounted(start, was, log) && Entered(was, issued, a)
    ensures Accounted(start, issued, log + [a])
  {
    hide Uses, Volume, Times, Total;
    forall k
      ensures Uses(issued, k) == Uses(start, k) + Times(log + [a], k)
      ensures Volume(issued, k) == Volume(start, k) + Total(log + [a], k)
    {
      OneMoreAnswer(log, a, k);
      if a.serial.Some? {
        assert issued == was + [issued[|was|]];
        OneMore(was, issued[|was|], k);
      }
    }
    forall x | x in log + [a] && x.serial.Some?
      ensures FromLedger(x, issued)
    {
      if x in log {
        assert FromLedger(x, was);
      }
    }
  }

  lemma OneMoreAnswer(log: seq<Answered>, a: Answered, k: nat)
    ensures Times(log + [a], k) == Times(log, k) + if a.serial == Some(k) then 1 else 0
    ensures Total(log + [a], k) == Total(log, k) + if a.serial == Some(k) then a.size else 0
  {
    assert (log + [a])[..|log|] == log;
  }

  // ---------- Running ----------

  method Ask(shared: SharedCache, manager: Manager, alg: nat, ctx: Context, order: seq<Pair>, size: nat,
             made: Option<EncMaterials>, clocks: Clocks, at: nat, ghost messages: nat, ghost bytes: nat)
    returns (r: Option<EncMaterials>, ghost a: Answered)
    requires manager.Valid() && manager.shared == shared && Lists(order, ctx) && at !in shared.cache.c.store
    requires IssuedBelow(shared.issued, messages, bytes)
    requires manager.limitMessages <= messages && manager.limitBytes <= bytes
    modifies shared, shared.cache
    ensures manager.Valid() && Replies(Generate(alg, ctx, order, size, made, clocks), a) && a.materials == r
    ensures Entered(old(shared.issued), shared.issued, a) && IssuedBelow(shared.issued, messages, bytes)
  {
    hide Lists, Encodable, EncId, SharedCache.Valid, Manager.Serves;
    ghost var was := shared.issued;
    var hit;
    r, hit := manager.GenerateEncMaterials(alg, ctx, order, size, made, at, clocks);
    a := Answered(r, if |shared.issued| == |was| then None else Some(shared.issued[|was|].serial), size);
  }

  method Perform(shared: SharedCache, managers: seq<Manager>, step: Step, at: nat, ghost messages: nat, ghost bytes: nat)
    returns (r: Option<EncMaterials>, ghost a: Answered)
    requires Together(shared, managers) && Legal(step, |managers|) && at !in shared.cache.c.store
    requires IssuedBelow(shared.issued, messages, bytes) && SetBelow(managers, messages, bytes) && Below(step, messages, bytes)
    modifies managers, shared, shared.cache
    ensures Together(shared, managers) && SetBelow(managers, messages, bytes)
    ensures Entered(old(shared.issued), shared.issued, a) && IssuedBelow(shared.issued, messages, bytes)
    ensures a.materials == r && Replies(step.request, a)
  {
    hide Lists, SharedCache.Valid;
    var manager := managers[step.who];
    r, a := None, Answered(None, None, 0);
    match step.request {
      case Generate(alg, ctx, order, size, made, clocks) =>
        r, a := Ask(shared, manager, alg, ctx, order, size, made, clocks, at, messages, bytes);
      case Unwrap(alg, edks, ctx, order, got, clocks) =>
        var answer, hit := manager.DecryptMaterials(alg, edks, ctx, order, got, at, clocks);
      case LimitMessages(n) => var ok := manager.SetLimitMessages(n);
      case LimitBytes(n) => var ok := manager.SetLimitBytes(n);
      case LimitAge(amount, units) => var ok := manager.SetTtl(amount, units);
    }
  }

  /**
   Any sequence of requests to any number of managers over one cache. In the answers, every cached key occurs at most
   as often and for as many octets as no limit ever exceeded, and always with the same materials.
   */
  method Replay(shared: SharedCache, managers: seq<Manager>, steps: seq<Step>, alloc: set<nat> -> nat,
                ghost messages: nat, ghost bytes: nat)
    returns (answers: seq<Option<EncMaterials>>, ghost log: seq<Answered>)
    requires Together(shared, managers) && (forall taken :: alloc(taken) !in taken)
    requires forall i :: 0 <= i < |steps| ==> Legal(steps[i], |managers|) && Below(steps[i], messages, bytes)
    requires SetBelow(managers, messages, bytes) && IssuedBelow(shared.issued, messages, bytes)
    modifies managers, shared, shared.cache
    ensures Together(shared, managers) && |answers| == |log| == |steps|
    ensures forall i :: 0 <= i < |steps| ==> log[i].materials == answers[i] && Replies(steps[i].request, log[i])
    ensures Accounted(old(shared.issued), shared.issued, log)
    ensures forall k :: Times(log, k) <= messages && Total(log, k) <= bytes
  {
    hide SharedCache.Valid, Legal, Replies, Accounted, Entered, Times, Total;
    answers, log := [], [];
    NothingYet(shared.issued);
    for i := 0 to |steps|
      invariant Together(shared, managers) && SetBelow(managers, messages, bytes)
      invariant IssuedBelow(shared.issued, messages, bytes)
      invariant |answers| == |log| == i && Accounted(old(shared.issued), shared.issued, log)
      invariant forall j :: 0 <= j < i ==> log[j].materials == answers[j] && Replies(steps[j].request, log[j])
    {
      ghost var was := shared.issued;
      var r;
      ghost var a;
      r, a := Perform(shared, managers, steps[i], alloc(shared.cache.c.store.Keys), messages, bytes);
      AccountedOnce(old(shared.issued), was, shared.issued, log, a);
      answers, log := answers + [r], log + [a];
    }
    forall k
      ensures Times(log, k) <= messages && Total(log, k) <= bytes
    {
      WithinBounds(old(shared.issued), shared, log, k, messages, bytes);
    }
  }

  lemma NothingYet(issued: seq<Issue>)
    ensures Accounted(issued, issued, [])
  {
    hide Uses, Volume;
  }

  lemma WithinBounds(start: seq<Issue>, shared: SharedCache, log: seq<Answered>, k: nat, messages: nat, bytes: nat)
    requires shared.Valid() && Accounted(start, shared.issued, log) && IssuedBelow(shared.issued, messages, bytes)
    ensures Times(log, k) <= messages && Total(log, k) <= bytes
  {
    hide Uses, Volume, Times, Total, Booked, Learned, LawfulDigest;
    KeyUseBounded(shared.issued, k, messages, bytes);
  }
}
