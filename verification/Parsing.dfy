/** Cursor reads over octet strings: a read succeeds with the rest, lacks input, or rejects it. */
module Parsing {
  import opened Bytes

  datatype Error =
    | BadCiphertext | ShortBuffer | LimitExceeded | CryptoUnknown | BadState | UnsupportedFormat
    | CommitmentPolicyViolation | SignedMessageNotAllowed | CannotDecrypt | Unimplemented | InvalidArgument
    | OutOfMemory | CmmError

  datatype Parsed<+T> = Ok(value: T, rest: Octets) | Short | Bad(error: Error) {
    predicate IsFailure() {
      !Ok?
    }

    function PropagateFailure<U>(): Parsed<U>
      requires IsFailure()
    {
      if Short? then Short else Bad(error)
    }

    function Extract(): (T, Octets)
      requires !IsFailure()
    {
      (value, rest)
    }
  }

  function Take(s: Octets, n: nat): (r: Parsed<Octets>)
    ensures r.Ok? ==> |r.rest| <= |s|
  {
    if |s| < n then Short else Ok(s[..n], s[n..])
  }

  function TakeInt(s: Octets, width: nat): (r: Parsed<nat>)
    ensures r.Ok? ==> |r.rest| <= |s|
  {
    var (field, rest) :- Take(s, width);
    Ok(FromBigEndian(field), rest)
  }

  /**
   `later` is what `now` becomes when `more` octets follow: verdicts stay, only `Short` may change,
   and when it turns into an acceptance some of the new octets were needed for it.
   */
  ghost predicate Extends<T>(now: Parsed<T>, later: Parsed<T>, more: Octets) {
    && (now.Ok? ==> later == Ok(now.value, now.rest + more))
    && (now.Bad? ==> later == now)
    && (now.Short? && later.Ok? ==> |later.rest| < |more|)
  }

  lemma TakeExtends(s: Octets, more: Octets, n: nat)
    ensures Extends(Take(s, n), Take(s + more, n), more)
  {
    if |s| >= n {
      assert (s + more)[..n] == s[..n];
      assert (s + more)[n..] == s[n..] + more;
    }
  }

  lemma TakeIntExtends(s: Octets, more: Octets, width: nat)
    ensures Extends(TakeInt(s, width), TakeInt(s + more, width), more)
  {
    TakeExtends(s, more, width);
  }

  lemma TakeWritten(field: Octets, rest: Octets)
    ensures Take(field + rest, |field|) == Ok(field, rest)
  {
  }

  lemma TakeIntWritten(n: nat, width: nat, rest: Octets)
    requires n < Radix(width)
    ensures TakeInt(BigEndian(n, width) + rest, width) == Ok(n, rest)
  {
    TakeWritten(BigEndian(n, width), rest);
    BigEndianRoundTrip(n, width);
  }
}
