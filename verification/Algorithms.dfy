/** The algorithm suite table and the commitment policies that select from it. */
module Algorithms {
  import opened Bytes
  import opened Hkdf

  const IV_LEN: nat := 12
  const TAG_LEN: nat := 16

  datatype Version = V1 | V2

  datatype Suite = Suite(
    algId: nat,
    version: Version,
    sha: Sha,
    dataKeyLen: nat,
    signatureLen: nat,
    suiteDataLen: nat,
    commitmentLen: nat)

  /** The properties of a known suite, or nothing. */
  function AlgProps(id: nat): (r: Option<Suite>)
    ensures r.Some? ==>
      && r.value.algId == id <= UINT16_MAX
      && r.value.suiteDataLen == r.value.commitmentLen == (if r.value.version.V2? then 32 else 0)
      && (IsCommitting(id) <==> r.value.version.V2?)
      && (r.value.version.V2? ==> r.value.sha == Sha512)
      && 16 <= r.value.dataKeyLen <= 32
      && r.value.signatureLen <= 103
  {
    match id
    case 0x0014 => Some(Suite(id, V1, NoSha, 16, 0, 0, 0))
    case 0x0114 => Some(Suite(id, V1, Sha256, 16, 0, 0, 0))
    case 0x0046 => Some(Suite(id, V1, NoSha, 24, 0, 0, 0))
    case 0x0146 => Some(Suite(id, V1, Sha256, 24, 0, 0, 0))
    case 0x0078 => Some(Suite(id, V1, NoSha, 32, 0, 0, 0))
    case 0x0178 => Some(Suite(id, V1, Sha256, 32, 0, 0, 0))
    case 0x0478 => Some(Suite(id, V2, Sha512, 32, 0, 32, 32))
    case 0x0214 => Some(Suite(id, V1, Sha256, 16, 71, 0, 0))
    case 0x0346 => Some(Suite(id, V1, Sha384, 24, 103, 0, 0))
    case 0x0378 => Some(Suite(id, V1, Sha384, 32, 103, 0, 0))
    case 0x0578 => Some(Suite(id, V2, Sha512, 32, 103, 32, 32))
    case _ => None
  }

  predicate IsCommitting(id: nat) {
    id == 0x0478 || id == 0x0578
  }

  function MessageIdLen(p: Suite): nat {
    if p.version.V1? then 16 else 32
  }

  /** Octets after the authenticated part of a header: IV and tag, or the tag alone. */
  function AuthTagLen(p: Suite): nat {
    if p.version.V1? then IV_LEN + TAG_LEN else TAG_LEN
  }

  datatype Policy = RequireEncryptRequireDecrypt | RequireEncryptAllowDecrypt | ForbidEncryptAllowDecrypt
                  | InvalidPolicy

  predicate AllowedForEncrypt(id: nat, policy: Policy) {
    match policy
    case RequireEncryptRequireDecrypt => IsCommitting(id)
    case RequireEncryptAllowDecrypt => IsCommitting(id)
    case ForbidEncryptAllowDecrypt => !IsCommitting(id)
    case InvalidPolicy => false
  }

  predicate AllowedForDecrypt(id: nat, policy: Policy) {
    match policy
    case RequireEncryptRequireDecrypt => IsCommitting(id)
    case RequireEncryptAllowDecrypt => true
    case ForbidEncryptAllowDecrypt => true
    case InvalidPolicy => false
  }

  predicate MustIncludeCommitment(policy: Policy) {
    policy.RequireEncryptRequireDecrypt? || policy.RequireEncryptAllowDecrypt?
  }
}
