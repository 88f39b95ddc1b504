/** Who is trusted: the roster, and the two verifiers that consult it. */
module Verifier {
  import opened Types

  datatype VerifyError = UntrustedKey | BadSignature | Revoked | Crypto

  datatype VerifyResult = Trusted(institution: string) | Rejected(error: VerifyError)

  /** What the signature scheme says about a key, a message and a signature. */
  datatype CryptoOutcome = Valid | Invalid | Failed

  type Keys = map<Bytes, string>

  function Label(keys: Keys, key: Bytes): string {
    if key in keys then keys[key] else ""
  }

  /** `HydeVerifier::verify`: the roster first, then the signature. */
  function HydeVerify(keys: Keys, key: Bytes, crypto: CryptoOutcome): VerifyResult {
    if key !in keys then Rejected(UntrustedKey)
    else match crypto
      case Failed => Rejected(Crypto)
      case Invalid => Rejected(BadSignature)
      case Valid => Trusted(Label(keys, key))
  }

  /** `SshVerifier::verify`: `parses` is whether the 32 key bytes are a curve point, `strict` the
      outcome of strict ed25519 verification. */
  function SshVerify(keys: Keys, key: Bytes, signature: Bytes, parses: bool, strict: bool): VerifyResult {
    if key !in keys then Rejected(UntrustedKey)
    else if |key| != 32 || !parses then Rejected(Crypto)
    else if |signature| != 64 || !strict then Rejected(BadSignature)
    else Trusted(Label(keys, key))
  }

  /** The two backends mean the same by trusted: they agree with one ideal outcome of their scheme, on
      every input, and neither ever reports a revocation. */
  lemma BackendsAgree(keys: Keys, key: Bytes, signature: Bytes, parses: bool, strict: bool)
    ensures exists c :: HydeVerify(keys, key, c) == SshVerify(keys, key, signature, parses, strict)
                        && (c.Valid? <==> |key| == 32 && parses && |signature| == 64 && strict)
    ensures SshVerify(keys, key, signature, parses, strict).Trusted?
            <==> key in keys && |key| == 32 && parses && |signature| == 64 && strict
    ensures SshVerify(keys, key, signature, parses, strict).Trusted? ==>
              SshVerify(keys, key, signature, parses, strict) == Trusted(keys[key])
    ensures SshVerify(keys, key, signature, parses, strict) == Rejected(UntrustedKey) <==> key !in keys
    ensures SshVerify(keys, key, signature, parses, strict) == Rejected(Crypto)
            <==> key in keys && (|key| != 32 || !parses)
    ensures SshVerify(keys, key, signature, parses, strict) == Rejected(BadSignature)
            <==> key in keys && |key| == 32 && parses && (|signature| != 64 || !strict)
    ensures SshVerify(keys, key, signature, parses, strict) != Rejected(Revoked)
  {
    var c := if |key| != 32 || !parses then Failed else if |signature| != 64 || !strict then Invalid else Valid;
    assert HydeVerify(keys, key, c) == SshVerify(keys, key, signature, parses, strict);
  }

  /** What the hyde verifier says, outcome by outcome. */
  lemma HydeOutcomes(keys: Keys, key: Bytes, c: CryptoOutcome, name: string)
    ensures HydeVerify(keys, key, c) == Trusted(name) <==> key in keys && c == Valid && keys[key] == name
    ensures HydeVerify(keys, key, c) == Rejected(UntrustedKey) <==> key !in keys
    ensures HydeVerify(keys, key, c) == Rejected(BadSignature) <==> key in keys && c == Invalid
    ensures HydeVerify(keys, key, c) == Rejected(Crypto) <==> key in keys && c == Failed
  {
  }

  class Roster {
    var keys: Keys

    constructor ()
      ensures keys == map[]
    {
      keys := map[];
    }

    /** Adding a key changes the verdict on that key only, to its label; on every other it stays. */
    method Insert(key: Bytes, name: string) returns (self: Roster)
      modifies this
      ensures self == this
      ensures keys == old(keys)[key := name]
      ensures forall c :: HydeVerify(keys, key, c).Trusted? <==> c.Valid?
      ensures HydeVerify(keys, key, Valid) == Trusted(name)
      ensures forall k, c :: k != key ==> HydeVerify(keys, k, c) == HydeVerify(old(keys), k, c)
      ensures |keys| == |old(keys)| + if key in old(keys) then 0 else 1
    {
      keys := keys[key := name];
      self := this;
    }
  }
}
