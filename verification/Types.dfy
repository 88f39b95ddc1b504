/** Values shared by every part of the model: bytes, machine words, errors and results. */
module Types {
  type byte = x: int | 0 <= x < 256
  type Bytes = seq<byte>

  const U32_LIMIT: nat := 0x1_0000_0000
  const U64_LIMIT: nat := 0x1_0000_0000_0000_0000
  type u64 = x: int | 0 <= x < 0x1_0000_0000_0000_0000

  /** `NONCE_LEN` and `ENDPOINT_ID_LEN`: 32 bytes. */
  type Bytes32 = s: Bytes | |s| == 32 witness seq(32, i => 0)
  type Nonce = Bytes32

  /** An iroh endpoint id: the transport key's 32 bytes. */
  datatype Id = Id(bytes: Bytes32)

  datatype Option<+T> = None | Some(value: T)

  datatype Error =
    | Transport
    | Codec
    | MessageTooLarge(length: nat)
    | Version(version: byte)
    | ClockSkew
    | Signer
    | Denied
    | AuthenticatorStopped

  datatype Result<+T> = Ok(value: T) | Err(error: Error) {
    predicate IsFailure() { Err? }

    function PropagateFailure<U>(): Result<U>
      requires Err?
    {
      Err(error)
    }

    function Extract(): T
      requires Ok?
    {
      value
    }
  }

  type AuthResult = Result<()>

  /** `u64::abs_diff`. */
  function AbsDiff(a: int, b: int): (d: nat)
    ensures d == a - b || d == b - a
  {
    if a < b then b - a else a - b
  }

  /** The bytes of an ASCII literal. */
  function Ascii(s: string): (b: Bytes)
    ensures |b| == |s|
    ensures forall i :: 0 <= i < |s| ==> b[i] == (s[i] as int) % 256
  {
    seq(|s|, i requires 0 <= i < |s| => (s[i] as int) % 256)
  }

  function Pow256(n: nat): (p: nat)
    ensures p > 0
  {
    if n == 0 then 1 else 256 * Pow256(n - 1)
  }

  /** `to_be_bytes` of an unsigned integer of `width` bytes. */
  function BigEndian(x: nat, width: nat): (b: Bytes)
    ensures |b| == width
  {
    if width == 0 then [] else BigEndian(x / 256, width - 1) + [x % 256]
  }

  /** `from_be_bytes`. */
  function FromBigEndian(b: Bytes): (x: nat)
    ensures x < Pow256(|b|)
  {
    if b == [] then 0 else FromBigEndian(b[..|b| - 1]) * 256 + b[|b| - 1]
  }

  lemma {:induction false} BigEndianRoundTrip(x: nat, width: nat)
    requires x < Pow256(width)
    ensures FromBigEndian(BigEndian(x, width)) == x
  {
    if width == 0 {
    } else {
      var high := BigEndian(x / 256, width - 1);
      BigEndianRoundTrip(x / 256, width - 1);
      assert BigEndian(x, width) == high + [x % 256];
      assert (high + [x % 256])[..width - 1] == high;
    }
  }

  lemma {:induction false} BigEndianInverse(b: Bytes)
    ensures BigEndian(FromBigEndian(b), |b|) == b
  {
    if b == [] {
    } else {
      var high, low := b[..|b| - 1], b[|b| - 1];
      var x := FromBigEndian(b);
      assert x == FromBigEndian(high) * 256 + low;
      assert x / 256 == FromBigEndian(high) && x % 256 == low;
      BigEndianInverse(high);
      assert b == high + [low];
    }
  }

  /** Most significant byte first. */
  lemma BigEndianBytes(x: nat)
    requires x < U32_LIMIT
    ensures BigEndian(x, 4) == [x / 0x100_0000, x / 0x1_0000 % 256, x / 0x100 % 256, x % 256]
  {
    assert BigEndian(x, 4) == BigEndian(x / 256, 3) + [x % 256];
    assert BigEndian(x / 256, 3) == BigEndian(x / 256 / 256, 2) + [x / 256 % 256];
    assert BigEndian(x / 256 / 256, 2) == BigEndian(x / 256 / 256 / 256, 1) + [x / 256 / 256 % 256];
    assert BigEndian(x / 256 / 256 / 256, 1) == BigEndian(0, 0) + [x / 256 / 256 / 256 % 256];
  }

  lemma FromBigEndianBytes(b: Bytes)
    requires |b| == 4
    ensures FromBigEndian(b) == (b[0] as int) * 0x100_0000 + (b[1] as int) * 0x1_0000 + (b[2] as int) * 0x100 + b[3] as int
  {
    var c := b[..3];
    assert FromBigEndian(b) == FromBigEndian(c) * 256 + b[3];
    assert c[..2][..1] == [b[0]] && c[..2][1] == b[1] && c[2] == b[2];
    assert FromBigEndian(c) == FromBigEndian(c[..2]) * 256 + b[2];
    assert FromBigEndian(c[..2]) == FromBigEndian([b[0]]) * 256 + b[1];
    assert [b[0]][..0] == [];
    assert FromBigEndian([b[0]]) == FromBigEndian([]) * 256 + b[0];
  }

  lemma Pow256Words()
    ensures Pow256(4) == U32_LIMIT && Pow256(8) == U64_LIMIT
  {
    assert Pow256(2) == 0x1_0000;
    assert Pow256(4) == 0x1_0000_0000;
    assert Pow256(6) == 0x1_0000_0000_0000;
  }
}
