/** The messages of both handshakes, their postcard encoding, and the length-prefixed frames that carry them. */
module Wire {
  import opened Types

  const PROTOCOL_VERSION: byte := 0
  const CLOSE_ACCEPTED: nat := 1
  const CLOSE_DENIED: nat := 403
  const MAX_MSG: nat := 16 * 1024

  /** The protocol names of the auth connections. */
  const ALPN: Bytes := Ascii("iroh-hyde-auth/0")
  const MUTUAL_ALPN: Bytes := Ascii("iroh-hyde-auth/mutual/0")

  lemma AlpnsDiffer()
    ensures ALPN != MUTUAL_ALPN
  {
    assert |ALPN| != |MUTUAL_ALPN|;
  }

  lemma WireLiterals()
    ensures PROTOCOL_VERSION == 0 && CLOSE_ACCEPTED == 1 && CLOSE_DENIED == 403 && MAX_MSG == 16384
  {
  }

  datatype Message =
    | ClientHello(version: byte)
    | ServerChallenge(version: byte, nonce: Nonce, time: u64)
    | ClientAuth(key: Bytes, signature: Bytes, time: u64)
    | MutualHello(version: byte, nonce: Nonce)
    | MutualChallenge(version: byte, nonce: Nonce, key: Bytes, signature: Bytes, time: u64)
    | MutualResponse(key: Bytes, signature: Bytes, time: u64)

  /** Which of the six structs a reader asks for: the type parameter of `read_msg`. */
  datatype Kind = KClientHello | KServerChallenge | KClientAuth | KMutualHello | KMutualChallenge | KMutualResponse

  function KindOf(m: Message): Kind {
    match m
    case ClientHello(_) => KClientHello
    case ServerChallenge(_, _, _) => KServerChallenge
    case ClientAuth(_, _, _) => KClientAuth
    case MutualHello(_, _) => KMutualHello
    case MutualChallenge(_, _, _, _, _) => KMutualChallenge
    case MutualResponse(_, _, _) => KMutualResponse
  }

  // ---------------------------------------------------------------------------
  // Varints (Postcard Wire Format, "Varint Encoded Integers")
  // ---------------------------------------------------------------------------

  function Varint(x: nat): (b: Bytes)
    ensures |b| > 0
  {
    if x < 128 then [x] else [x % 128 + 128] + Varint(x / 128)
  }

  /** One more than the largest value a u64 varint can still add from byte `i` on ("Maximum Encoded Length"). */
  function VarintCap(i: nat): (c: nat)
    requires i <= 9
    ensures c > 0
    decreases 9 - i
  {
    if i == 9 then 2 else 128 * VarintCap(i + 1)
  }

  lemma VarintCapIsU64()
    ensures VarintCap(0) == U64_LIMIT
  {
    assert VarintCap(8) == 256;
    assert VarintCap(6) == 128 * 128 * 256;
    assert VarintCap(4) == 128 * 128 * 128 * 128 * 256;
    assert VarintCap(2) == 128 * 128 * 128 * 128 * 128 * 128 * 256;
  }

  /** Reads a u64 varint whose first `i` bytes are consumed already: its value and the bytes it takes.
      At most ten bytes, and the tenth may only be 0 or 1. Overlong encodings are accepted. */
  function TakeVarint(s: Bytes, i: nat): (r: Option<(nat, nat)>)
    requires i <= 10
    ensures r.Some? ==> i < 10 && r.value.0 < VarintCap(i) && 1 <= r.value.1 <= |s|
    decreases 10 - i
  {
    if i == 10 || s == [] then None
    else if s[0] < 128 then
      if i == 9 && s[0] > 1 then None else Some((s[0], 1))
    else
      match TakeVarint(s[1..], i + 1)
      case None => None
      case Some((v, n)) => Some((s[0] - 128 + 128 * v, n + 1))
  }

  lemma {:induction false} VarintRoundTrip(x: nat, i: nat, tail: Bytes)
    requires i < 10 && x < VarintCap(i)
    ensures TakeVarint(Varint(x) + tail, i) == Some((x, |Varint(x)|))
    decreases x
  {
    if x < 128 {
    } else {
      var low: byte := x % 128 + 128;
      assert Varint(x) + tail == [low] + (Varint(x / 128) + tail);
      VarintRoundTrip(x / 128, i + 1, tail);
    }
  }

  /** The value of a varint's bytes: seven bits each, least significant first. */
  function Groups(s: Bytes): nat {
    if s == [] then 0 else s[0] % 128 + 128 * Groups(s[1..])
  }

  /** `n` bytes of a varint stand at the start of `s`: all but the last have the high bit set. */
  predicate VarintBytes(s: Bytes, n: nat) {
    1 <= n <= |s| && s[n - 1] < 128 && forall j :: 0 <= j < n - 1 ==> s[j] >= 128
  }

  lemma GroupsOfMore(s: Bytes, n: nat)
    requires 1 <= n <= |s|
    ensures Groups(s[..n]) == s[0] % 128 + 128 * Groups(s[1..][..n - 1])
  {
    assert s[..n][1..] == s[1..][..n - 1];
  }

  lemma VarintLast(s: Bytes, i: nat, v: nat, n: nat)
    requires i < 10 && s != [] && s[0] < 128
    ensures TakeVarint(s, i) == Some((v, n))
            <==> i + n <= 10 && VarintBytes(s, n) && v == Groups(s[..n]) && (i + n == 10 ==> s[n - 1] <= 1)
  {
    assert VarintBytes(s, n) ==> n == 1;
    GroupsOfMore(s, 1);
    assert s[1..][..0] == [];
  }

  /** On arbitrary bytes: a u64 is read exactly where at most ten such bytes stand whose value fits; overlong ones count. */
  lemma {:induction false} VarintExactly(s: Bytes, i: nat, v: nat, n: nat)
    requires i <= 10
    ensures TakeVarint(s, i) == Some((v, n))
            <==> i + n <= 10 && VarintBytes(s, n) && v == Groups(s[..n]) && (i + n == 10 ==> s[n - 1] <= 1)
    decreases 10 - i
  {
    hide Groups, VarintBytes;
    if i == 10 || s == [] {
      NoVarint(s, n);
    } else if s[0] < 128 {
      VarintLast(s, i, v, n);
    } else {
      var rest := s[1..];
      if TakeVarint(rest, i + 1).Some? {
        var (w, m) := TakeVarint(rest, i + 1).value;
        VarintExactly(rest, i + 1, w, m);
        VarintRest(s, m + 1);
        GroupsOfMore(s, m + 1);
      }
      if VarintBytes(s, n) {
        NoVarint(s, n);
        VarintRest(s, n);
        NoVarint(rest, n - 1);
        GroupsOfMore(s, n);
        VarintExactly(rest, i + 1, Groups(rest[..n - 1]), n - 1);
      }
    }
  }

  lemma NoVarint(s: Bytes, n: nat)
    ensures VarintBytes(s, n) ==> 1 <= n <= |s|
  {
  }

  lemma VarintRest(s: Bytes, n: nat)
    requires s != [] && s[0] >= 128 && 1 <= n <= |s|
    ensures VarintBytes(s, n) <==> VarintBytes(s[1..], n - 1)
  {
    if VarintBytes(s[1..], n - 1) {
      forall j | 0 <= j < n - 1
        ensures s[j] >= 128
      {
        assert j > 0 ==> s[j] == s[1..][j - 1];
      }
    }
  }

  function Pow128(n: nat): (p: nat)
    ensures p > 0
  {
    if n == 0 then 1 else 128 * Pow128(n - 1)
  }

  /** A varint takes at most `n` bytes exactly for the values below 128^n. */
  lemma {:induction false} VarintLength(x: nat, n: nat)
    requires n > 0
    ensures |Varint(x)| <= n <==> x < Pow128(n)
  {
    if x < 128 || n == 1 {
    } else {
      VarintLength(x / 128, n - 1);
    }
  }

  lemma VarintLengthU64(t: u64)
    ensures |Varint(t)| <= 10
  {
    assert Pow128(2) == 0x4000;
    assert Pow128(4) == 0x4000 * 0x4000;
    assert Pow128(6) == 0x4000 * 0x4000 * 0x4000;
    assert Pow128(8) == 0x4000 * 0x4000 * 0x4000 * 0x4000;
    assert Pow128(10) == 0x4000 * 0x4000 * 0x4000 * 0x4000 * 0x4000;
    VarintLength(t, 10);
  }

  // ---------------------------------------------------------------------------
  // Messages
  // ---------------------------------------------------------------------------

  function PutBytes(b: Bytes): Bytes {
    Varint(|b|) + b
  }

  /** `postcard::to_allocvec`. */
  function Encode(m: Message): Bytes {
    match m
    case ClientHello(v) => [v]
    case ServerChallenge(v, n, t) => [v] + (n + Varint(t))
    case ClientAuth(k, s, t) => PutBytes(k) + (PutBytes(s) + Varint(t))
    case MutualHello(v, n) => [v] + n
    case MutualChallenge(v, n, k, s, t) => [v] + (n + (PutBytes(k) + (PutBytes(s) + Varint(t))))
    case MutualResponse(k, s, t) => PutBytes(k) + (PutBytes(s) + Varint(t))
  }

  function TakeU64(s: Bytes): (r: Option<u64>)
    ensures r.Some? <==> TakeVarint(s, 0).Some?
    ensures r.Some? ==> r.value == TakeVarint(s, 0).value.0
  {
    VarintCapIsU64();
    match TakeVarint(s, 0)
    case None => None
    case Some((v, _)) => Some(v)
  }

  /** A length-prefixed byte vector and what follows it. */
  function TakeBytes(s: Bytes): Option<(Bytes, Bytes)> {
    match TakeVarint(s, 0)
    case None => None
    case Some((len, n)) => if len > |s| - n then None else Some((s[n..n + len], s[n + len..]))
  }

  function TakeAssertion(s: Bytes): Option<(Bytes, Bytes, u64)> {
    match TakeBytes(s)
    case None => None
    case Some((k, s1)) =>
      match TakeBytes(s1)
      case None => None
      case Some((g, s2)) =>
        match TakeU64(s2)
        case None => None
        case Some(t) => Some((k, g, t))
  }

  function TakeServerChallenge(s: Bytes): (r: Option<Message>)
    ensures r.Some? ==> r.value.ServerChallenge?
  {
    if |s| < 33 then None
    else match TakeU64(s[33..])
      case None => None
      case Some(t) => Some(ServerChallenge(s[0], s[1..33], t))
  }

  function TakeMutualChallenge(s: Bytes): (r: Option<Message>)
    ensures r.Some? ==> r.value.MutualChallenge?
  {
    if |s| < 33 then None
    else match TakeAssertion(s[33..])
      case None => None
      case Some((k, g, t)) => Some(MutualChallenge(s[0], s[1..33], k, g, t))
  }

  function TakeClientAuth(s: Bytes): (r: Option<Message>)
    ensures r.Some? ==> r.value.ClientAuth?
  {
    match TakeAssertion(s)
    case None => None
    case Some((k, g, t)) => Some(ClientAuth(k, g, t))
  }

  function TakeMutualResponse(s: Bytes): (r: Option<Message>)
    ensures r.Some? ==> r.value.MutualResponse?
  {
    match TakeAssertion(s)
    case None => None
    case Some((k, g, t)) => Some(MutualResponse(k, g, t))
  }

  function TakeHello(kind: Kind, s: Bytes): (r: Option<Message>)
    requires kind.KClientHello? || kind.KMutualHello?
    ensures r.Some? ==> KindOf(r.value) == kind
  {
    if |s| < (if kind.KClientHello? then 1 else 33) then None
    else if kind.KClientHello? then Some(ClientHello(s[0]))
    else Some(MutualHello(s[0], s[1..33]))
  }

  /** `postcard::from_bytes`: unused trailing bytes are ignored. */
  function Decode(kind: Kind, s: Bytes): (r: Option<Message>)
    ensures r.Some? ==> KindOf(r.value) == kind
  {
    match kind
    case KClientHello => TakeHello(kind, s)
    case KMutualHello => TakeHello(kind, s)
    case KServerChallenge => TakeServerChallenge(s)
    case KMutualChallenge => TakeMutualChallenge(s)
    case KClientAuth => TakeClientAuth(s)
    case KMutualResponse => TakeMutualResponse(s)
  }

  /** Where each field of an encoding stands, in the order of the struct. */
  lemma EncodeFields(m: Message)
    ensures var e := Encode(m);
            match m
            case ClientHello(v) => |e| == 1 && e[0] == v
            case ServerChallenge(v, n, t) => |e| > 33 && e[0] == v && e[1..33] == n && e[33..] == Varint(t)
            case MutualHello(v, n) => |e| == 33 && e[0] == v && e[1..] == n
            case ClientAuth(k, s, t) => AssertionFields(e, k, s, t)
            case MutualResponse(k, s, t) => AssertionFields(e, k, s, t)
            case MutualChallenge(v, n, k, s, t) => |e| > 33 && e[0] == v && e[1..33] == n && AssertionFields(e[33..], k, s, t)
  {
    match m
    case ServerChallenge(v, n, t) => assert Encode(m)[1..33] == n;
    case ClientAuth(k, s, t) => AssertionStands(k, s, t);
    case MutualResponse(k, s, t) => AssertionStands(k, s, t);
    case MutualChallenge(v, n, k, s, t) =>
      AssertionStands(k, s, t);
      HeaderSplits(v, n, PutBytes(k) + (PutBytes(s) + Varint(t)), []);
      assert [v] + (n + (PutBytes(k) + (PutBytes(s) + Varint(t)))) + [] == Encode(m);
      assert (PutBytes(k) + (PutBytes(s) + Varint(t))) + [] == PutBytes(k) + (PutBytes(s) + Varint(t));
    case _ =>
  }

  /** Key, signature and time of an assertion: a length, the bytes, a length, the bytes, the time. */
  predicate AssertionFields(e: Bytes, key: Bytes, signature: Bytes, time: u64) {
    var k := |Varint(|key|)|;
    var s := k + |key| + |Varint(|signature|)|;
    && |e| > s + |signature|
    && e[..k] == Varint(|key|) && e[k..k + |key|] == key
    && e[k + |key|..s] == Varint(|signature|) && e[s..s + |signature|] == signature
    && e[s + |signature|..] == Varint(time)
  }

  lemma AssertionStands(key: Bytes, signature: Bytes, time: u64)
    ensures AssertionFields(PutBytes(key) + (PutBytes(signature) + Varint(time)), key, signature, time)
  {
    hide Varint;
  }

  lemma TakeBytesRoundTrip(b: Bytes, tail: Bytes)
    requires |b| < U64_LIMIT
    ensures TakeBytes(PutBytes(b) + tail) == Some((b, tail))
  {
    VarintCapIsU64();
    var s := PutBytes(b) + tail;
    assert s == Varint(|b|) + (b + tail);
    VarintRoundTrip(|b|, 0, b + tail);
    var n := |Varint(|b|)|;
    assert s[n..n + |b|] == b;
    assert s[n + |b|..] == tail;
  }

  lemma TakeU64RoundTrip(t: u64, tail: Bytes)
    ensures TakeU64(Varint(t) + tail) == Some(t)
  {
    VarintCapIsU64();
    VarintRoundTrip(t, 0, tail);
  }

  lemma TakeAssertionRoundTrip(k: Bytes, g: Bytes, t: u64, tail: Bytes)
    requires |k| < U64_LIMIT && |g| < U64_LIMIT
    ensures TakeAssertion(PutBytes(k) + (PutBytes(g) + Varint(t)) + tail) == Some((k, g, t))
  {
    var rest := PutBytes(g) + (Varint(t) + tail);
    assert PutBytes(k) + (PutBytes(g) + Varint(t)) + tail == PutBytes(k) + rest;
    TakeBytesRoundTrip(k, rest);
    TakeBytesRoundTrip(g, Varint(t) + tail);
    TakeU64RoundTrip(t, tail);
  }

  lemma HeaderSplits(v: byte, n: Nonce, body: Bytes, tail: Bytes)
    ensures var s := [v] + (n + body) + tail; |s| >= 33 && s[0] == v && s[1..33] == n && s[33..] == body + tail
  {
  }

  lemma DecodeServerChallenge(m: Message, tail: Bytes)
    requires m.ServerChallenge?
    ensures Decode(KServerChallenge, Encode(m) + tail) == Some(m)
  {
    HeaderSplits(m.version, m.nonce, Varint(m.time), tail);
    TakeU64RoundTrip(m.time, tail);
    hide TakeU64, Varint;
  }

  lemma DecodeMutualChallenge(m: Message, tail: Bytes)
    requires m.MutualChallenge? && |m.key| < U64_LIMIT && |m.signature| < U64_LIMIT
    ensures Decode(KMutualChallenge, Encode(m) + tail) == Some(m)
  {
    hide TakeAssertion, Varint, PutBytes;
    HeaderSplits(m.version, m.nonce, PutBytes(m.key) + (PutBytes(m.signature) + Varint(m.time)), tail);
    TakeAssertionRoundTrip(m.key, m.signature, m.time, tail);
  }

  lemma DecodeProof(m: Message, tail: Bytes)
    requires (m.ClientAuth? || m.MutualResponse?) && |m.key| < U64_LIMIT && |m.signature| < U64_LIMIT
    ensures Decode(KindOf(m), Encode(m) + tail) == Some(m)
  {
    hide TakeAssertion, Varint, PutBytes;
    TakeAssertionRoundTrip(m.key, m.signature, m.time, tail);
  }

  lemma DecodeHello(m: Message, tail: Bytes)
    requires m.ClientHello? || m.MutualHello?
    ensures Decode(KindOf(m), Encode(m) + tail) == Some(m)
  {
    if m.MutualHello? {
      assert (Encode(m) + tail)[1..33] == m.nonce;
    }
  }

  lemma EncodedFieldsAreShort(m: Message)
    requires |Encode(m)| < U64_LIMIT
    ensures m.MutualChallenge? || m.ClientAuth? || m.MutualResponse? ==>
              |m.key| < U64_LIMIT && |m.signature| < U64_LIMIT
  {
  }

  /** Decoding an encoded message as its own type gives it back, whatever follows. */
  lemma DecodeEncode(m: Message, tail: Bytes)
    requires |Encode(m)| < U64_LIMIT
    ensures Decode(KindOf(m), Encode(m) + tail) == Some(m)
  {
    EncodedFieldsAreShort(m);
    hide Decode, Encode;
    match m
    case ClientHello(_) => DecodeHello(m, tail);
    case MutualHello(_, _) => DecodeHello(m, tail);
    case ServerChallenge(_, _, _) => DecodeServerChallenge(m, tail);
    case MutualChallenge(_, _, _, _, _) => DecodeMutualChallenge(m, tail);
    case ClientAuth(_, _, _) => DecodeProof(m, tail);
    case MutualResponse(_, _, _) => DecodeProof(m, tail);
  }

  /** The bytes of a mutual challenge besides the key and the signature. */
  function ChallengeOverhead(key: Bytes, signature: Bytes): nat {
    33 + |Varint(|key|)| + |Varint(|signature|)|
  }

  /** A mutual challenge fits `MAX_MSG` for every timestamp exactly when key, signature and their
      length prefixes leave the ten bytes the largest timestamp takes. */
  lemma ChallengeFits(nonce: Nonce, key: Bytes, signature: Bytes)
    ensures (forall t: u64 :: |Encode(MutualChallenge(PROTOCOL_VERSION, nonce, key, signature, t))| <= MAX_MSG)
            <==> |key| + |signature| + ChallengeOverhead(key, signature) + 10 <= MAX_MSG
  {
    forall t: u64
      ensures |Encode(MutualChallenge(PROTOCOL_VERSION, nonce, key, signature, t))|
              == |key| + |signature| + ChallengeOverhead(key, signature) + |Varint(t)|
      ensures |Varint(t)| <= 10
    {
      VarintLengthU64(t);
    }
    var last: u64 := 0xFFFF_FFFF_FFFF_FFFF;
    assert Pow128(3) == 0x20_0000 && Pow128(6) == 0x20_0000 * 0x20_0000;
    assert Pow128(9) == 0x20_0000 * 0x20_0000 * 0x20_0000;
    VarintLength(last, 9);
    assert |Varint(last)| == 10;
    assert |Encode(MutualChallenge(PROTOCOL_VERSION, nonce, key, signature, last))|
           == |key| + |signature| + ChallengeOverhead(key, signature) + 10;
  }

  /** The bound the size constant was chosen for: 16337 bytes of key and signature always fit, and
      no larger total is safe once both are long enough to need two-byte prefixes. */
  lemma ChallengeSizeBound(nonce: Nonce, key: Bytes, signature: Bytes)
    ensures |key| + |signature| <= 16337 ==>
              forall t: u64 :: |Encode(MutualChallenge(PROTOCOL_VERSION, nonce, key, signature, t))| <= MAX_MSG
    ensures |key| + |signature| > 16337 && |key| >= 128 && |signature| >= 128 ==>
              exists t: u64 :: |Encode(MutualChallenge(PROTOCOL_VERSION, nonce, key, signature, t))| > MAX_MSG
  {
    assert Pow128(1) == 128 && Pow128(2) == 16384;
    VarintLength(|key|, 1);
    VarintLength(|key|, 2);
    VarintLength(|signature|, 1);
    VarintLength(|signature|, 2);
    ChallengeFits(nonce, key, signature);
  }

  // ---------------------------------------------------------------------------
  // Frames
  // ---------------------------------------------------------------------------

  /** What `write_msg` puts on the stream. */
  function Frame(m: Message): (f: Bytes)
    requires |Encode(m)| < U32_LIMIT
    ensures |f| == 4 + |Encode(m)|
  {
    BigEndian(|Encode(m)|, 4) + Encode(m)
  }

  /** What `read_msg` makes of the bytes that have arrived so far. */
  datatype Read = NeedMore | Got(message: Message, consumed: nat) | Bad(error: Error)

  function ReadFrame(kind: Kind, s: Bytes, max: nat): (r: Read)
    ensures r.Got? ==> 4 <= r.consumed <= |s| && KindOf(r.message) == kind
  {
    if |s| < 4 then NeedMore else
      var len := FromBigEndian(s[..4]);
      if len > max then Bad(MessageTooLarge(len))
      else if |s| < 4 + len then NeedMore
      else match Decode(kind, s[4..4 + len])
        case None => Bad(Codec)
        case Some(m) => Got(m, 4 + len)
  }

  /** What a reader makes of any bytes: four of length, most significant first, then the body. */
  lemma ReadFrameExactly(kind: Kind, s: Bytes, max: nat)
    ensures |s| < 4 ==> ReadFrame(kind, s, max).NeedMore?
    ensures |s| >= 4 ==>
              var len := (s[0] as int) * 0x100_0000 + (s[1] as int) * 0x1_0000 + (s[2] as int) * 0x100 + s[3] as int;
              && (ReadFrame(kind, s, max) == Bad(MessageTooLarge(len)) <==> len > max)
              && (ReadFrame(kind, s, max).NeedMore? <==> len <= max && |s| < 4 + len)
              && (ReadFrame(kind, s, max) == Bad(Codec) <==> len <= max && 4 + len <= |s| && Decode(kind, s[4..4 + len]).None?)
              && (forall m :: ReadFrame(kind, s, max) == Got(m, 4 + len)
                              <==> len <= max && 4 + len <= |s| && Decode(kind, s[4..4 + len]) == Some(m))
  {
    hide Decode;
    if |s| >= 4 {
      FromBigEndianBytes(s[..4]);
    }
  }

  /** What the reader of a whole message returns for each. */
  lemma ReadResultExactly(r: Read)
    ensures r.Got? ==> ReadResult(r) == Ok(r.message)
    ensures r.Bad? ==> ReadResult(r) == Err(r.error)
    ensures r.NeedMore? ==> ReadResult(r) == Err(Transport)
  {
  }

  /** A frame is read back as the message it carries, or refused for its size, whatever follows it. */
  lemma FrameRoundTrip(m: Message, tail: Bytes, max: nat)
    requires |Encode(m)| < U32_LIMIT
    ensures ReadFrame(KindOf(m), Frame(m) + tail, max)
            == if |Encode(m)| <= max then Got(m, |Frame(m)|) else Bad(MessageTooLarge(|Encode(m)|))
  {
    var body := Encode(m);
    var s := Frame(m) + tail;
    Pow256Words();
    assert s[..4] == BigEndian(|body|, 4);
    BigEndianRoundTrip(|body|, 4);
    assert s[4..4 + |body|] == body + [];
    DecodeEncode(m, []);
  }

  /** Until a whole frame has arrived, the reader waits or refuses its size: never a message too early. */
  lemma FramePrefix(m: Message, n: nat, max: nat)
    requires |Encode(m)| < U32_LIMIT && n < |Frame(m)|
    ensures ReadFrame(KindOf(m), Frame(m)[..n], max)
            == if n < 4 || |Encode(m)| <= max then NeedMore else Bad(MessageTooLarge(|Encode(m)|))
  {
    if n >= 4 {
      Pow256Words();
      assert Frame(m)[..n][..4] == BigEndian(|Encode(m)|, 4);
      BigEndianRoundTrip(|Encode(m)|, 4);
    }
  }

  /** A decision, once made, does not change when more bytes arrive. */
  lemma ReadFrameStable(kind: Kind, s: Bytes, more: Bytes, max: nat)
    requires !ReadFrame(kind, s, max).NeedMore?
    ensures ReadFrame(kind, s + more, max) == ReadFrame(kind, s, max)
  {
    assert (s + more)[..4] == s[..4];
    var len := FromBigEndian(s[..4]);
    if len <= max {
      assert (s + more)[4..4 + len] == s[4..4 + len];
    }
  }

  ghost predicate Sendable(ms: seq<Message>, max: nat) {
    forall i :: 0 <= i < |ms| ==> |Encode(ms[i])| <= max && |Encode(ms[i])| < U32_LIMIT
  }

  function Frames(ms: seq<Message>): Bytes
    requires forall i :: 0 <= i < |ms| ==> |Encode(ms[i])| < U32_LIMIT
  {
    if ms == [] then [] else Frame(ms[0]) + Frames(ms[1..])
  }

  /** Reads one message of each kind in turn; the messages and the unread rest, or nothing if a read does not succeed. */
  function ReadFrames(kinds: seq<Kind>, s: Bytes, max: nat): Option<(seq<Message>, Bytes)> {
    if kinds == [] then Some(([], s))
    else match ReadFrame(kinds[0], s, max)
      case Got(m, n) =>
        (match ReadFrames(kinds[1..], s[n..], max)
         case None => None
         case Some((ms, rest)) => Some(([m] + ms, rest)))
      case _ => None
  }

  function Kinds(ms: seq<Message>): (ks: seq<Kind>)
    ensures |ks| == |ms|
    ensures forall i :: 0 <= i < |ms| ==> ks[i] == KindOf(ms[i])
  {
    seq(|ms|, i requires 0 <= i < |ms| => KindOf(ms[i]))
  }

  lemma ReadFramesStep(kinds: seq<Kind>, s: Bytes, max: nat, m: Message, rest: Bytes)
    requires kinds != [] && ReadFrame(kinds[0], s, max).Got? && ReadFrame(kinds[0], s, max).message == m
    requires s[ReadFrame(kinds[0], s, max).consumed..] == rest
    ensures ReadFrames(kinds[1..], rest, max).Some? ==>
              var r := ReadFrames(kinds[1..], rest, max).value; ReadFrames(kinds, s, max) == Some(([m] + r.0, r.1))
  {
    hide ReadFrame;
  }

  lemma ReadNoFrames(s: Bytes, max: nat)
    ensures ReadFrames([], s, max) == Some(([], s))
  {
  }

  /** A stream of frames of any mix of types is read back exactly, consuming exactly its bytes. */
  lemma {:induction false} StreamRoundTrip(ms: seq<Message>, tail: Bytes, max: nat)
    requires Sendable(ms, max)
    ensures ReadFrames(Kinds(ms), Frames(ms) + tail, max) == Some((ms, tail))
  {
    hide Frame, ReadFrame, Encode, ReadFrames;
    if ms == [] {
      assert Frames(ms) + tail == tail;
      ReadNoFrames(tail, max);
    } else {
      var rest := Frames(ms[1..]) + tail;
      assert Frames(ms) + tail == Frame(ms[0]) + rest;
      FrameRoundTrip(ms[0], rest, max);
      assert (Frame(ms[0]) + rest)[|Frame(ms[0])|..] == rest;
      assert Kinds(ms)[1..] == Kinds(ms[1..]);
      StreamRoundTrip(ms[1..], tail, max);
      ReadFramesStep(Kinds(ms), Frame(ms[0]) + rest, max, ms[0], rest);
      assert [ms[0]] + ms[1..] == ms;
    }
  }

  // ---------------------------------------------------------------------------
  // Streams
  // ---------------------------------------------------------------------------

  /** The sending half of a stream: everything written to it so far. */
  class SendStream {
    var sent: Bytes

    constructor ()
      ensures sent == []
    {
      sent := [];
    }

    method WriteAll(b: Bytes)
      modifies this
      ensures sent == old(sent) + b
    {
      sent := sent + b;
    }
  }

  /** The receiving half: the bytes the peer sends that are not read yet. Past them the stream has ended. */
  class RecvStream {
    var rest: Bytes

    constructor (bytes: Bytes)
      ensures rest == bytes
    {
      rest := bytes;
    }

    /** Fills a buffer of `n` bytes; at the end of the stream what was left is consumed and the read fails. */
    method ReadExact(n: nat) returns (r: Result<Bytes>)
      modifies this
      ensures n <= |old(rest)| ==> r == Ok(old(rest)[..n]) && rest == old(rest)[n..]
      ensures n > |old(rest)| ==> r == Err(Transport) && rest == []
    {
      if n > |rest| {
        rest := [];
        return Err(Transport);
      }
      r := Ok(rest[..n]);
      rest := rest[n..];
    }
  }

  method WriteMsg(send: SendStream, m: Message) returns (r: AuthResult)
    modifies send
    ensures |Encode(m)| < U32_LIMIT ==> r == Ok(()) && send.sent == old(send.sent) + Frame(m)
    ensures |Encode(m)| >= U32_LIMIT ==> r == Err(MessageTooLarge(|Encode(m)|)) && send.sent == old(send.sent)
  {
    var bytes := Encode(m);
    if |bytes| >= U32_LIMIT {
      return Err(MessageTooLarge(|bytes|));
    }
    send.WriteAll(BigEndian(|bytes|, 4));
    send.WriteAll(bytes);
    assert old(send.sent) + BigEndian(|bytes|, 4) + bytes == old(send.sent) + Frame(m);
    r := Ok(());
  }

  /** What a reader that waits for the whole message gets from everything the peer sends. */
  function ReadResult(r: Read): Result<Message> {
    match r
    case Got(m, _) => Ok(m)
    case Bad(e) => Err(e)
    case NeedMore => Err(Transport)
  }

  method ReadMsg(recv: RecvStream, kind: Kind, max: nat) returns (r: Result<Message>)
    modifies recv
    ensures r == ReadResult(ReadFrame(kind, old(recv.rest), max))
    ensures var d := ReadFrame(kind, old(recv.rest), max); d.Got? ==> recv.rest == old(recv.rest)[d.consumed..]
  {
    hide Decode;
    ghost var s := recv.rest;
    var prefix := recv.ReadExact(4);
    if prefix.Err? {
      return Err(prefix.error);
    }
    var len := FromBigEndian(prefix.value);
    if len > max {
      return Err(MessageTooLarge(len));
    }
    var body := recv.ReadExact(len);
    if body.Err? {
      return Err(body.error);
    }
    assert body.value == s[4..4 + len];
    match Decode(kind, body.value)
    case None => r := Err(Codec);
    case Some(m) => r := Ok(m);
  }
}
