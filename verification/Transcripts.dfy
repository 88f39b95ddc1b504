/** The byte strings the institutional keys sign, and what their bytes determine. */
module Transcripts {
  import opened Types
  import opened Wire

  const ROLE_INITIATOR: byte := 1
  const ROLE_ACCEPTOR: byte := 2

  const DOMAIN: Bytes := Ascii("iroh-hyde-auth/v0/institutional-challenge")
  const DOMAIN_MUTUAL: Bytes := Ascii("iroh-hyde-auth/v0/mutual-challenge")

  function Transcript(nonce: Nonce, id: Id, time: u64): Bytes {
    DOMAIN + [PROTOCOL_VERSION] + nonce + id.bytes + BigEndian(time, 8)
  }

  function MutualTranscript(role: byte, nonce: Nonce, id: Id, time: u64): Bytes {
    DOMAIN_MUTUAL + [PROTOCOL_VERSION, role] + nonce + id.bytes + BigEndian(time, 8)
  }

  /** What a signature asserts: an endpoint id, bound to a peer's nonce and a time, in one mode (and role). */
  datatype Statement =
    | OneWay(nonce: Nonce, id: Id, time: u64)
    | Mutual(role: byte, nonce: Nonce, id: Id, time: u64)

  function StatementBytes(s: Statement): Bytes {
    match s
    case OneWay(n, id, t) => Transcript(n, id, t)
    case Mutual(role, n, id, t) => MutualTranscript(role, n, id, t)
  }

  lemma BigEndianU64Injective(a: u64, b: u64)
    ensures BigEndian(a, 8) == BigEndian(b, 8) ==> a == b
  {
    Pow256Words();
    BigEndianRoundTrip(a, 8);
    BigEndianRoundTrip(b, 8);
  }

  /** Where each byte of a transcript stands: tag, version, role (mutual), nonce, endpoint id, time. */
  lemma TranscriptFields(s: Statement)
    ensures var b := StatementBytes(s);
            && (s.OneWay? ==> |b| == 114 && b[..41] == DOMAIN && b[41] == 0 && b[42..74] == s.nonce && b[74..106] == s.id.bytes
                              && b[106..] == BigEndian(s.time, 8))
            && (s.Mutual? ==> |b| == 108 && b[..34] == DOMAIN_MUTUAL && b[34] == 0 && b[35] == s.role && b[36..68] == s.nonce
                              && b[68..100] == s.id.bytes && b[100..] == BigEndian(s.time, 8))
  {
    hide BigEndian;
    var b := StatementBytes(s);
    match s
    case OneWay(n, id, t) =>
      assert b[..41] == DOMAIN;
      assert b[42..74] == n;
      assert b[74..106] == id.bytes;
      assert b[106..] == BigEndian(t, 8);
    case Mutual(role, n, id, t) =>
      assert b[..34] == DOMAIN_MUTUAL;
      assert b[36..68] == n;
      assert b[68..100] == id.bytes;
      assert b[100..] == BigEndian(t, 8);
  }

  /** The tags begin alike, and what follows differs, byte for byte. */
  lemma TagsBeginAlike()
    ensures DOMAIN_MUTUAL[..18] == DOMAIN[..18]
    ensures DOMAIN[0] == 105 && DOMAIN[15] == 118 && DOMAIN[16] == 48
  {
    hide Ascii;
  }

  lemma OneWayTagEnds()
    ensures DOMAIN[18..] == [105, 110, 115, 116, 105, 116, 117, 116, 105, 111, 110, 97, 108, 45, 99, 104, 97, 108, 108, 101, 110, 103, 101]
  {
    hide Ascii;
  }

  lemma MutualTagEnds()
    ensures DOMAIN_MUTUAL[18..] == [109, 117, 116, 117, 97, 108, 45, 99, 104, 97, 108, 108, 101, 110, 103, 101]
    ensures ROLE_INITIATOR == 1 && ROLE_ACCEPTOR == 2
  {
    hide Ascii;
  }

  /** Signed bytes determine mode, role, nonce, endpoint id and time. */
  lemma StatementsInjective(a: Statement, b: Statement)
    requires StatementBytes(a) == StatementBytes(b)
    ensures a == b
  {
    TranscriptFields(a);
    TranscriptFields(b);
    hide StatementBytes;
    BigEndianU64Injective(a.time, b.time);
  }

  /** The domain tags alone keep the modes apart: no extension of a transcript of one mode is an
      extension of a transcript of the other, because they differ within the tags. */
  lemma ModesDisjoint(nonce: Nonce, id: Id, time: u64, role: byte, nonce': Nonce, id': Id, time': u64, more: Bytes, more': Bytes)
    ensures Transcript(nonce, id, time) + more != MutualTranscript(role, nonce', id', time') + more'
  {
    TranscriptFields(OneWay(nonce, id, time));
    TranscriptFields(Mutual(role, nonce', id', time'));
    var a, b := Transcript(nonce, id, time), MutualTranscript(role, nonce', id', time');
    assert a[..41][18] == DOMAIN[18] != DOMAIN_MUTUAL[18] == b[..34][18];
    assert (a + more)[18] == a[18] && (b + more')[18] == b[18];
  }

  /** `transcript`: appends the fields to a growing vector. */
  method BuildTranscript(nonce: Nonce, id: Id, time: u64) returns (t: Bytes)
    ensures t == StatementBytes(OneWay(nonce, id, time))
  {
    t := [];
    t := t + DOMAIN;
    t := t + [PROTOCOL_VERSION];
    t := t + nonce;
    t := t + id.bytes;
    t := t + BigEndian(time, 8);
  }

  /** `mutual_transcript`. */
  method BuildMutualTranscript(role: byte, nonce: Nonce, id: Id, time: u64) returns (t: Bytes)
    ensures t == StatementBytes(Mutual(role, nonce, id, time))
  {
    t := [];
    t := t + DOMAIN_MUTUAL;
    t := t + [PROTOCOL_VERSION];
    t := t + [role];
    t := t + nonce;
    t := t + id.bytes;
    t := t + BigEndian(time, 8);
  }
}
