/** Both handshakes, message by message: what each side makes of what it reads, and the code that runs them.

    The two modes differ only in which messages they exchange and which statements they sign, so every
    decision is one function of the mode. */
module Handshake {
  import opened Types
  import opened Wire
  import opened Transcripts
  import opened Verifier

  datatype Mode = OneWayAuth | MutualAuth

  /** What an endpoint is set up with in one mode: the institutional key it signs with, the roster it verifies
      against, and its acceptor side's freshness window. */
  datatype Settings = Settings(key: Bytes, roster: Keys, maxSkew: Option<u64>)

  /** An endpoint running the protocol, in both modes. */
  datatype Party = Party(id: Id, oneWay: Settings, mutual: Settings) {
    function For(mode: Mode): Settings {
      if mode.OneWayAuth? then oneWay else mutual
    }
  }

  /** The mutual initiator's freshness window: the default, which nothing changes. */
  const INITIATOR_MAX_SKEW: Option<u64> := Some(300)

  /** The signature scheme, ideally: `signature` verifies on `message` under `key`. */
  datatype Sig = Sig(key: Bytes, message: Bytes, signature: Bytes)

  function Verify(roster: Keys, sigs: set<Sig>, key: Bytes, statement: Statement, signature: Bytes): VerifyResult {
    HydeVerify(roster, key, if Sig(key, StatementBytes(statement), signature) in sigs then Valid else Invalid)
  }

  predicate Verifies(roster: Keys, sigs: set<Sig>, key: Bytes, statement: Statement, signature: Bytes) {
    Verify(roster, sigs, key, statement, signature).Trusted?
  }

  predicate InTime(max: Option<u64>, now: u64, claimed: u64) {
    max.Some? ==> AbsDiff(now, claimed) <= max.value
  }

  /** The mode whose initiator or acceptor signs a statement. */
  function ModeOf(s: Statement): Mode { if s.OneWay? then OneWayAuth else MutualAuth }

  function AuthAlpn(mode: Mode): Bytes { if mode.OneWayAuth? then ALPN else MUTUAL_ALPN }

  function HelloKind(mode: Mode): Kind { if mode.OneWayAuth? then KClientHello else KMutualHello }
  function ChallengeKind(mode: Mode): Kind { if mode.OneWayAuth? then KServerChallenge else KMutualChallenge }
  function ProofKind(mode: Mode): Kind { if mode.OneWayAuth? then KClientAuth else KMutualResponse }

  /** The greeting; only the mutual one carries a nonce. */
  function Hello(mode: Mode, nonce: Nonce): (m: Message)
    ensures KindOf(m) == HelloKind(mode) && |Encode(m)| <= 33
  {
    if mode.OneWayAuth? then ClientHello(PROTOCOL_VERSION) else MutualHello(PROTOCOL_VERSION, nonce)
  }

  /** `write_msg` refuses only what a 32-bit length cannot describe. */
  function Writable(m: Message): (r: Result<Message>)
    ensures r.Ok? <==> |Encode(m)| < U32_LIMIT
    ensures r.Ok? ==> r.value == m
  {
    if |Encode(m)| < U32_LIMIT then Ok(m) else Err(MessageTooLarge(|Encode(m)|))
  }

  /** The bytes of a message that `write_msg` accepts. */
  function Written(m: Message): Bytes {
    if |Encode(m)| < U32_LIMIT then Frame(m) else []
  }

  /** What the acceptor signs (mutual mode only). */
  function AcceptorStatement(nonce: Nonce, local: Id, now: u64): Statement {
    Mutual(ROLE_ACCEPTOR, nonce, local, now)
  }

  /** What the initiator signs for the acceptor's nonce. */
  function InitiatorStatement(mode: Mode, nonce: Nonce, local: Id, now: u64): Statement {
    if mode.OneWayAuth? then OneWay(nonce, local, now) else Mutual(ROLE_INITIATOR, nonce, local, now)
  }

  /** Whether the acceptor gets as far as asking its signer. */
  predicate AcceptorSigns(mode: Mode, local: Option<Id>, hello: Result<Message>)
    requires hello.Ok? ==> KindOf(hello.value) == HelloKind(mode)
  {
    mode.MutualAuth? && local.Some? && hello.Ok? && hello.value.version == PROTOCOL_VERSION
  }

  /** The acceptor's challenge, or why it gives up. `local` is the set-once id, read before anything else. */
  function AnswerHello(mode: Mode, me: Party, local: Option<Id>, hello: Result<Message>, nonce: Nonce, now: u64,
                       signed: Result<Bytes>): (r: Result<Message>)
    requires hello.Ok? ==> KindOf(hello.value) == HelloKind(mode)
    ensures r.Ok? ==> KindOf(r.value) == ChallengeKind(mode)
  {
    if mode.MutualAuth? && local.None? then Err(Signer)
    else
      var h :- hello;
      if h.version != PROTOCOL_VERSION then Err(Version(h.version))
      else if mode.OneWayAuth? then Writable(ServerChallenge(PROTOCOL_VERSION, nonce, now))
      else
        var signature :- signed;
        Writable(MutualChallenge(PROTOCOL_VERSION, nonce, me.mutual.key, signature, now))
  }

  /** The acceptor's judgement of the initiator's proof. The one-way acceptor compares the asserted time
      with the clock it read for its challenge, the mutual one with the clock at receipt. */
  function JudgeProof(mode: Mode, me: Party, sigs: set<Sig>, remote: Id, challenge: Message, proof: Result<Message>,
                      now: u64): (r: Result<Id>)
    requires KindOf(challenge) == ChallengeKind(mode)
    requires proof.Ok? ==> KindOf(proof.value) == ProofKind(mode)
    ensures r.Ok? ==> proof.Ok? && r.value == remote
  {
    var p :- proof;
    if !InTime(me.For(mode).maxSkew, if mode.OneWayAuth? then challenge.time else now, p.time) then Err(ClockSkew)
    else if !Verifies(me.For(mode).roster, sigs, p.key, InitiatorStatement(mode, challenge.nonce, remote, p.time), p.signature) then Err(Denied)
    else Ok(remote)
  }

  /** The initiator's judgement of the challenge; in one-way mode any challenge of the right version will do. */
  function JudgeChallenge(mode: Mode, me: Party, sigs: set<Sig>, peer: Id, nonce: Nonce, challenge: Result<Message>,
                          now: u64): (r: Result<Message>)
    requires challenge.Ok? ==> KindOf(challenge.value) == ChallengeKind(mode)
    ensures r.Ok? ==> challenge.Ok? && r.value == challenge.value
  {
    var c :- challenge;
    if c.version != PROTOCOL_VERSION then Err(Version(c.version))
    else if mode.OneWayAuth? then Ok(c)
    else if !InTime(INITIATOR_MAX_SKEW, now, c.time) then Err(ClockSkew)
    else if !Verifies(me.mutual.roster, sigs, c.key, AcceptorStatement(nonce, peer, c.time), c.signature) then Err(Denied)
    else Ok(c)
  }

  /** The initiator's proof, once its signer has answered. */
  function Prove(mode: Mode, me: Party, now: u64, signed: Result<Bytes>): (r: Result<Message>)
    ensures r.Ok? ==> KindOf(r.value) == ProofKind(mode) && signed.Ok? && |Encode(r.value)| < U32_LIMIT
    ensures r.Ok? ==> r.value.key == me.For(mode).key && r.value.signature == signed.value && r.value.time == now
  {
    var signature :- signed;
    Writable(if mode.OneWayAuth? then ClientAuth(me.oneWay.key, signature, now) else MutualResponse(me.mutual.key, signature, now))
  }

  /** The initiator's verdict from how the connection ended: an application close code (of which the code
      keeps 32 bits), or any other end. */
  function CloseVerdict(reason: Option<nat>): AuthResult {
    if reason.Some? && reason.value % U32_LIMIT == CLOSE_ACCEPTED then Ok(())
    else if reason.Some? && reason.value % U32_LIMIT == CLOSE_DENIED then Err(Denied)
    else Err(Transport)
  }

  /** An honest acceptor's close code for a judgement. */
  function CloseCode(r: Result<Id>): nat {
    if r.Ok? then CLOSE_ACCEPTED else CLOSE_DENIED
  }

  // ---------------------------------------------------------------------------
  // Whole runs of one side, over everything the peer sends
  // ---------------------------------------------------------------------------

  function ReadHello(mode: Mode, incoming: Bytes): (r: Read)
    ensures r.Got? ==> KindOf(r.message) == HelloKind(mode) && r.consumed <= |incoming|
  {
    ReadFrame(HelloKind(mode), incoming, MAX_MSG)
  }

  /** The proof that follows the greeting in what arrives. */
  function ReadProof(mode: Mode, incoming: Bytes): Result<Message> {
    if ReadHello(mode, incoming).Got?
    then ReadResult(ReadFrame(ProofKind(mode), incoming[ReadHello(mode, incoming).consumed..], MAX_MSG))
    else Err(Transport)
  }

  function AcceptorChallenge(mode: Mode, me: Party, local: Option<Id>, incoming: Bytes, nonce: Nonce, now: u64,
                             signed: Result<Bytes>): (r: Result<Message>)
    ensures r.Ok? ==> ReadHello(mode, incoming).Got? && KindOf(r.value) == ChallengeKind(mode)
  {
    AnswerHello(mode, me, local, ReadResult(ReadHello(mode, incoming)), nonce, now, signed)
  }

  /** All bytes the acceptor writes. */
  function AcceptorSends(mode: Mode, me: Party, local: Option<Id>, incoming: Bytes, nonce: Nonce, now: u64,
                         signed: Result<Bytes>): Bytes
  {
    var challenge := AcceptorChallenge(mode, me, local, incoming, nonce, now, signed);
    if challenge.Ok? then Written(challenge.value) else []
  }

  /** The acceptor's whole run: the challenge time, then the clock at receipt of the proof. */
  function AcceptorRun(mode: Mode, me: Party, local: Option<Id>, sigs: set<Sig>, remote: Id, incoming: Bytes,
                       nonce: Nonce, sent: u64, signed: Result<Bytes>, received: u64): Result<Id>
  {
    var challenge :- AcceptorChallenge(mode, me, local, incoming, nonce, sent, signed);
    JudgeProof(mode, me, sigs, remote, challenge, ReadProof(mode, incoming), received)
  }

  /** The challenge the initiator accepts, if any, in what arrives. */
  function InitiatorAccepts(mode: Mode, me: Party, sigs: set<Sig>, peer: Id, incoming: Bytes, nonce: Nonce,
                            received: u64): Result<Message>
  {
    JudgeChallenge(mode, me, sigs, peer, nonce, ReadResult(ReadFrame(ChallengeKind(mode), incoming, MAX_MSG)), received)
  }

  /** All bytes the initiator writes. */
  function InitiatorSends(mode: Mode, me: Party, sigs: set<Sig>, peer: Id, incoming: Bytes, nonce: Nonce,
                          received: u64, sent: u64, signed: Result<Bytes>): Bytes
  {
    var proof := Prove(mode, me, sent, signed);
    Written(Hello(mode, nonce))
    + if InitiatorAccepts(mode, me, sigs, peer, incoming, nonce, received).Ok? && proof.Ok? then Written(proof.value) else []
  }

  /** The initiator's whole run: the clock at receipt of the challenge, the clock it signs, and how the connection ends. */
  function InitiatorRun(mode: Mode, me: Party, sigs: set<Sig>, peer: Id, incoming: Bytes, nonce: Nonce,
                        received: u64, sent: u64, signed: Result<Bytes>, reason: Option<nat>): AuthResult
  {
    var challenge :- InitiatorAccepts(mode, me, sigs, peer, incoming, nonce, received);
    var _ :- Prove(mode, me, sent, signed);
    CloseVerdict(reason)
  }
}
