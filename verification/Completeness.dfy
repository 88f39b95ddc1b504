/** When honest handshakes succeed, exactly; and that the interleaved steps compute what the sequential code does. */
module Completeness {
  import opened Types
  import opened Wire
  import opened Transcripts
  import opened Handshake
  import opened Outcomes
  import opened Network
  import opened ConnInvariant
  import opened Endpoints

  // ---------------------------------------------------------------------------
  // Steps and sequential code
  // ---------------------------------------------------------------------------

  lemma HelloReadIsStable(mode: Mode, s: Bytes, more: Bytes)
    requires !ReadHello(mode, s).NeedMore?
    ensures ReadHello(mode, s + more) == ReadHello(mode, s)
  {
    ReadFrameStable(HelloKind(mode), s, more, MAX_MSG);
  }

  /** What a step puts to the signer, if the signer answers. */
  ghost function Asked(signs: Option<(Bytes, Statement, Bytes)>): seq<Bytes> {
    if signs.Some? then [StatementBytes(signs.value.1)] else []
  }

  /** An honest acceptor's step on the greeting writes and puts to its signer what the sequential handshake does, with
      anything arriving later. */
  lemma AcceptorAnswersAsTheCode(cfg: Config, sigs: set<Sig>, drawn: set<Nonce>, local: Option<Id>, k: Conn, hello: Act,
                                 more: Bytes)
    requires hello.ReceiveHello? && CanAct(cfg, drawn, local, k, hello) && k.down == []
    ensures var me := cfg.parties[k.acceptor];
            && ActOn(cfg, sigs, drawn, local, k, hello).down
               == AcceptorSends(k.mode, me, local, k.up + more, hello.nonce, hello.now, hello.signed)
            && (hello.signed.Ok? ==>
                  Asked(Signs(cfg, sigs, drawn, local, k, hello)) == AcceptorAsks(k.mode, local, k.up + more, hello.now))
  {
    hide Encode, Written, ReadFrame, StatementBytes;
    if !HelloRead(k).NeedMore? {
      HelloReadIsStable(k.mode, k.up, more);
    }
  }

  /** After its judgement an acceptor that accepts records, and only then closes with acceptance; one that refuses
      closes with denial and records nobody. */
  ghost predicate ConcludesAs(cfg: Config, sigs: set<Sig>, drawn: set<Nonce>, local: Option<Id>, k: Conn, result: Result<Id>) {
    if result.Ok? then
      && !CanAct(cfg, drawn, local, k, Conclude)
      && CanAct(cfg, drawn, local, k, RecordPeer)
      && var k' := ActOn(cfg, sigs, drawn, local, k, RecordPeer);
      && k'.acc.recorded && k'.closed == k.closed
      && CanAct(cfg, drawn, local, k', Conclude)
      && ActOn(cfg, sigs, drawn, local, k', Conclude).closed == Some(CloseCode(result))
    else
      && !CanAct(cfg, drawn, local, k, RecordPeer)
      && CanAct(cfg, drawn, local, k, Conclude)
      && ActOn(cfg, sigs, drawn, local, k, Conclude).closed == Some(CloseCode(result))
  }

  /** An honest acceptor's two readings, with anything arriving in between, are followed by recording and closing exactly
      as the sequential code has it on all the bytes received. */
  lemma AcceptorStepsRunTheCode(cfg: Config, sigs: set<Sig>, sigs': set<Sig>, drawn: set<Nonce>, drawn': set<Nonce>,
                                local: Option<Id>, k: Conn, hello: Act, more: Bytes, proof: Act)
    requires hello.ReceiveHello? && CanAct(cfg, drawn, local, k, hello) && k.acc.proof.None? && !k.acc.recorded
    requires proof.ReceiveProof?
    ensures var k1 := ActOn(cfg, sigs, drawn, local, k, hello);
            var k2 := k1.(up := k1.up + more);
            var result := AcceptorRun(k.mode, cfg.parties[k.acceptor], local, sigs', k.dialer, k.up + more,
                                      hello.nonce, hello.now, hello.signed, proof.now);
            && (k1.acc.phase.Finished? ==> result.Err? && k1.closed == Some(CloseCode(result)))
            && (CanAct(cfg, drawn', local, k2, proof) ==>
                  var k3 := ActOn(cfg, sigs', drawn', local, k2, proof);
                  && k3.closed == k.closed && !k3.acc.recorded
                  && ConcludesAs(cfg, sigs', drawn', local, k3, result))
  {
    hide Encode, Written, ReadFrame, JudgeProof;
    if !HelloRead(k).NeedMore? {
      HelloReadIsStable(k.mode, k.up, more);
    }
  }

  lemma ReadIsExact(kind: Kind, s: Bytes, max: nat)
    requires ReadFrame(kind, s, max).Got?
    ensures ReadFrame(kind, s[..ReadFrame(kind, s, max).consumed], max) == ReadFrame(kind, s, max)
  {
    hide Decode, FromBigEndian;
    var n := ReadFrame(kind, s, max).consumed;
    var read := s[..n];
    assert n == 4 + FromBigEndian(s[..4]);
    assert read[..4] == s[..4];
    assert read[4..n] == s[4..n];
  }

  lemma NoProofNoAcceptance(mode: Mode, me: Party, local: Option<Id>, sigs: set<Sig>, remote: Id, incoming: Bytes,
                            nonce: Nonce, sent: u64, signed: Result<Bytes>, received: u64)
    requires ReadProof(mode, incoming).Err?
    ensures AcceptorRun(mode, me, local, sigs, remote, incoming, nonce, sent, signed, received).Err?
  {
    hide ReadProof;
  }

  /** An acceptor that fails before it has read a whole proof closes as the sequential handshake does when the connection
      ends after the bytes it has read, and records nobody. */
  lemma AcceptorFailsAsTheCode(cfg: Config, sigs: set<Sig>, sigs': set<Sig>, drawn: set<Nonce>, drawn': set<Nonce>,
                               local: Option<Id>, k: Conn, hello: Act, more: Bytes, broken: bool, received: u64)
    requires hello.ReceiveHello? && CanAct(cfg, drawn, local, k, hello) && !k.acc.recorded
    ensures CanAct(cfg, drawn', local, k, AcceptorFails) ==>
              var k' := ActOn(cfg, sigs', drawn', local, k, AcceptorFails);
              !k'.acc.recorded && k'.closed == Some(CloseCode(AcceptorRun(k.mode, cfg.parties[k.acceptor], local, sigs', k.dialer, [],
                                                                          hello.nonce, hello.now, hello.signed, received)))
    ensures var k1 := ActOn(cfg, sigs, drawn, local, k, hello);
            var k2 := k1.(up := k1.up + more, broken := broken);
            k1.acc.phase.AwaitProof? && CanAct(cfg, drawn', local, k2, AcceptorFails) ==>
              var k' := ActOn(cfg, sigs', drawn', local, k2, AcceptorFails);
              && k2.acc.pos <= |k2.up| && !k'.acc.recorded
              && k'.closed == Some(CloseCode(AcceptorRun(k.mode, cfg.parties[k.acceptor], local, sigs', k.dialer, k2.up[..k2.acc.pos],
                                                         hello.nonce, hello.now, hello.signed, received)))
  {
    hide Encode, Written, AcceptorRun, AnswerHello, ReadFrame;
    var me := cfg.parties[k.acceptor];
    ReadNothing(HelloKind(k.mode), []);
    NoProofNoAcceptance(k.mode, me, local, sigs', k.dialer, [], hello.nonce, hello.now, hello.signed, received);
    if HelloRead(k).Got? {
      var read := (k.up + more)[..HelloRead(k).consumed];
      assert read == k.up[..HelloRead(k).consumed];
      ReadIsExact(HelloKind(k.mode), k.up, MAX_MSG);
      assert read[HelloRead(k).consumed..] == [];
      ReadNothing(ProofKind(k.mode), []);
      NoProofNoAcceptance(k.mode, me, local, sigs', k.dialer, read, hello.nonce, hello.now, hello.signed, received);
    }
  }

  /** How the connection stands when the initiator has taken the challenge and more has happened to it. */
  function Later(k: Conn, more: Bytes, reason: Option<nat>, broken: bool): Conn {
    k.(down := k.down + more, closed := reason, broken := broken)
  }

  lemma ChallengeReadIsStable(k: Conn, more: Bytes)
    requires !ChallengeRead(k).NeedMore?
    ensures ReadFrame(ChallengeKind(k.mode), k.down + more, MAX_MSG) == ChallengeRead(k)
  {
    ReadFrameStable(ChallengeKind(k.mode), k.down, more, MAX_MSG);
  }

  /** An honest initiator's steps, from its greeting on and with anything arriving in between, write, put to the signer
      and return what the sequential handshake does on all the bytes received and however the connection ends. */
  lemma InitiatorStepsRunTheCode(cfg: Config, sigs: set<Sig>, drawn: set<Nonce>, drawn': set<Nonce>, local: Option<Id>,
                                 k: Conn, challenge: Act, more: Bytes, reason: Option<nat>, broken: bool)
    requires k.ini.phase.AwaitChallenge? && k.up == Written(Hello(k.mode, k.ini.nonce))
    requires challenge.ReceiveChallenge? && CanAct(cfg, drawn, local, k, challenge)
    ensures var me, nonce, c := cfg.parties[k.dialer], k.ini.nonce, challenge;
            var k1 := ActOn(cfg, sigs, drawn, local, k, c);
            var k2 := Later(k1, more, reason, broken);
            && k1.up == InitiatorSends(k.mode, me, sigs, k.acceptor, k.down + more, nonce, c.now, c.time, c.signed)
            && (c.signed.Ok? ==> Asked(Signs(cfg, sigs, drawn, local, k, c))
                                 == InitiatorAsks(k.mode, me, sigs, k.acceptor, k.down + more, nonce, c.now, c.time))
            && (k1.ini.phase.Returned? ==>
                  k1.ini.result
                  == InitiatorRun(k.mode, me, sigs, k.acceptor, k.down + more, nonce, c.now, c.time, c.signed, reason))
            && (CanAct(cfg, drawn', local, k2, Learn) ==>
                  ActOn(cfg, sigs, drawn', local, k2, Learn).ini.result
                  == InitiatorRun(k.mode, me, sigs, k.acceptor, k.down + more, nonce, c.now, c.time, c.signed, reason))
            && (CanAct(cfg, drawn', local, k2, InitiatorFails) ==>
                  ActOn(cfg, sigs, drawn', local, k2, InitiatorFails).ini.result
                  == InitiatorRun(k.mode, me, sigs, k.acceptor, k.down + more, nonce, c.now, c.time, c.signed, None))
  {
    hide Encode, Written, ReadFrame, JudgeChallenge, StatementBytes;
    ChallengeReadIsStable(k, more);
  }

  /** Its greeting is what the code writes first; and if it fails before it has a challenge, it returns what the code
      does when the connection ends before one has arrived. */
  lemma InitiatorStartsAsTheCode(cfg: Config, sigs: set<Sig>, drawn: set<Nonce>, local: Option<Id>, k: Conn, a: Act,
                                 now: u64, time: u64, signed: Result<Bytes>, reason: Option<nat>)
    requires CanAct(cfg, drawn, local, k, a) && k.ini.proof.None?
    ensures a.Greet? ==> var k' := ActOn(cfg, sigs, drawn, local, k, a);
                         k'.up == Written(Hello(k.mode, k'.ini.nonce)) && k'.ini.nonce == a.nonce && k'.ini.phase.AwaitChallenge?
    ensures a.InitiatorFails? && (k.ini.phase.Dialing? || k.ini.phase.AwaitChallenge?) ==>
              ActOn(cfg, sigs, drawn, local, k, a).ini.result
              == InitiatorRun(k.mode, cfg.parties[k.dialer], sigs, k.acceptor, [], k.ini.nonce, now, time, signed, reason)
  {
    hide Encode, Written, JudgeChallenge;
    ReadNothing(ChallengeKind(k.mode), []);
    if a.InitiatorFails? {
      JudgeNothing(k.mode, cfg.parties[k.dialer], sigs, k.acceptor, k.ini.nonce, now);
    }
  }

  lemma JudgeNothing(mode: Mode, me: Party, sigs: set<Sig>, peer: Id, nonce: Nonce, now: u64)
    ensures JudgeChallenge(mode, me, sigs, peer, nonce, Err(Transport), now) == Err(Transport)
  {
  }

  // ---------------------------------------------------------------------------
  // The honest run
  // ---------------------------------------------------------------------------

  /** Everything two honest endpoints bring to one run: nonces, signatures, and the four clock readings. */
  datatype Inputs = Inputs(nonceA: Nonce, nonceB: Nonce, sigA: Bytes, sigB: Bytes,
                           challengedAt: u64, seenAt: u64, provedAt: u64, receivedAt: u64)

  function ChallengeOf(mode: Mode, b: Party, x: Inputs): (m: Message)
    ensures KindOf(m) == ChallengeKind(mode)
  {
    if mode.OneWayAuth? then ServerChallenge(PROTOCOL_VERSION, x.nonceB, x.challengedAt)
    else MutualChallenge(PROTOCOL_VERSION, x.nonceB, b.mutual.key, x.sigB, x.challengedAt)
  }

  function ProofOf(mode: Mode, a: Party, x: Inputs): (m: Message)
    ensures KindOf(m) == ProofKind(mode)
  {
    if mode.OneWayAuth? then ClientAuth(a.oneWay.key, x.sigA, x.provedAt) else MutualResponse(a.mutual.key, x.sigA, x.provedAt)
  }

  /** The signatures both sides made in this run verify. */
  predicate Signed(mode: Mode, a: Party, b: Party, sigs: set<Sig>, x: Inputs) {
    && Sig(a.For(mode).key, StatementBytes(InitiatorStatement(mode, x.nonceB, a.id, x.provedAt)), x.sigA) in sigs
    && (mode.MutualAuth? ==> Sig(b.mutual.key, StatementBytes(AcceptorStatement(x.nonceA, b.id, x.challengedAt)), x.sigB) in sigs)
  }

  /** The acceptor's result, fed everything the initiator would write. */
  function AcceptorResult(mode: Mode, a: Party, b: Party, local: Option<Id>, sigs: set<Sig>, x: Inputs): Result<Id> {
    AcceptorRun(mode, b, local, sigs, a.id, Written(Hello(mode, x.nonceA)) + Written(ProofOf(mode, a, x)),
                x.nonceB, x.challengedAt, Ok(x.sigB), x.receivedAt)
  }

  /** The initiator's result, fed the acceptor's challenge and closed with its verdict. */
  function InitiatorResult(mode: Mode, a: Party, b: Party, local: Option<Id>, sigs: set<Sig>, x: Inputs): AuthResult {
    InitiatorRun(mode, a, sigs, b.id, Written(ChallengeOf(mode, b, x)), x.nonceA, x.seenAt, x.provedAt, Ok(x.sigA),
                 Some(CloseCode(AcceptorResult(mode, a, b, local, sigs, x))))
  }

  /** What a caller can check before the run. */
  predicate Compatible(mode: Mode, a: Party, b: Party, local: Option<Id>, x: Inputs) {
    && a.For(mode).key in b.For(mode).roster
    && (var clock, max := if mode.OneWayAuth? then x.challengedAt else x.receivedAt, b.For(mode).maxSkew;
        max.Some? ==> clock - max.value <= x.provedAt <= clock + max.value)
    && |Encode(ProofOf(mode, a, x))| <= MAX_MSG
    && (mode.MutualAuth? ==>
          && local.Some?
          && b.mutual.key in a.mutual.roster
          && x.seenAt - 300 <= x.challengedAt <= x.seenAt + 300
          && |Encode(ChallengeOf(mode, b, x))| <= MAX_MSG)
  }

  lemma SmallChallenge(nonce: Nonce, time: u64)
    ensures |Encode(ServerChallenge(PROTOCOL_VERSION, nonce, time))| <= 43
  {
    VarintLengthU64(time);
  }

  lemma AcceptorResultExactly(mode: Mode, a: Party, b: Party, local: Option<Id>, sigs: set<Sig>, x: Inputs)
    requires Signed(mode, a, b, sigs, x) && |Encode(ProofOf(mode, a, x))| < U32_LIMIT
    requires mode.MutualAuth? ==> |Encode(ChallengeOf(mode, b, x))| < U32_LIMIT
    ensures AcceptorResult(mode, a, b, local, sigs, x).Ok?
            <==> && (mode.MutualAuth? ==> local.Some?)
                 && a.For(mode).key in b.For(mode).roster
                 && (var clock, max := if mode.OneWayAuth? then x.challengedAt else x.receivedAt, b.For(mode).maxSkew;
                     max.Some? ==> clock - max.value <= x.provedAt <= clock + max.value)
                 && |Encode(ProofOf(mode, a, x))| <= MAX_MSG
  {
    hide Encode, Written, ReadFrame, StatementBytes, InTime;
    InTimeMeans(b.For(mode).maxSkew, if mode.OneWayAuth? then x.challengedAt else x.receivedAt, x.provedAt);
    var hello, proof := Hello(mode, x.nonceA), ProofOf(mode, a, x);
    var up := Written(hello) + Written(proof);
    SmallChallenge(x.nonceB, x.challengedAt);
    ReadBack(hello, Written(proof));
    ReadBackAlone(proof);
    assert up[|Written(hello)|..] == Written(proof);
  }

  lemma InitiatorResultExactly(mode: Mode, a: Party, b: Party, local: Option<Id>, sigs: set<Sig>, x: Inputs)
    requires Signed(mode, a, b, sigs, x) && |Encode(ProofOf(mode, a, x))| < U32_LIMIT
    requires |Encode(ChallengeOf(mode, b, x))| < U32_LIMIT
    ensures InitiatorResult(mode, a, b, local, sigs, x).Ok?
            <==> && AcceptorResult(mode, a, b, local, sigs, x).Ok?
                 && |Encode(ChallengeOf(mode, b, x))| <= MAX_MSG
                 && (mode.MutualAuth? ==> b.mutual.key in a.mutual.roster && x.seenAt - 300 <= x.challengedAt <= x.seenAt + 300)
  {
    hide Encode, Written, ReadFrame, StatementBytes, AcceptorResult, InTime;
    InTimeMeans(INITIATOR_MAX_SKEW, x.seenAt, x.challengedAt);
    ReadBackAlone(ChallengeOf(mode, b, x));
  }

  /** An honest run of either mode succeeds at both ends exactly when each side trusts the key it must verify, the
      asserted times are fresh, the acceptor's id is published (mutual), and the assertions fit a message. */
  lemma HonestRunExactly(mode: Mode, a: Party, b: Party, local: Option<Id>, sigs: set<Sig>, x: Inputs)
    requires Signed(mode, a, b, sigs, x)
    requires |Encode(ProofOf(mode, a, x))| < U32_LIMIT && |Encode(ChallengeOf(mode, b, x))| < U32_LIMIT
    ensures AcceptorResult(mode, a, b, local, sigs, x).Ok? && InitiatorResult(mode, a, b, local, sigs, x).Ok?
            <==> Compatible(mode, a, b, local, x)
  {
    AcceptorResultExactly(mode, a, b, local, sigs, x);
    InitiatorResultExactly(mode, a, b, local, sigs, x);
    SmallChallenge(x.nonceB, x.challengedAt);
    hide Encode, AcceptorResult, InitiatorResult, ProofOf, Signed;
  }

  // ---------------------------------------------------------------------------
  // Clocks and sizes
  // ---------------------------------------------------------------------------

  /** A clock reads a u64 at every instant. */
  type Clock = nat -> u64

  /** At every instant the two clocks are within `d`. */
  ghost predicate Near(clockA: Clock, clockB: Clock, d: nat) {
    forall t: nat :: AbsDiff(clockA(t), clockB(t)) <= d
  }

  /** The instants at which the four times of a run are read. */
  datatype Instants = Instants(challenged: nat, seen: nat, proved: nat, received: nat)

  ghost predicate ReadAt(clockA: Clock, clockB: Clock, i: Instants, x: Inputs) {
    && x.challengedAt == clockB(i.challenged)
    && x.seenAt == clockA(i.seen)
    && x.provedAt == clockA(i.proved)
    && x.receivedAt == clockB(i.received)
  }

  /** The acceptor's clock moves at most `s` over the interval each mode's check spans, and in mutual mode the
      initiator's clock does too between the acceptor's signature and its receipt. */
  ghost predicate Prompt(mode: Mode, clockA: Clock, clockB: Clock, i: Instants, s: nat) {
    if mode.OneWayAuth? then AbsDiff(clockB(i.challenged), clockB(i.proved)) <= s
    else
      && AbsDiff(clockB(i.received), clockB(i.proved)) <= s
      && AbsDiff(clockA(i.seen), clockA(i.challenged)) <= s
  }

  /** If clocks differ by at most `d` and the relevant delay is at most `s`, no check of an honest run with a window
      of at least `d + s` fails for its time. */
  lemma HonestRunIsFresh(mode: Mode, a: Party, b: Party, clockA: Clock, clockB: Clock, i: Instants, x: Inputs, d: nat, s: nat)
    requires Near(clockA, clockB, d) && ReadAt(clockA, clockB, i, x) && Prompt(mode, clockA, clockB, i, s)
    requires mode.MutualAuth? ==> d + s <= 300
    requires b.For(mode).maxSkew.Some? ==> d + s <= b.For(mode).maxSkew.value
    ensures var clock, max := if mode.OneWayAuth? then x.challengedAt else x.receivedAt, b.For(mode).maxSkew;
            max.Some? ==> clock - max.value <= x.provedAt <= clock + max.value
    ensures mode.MutualAuth? ==> x.seenAt - 300 <= x.challengedAt <= x.seenAt + 300
  {
    assert AbsDiff(clockA(i.proved), clockB(i.proved)) <= d;
    assert AbsDiff(clockA(i.challenged), clockB(i.challenged)) <= d;
  }

  /** Keys and signatures of at most 16337 bytes together always fit, in both assertions of both modes. */
  lemma HonestRunFits(mode: Mode, a: Party, b: Party, x: Inputs)
    requires |a.For(mode).key| + |x.sigA| <= 16337 && (mode.MutualAuth? ==> |b.mutual.key| + |x.sigB| <= 16337)
    ensures |Encode(ProofOf(mode, a, x))| <= MAX_MSG && |Encode(ChallengeOf(mode, b, x))| <= MAX_MSG
  {
    ChallengeSizeBound(x.nonceA, a.For(mode).key, x.sigA);
    if mode.MutualAuth? {
      ChallengeSizeBound(x.nonceB, b.mutual.key, x.sigB);
    }
    SmallChallenge(x.nonceB, x.challengedAt);
    assert |Encode(MutualChallenge(PROTOCOL_VERSION, x.nonceA, a.For(mode).key, x.sigA, x.provedAt))| <= MAX_MSG;
    assert |Encode(ProofOf(mode, a, x))| + 33
           == |Encode(MutualChallenge(PROTOCOL_VERSION, x.nonceA, a.For(mode).key, x.sigA, x.provedAt))|;
  }

  /** Two honest endpoints that list each other's keys, with ordinary sizes and clocks, always authenticate. */
  lemma HonestRunSucceeds(mode: Mode, a: Party, b: Party, sigs: set<Sig>, clockA: Clock, clockB: Clock, i: Instants,
                          x: Inputs, d: nat, s: nat)
    requires Signed(mode, a, b, sigs, x) && a.For(mode).key in b.For(mode).roster && (mode.MutualAuth? ==> b.mutual.key in a.mutual.roster)
    requires |a.For(mode).key| + |x.sigA| <= 16337 && (mode.MutualAuth? ==> |b.mutual.key| + |x.sigB| <= 16337)
    requires Near(clockA, clockB, d) && ReadAt(clockA, clockB, i, x) && Prompt(mode, clockA, clockB, i, s)
    requires mode.MutualAuth? ==> d + s <= 300
    requires b.For(mode).maxSkew.Some? ==> d + s <= b.For(mode).maxSkew.value
    ensures AcceptorResult(mode, a, b, Some(b.id), sigs, x) == Ok(a.id)
    ensures InitiatorResult(mode, a, b, Some(b.id), sigs, x) == Ok(())
  {
    hide Encode, Written, ReadFrame, StatementBytes, Near, ReadAt, Prompt, Signed, ProofOf, ChallengeOf;
    HonestRunIsFresh(mode, a, b, clockA, clockB, i, x, d, s);
    HonestRunFits(mode, a, b, x);
    HonestRunExactly(mode, a, b, Some(b.id), sigs, x);
  }
}
