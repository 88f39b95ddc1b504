/** What every connection keeps, whatever its ends and the rest of the system do. */
module ConnInvariant {
  import opened Types
  import opened Wire
  import opened Transcripts
  import opened Handshake
  import opened Network

  // ---------------------------------------------------------------------------
  // The invariant of one connection
  // ---------------------------------------------------------------------------

  /** All bytes an honest initiator has written. */
  function InitiatorBytes(k: Conn): Bytes {
    if !k.ini.greeted then []
    else if k.ini.proof.None? then Written(Hello(k.mode, k.ini.nonce))
    else Written(Hello(k.mode, k.ini.nonce)) + Written(k.ini.proof.value)
  }

  /** An honest initiator's run: what it accepted it verified, what it proved it signed on this connection. */
  ghost predicate IniInv(me: Party, ledger: Ledger, i: nat, k: Conn) {
    var s := k.ini;
    && k.up == InitiatorBytes(k)
    && (s.phase.Dialing? ==> !s.greeted)
    && (s.phase.AwaitChallenge? ==> s.greeted && s.challenge.None?)
    && (s.phase.AwaitVerdict? ==> s.proof.Some?)
    && (s.proof.Some? ==> s.phase.AwaitVerdict? || (InitiatorDone(k) && (k.broken || k.closed.Some?)))
    && (s.greeted && k.mode.MutualAuth? ==> s.nonce in ledger.drawn)
    && (s.challenge.Some? ==>
          && s.greeted
          && KindOf(s.challenge.value) == ChallengeKind(k.mode)
          && s.challenge.value.version == PROTOCOL_VERSION
          && (k.mode.MutualAuth? ==>
                && InTime(INITIATOR_MAX_SKEW, s.clock, s.challenge.value.time)
                && Verifies(me.mutual.roster, ledger.sigs, s.challenge.value.key,
                            AcceptorStatement(s.nonce, k.acceptor, s.challenge.value.time), s.challenge.value.signature)))
    && (s.proof.Some? ==>
          && s.challenge.Some?
          && KindOf(s.proof.value) == ProofKind(k.mode)
          && |Encode(s.proof.value)| < U32_LIMIT
          && s.proof.value.key == me.For(k.mode).key
          && Made(me.For(k.mode).key, InitiatorStatement(k.mode, s.challenge.value.nonce, me.id, s.proof.value.time), i) in ledger.made)
    && (InitiatorDone(k) && s.result.Ok? ==>
          s.proof.Some? && k.closed.Some? && k.closed.value % U32_LIMIT == CLOSE_ACCEPTED)
  }

  /** An honest acceptor's run: its challenge carries a nonce it drew and, in mutual mode, a signature for
      the greeting's nonce made on this connection; what it accepts it verified; its close is its verdict. */
  ghost predicate AccInv(me: Party, ledger: Ledger, i: nat, k: Conn) {
    var s := k.acc;
    && k.down == (if s.challenge.Some? then Written(s.challenge.value) else [])
    && (s.phase.AwaitHello? ==> s.hello.None? && s.challenge.None?)
    && (s.phase.AwaitProof? || s.phase.Judged? ==> s.challenge.Some?)
    && (s.phase.Finished? <==> k.closed.Some?)
    && (k.closed.Some? ==> k.closed.value == if s.recorded then CLOSE_ACCEPTED else CLOSE_DENIED)
    && (s.recorded ==> s.proof.Some?)
    && (s.proof.Some? ==> s.phase.Judged? || (s.phase.Finished? && s.recorded))
    && (s.hello.Some? ==> KindOf(s.hello.value) == HelloKind(k.mode))
    && (s.challenge.Some? ==>
          && s.hello.Some?
          && s.hello.value.version == PROTOCOL_VERSION
          && KindOf(s.challenge.value) == ChallengeKind(k.mode)
          && |Encode(s.challenge.value)| < U32_LIMIT
          && s.challenge.value.nonce in ledger.drawn
          && (k.mode.MutualAuth? ==>
                && s.challenge.value.key == me.mutual.key
                && Made(me.mutual.key, AcceptorStatement(s.hello.value.nonce, me.id, s.challenge.value.time), i) in ledger.made))
    && (s.proof.Some? ==>
          && s.challenge.Some?
          && KindOf(s.proof.value) == ProofKind(k.mode)
          && InTime(me.For(k.mode).maxSkew, if k.mode.OneWayAuth? then s.challenge.value.time else s.clock, s.proof.value.time)
          && Verifies(me.For(k.mode).roster, ledger.sigs, s.proof.value.key,
                      InitiatorStatement(k.mode, s.challenge.value.nonce, k.dialer, s.proof.value.time),
                      s.proof.value.signature))
  }

  /** Two honest ends agree on everything one of them has taken from the other; an accepted initiator is
      about to learn it, unless the connection broke. */
  ghost predicate LinkInv(k: Conn) {
    && (k.acc.hello.Some? ==>
          && k.ini.greeted
          && k.acc.hello == Some(Hello(k.mode, k.ini.nonce))
          && k.acc.pos == |Written(Hello(k.mode, k.ini.nonce))|)
    && (k.ini.challenge.Some? ==> k.acc.challenge == k.ini.challenge)
    && (k.acc.proof.Some? ==> k.ini.proof == k.acc.proof)
    && (k.acc.proof.Some? ==> k.broken || k.ini.phase.AwaitVerdict? || (InitiatorDone(k) && k.ini.result.Ok?))
  }

  ghost predicate ConnInv(cfg: Config, ledger: Ledger, i: nat, k: Conn) {
    && (k.dialer in cfg.parties ==> IniInv(cfg.parties[k.dialer], ledger, i, k))
    && (k.acceptor in cfg.parties ==> AccInv(cfg.parties[k.acceptor], ledger, i, k))
    && (k.dialer in cfg.parties && k.acceptor in cfg.parties ==> LinkInv(k))
    && (k.acceptor !in cfg.parties ==> !k.acc.recorded)
  }

  /** An honest acceptor closes with acceptance exactly if it has recorded the initiator before. */
  lemma CloseIsTheVerdict(cfg: Config, ledger: Ledger, i: nat, k: Conn)
    requires ConnInv(cfg, ledger, i, k) && k.acceptor in cfg.parties && k.closed.Some?
    ensures k.closed == Some(if k.acc.recorded then CLOSE_ACCEPTED else CLOSE_DENIED)
  {
    hide Encode, StatementBytes, Written, Hello, Verifies, InTime, IniInv, LinkInv;
  }

  /** An honest initiator succeeds only on a close with acceptance. */
  lemma SuccessWasSeen(cfg: Config, ledger: Ledger, i: nat, k: Conn)
    requires ConnInv(cfg, ledger, i, k) && k.dialer in cfg.parties && InitiatorDone(k) && k.ini.result.Ok?
    ensures k.closed.Some? && k.closed.value % U32_LIMIT == CLOSE_ACCEPTED
  {
    hide Encode, StatementBytes, Written, Hello, Verifies, InTime, AccInv, LinkInv;
  }

  /** A recorded honest initiator awaits the verdict or has learnt it, unless the connection broke. */
  lemma RecordedIsUnderWay(cfg: Config, ledger: Ledger, i: nat, k: Conn)
    requires ConnInv(cfg, ledger, i, k) && k.dialer in cfg.parties && k.acceptor in cfg.parties && k.acc.recorded
    ensures k.broken || k.ini.phase.AwaitVerdict? || (InitiatorDone(k) && k.ini.result.Ok?)
  {
    hide Encode, StatementBytes, Written, Hello, Verifies, InTime, IniInv;
  }

  ghost predicate Extends(ledger: Ledger, ledger': Ledger) {
    ledger.sigs <= ledger'.sigs && ledger.made <= ledger'.made && ledger.drawn <= ledger'.drawn
  }

  lemma ConnInvMonotone(cfg: Config, ledger: Ledger, ledger': Ledger, i: nat, k: Conn)
    requires ConnInv(cfg, ledger, i, k) && Extends(ledger, ledger')
    ensures ConnInv(cfg, ledger', i, k)
  {
    hide Encode, StatementBytes, Frame, Written;
  }

  lemma IniInvMonotone(me: Party, ledger: Ledger, ledger': Ledger, i: nat, k: Conn)
    requires IniInv(me, ledger, i, k) && Extends(ledger, ledger')
    ensures IniInv(me, ledger', i, k)
  {
    hide Encode, StatementBytes, Frame, Written;
  }

  lemma NewConnInv(cfg: Config, ledger: Ledger, i: nat, mode: Mode, dialer: Id, acceptor: Id)
    ensures ConnInv(cfg, ledger, i, NewConn(mode, dialer, acceptor))
  {
  }

  // ---------------------------------------------------------------------------
  // Reading back what an honest end wrote
  // ---------------------------------------------------------------------------

  lemma ReadBack(m: Message, tail: Bytes)
    requires |Encode(m)| < U32_LIMIT
    ensures |Written(m)| == 4 + |Encode(m)|
    ensures ReadFrame(KindOf(m), Written(m) + tail, MAX_MSG)
            == if |Encode(m)| <= MAX_MSG then Got(m, |Written(m)|) else Bad(MessageTooLarge(|Encode(m)|))
  {
    FrameRoundTrip(m, tail, MAX_MSG);
  }

  lemma ReadBackAlone(m: Message)
    requires |Encode(m)| < U32_LIMIT
    ensures ReadFrame(KindOf(m), Written(m), MAX_MSG)
            == if |Encode(m)| <= MAX_MSG then Got(m, |Written(m)|) else Bad(MessageTooLarge(|Encode(m)|))
  {
    ReadBack(m, []);
    assert Written(m) + [] == Written(m);
  }

  lemma ReadNothing(kind: Kind, s: Bytes)
    requires s == []
    ensures ReadFrame(kind, s, MAX_MSG).NeedMore?
  {
  }

  /** What an honest acceptor can read of an honest initiator's greeting: that greeting, once it is there. */
  lemma HelloReadsBack(k: Conn)
    requires k.up == InitiatorBytes(k)
    ensures !k.ini.greeted ==> HelloRead(k).NeedMore?
    ensures k.ini.greeted ==> HelloRead(k) == Got(Hello(k.mode, k.ini.nonce), |Written(Hello(k.mode, k.ini.nonce))|)
  {
    var hello := Hello(k.mode, k.ini.nonce);
    if k.ini.greeted {
      ReadBackAlone(hello);
      if k.ini.proof.Some? {
        ReadBack(hello, Written(k.ini.proof.value));
      }
    }
  }

  lemma ProofReadsBack(k: Conn)
    requires k.up == InitiatorBytes(k) && k.ini.greeted && k.acc.pos == |Written(Hello(k.mode, k.ini.nonce))|
    requires k.ini.proof.Some? ==> |Encode(k.ini.proof.value)| < U32_LIMIT && KindOf(k.ini.proof.value) == ProofKind(k.mode)
    ensures k.ini.proof.None? ==> ProofRead(k).NeedMore?
    ensures k.ini.proof.Some? ==>
              !ProofRead(k).NeedMore? && (ProofRead(k).Got? ==> ProofRead(k).message == k.ini.proof.value)
    ensures k.ini.proof.Some? && |Encode(k.ini.proof.value)| <= MAX_MSG ==> ProofRead(k).Got?
  {
    hide Encode, Written, Hello, ReadFrame;
    if k.ini.proof.Some? {
      ReadBackAlone(k.ini.proof.value);
      assert k.up[k.acc.pos..] == Written(k.ini.proof.value);
    } else {
      ReadNothing(ProofKind(k.mode), k.up[k.acc.pos..]);
    }
  }

  lemma ChallengeReadsBack(k: Conn)
    requires k.down == if k.acc.challenge.Some? then Written(k.acc.challenge.value) else []
    requires k.acc.challenge.Some? ==>
               |Encode(k.acc.challenge.value)| < U32_LIMIT && KindOf(k.acc.challenge.value) == ChallengeKind(k.mode)
    ensures k.acc.challenge.None? ==> ChallengeRead(k).NeedMore?
    ensures k.acc.challenge.Some? ==>
              !ChallengeRead(k).NeedMore? && (ChallengeRead(k).Got? ==> ChallengeRead(k).message == k.acc.challenge.value)
    ensures k.acc.challenge.Some? && |Encode(k.acc.challenge.value)| <= MAX_MSG ==> ChallengeRead(k).Got?
  {
    if k.acc.challenge.Some? {
      ReadBackAlone(k.acc.challenge.value);
    }
  }

  // ---------------------------------------------------------------------------
  // Every act keeps it
  // ---------------------------------------------------------------------------

  lemma GreetKeeps(cfg: Config, ledger: Ledger, local: Option<Id>, i: nat, k: Conn, a: Act)
    requires ConnInv(cfg, ledger, i, k) && CanAct(cfg, ledger.drawn, local, k, a) && a.Greet?
    ensures ConnInv(cfg, Grow(cfg, ledger, local, i, k, a), i, ActOn(cfg, ledger.sigs, ledger.drawn, local, k, a))
  {
    hide Encode, StatementBytes, Frame, Written, Hello, Verifies;
  }

  lemma HelloKeepsAcc(cfg: Config, ledger: Ledger, local: Option<Id>, i: nat, k: Conn, a: Act)
    requires ConnInv(cfg, ledger, i, k) && CanAct(cfg, ledger.drawn, local, k, a) && a.ReceiveHello?
    requires ValidConfig(cfg) && (local.None? || local == Some(k.acceptor))
    ensures AccInv(cfg.parties[k.acceptor], Grow(cfg, ledger, local, i, k, a), i,
                   ActOn(cfg, ledger.sigs, ledger.drawn, local, k, a))
  {
    hide Encode, StatementBytes, Frame, Written, Hello, ReadFrame, Verifies;
  }

  /** Receiving a greeting changes nothing at the initiator, and keeps nothing but the message read. */
  lemma HelloOutcome(cfg: Config, ledger: Ledger, local: Option<Id>, k: Conn, a: Act)
    requires CanAct(cfg, ledger.drawn, local, k, a) && a.ReceiveHello?
    ensures var k' := ActOn(cfg, ledger.sigs, ledger.drawn, local, k, a);
            && k' == k.(down := k'.down, acc := k'.acc, closed := k'.closed)
            && k'.acc.recorded == k.acc.recorded && k'.acc.proof == k.acc.proof
            && (k'.acc.hello.Some? ==>
                  HelloRead(k).Got? && k'.acc.hello.value == HelloRead(k).message && k'.acc.pos == HelloRead(k).consumed)
  {
    hide Encode, StatementBytes, Frame, Written, HelloRead, Verifies;
  }

  lemma HelloKeepsLink(cfg: Config, ledger: Ledger, local: Option<Id>, i: nat, k: Conn, a: Act)
    requires ConnInv(cfg, ledger, i, k) && CanAct(cfg, ledger.drawn, local, k, a) && a.ReceiveHello?
    requires k.dialer in cfg.parties
    ensures LinkInv(ActOn(cfg, ledger.sigs, ledger.drawn, local, k, a))
    ensures IniInv(cfg.parties[k.dialer], ledger, i, ActOn(cfg, ledger.sigs, ledger.drawn, local, k, a))
  {
    HelloOutcome(cfg, ledger, local, k, a);
    HelloReadsBack(k);
    hide ActOn, CanAct, Encode, StatementBytes, Frame, Written, Hello, HelloRead, Verifies;
  }

  lemma HelloKeeps(cfg: Config, ledger: Ledger, local: Option<Id>, i: nat, k: Conn, a: Act)
    requires ConnInv(cfg, ledger, i, k) && CanAct(cfg, ledger.drawn, local, k, a) && a.ReceiveHello?
    requires ValidConfig(cfg) && (local.None? || local == Some(k.acceptor))
    ensures ConnInv(cfg, Grow(cfg, ledger, local, i, k, a), i, ActOn(cfg, ledger.sigs, ledger.drawn, local, k, a))
  {
    HelloKeepsAcc(cfg, ledger, local, i, k, a);
    HelloOutcome(cfg, ledger, local, k, a);
    var k', ledger' := ActOn(cfg, ledger.sigs, ledger.drawn, local, k, a), Grow(cfg, ledger, local, i, k, a);
    if k.dialer in cfg.parties {
      HelloKeepsLink(cfg, ledger, local, i, k, a);
      IniInvMonotone(cfg.parties[k.dialer], ledger, ledger', i, k');
    }
    hide AccInv, IniInv, LinkInv, ActOn, CanAct, Grow;
  }

  lemma ChallengeKeepsIni(cfg: Config, ledger: Ledger, local: Option<Id>, i: nat, k: Conn, a: Act)
    requires ConnInv(cfg, ledger, i, k) && CanAct(cfg, ledger.drawn, local, k, a) && a.ReceiveChallenge?
    requires ValidConfig(cfg)
    ensures IniInv(cfg.parties[k.dialer], Grow(cfg, ledger, local, i, k, a), i,
                   ActOn(cfg, ledger.sigs, ledger.drawn, local, k, a))
  {
    hide Encode, StatementBytes, Frame, Written, Hello, ReadFrame, AccInv, LinkInv;
  }

  /** Receiving a challenge changes nothing at the acceptor, and keeps nothing but the message read. */
  lemma ChallengeOutcome(cfg: Config, ledger: Ledger, local: Option<Id>, k: Conn, a: Act)
    requires CanAct(cfg, ledger.drawn, local, k, a) && a.ReceiveChallenge?
    ensures var k' := ActOn(cfg, ledger.sigs, ledger.drawn, local, k, a);
            && k' == k.(up := k'.up, ini := k'.ini)
            && k'.ini.greeted == k.ini.greeted && k'.ini.nonce == k.ini.nonce
            && (k'.ini.challenge == k.ini.challenge
                || (ChallengeRead(k).Got? && k'.ini.challenge == Some(ChallengeRead(k).message)))
  {
    hide Encode, StatementBytes, Frame, Written, ChallengeRead, Verifies;
  }

  lemma ChallengeKeepsLink(cfg: Config, ledger: Ledger, local: Option<Id>, i: nat, k: Conn, a: Act)
    requires ConnInv(cfg, ledger, i, k) && CanAct(cfg, ledger.drawn, local, k, a) && a.ReceiveChallenge?
    requires k.acceptor in cfg.parties
    ensures LinkInv(ActOn(cfg, ledger.sigs, ledger.drawn, local, k, a))
  {
    ChallengeOutcome(cfg, ledger, local, k, a);
    ChallengeReadsBack(k);
    hide ActOn, CanAct, Encode, StatementBytes, Frame, Written, Hello, ChallengeRead, Verifies;
  }

  lemma ChallengeKeeps(cfg: Config, ledger: Ledger, local: Option<Id>, i: nat, k: Conn, a: Act)
    requires ConnInv(cfg, ledger, i, k) && CanAct(cfg, ledger.drawn, local, k, a) && a.ReceiveChallenge?
    requires ValidConfig(cfg)
    ensures ConnInv(cfg, Grow(cfg, ledger, local, i, k, a), i, ActOn(cfg, ledger.sigs, ledger.drawn, local, k, a))
  {
    ChallengeKeepsIni(cfg, ledger, local, i, k, a);
    ConnInvMonotone(cfg, ledger, Grow(cfg, ledger, local, i, k, a), i, k);
    if k.acceptor in cfg.parties {
      ChallengeKeepsLink(cfg, ledger, local, i, k, a);
    }
    ChallengeOutcome(cfg, ledger, local, k, a);
    assert k.acceptor in cfg.parties ==> AccInv(cfg.parties[k.acceptor], Grow(cfg, ledger, local, i, k, a), i, k);
    hide IniInv, LinkInv, ActOn, CanAct, Encode, StatementBytes, Frame, Written, Hello, ChallengeRead, Verifies, Grow;
  }

  lemma ProofKeepsLink(cfg: Config, ledger: Ledger, local: Option<Id>, i: nat, k: Conn, a: Act)
    requires ConnInv(cfg, ledger, i, k) && CanAct(cfg, ledger.drawn, local, k, a) && a.ReceiveProof?
    requires k.dialer in cfg.parties
    ensures LinkInv(ActOn(cfg, ledger.sigs, ledger.drawn, local, k, a))
  {
    ProofReadsBack(k);
    hide Encode, StatementBytes, Frame, Written, Hello, ProofRead, Verifies, JudgeProof;
  }

  lemma ProofKeepsAcc(cfg: Config, ledger: Ledger, local: Option<Id>, i: nat, k: Conn, a: Act)
    requires ConnInv(cfg, ledger, i, k) && CanAct(cfg, ledger.drawn, local, k, a) && a.ReceiveProof?
    ensures AccInv(cfg.parties[k.acceptor], ledger, i, ActOn(cfg, ledger.sigs, ledger.drawn, local, k, a))
  {
    hide IniInv, LinkInv, Encode, StatementBytes, Frame, Written, Hello, ProofRead, Verifies;
  }

  lemma ProofKeeps(cfg: Config, ledger: Ledger, local: Option<Id>, i: nat, k: Conn, a: Act)
    requires ConnInv(cfg, ledger, i, k) && CanAct(cfg, ledger.drawn, local, k, a) && a.ReceiveProof?
    ensures ConnInv(cfg, Grow(cfg, ledger, local, i, k, a), i, ActOn(cfg, ledger.sigs, ledger.drawn, local, k, a))
  {
    ProofKeepsAcc(cfg, ledger, local, i, k, a);
    if k.dialer in cfg.parties {
      ProofKeepsLink(cfg, ledger, local, i, k, a);
    }
    assert Grow(cfg, ledger, local, i, k, a) == ledger;
    hide AccInv, LinkInv, Encode, StatementBytes, Frame, Written, Hello, ProofRead, Verifies, JudgeProof, Grow;
  }

  lemma OtherActsKeep(cfg: Config, ledger: Ledger, local: Option<Id>, i: nat, k: Conn, a: Act)
    requires ConnInv(cfg, ledger, i, k) && CanAct(cfg, ledger.drawn, local, k, a)
    requires !a.Greet? && !a.ReceiveHello? && !a.ReceiveChallenge? && !a.ReceiveProof?
    ensures ConnInv(cfg, Grow(cfg, ledger, local, i, k, a), i, ActOn(cfg, ledger.sigs, ledger.drawn, local, k, a))
  {
    hide Encode, StatementBytes, Frame, Written, Hello, Verifies;
  }

  lemma ActKeepsConn(cfg: Config, ledger: Ledger, local: Option<Id>, i: nat, k: Conn, a: Act)
    requires ConnInv(cfg, ledger, i, k) && CanAct(cfg, ledger.drawn, local, k, a)
    requires ValidConfig(cfg) && (local.None? || local == Some(k.acceptor))
    ensures ConnInv(cfg, Grow(cfg, ledger, local, i, k, a), i, ActOn(cfg, ledger.sigs, ledger.drawn, local, k, a))
    ensures Extends(ledger, Grow(cfg, ledger, local, i, k, a))
  {
    if a.Greet? { GreetKeeps(cfg, ledger, local, i, k, a); }
    else if a.ReceiveHello? { HelloKeeps(cfg, ledger, local, i, k, a); }
    else if a.ReceiveChallenge? { ChallengeKeeps(cfg, ledger, local, i, k, a); }
    else if a.ReceiveProof? { ProofKeeps(cfg, ledger, local, i, k, a); }
    else { OtherActsKeep(cfg, ledger, local, i, k, a); }
    hide ActOn, ConnInv, CanAct;
  }
}
