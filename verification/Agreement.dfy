/** What authentication means across endpoints, in every reachable state of every run. */
module Agreement {
  import opened Types
  import opened Wire
  import opened Transcripts
  import opened Verifier
  import opened Handshake
  import opened AuthTask
  import opened Tasks
  import opened Network
  import opened ConnInvariant
  import opened WorldInvariant
  import opened StepInvariant

  /** The statement an honest end of a connection has verified on it: the initiator (mutual mode) the one in the
      challenge it accepted, the acceptor the one in the proof it accepted. */
  function VerifiedStatement(cfg: Config, k: Conn, byDialer: bool): Option<Statement> {
    if byDialer then
      match k.ini.challenge
      case Some(MutualChallenge(_, _, _, _, time)) =>
        if k.dialer in cfg.parties && k.mode.MutualAuth? then Some(AcceptorStatement(k.ini.nonce, k.acceptor, time)) else None
      case _ => None
    else if k.acceptor !in cfg.parties || NonceOf(k.acc.challenge).None? then None
    else
      var nonce := NonceOf(k.acc.challenge).value;
      match k.acc.proof
      case Some(ClientAuth(_, _, time)) => Some(InitiatorStatement(k.mode, nonce, k.dialer, time))
      case Some(MutualResponse(_, _, time)) => Some(InitiatorStatement(k.mode, nonce, k.dialer, time))
      case _ => None
  }

  ghost predicate Reachable(cfg: Config, w: World) {
    exists steps :: Run(cfg, steps) && After(cfg, steps) == w
  }

  lemma ReachableInv(cfg: Config, w: World)
    requires ValidConfig(cfg) && Reachable(cfg, w)
    ensures Inv(cfg, w)
  {
    var steps :| Run(cfg, steps) && After(cfg, steps) == w;
    RunsKeepInv(cfg, steps);
  }

  /** A signature that verifies under an honest key was made for exactly the verified statement - its mode, role,
      nonce and endpoint id - by the honest endpoint that the statement names. */
  lemma HonestSignature(cfg: Config, w: World, roster: Keys, key: Bytes, statement: Statement, signature: Bytes)
    requires Inv(cfg, w) && key in cfg.honestKeys
    requires Verifies(roster, w.ledger.sigs, key, statement, signature)
    ensures statement.id in cfg.parties && cfg.parties[statement.id].For(ModeOf(statement)).key == key
    ensures exists m :: m in w.ledger.made && m.key == key && m.statement == statement
    ensures forall m :: m in w.ledger.made && StatementBytes(m.statement) == StatementBytes(statement) ==>
                          m.statement == statement
  {
    hide ConnInv, GateInv, FlightInv, NodeInv, DrawnDistinct, StatementBytes;
    var g := Sig(key, StatementBytes(statement), signature);
    assert g in w.ledger.sigs;
    assert MadeBySigner(w.ledger, g);
    var m :| m in w.ledger.made && m.key == key && StatementBytes(m.statement) == StatementBytes(statement);
    forall m' | m' in w.ledger.made && StatementBytes(m'.statement) == StatementBytes(statement)
      ensures m'.statement == statement
    {
      StatementsInjective(m'.statement, statement);
    }
    assert SignedOn(cfg, w.conns[m.conn], m);
  }

  // ---------------------------------------------------------------------------
  // Agreement
  // ---------------------------------------------------------------------------

  /** Both modes: an acceptor that records a remote under an honest roster key agrees with a run of the honest
      endpoint of that id, with that key, on the same connection: it answered this acceptor's challenge, and
      signed there for this acceptor's own nonce. */
  lemma AcceptorAgreement(cfg: Config, w: World, c: nat)
    requires ValidConfig(cfg) && Reachable(cfg, w) && c < |w.conns|
    requires w.conns[c].acceptor in cfg.parties && w.conns[c].acc.recorded
    ensures var k := w.conns[c];
            && k.acc.challenge.Some? && KindOf(k.acc.challenge.value) == ChallengeKind(k.mode)
            && k.acc.proof.Some? && KindOf(k.acc.proof.value) == ProofKind(k.mode)
            && k.acc.challenge.value.nonce in w.ledger.drawn
            && k.acc.proof.value.key in cfg.parties[k.acceptor].For(k.mode).roster
            && (var clock := if k.mode.OneWayAuth? then k.acc.challenge.value.time else k.acc.clock;
                var max := cfg.parties[k.acceptor].For(k.mode).maxSkew;
                max.Some? ==> clock - max.value <= k.acc.proof.value.time <= clock + max.value)
            && (k.acc.proof.value.key in cfg.honestKeys ==>
                  && k.dialer in cfg.parties
                  && cfg.parties[k.dialer].For(k.mode).key == k.acc.proof.value.key
                  && k.ini.challenge == k.acc.challenge
                  && k.ini.proof == k.acc.proof
                  && Made(k.acc.proof.value.key,
                          InitiatorStatement(k.mode, k.acc.challenge.value.nonce, k.dialer, k.acc.proof.value.time), c)
                     in w.ledger.made)
  {
    hide Reachable, SigInv, MadeInv, DrawnDistinct, GateInv, FlightInv, NodeInv, Encode, Written, StatementBytes;
    ReachableInv(cfg, w);
    var k := w.conns[c];
    assert ConnInv(cfg, w.ledger, c, k);
    hide Inv, Encode, Written, StatementBytes;
    var p := k.acc.proof.value;
    var statement := InitiatorStatement(k.mode, k.acc.challenge.value.nonce, k.dialer, p.time);
    if p.key in cfg.honestKeys {
      HonestSignature(cfg, w, cfg.parties[k.acceptor].For(k.mode).roster, p.key, statement, p.signature);
    }
  }

  /** Mutual mode: an initiator that accepts a challenge under an honest roster key agrees with a run of the
      honest endpoint it dialled, on the same connection: it sent that challenge in answer to this
      initiator's greeting, and signed there for this initiator's own nonce and its own endpoint id. */
  lemma InitiatorAgreement(cfg: Config, w: World, c: nat)
    requires ValidConfig(cfg) && Reachable(cfg, w) && c < |w.conns|
    requires w.conns[c].dialer in cfg.parties && w.conns[c].mode.MutualAuth? && w.conns[c].ini.challenge.Some?
    ensures var k := w.conns[c];
            && k.ini.challenge.value.MutualChallenge?
            && k.ini.nonce in w.ledger.drawn
            && k.ini.challenge.value.key in cfg.parties[k.dialer].mutual.roster
            && k.ini.clock - 300 <= k.ini.challenge.value.time <= k.ini.clock + 300
            && (k.ini.challenge.value.key in cfg.honestKeys ==>
                  && k.acceptor in cfg.parties
                  && cfg.parties[k.acceptor].mutual.key == k.ini.challenge.value.key
                  && k.acc.challenge == k.ini.challenge
                  && k.acc.hello == Some(MutualHello(PROTOCOL_VERSION, k.ini.nonce))
                  && Made(k.ini.challenge.value.key,
                          AcceptorStatement(k.ini.nonce, k.acceptor, k.ini.challenge.value.time), c) in w.ledger.made)
  {
    hide Reachable, SigInv, MadeInv, DrawnDistinct, GateInv, FlightInv, NodeInv, Encode, Written, StatementBytes;
    ReachableInv(cfg, w);
    var k := w.conns[c];
    assert ConnInv(cfg, w.ledger, c, k);
    hide Inv, Encode, Written, StatementBytes;
    var ch := k.ini.challenge.value;
    if ch.key in cfg.honestKeys {
      HonestSignature(cfg, w, cfg.parties[k.dialer].mutual.roster, ch.key,
                      AcceptorStatement(k.ini.nonce, k.acceptor, ch.time), ch.signature);
    }
  }

  /** What an honest end verifies is bound to the nonce that end drew. */
  lemma VerifiedNonceIsOwn(cfg: Config, k: Conn, b: bool, ledger: Ledger, c: nat)
    requires ConnInv(cfg, ledger, c, k)
    ensures VerifiedStatement(cfg, k, b).Some? ==> DrawnAt(cfg, k, b) == Some(VerifiedStatement(cfg, k, b).value.nonce)
  {
    hide Encode, Written, StatementBytes, Verifies;
  }

  /** Agreement is injective, across both modes and both roles: no two verifications by honest endpoints, on any
      connections, are of the same signed bytes. */
  lemma NoReplay(cfg: Config, w: World, c: nat, b: bool, c': nat, b': bool)
    requires ValidConfig(cfg) && Reachable(cfg, w) && c < |w.conns| && c' < |w.conns| && (c, b) != (c', b')
    ensures var s, s' := VerifiedStatement(cfg, w.conns[c], b), VerifiedStatement(cfg, w.conns[c'], b');
            s.Some? && s'.Some? ==> StatementBytes(s.value) != StatementBytes(s'.value)
  {
    hide Reachable;
    ReachableInv(cfg, w);
    VerifiedNonceIsOwn(cfg, w.conns[c], b, w.ledger, c);
    VerifiedNonceIsOwn(cfg, w.conns[c'], b', w.ledger, c');
    hide ConnInv, SigInv, MadeInv, GateInv, FlightInv, NodeInv, StatementBytes, VerifiedStatement, DrawnAt;
    var s, s' := VerifiedStatement(cfg, w.conns[c], b), VerifiedStatement(cfg, w.conns[c'], b');
    assert s.Some? && s'.Some? ==> s.value.nonce != s'.value.nonce;
    if s.Some? && s'.Some? && StatementBytes(s.value) == StatementBytes(s'.value) {
      StatementsInjective(s.value, s'.value);
    }
  }

  /** Session binding, with both modes on the same keys: whatever an honest run signed that could count for a
      verification was signed for exactly what is verified - its mode, role, nonce, endpoint id and time - in a run
      of that mode and role at that endpoint. */
  lemma SessionBinding(cfg: Config, w: World, c: nat, b: bool, m: Made)
    requires ValidConfig(cfg) && Reachable(cfg, w) && c < |w.conns| && m in w.ledger.made
    requires VerifiedStatement(cfg, w.conns[c], b).Some?
    requires StatementBytes(m.statement) == StatementBytes(VerifiedStatement(cfg, w.conns[c], b).value)
    ensures m.statement == VerifiedStatement(cfg, w.conns[c], b).value
    ensures m.conn < |w.conns| && w.conns[m.conn].mode == w.conns[c].mode
    ensures m.statement.id in cfg.parties && cfg.parties[m.statement.id].For(w.conns[c].mode).key == m.key
    ensures if b then w.conns[m.conn].acceptor == w.conns[c].acceptor && NonceOf(w.conns[m.conn].acc.hello) == Some(m.statement.nonce)
            else w.conns[m.conn].dialer == w.conns[c].dialer && NonceOf(w.conns[m.conn].ini.challenge) == Some(m.statement.nonce)
  {
    hide Reachable, ConnInv, SigInv, DrawnDistinct, GateInv, FlightInv, NodeInv, StatementBytes;
    ReachableInv(cfg, w);
    StatementsInjective(m.statement, VerifiedStatement(cfg, w.conns[c], b).value);
    assert SignedOn(cfg, w.conns[m.conn], m);
  }

  /** Two-sidedness (mutual mode): an acceptor never records an honest initiator that has not first verified the
      acceptor, under a key in its own roster, for its own nonce and the acceptor's true id, on that connection.
      So an initiator that refuses the challenge is not recorded by that run. */
  lemma RecordedMeansVerifiedBack(cfg: Config, w: World, c: nat)
    requires ValidConfig(cfg) && Reachable(cfg, w) && c < |w.conns| && w.conns[c].mode.MutualAuth?
    requires w.conns[c].acceptor in cfg.parties && w.conns[c].dialer in cfg.parties
    ensures var k := w.conns[c];
            k.acc.recorded ==>
              && k.ini.challenge.Some? && k.ini.challenge == k.acc.challenge
              && k.ini.challenge.value.MutualChallenge?
              && k.ini.challenge.value.key == cfg.parties[k.acceptor].mutual.key
              && Verifies(cfg.parties[k.dialer].mutual.roster, w.ledger.sigs, cfg.parties[k.acceptor].mutual.key,
                          AcceptorStatement(k.ini.nonce, k.acceptor, k.ini.challenge.value.time),
                          k.ini.challenge.value.signature)
              && cfg.parties[k.acceptor].mutual.key in cfg.parties[k.dialer].mutual.roster
    ensures w.conns[c].ini.challenge.None? ==>
              !w.conns[c].acc.recorded && w.conns[c].closed != Some(CLOSE_ACCEPTED)
  {
    hide Reachable, SigInv, MadeInv, DrawnDistinct, GateInv, FlightInv, NodeInv, Encode, Written, StatementBytes;
    ReachableInv(cfg, w);
    assert ConnInv(cfg, w.ledger, c, w.conns[c]);
    hide Inv, Encode, Written, StatementBytes;
  }

  // ---------------------------------------------------------------------------
  // Gates
  // ---------------------------------------------------------------------------

  /** `x` accepted `r` on `k` on the strength of a roster key's signature for a nonce `x` drew and the id `r`. */
  ghost predicate ProvedTo(cfg: Config, w: World, k: Conn, mode: Mode, x: Id, r: Id) {
    && x in cfg.parties && k.mode == mode && k.acceptor == x && k.dialer == r
    && NonceOf(k.acc.challenge).Some? && NonceOf(k.acc.challenge).value in w.ledger.drawn
    && k.acc.proof.Some? && KindOf(k.acc.proof.value) == ProofKind(mode)
    && k.acc.proof.value.key in cfg.parties[x].For(mode).roster
    && Sig(k.acc.proof.value.key,
           StatementBytes(InitiatorStatement(mode, NonceOf(k.acc.challenge).value, r, k.acc.proof.value.time)),
           k.acc.proof.value.signature) in w.ledger.sigs
  }

  /** `x` dialled `r` on `k`, verified it by a roster key's signature for a nonce `x` drew and the id `r`, and was accepted. */
  ghost predicate ProvedBack(cfg: Config, w: World, k: Conn, x: Id, r: Id) {
    && x in cfg.parties && k.mode.MutualAuth? && k.dialer == x && k.acceptor == r
    && k.ini.nonce in w.ledger.drawn
    && k.ini.challenge.Some? && k.ini.challenge.value.MutualChallenge?
    && k.ini.challenge.value.key in cfg.parties[x].mutual.roster
    && Sig(k.ini.challenge.value.key,
           StatementBytes(AcceptorStatement(k.ini.nonce, r, k.ini.challenge.value.time)),
           k.ini.challenge.value.signature) in w.ledger.sigs
    && k.closed.Some? && k.closed.value % U32_LIMIT == CLOSE_ACCEPTED
  }

  lemma AdmissionEvidence(cfg: Config, w: World, gate: Gate, x: Id, r: Id) returns (c: nat)
    requires Inv(cfg, w) && x in cfg.parties && r in Members(w.nodes[x], gate)
    ensures c < |w.conns| && WorldInvariant.Admits(w.conns[c], gate, x, r)
    ensures ConnInv(cfg, w.ledger, c, w.conns[c])
  {
    hide ConnInv, SigInv, MadeInv, DrawnDistinct, FlightInv, NodeInv, WorldInvariant.Admits;
    assert AdmittedBy(w.conns, gate, x, r);
    c :| 0 <= c < |w.conns| && WorldInvariant.Admits(w.conns[c], gate, x, r);
  }

  lemma AdmissionProves(cfg: Config, w: World, c: nat, gate: Gate, x: Id, r: Id)
    requires c < |w.conns| && ConnInv(cfg, w.ledger, c, w.conns[c]) && WorldInvariant.Admits(w.conns[c], gate, x, r)
    requires x in cfg.parties
    ensures gate.IncomingGate? ==> ProvedTo(cfg, w, w.conns[c], OneWayAuth, x, r)
    ensures gate.MutualGate? ==> ProvedTo(cfg, w, w.conns[c], MutualAuth, x, r) || ProvedBack(cfg, w, w.conns[c], x, r)
  {
    hide Encode, Written, StatementBytes, LinkInv;
  }

  /** Gate safety of a mutual node, at any time in any run: an application connection its `after_handshake` admits
      comes from a remote that has proved itself to it, on one connection or the other way round, by a roster
      signature bound to that remote's id and a nonce this node drew. */
  lemma MutualGateSafety(cfg: Config, w: World, x: Id, r: Id)
    requires ValidConfig(cfg) && Reachable(cfg, w) && x in cfg.parties
    ensures x in w.nodes
    ensures AfterHandshakeAccepts(false, w.nodes[x].mutual.allowed, r) ==>
              exists c :: 0 <= c < |w.conns| && (ProvedTo(cfg, w, w.conns[c], MutualAuth, x, r) || ProvedBack(cfg, w, w.conns[c], x, r))
  {
    hide Reachable;
    ReachableInv(cfg, w);
    if r in w.nodes[x].mutual.allowed {
      var c := AdmissionEvidence(cfg, w, MutualGate, x, r);
      AdmissionProves(cfg, w, c, MutualGate, x, r);
    }
  }

  /** Gate safety of a one-way acceptor. */
  lemma IncomingGateSafety(cfg: Config, w: World, x: Id, r: Id)
    requires ValidConfig(cfg) && Reachable(cfg, w) && x in cfg.parties
    ensures x in w.nodes
    ensures AfterHandshakeAccepts(false, w.nodes[x].incoming, r) ==>
              exists c :: 0 <= c < |w.conns| && ProvedTo(cfg, w, w.conns[c], OneWayAuth, x, r)
  {
    hide Reachable;
    ReachableInv(cfg, w);
    if r in w.nodes[x].incoming {
      var c := AdmissionEvidence(cfg, w, IncomingGate, x, r);
      AdmissionProves(cfg, w, c, IncomingGate, x, r);
    }
  }

  lemma ProvedToIsListed(cfg: Config, w: World, k: Conn, mode: Mode, x: Id, r: Id)
    requires Inv(cfg, w) && ProvedTo(cfg, w, k, mode, x, r) && cfg.parties[x].For(mode).roster.Keys <= cfg.honestKeys
    ensures r in cfg.parties && cfg.parties[r].For(mode).key in cfg.parties[x].For(mode).roster
  {
    hide Inv, StatementBytes;
    var p := k.acc.proof.value;
    HonestSignature(cfg, w, cfg.parties[x].For(mode).roster, p.key,
                    InitiatorStatement(mode, NonceOf(k.acc.challenge).value, r, p.time), p.signature);
  }

  lemma ProvedBackIsListed(cfg: Config, w: World, k: Conn, x: Id, r: Id)
    requires Inv(cfg, w) && ProvedBack(cfg, w, k, x, r) && cfg.parties[x].mutual.roster.Keys <= cfg.honestKeys
    ensures r in cfg.parties && cfg.parties[r].mutual.key in cfg.parties[x].mutual.roster
  {
    hide Inv, StatementBytes;
    var ch := k.ini.challenge.value;
    HonestSignature(cfg, w, cfg.parties[x].mutual.roster, ch.key, AcceptorStatement(k.ini.nonce, r, ch.time), ch.signature);
  }

  /** The purpose of the mutual gate: if a node's roster lists honest keys only, it admits honest endpoints only, and
      each of them operates with a key on that roster. */
  lemma MutualMembersAreListed(cfg: Config, w: World, x: Id, r: Id)
    requires ValidConfig(cfg) && Reachable(cfg, w) && x in cfg.parties
    requires cfg.parties[x].mutual.roster.Keys <= cfg.honestKeys
    ensures x in w.nodes
    ensures AfterHandshakeAccepts(false, w.nodes[x].mutual.allowed, r) ==>
              r in cfg.parties && cfg.parties[r].mutual.key in cfg.parties[x].mutual.roster
  {
    hide Reachable, Inv, ProvedTo, ProvedBack;
    MutualGateSafety(cfg, w, x, r);
    ReachableInv(cfg, w);
    if r in w.nodes[x].mutual.allowed {
      var c :| 0 <= c < |w.conns| && (ProvedTo(cfg, w, w.conns[c], MutualAuth, x, r) || ProvedBack(cfg, w, w.conns[c], x, r));
      if ProvedTo(cfg, w, w.conns[c], MutualAuth, x, r) {
        ProvedToIsListed(cfg, w, w.conns[c], MutualAuth, x, r);
      } else {
        ProvedBackIsListed(cfg, w, w.conns[c], x, r);
      }
    }
  }

  /** The same for the one-way gate. */
  lemma IncomingMembersAreListed(cfg: Config, w: World, x: Id, r: Id)
    requires ValidConfig(cfg) && Reachable(cfg, w) && x in cfg.parties
    requires cfg.parties[x].oneWay.roster.Keys <= cfg.honestKeys
    ensures x in w.nodes
    ensures AfterHandshakeAccepts(false, w.nodes[x].incoming, r) ==>
              r in cfg.parties && cfg.parties[r].oneWay.key in cfg.parties[x].oneWay.roster
  {
    hide Reachable, Inv, ProvedTo;
    IncomingGateSafety(cfg, w, x, r);
    ReachableInv(cfg, w);
    if r in w.nodes[x].incoming {
      var c :| 0 <= c < |w.conns| && ProvedTo(cfg, w, w.conns[c], OneWayAuth, x, r);
      ProvedToIsListed(cfg, w, w.conns[c], OneWayAuth, x, r);
    }
  }

  /** A reply of success, in either mode, is only ever sent for a remote that the dialling side's set holds;
      in mutual mode that set is also the node's own inbound gate. */
  lemma AcceptedDialsAreMembers(cfg: Config, w: World, x: Id, mode: Mode, rep: Reply)
    requires ValidConfig(cfg) && Reachable(cfg, w) && x in cfg.parties
    ensures x in w.nodes
    ensures rep in TaskOf(w.nodes[x], mode).sent && rep.result.Ok? ==>
              && rep.remote in Members(w.nodes[x], DialGate(mode))
              && (mode.MutualAuth? ==> AfterHandshakeAccepts(false, w.nodes[x].mutual.allowed, rep.remote))
  {
    hide Reachable;
    ReachableInv(cfg, w);
    hide ConnInv, SigInv, MadeInv, DrawnDistinct, FlightInv, GateInv;
    assert NodeInv(x, w.nodes[x]);
  }

  // ---------------------------------------------------------------------------
  // Verdict ordering across nodes
  // ---------------------------------------------------------------------------

  /** Both modes, whoever dialled: an honest acceptor's connection is closed with acceptance only when its set already
      holds the initiator. */
  lemma AcceptanceMeansRecorded(cfg: Config, w: World, c: nat)
    requires ValidConfig(cfg) && Reachable(cfg, w) && c < |w.conns| && w.conns[c].acceptor in cfg.parties
    ensures w.conns[c].acceptor in w.nodes
    ensures w.conns[c].closed == Some(CLOSE_ACCEPTED) ==>
              && w.conns[c].acc.recorded
              && w.conns[c].dialer in Members(w.nodes[w.conns[c].acceptor], AcceptGate(w.conns[c].mode))
  {
    hide Reachable, ConnInv, SigInv, MadeInv, DrawnDistinct, FlightInv, NodeInv;
    ReachableInv(cfg, w);
    var k := w.conns[c];
    if k.closed.Some? {
      CloseIsTheVerdict(cfg, w.ledger, c, k);
    }
    if k.acc.recorded {
      assert WorldInvariant.Admits(k, AcceptGate(k.mode), k.acceptor, k.dialer);
      assert AdmittedBy(w.conns, AcceptGate(k.mode), k.acceptor, k.dialer);
    }
  }

  /** So once an honest initiator has returned with success from an honest acceptor, that acceptor's set holds it. */
  lemma SettledMeansRecorded(cfg: Config, w: World, c: nat)
    requires ValidConfig(cfg) && Reachable(cfg, w) && c < |w.conns|
    requires w.conns[c].dialer in cfg.parties && w.conns[c].acceptor in cfg.parties
    requires InitiatorDone(w.conns[c]) && w.conns[c].ini.result.Ok?
    ensures w.conns[c].acceptor in w.nodes && w.conns[c].acc.recorded
    ensures w.conns[c].dialer in Members(w.nodes[w.conns[c].acceptor], AcceptGate(w.conns[c].mode))
  {
    hide Reachable, ConnInv, SigInv, MadeInv, DrawnDistinct, FlightInv, GateInv, NodeInv, Members;
    ReachableInv(cfg, w);
    SuccessWasSeen(cfg, w.ledger, c, w.conns[c]);
    CloseIsTheVerdict(cfg, w.ledger, c, w.conns[c]);
    AcceptanceMeansRecorded(cfg, w, c);
  }

  /** One-way mode: every honest acceptor in an initiator's cache already holds the initiator, so the application
      dial that follows passes its gate. */
  lemma CachedMeansRecorded(cfg: Config, w: World, x: Id, r: Id)
    requires ValidConfig(cfg) && Reachable(cfg, w) && x in cfg.parties && r in cfg.parties
    ensures x in w.nodes && r in w.nodes
    ensures r in w.nodes[x].outgoing.allowed ==> AfterHandshakeAccepts(false, w.nodes[r].incoming, x)
  {
    hide Reachable, ConnInv, SigInv, MadeInv, DrawnDistinct, GateInv, FlightInv, NodeInv;
    ReachableInv(cfg, w);
    if r in w.nodes[x].outgoing.allowed {
      var c := AdmissionEvidence(cfg, w, OutgoingGate, x, r);
      SettledMeansRecorded(cfg, w, c);
    }
  }

  /** A run goes on: `more` follows `steps`. */
  ghost predicate Continues(cfg: Config, steps: seq<Step>, more: seq<Step>) {
    Run(cfg, steps) && Run(cfg, steps + more)
  }

  lemma StepGrows(cfg: Config, w: World, s: Step, x: Id, gate: Gate)
    requires Can(cfg, w, s) && x in w.nodes
    ensures x in Do(cfg, w, s).nodes && Members(w.nodes[x], gate) <= Members(Do(cfg, w, s).nodes[x], gate)
  {
    hide ActOn, CanAct, Grow, HaltedConns;
  }

  /** No peer set ever shrinks. */
  lemma {:induction false} SetsGrow(cfg: Config, steps: seq<Step>, more: seq<Step>, x: Id, gate: Gate)
    requires ValidConfig(cfg) && Continues(cfg, steps, more) && x in cfg.parties
    ensures x in After(cfg, steps).nodes && x in After(cfg, steps + more).nodes
    ensures Members(After(cfg, steps).nodes[x], gate) <= Members(After(cfg, steps + more).nodes[x], gate)
    decreases |more|
  {
    hide Do, Can, Members;
    RunsKeepNodes(cfg, steps);
    RunsKeepNodes(cfg, steps + more);
    if more == [] {
      assert steps + more == steps;
    } else {
      var less := more[..|more| - 1];
      assert (steps + more)[..|steps + more| - 1] == steps + less;
      SetsGrow(cfg, steps, less, x, gate);
      StepGrows(cfg, After(cfg, steps + less), more[|more| - 1], x, gate);
    }
  }

  /** One-way mode: a dial that `before_connect` accepts - a success was sent for it - towards an honest acceptor passes
      that acceptor's gate, whenever later it arrives. */
  lemma AcceptedDialPassesRemoteGate(cfg: Config, steps: seq<Step>, more: seq<Step>, x: Id, rep: Reply)
    requires ValidConfig(cfg) && Continues(cfg, steps, more) && x in cfg.parties && rep.remote in cfg.parties
    ensures x in After(cfg, steps).nodes && rep.remote in After(cfg, steps + more).nodes
    ensures rep in After(cfg, steps).nodes[x].outgoing.sent && rep.result.Ok? ==>
              AfterHandshakeAccepts(false, After(cfg, steps + more).nodes[rep.remote].incoming, x)
  {
    var w := After(cfg, steps);
    assert Reachable(cfg, w);
    AcceptedDialsAreMembers(cfg, w, x, OneWayAuth, rep);
    CachedMeansRecorded(cfg, w, x, rep.remote);
    SetsGrow(cfg, steps, more, rep.remote, IncomingGate);
  }

  // ---------------------------------------------------------------------------
  // Symmetry
  // ---------------------------------------------------------------------------

  /** A mutual handshake that `b` dialled and `a` accepted, whose success `b`'s task has not handled - yet, or ever. */
  predicate Unlearned(k: Conn, b: Id, a: Id) {
    && k.mode.MutualAuth? && k.dialer == b && k.acceptor == a && k.acc.recorded
    && !(k.ini.phase.Settled? && k.ini.result.Ok?)
  }

  ghost predicate SomeUnlearned(w: World, b: Id, a: Id) {
    exists c :: 0 <= c < |w.conns| && Unlearned(w.conns[c], b, a)
  }

  lemma EvidenceIsUnlearned(cfg: Config, w: World, c: nat, a: Id, b: Id)
    requires ValidConfig(cfg) && Reachable(cfg, w) && a in cfg.parties && b in cfg.parties && c < |w.conns|
    requires WorldInvariant.Admits(w.conns[c], MutualGate, a, b)
    ensures a in w.nodes && b in w.nodes
    ensures a !in w.nodes[b].mutual.allowed ==> Unlearned(w.conns[c], b, a)
  {
    hide Reachable, ConnInv, SigInv, MadeInv, DrawnDistinct, FlightInv, NodeInv;
    ReachableInv(cfg, w);
    var k := w.conns[c];
    if k.acc.recorded && k.acceptor == a && k.dialer == b {
      if !Unlearned(k, b, a) {
        assert WorldInvariant.Admits(k, MutualGate, b, a);
        assert AdmittedBy(w.conns, MutualGate, b, a);
        assert a in Members(w.nodes[b], MutualGate);
      }
    } else {
      SettledMeansRecorded(cfg, w, c);
    }
  }

  lemma UnlearnedIsHeld(cfg: Config, w: World, a: Id, b: Id)
    requires ValidConfig(cfg) && Reachable(cfg, w) && a in cfg.parties && SomeUnlearned(w, b, a)
    ensures a in w.nodes && b in w.nodes[a].mutual.allowed
  {
    hide Reachable, ConnInv, SigInv, MadeInv, DrawnDistinct, FlightInv, NodeInv;
    ReachableInv(cfg, w);
    var c :| 0 <= c < |w.conns| && Unlearned(w.conns[c], b, a);
    assert WorldInvariant.Admits(w.conns[c], MutualGate, a, b);
    assert AdmittedBy(w.conns, MutualGate, a, b);
    assert b in Members(w.nodes[a], MutualGate);
  }

  /** Of any two honest mutual nodes, in any run: while `b` does not hold `a`, `a` holds `b` exactly if it accepted a
      handshake of `b`'s that `b` has not learnt to have succeeded. */
  lemma HeldOneSided(cfg: Config, w: World, a: Id, b: Id)
    requires ValidConfig(cfg) && Reachable(cfg, w) && a in cfg.parties && b in cfg.parties
    ensures a in w.nodes && b in w.nodes
    ensures a !in w.nodes[b].mutual.allowed ==> (b in w.nodes[a].mutual.allowed <==> SomeUnlearned(w, b, a))
  {
    hide Reachable, ConnInv, SigInv, MadeInv, DrawnDistinct, FlightInv, GateInv, NodeInv;
    ReachableInv(cfg, w);
    if b in w.nodes[a].mutual.allowed {
      var c := AdmissionEvidence(cfg, w, MutualGate, a, b);
      EvidenceIsUnlearned(cfg, w, c, a, b);
    }
    if SomeUnlearned(w, b, a) {
      UnlearnedIsHeld(cfg, w, a, b);
    }
  }

  /** Symmetry, exactly, for any interleaving and cross-dials in both directions: it fails just when one of the two does
      not hold the other and has not learnt of an acceptance by it. */
  lemma SymmetricExactly(cfg: Config, w: World, a: Id, b: Id)
    requires ValidConfig(cfg) && Reachable(cfg, w) && a in cfg.parties && b in cfg.parties
    ensures a in w.nodes && b in w.nodes
    ensures (b in w.nodes[a].mutual.allowed <==> a in w.nodes[b].mutual.allowed)
            <==> && (SomeUnlearned(w, b, a) ==> a in w.nodes[b].mutual.allowed)
                 && (SomeUnlearned(w, a, b) ==> b in w.nodes[a].mutual.allowed)
  {
    hide SomeUnlearned, Reachable;
    HeldOneSided(cfg, w, a, b);
    HeldOneSided(cfg, w, b, a);
  }

  /** A handshake between two honest endpoints whose outcome may not have reached both: unsettled, or cut off. */
  predicate Outstanding(k: Conn, a: Id, b: Id) {
    k.mode.MutualAuth? && k.dialer == a && k.acceptor == b && (k.broken || !k.ini.phase.Settled?)
  }

  ghost predicate Quiet(w: World, a: Id, b: Id) {
    forall c :: 0 <= c < |w.conns| ==> !Outstanding(w.conns[c], a, b)
  }

  /** An acceptance can stay unlearnt only while its handshake is unsettled, or if its connection broke. */
  lemma UnlearnedIsOutstanding(cfg: Config, w: World, c: nat, a: Id, b: Id)
    requires ValidConfig(cfg) && Reachable(cfg, w) && a in cfg.parties && b in cfg.parties && c < |w.conns|
    ensures Unlearned(w.conns[c], b, a) ==> Outstanding(w.conns[c], b, a)
  {
    hide Reachable, ConnInv, SigInv, MadeInv, DrawnDistinct, FlightInv, GateInv, NodeInv;
    ReachableInv(cfg, w);
    if Unlearned(w.conns[c], b, a) {
      RecordedIsUnderWay(cfg, w.ledger, c, w.conns[c]);
    }
  }

  /** In any run, of any two honest mutual nodes: if `a`'s set holds `b` and no handshake dialled by `b` to `a` is
      outstanding, then `b`'s set holds `a`. */
  lemma RecordedBack(cfg: Config, w: World, a: Id, b: Id)
    requires ValidConfig(cfg) && Reachable(cfg, w) && a in cfg.parties && b in cfg.parties && Quiet(w, b, a)
    ensures a in w.nodes && b in w.nodes
    ensures b in w.nodes[a].mutual.allowed ==> a in w.nodes[b].mutual.allowed
  {
    hide Reachable, Unlearned, Outstanding;
    HeldOneSided(cfg, w, a, b);
    if SomeUnlearned(w, b, a) {
      var c :| 0 <= c < |w.conns| && Unlearned(w.conns[c], b, a);
      UnlearnedIsOutstanding(cfg, w, c, a, b);
    }
  }

  /** So symmetry at quiescence: when no handshake between two honest mutual nodes is outstanding, each holds the other
      or neither does. */
  lemma SymmetricWhenQuiet(cfg: Config, w: World, a: Id, b: Id)
    requires ValidConfig(cfg) && Reachable(cfg, w) && a in cfg.parties && b in cfg.parties
    requires Quiet(w, a, b) && Quiet(w, b, a)
    ensures a in w.nodes && b in w.nodes
    ensures b in w.nodes[a].mutual.allowed <==> a in w.nodes[b].mutual.allowed
  {
    RecordedBack(cfg, w, a, b);
    RecordedBack(cfg, w, b, a);
  }

  /** `r` has recorded `x` on the strength of this handshake, at whichever end. */
  predicate Learnt(k: Conn, r: Id, x: Id) {
    && k.mode.MutualAuth?
    && ((k.dialer == r && k.acceptor == x && k.ini.phase.Settled? && k.ini.result.Ok?)
        || (k.dialer == x && k.acceptor == r && k.acc.recorded))
  }

  ghost predicate SomeLearnt(w: World, r: Id, x: Id) {
    exists c :: 0 <= c < |w.conns| && Learnt(w.conns[c], r, x)
  }

  lemma LearntIsHeld(cfg: Config, w: World, r: Id, x: Id)
    requires ValidConfig(cfg) && Reachable(cfg, w) && r in cfg.parties
    ensures r in w.nodes
    ensures x in w.nodes[r].mutual.allowed <==> SomeLearnt(w, r, x)
  {
    hide Reachable, ConnInv, SigInv, MadeInv, DrawnDistinct, FlightInv, NodeInv;
    ReachableInv(cfg, w);
    assert forall c :: 0 <= c < |w.conns| ==> (Learnt(w.conns[c], r, x) <==> WorldInvariant.Admits(w.conns[c], MutualGate, r, x));
    assert x in Members(w.nodes[r], MutualGate) <==> AdmittedBy(w.conns, MutualGate, r, x);
    hide Learnt, WorldInvariant.Admits;
  }

  /** Mutual mode: whether a dial that `before_connect` accepts towards an honest remote passes its gate, whenever later
      it arrives. Exactly, in terms of handshakes: if the remote has recorded the dialler on one. And it suffices that
      no acceptance of the remote's own handshakes is unlearnt. */
  lemma AcceptedMutualDialAtRemoteGate(cfg: Config, steps: seq<Step>, more: seq<Step>, x: Id, rep: Reply)
    requires ValidConfig(cfg) && Continues(cfg, steps, more) && x in cfg.parties && rep.remote in cfg.parties
    requires x in After(cfg, steps).nodes && rep in After(cfg, steps).nodes[x].mutual.sent && rep.result.Ok?
    ensures rep.remote in After(cfg, steps + more).nodes
    ensures var w, r := After(cfg, steps + more), rep.remote;
            && (AfterHandshakeAccepts(false, w.nodes[r].mutual.allowed, x) <==> SomeLearnt(w, r, x))
            && (!SomeUnlearned(w, r, x) ==> AfterHandshakeAccepts(false, w.nodes[r].mutual.allowed, x))
  {
    var w := After(cfg, steps + more);
    assert Reachable(cfg, After(cfg, steps)) && Reachable(cfg, w);
    hide Reachable, SomeUnlearned, SomeLearnt;
    AcceptedDialsAreMembers(cfg, After(cfg, steps), x, MutualAuth, rep);
    SetsGrow(cfg, steps, more, x, MutualGate);
    HeldOneSided(cfg, w, x, rep.remote);
    LearntIsHeld(cfg, w, rep.remote, x);
  }
}
