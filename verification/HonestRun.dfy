/** From any reachable state, a handshake just spawned between two compatible honest endpoints can run to success. */
module HonestRun {
  import opened Types
  import opened Wire
  import opened Transcripts
  import opened Handshake
  import opened AuthTask
  import opened Network
  import opened ConnInvariant
  import opened WorldInvariant
  import opened StepInvariant
  import opened Agreement
  import opened Tasks
  import opened Completeness
  import opened Progress

  // ---------------------------------------------------------------------------
  // The connection, step by step
  // ---------------------------------------------------------------------------

  function Greeted(mode: Mode, a: Id, b: Id, x: Inputs): Conn {
    var k := NewConn(mode, a, b);
    k.(up := Written(Hello(mode, x.nonceA)), ini := k.ini.(phase := AwaitChallenge, greeted := true, nonce := x.nonceA))
  }

  function Challenged(mode: Mode, a: Party, b: Party, x: Inputs): Conn {
    var k, hello := Greeted(mode, a.id, b.id, x), Hello(mode, x.nonceA);
    k.(down := Written(ChallengeOf(mode, b, x)),
       acc := Acc(AwaitProof, Some(hello), Some(ChallengeOf(mode, b, x)), None, 0, false, |Written(hello)|))
  }

  function Proved(mode: Mode, a: Party, b: Party, x: Inputs): Conn {
    var k := Challenged(mode, a, b, x);
    k.(up := Written(Hello(mode, x.nonceA)) + Written(ProofOf(mode, a, x)),
       ini := k.ini.(phase := AwaitVerdict, challenge := Some(ChallengeOf(mode, b, x)), clock := x.seenAt,
                     proof := Some(ProofOf(mode, a, x))))
  }

  function Accepted(mode: Mode, a: Party, b: Party, x: Inputs): Conn {
    var k := Proved(mode, a, b, x);
    k.(acc := k.acc.(phase := Judged, clock := x.receivedAt, proof := Some(ProofOf(mode, a, x))))
  }

  function Recorded(mode: Mode, a: Party, b: Party, x: Inputs): Conn {
    var k := Accepted(mode, a, b, x);
    k.(acc := k.acc.(recorded := true))
  }

  function Concluded(mode: Mode, a: Party, b: Party, x: Inputs): Conn {
    Finish(Recorded(mode, a, b, x), CLOSE_ACCEPTED)
  }

  function Learned(mode: Mode, a: Party, b: Party, x: Inputs): Conn {
    Return(Concluded(mode, a, b, x), Ok(()))
  }

  /** Two honest endpoints, with fresh nonces, that meet the conditions for an honest run to succeed. */
  ghost predicate Ready(cfg: Config, drawn: set<Nonce>, mode: Mode, a: Id, b: Id, local: Option<Id>, x: Inputs) {
    && ValidConfig(cfg) && a in cfg.parties && b in cfg.parties
    && x.nonceA !in drawn && x.nonceB !in drawn && x.nonceA != x.nonceB
    && (local.Some? ==> local == Some(b))
    && Compatible(mode, cfg.parties[a], cfg.parties[b], local, x)
  }

  lemma GreetStep(cfg: Config, ledger: Ledger, mode: Mode, a: Id, b: Id, local: Option<Id>, x: Inputs)
    requires Ready(cfg, ledger.drawn, mode, a, b, local, x)
    ensures var k := NewConn(mode, a, b);
            && CanAct(cfg, ledger.drawn, local, k, Greet(x.nonceA))
            && ActOn(cfg, ledger.sigs, ledger.drawn, local, k, Greet(x.nonceA)) == Greeted(mode, a, b, x)
  {
    hide Encode, Written, Hello, Compatible;
  }

  lemma HelloStep(cfg: Config, ledger: Ledger, i: nat, mode: Mode, a: Id, b: Id, local: Option<Id>, x: Inputs)
    requires Ready(cfg, {}, mode, a, b, local, x) && x.nonceB !in ledger.drawn
    ensures var k, act := Greeted(mode, a, b, x), ReceiveHello(x.nonceB, x.challengedAt, Ok(x.sigB));
            && CanAct(cfg, ledger.drawn, local, k, act)
            && ActOn(cfg, ledger.sigs, ledger.drawn, local, k, act) == Challenged(mode, cfg.parties[a], cfg.parties[b], x)
            && (mode.MutualAuth? ==>
                  Sig(cfg.parties[b].mutual.key, StatementBytes(AcceptorStatement(x.nonceA, b, x.challengedAt)), x.sigB)
                    in Grow(cfg, ledger, local, i, k, act).sigs)
  {
    hide Encode, Written, ReadFrame, StatementBytes, InTime;
    ReadBackAlone(Hello(mode, x.nonceA));
    SmallChallenge(x.nonceB, x.challengedAt);
  }

  lemma ChallengeStands(mode: Mode, a: Party, b: Party, sigs: set<Sig>, x: Inputs)
    requires mode.MutualAuth? ==>
               && b.mutual.key in a.mutual.roster && x.seenAt - 300 <= x.challengedAt <= x.seenAt + 300
               && Sig(b.mutual.key, StatementBytes(AcceptorStatement(x.nonceA, b.id, x.challengedAt)), x.sigB) in sigs
    ensures JudgeChallenge(mode, a, sigs, b.id, x.nonceA, Ok(ChallengeOf(mode, b, x)), x.seenAt) == Ok(ChallengeOf(mode, b, x))
  {
    hide StatementBytes;
  }

  lemma ChallengeArrives(mode: Mode, a: Party, b: Party, local: Option<Id>, x: Inputs)
    requires Compatible(mode, a, b, local, x)
    ensures ChallengeRead(Challenged(mode, a, b, x)).Got?
    ensures ChallengeRead(Challenged(mode, a, b, x)).message == ChallengeOf(mode, b, x)
    ensures |Encode(ProofOf(mode, a, x))| < U32_LIMIT
  {
    hide Encode, Written, ReadFrame, InTime, Hello;
    SmallChallenge(x.nonceB, x.challengedAt);
    ReadBackAlone(ChallengeOf(mode, b, x));
  }

  lemma ChallengeStep(cfg: Config, ledger: Ledger, i: nat, mode: Mode, a: Id, b: Id, local: Option<Id>, x: Inputs)
    requires Ready(cfg, {}, mode, a, b, local, x)
    requires mode.MutualAuth? ==>
               Sig(cfg.parties[b].mutual.key, StatementBytes(AcceptorStatement(x.nonceA, b, x.challengedAt)), x.sigB) in ledger.sigs
    ensures var k, act := Challenged(mode, cfg.parties[a], cfg.parties[b], x), ReceiveChallenge(x.seenAt, x.provedAt, Ok(x.sigA));
            && CanAct(cfg, ledger.drawn, local, k, act)
            && ActOn(cfg, ledger.sigs, ledger.drawn, local, k, act) == Proved(mode, cfg.parties[a], cfg.parties[b], x)
            && Sig(cfg.parties[a].For(mode).key, StatementBytes(InitiatorStatement(mode, x.nonceB, a, x.provedAt)), x.sigA)
                 in Grow(cfg, ledger, local, i, k, act).sigs
  {
    hide Encode, Written, ReadFrame, StatementBytes, InTime, Hello, JudgeChallenge, ChallengeRead;
    ChallengeArrives(mode, cfg.parties[a], cfg.parties[b], local, x);
    ChallengeStands(mode, cfg.parties[a], cfg.parties[b], ledger.sigs, x);
  }

  lemma ProofStands(mode: Mode, a: Party, b: Party, sigs: set<Sig>, x: Inputs)
    requires a.For(mode).key in b.For(mode).roster
    requires var clock, max := if mode.OneWayAuth? then x.challengedAt else x.receivedAt, b.For(mode).maxSkew;
             max.Some? ==> clock - max.value <= x.provedAt <= clock + max.value
    requires Sig(a.For(mode).key, StatementBytes(InitiatorStatement(mode, x.nonceB, a.id, x.provedAt)), x.sigA) in sigs
    ensures JudgeProof(mode, b, sigs, a.id, ChallengeOf(mode, b, x), Ok(ProofOf(mode, a, x)), x.receivedAt) == Ok(a.id)
  {
    hide StatementBytes;
  }

  lemma ProofArrives(mode: Mode, a: Party, b: Party, x: Inputs)
    requires |Encode(ProofOf(mode, a, x))| <= MAX_MSG
    ensures ProofRead(Proved(mode, a, b, x)).Got?
    ensures ProofRead(Proved(mode, a, b, x)).message == ProofOf(mode, a, x)
  {
    hide Encode, Written, ReadFrame, InTime, Hello;
    var k := Proved(mode, a, b, x);
    ReadBackAlone(ProofOf(mode, a, x));
    assert k.up[k.acc.pos..] == Written(ProofOf(mode, a, x));
  }

  lemma ProofStep(cfg: Config, ledger: Ledger, mode: Mode, a: Id, b: Id, local: Option<Id>, x: Inputs)
    requires Ready(cfg, {}, mode, a, b, local, x)
    requires Sig(cfg.parties[a].For(mode).key, StatementBytes(InitiatorStatement(mode, x.nonceB, a, x.provedAt)), x.sigA) in ledger.sigs
    ensures var k, act := Proved(mode, cfg.parties[a], cfg.parties[b], x), ReceiveProof(x.receivedAt);
            && CanAct(cfg, ledger.drawn, local, k, act)
            && ActOn(cfg, ledger.sigs, ledger.drawn, local, k, act) == Accepted(mode, cfg.parties[a], cfg.parties[b], x)
  {
    hide Encode, Written, ReadFrame, StatementBytes, InTime, Hello, JudgeProof, ProofRead;
    ProofArrives(mode, cfg.parties[a], cfg.parties[b], x);
    ProofStands(mode, cfg.parties[a], cfg.parties[b], ledger.sigs, x);
  }

  lemma RecordStep(cfg: Config, ledger: Ledger, mode: Mode, a: Id, b: Id, local: Option<Id>, x: Inputs)
    requires ValidConfig(cfg) && a in cfg.parties && b in cfg.parties
    ensures var k := Accepted(mode, cfg.parties[a], cfg.parties[b], x);
            && CanAct(cfg, ledger.drawn, local, k, RecordPeer)
            && ActOn(cfg, ledger.sigs, ledger.drawn, local, k, RecordPeer) == Recorded(mode, cfg.parties[a], cfg.parties[b], x)
  {
    hide Encode, Written, Hello, ProofOf, ChallengeOf;
  }

  lemma ConcludeStep(cfg: Config, ledger: Ledger, mode: Mode, a: Id, b: Id, local: Option<Id>, x: Inputs)
    requires ValidConfig(cfg) && a in cfg.parties && b in cfg.parties
    ensures var k := Recorded(mode, cfg.parties[a], cfg.parties[b], x);
            && CanAct(cfg, ledger.drawn, local, k, Conclude)
            && ActOn(cfg, ledger.sigs, ledger.drawn, local, k, Conclude) == Concluded(mode, cfg.parties[a], cfg.parties[b], x)
  {
    hide Encode, Written, Hello, ProofOf, ChallengeOf;
  }

  lemma LearnStep(cfg: Config, ledger: Ledger, mode: Mode, a: Id, b: Id, local: Option<Id>, x: Inputs)
    requires ValidConfig(cfg) && a in cfg.parties && b in cfg.parties
    ensures var k := Concluded(mode, cfg.parties[a], cfg.parties[b], x);
            && CanAct(cfg, ledger.drawn, local, k, Learn)
            && ActOn(cfg, ledger.sigs, ledger.drawn, local, k, Learn) == Learned(mode, cfg.parties[a], cfg.parties[b], x)
  {
    hide Encode, Written, Hello, ProofOf, ChallengeOf;
  }

  // ---------------------------------------------------------------------------
  // The run
  // ---------------------------------------------------------------------------

  /** No task has sent anything or changed who waits. */
  ghost predicate SameLists(w: World, w': World) {
    && w'.nodes.Keys == w.nodes.Keys
    && forall z, m :: z in w.nodes ==>
         TaskOf(w'.nodes[z], m).sent == TaskOf(w.nodes[z], m).sent && TaskOf(w'.nodes[z], m).pending == TaskOf(w.nodes[z], m).pending
  }

  lemma RecordFrame(n: Node, mode: Mode, remote: Id, m: Mode)
    ensures var n' := Record(n, mode, remote);
            && n'.local == n.local
            && TaskOf(n', m).sent == TaskOf(n, m).sent && TaskOf(n', m).pending == TaskOf(n, m).pending
  {
  }

  /** An act changes neither published ids, nor who waits or has been answered, nor any node but the acceptor. */
  lemma AtFrame(cfg: Config, w: World, c: nat, act: Act)
    requires Can(cfg, w, At(c, act))
    ensures var w' := Do(cfg, w, At(c, act));
            && (forall k :: LocalOf(w', k) == LocalOf(w, k))
            && (forall z :: z in w.nodes && z != w.conns[c].acceptor ==> z in w'.nodes && w'.nodes[z] == w.nodes[z])
            && SameLists(w, w')
  {
    AtShape(cfg, w, c, act);
    hide Do, Can, Record, TaskOf;
    var k := w.conns[c];
    if k.acceptor in w.nodes {
      forall m
        ensures var n' := Record(w.nodes[k.acceptor], k.mode, k.dialer);
                && n'.local == w.nodes[k.acceptor].local
                && TaskOf(n', m).sent == TaskOf(w.nodes[k.acceptor], m).sent
                && TaskOf(n', m).pending == TaskOf(w.nodes[k.acceptor], m).pending
      {
        RecordFrame(w.nodes[k.acceptor], k.mode, k.dialer, m);
      }
    }
  }

  lemma ActOnConn(cfg: Config, w: World, c: nat, act: Act)
    requires c < |w.conns| && CanAct(cfg, w.ledger.drawn, LocalOf(w, w.conns[c]), w.conns[c], act)
    ensures Can(cfg, w, At(c, act))
    ensures var w' := Do(cfg, w, At(c, act));
            && |w'.conns| == |w.conns|
            && w'.conns[c] == ActOn(cfg, w.ledger.sigs, w.ledger.drawn, LocalOf(w, w.conns[c]), w.conns[c], act)
            && w'.ledger == Grow(cfg, w.ledger, LocalOf(w, w.conns[c]), c, w.conns[c], act)
  {
    hide CanAct, ActOn, Grow, Record, LocalOf;
  }

  /** One act on connection `c`: what it is next, and what else can have changed. */
  lemma ActSnoc(cfg: Config, steps: seq<Step>, c: nat, act: Act)
    requires ValidConfig(cfg) && Run(cfg, steps) && c < |After(cfg, steps).conns|
    requires var w := After(cfg, steps); CanAct(cfg, w.ledger.drawn, LocalOf(w, w.conns[c]), w.conns[c], act)
    ensures Run(cfg, steps + [At(c, act)])
    ensures var w, w' := After(cfg, steps), After(cfg, steps + [At(c, act)]);
            && |w'.conns| == |w.conns|
            && w'.conns[c] == ActOn(cfg, w.ledger.sigs, w.ledger.drawn, LocalOf(w, w.conns[c]), w.conns[c], act)
            && w'.ledger == Grow(cfg, w.ledger, LocalOf(w, w.conns[c]), c, w.conns[c], act)
            && (forall k :: LocalOf(w', k) == LocalOf(w, k))
            && (forall z :: z in w.nodes && z != w.conns[c].acceptor ==> z in w'.nodes && w'.nodes[z] == w.nodes[z])
            && SameLists(w, w')
  {
    hide Run, After, Can, Do, CanAct, ActOn, Grow, LocalOf, SameLists;
    ActOnConn(cfg, After(cfg, steps), c, act);
    RunSnoc(cfg, steps, At(c, act));
    AtFrame(cfg, After(cfg, steps), c, act);
  }

  lemma SameListsChain(w: World, w': World, w'': World)
    requires SameLists(w, w') && SameLists(w', w'')
    ensures SameLists(w, w'')
  {
    hide TaskOf;
  }

  /** The first four acts: the acceptor has accepted the initiator's proof. */
  lemma RunToAcceptance(cfg: Config, steps: seq<Step>, c: nat, mode: Mode, a: Id, b: Id, x: Inputs) returns (more: seq<Step>)
    requires ValidConfig(cfg) && Run(cfg, steps) && c < |After(cfg, steps).conns|
    requires var w := After(cfg, steps);
             w.conns[c] == NewConn(mode, a, b) && Ready(cfg, w.ledger.drawn, mode, a, b, LocalOf(w, w.conns[c]), x)
    ensures |more| == 4 && forall s :: s in more ==> s.At? && s.conn == c
    ensures Run(cfg, steps + more) && |After(cfg, steps + more).conns| == |After(cfg, steps).conns|
    ensures After(cfg, steps + more).conns[c] == Accepted(mode, cfg.parties[a], cfg.parties[b], x)
    ensures a != b ==> a in After(cfg, steps).nodes && a in After(cfg, steps + more).nodes
                       && After(cfg, steps + more).nodes[a] == After(cfg, steps).nodes[a]
    ensures SameLists(After(cfg, steps), After(cfg, steps + more))
  {
    hide Run, After, CanAct, ActOn, Grow, LocalOf, NewConn, Greeted, Challenged, Proved, Accepted, Compatible, StatementBytes,
      SameLists;
    RunsKeepNodes(cfg, steps);
    var w0 := After(cfg, steps);
    var local := LocalOf(w0, w0.conns[c]);
    ConnEnds(cfg, mode, a, b, x);
    var a1, a2 := Greet(x.nonceA), ReceiveHello(x.nonceB, x.challengedAt, Ok(x.sigB));
    var a3, a4 := ReceiveChallenge(x.seenAt, x.provedAt, Ok(x.sigA)), ReceiveProof(x.receivedAt);
    GreetStep(cfg, w0.ledger, mode, a, b, local, x);
    ActSnoc(cfg, steps, c, a1);
    var s1 := steps + [At(c, a1)];
    var w1 := After(cfg, s1);
    GreetDraws(cfg, w0.ledger, local, c, w0.conns[c], x);
    LocalSame(w1, w0.conns[c], w1.conns[c]);
    HelloStep(cfg, w1.ledger, c, mode, a, b, local, x);
    ActSnoc(cfg, s1, c, a2);
    var s2 := s1 + [At(c, a2)];
    var w2 := After(cfg, s2);
    LocalSame(w2, w0.conns[c], w2.conns[c]);
    ChallengeStep(cfg, w2.ledger, c, mode, a, b, local, x);
    ActSnoc(cfg, s2, c, a3);
    var s3 := s2 + [At(c, a3)];
    var w3 := After(cfg, s3);
    LocalSame(w3, w0.conns[c], w3.conns[c]);
    ProofStep(cfg, w3.ledger, mode, a, b, local, x);
    ActSnoc(cfg, s3, c, a4);
    SameListsChain(w0, w1, w2);
    SameListsChain(w0, w2, w3);
    more := [At(c, a1), At(c, a2), At(c, a3), At(c, a4)];
    SameListsChain(w0, w3, After(cfg, s3 + [At(c, a4)]));
    assert s3 + [At(c, a4)] == steps + more;
  }

  /** The next two: it has recorded the initiator, then closed; the initiator has yet to learn it. */
  lemma RunToConclusion(cfg: Config, steps: seq<Step>, c: nat, mode: Mode, a: Id, b: Id, x: Inputs) returns (more: seq<Step>)
    requires ValidConfig(cfg) && Run(cfg, steps) && c < |After(cfg, steps).conns|
    requires var w := After(cfg, steps);
             w.conns[c] == NewConn(mode, a, b) && Ready(cfg, w.ledger.drawn, mode, a, b, LocalOf(w, w.conns[c]), x)
    ensures |more| == 6 && forall s :: s in more ==> s.At? && s.conn == c
    ensures Run(cfg, steps + more) && |After(cfg, steps + more).conns| == |After(cfg, steps).conns|
    ensures After(cfg, steps + more).conns[c] == Concluded(mode, cfg.parties[a], cfg.parties[b], x)
    ensures a != b ==> a in After(cfg, steps).nodes && a in After(cfg, steps + more).nodes
                       && After(cfg, steps + more).nodes[a] == After(cfg, steps).nodes[a]
    ensures SameLists(After(cfg, steps), After(cfg, steps + more))
  {
    hide Run, After, CanAct, ActOn, Grow, LocalOf, NewConn, Accepted, Recorded, Concluded, Compatible, SameLists;
    var more4 := RunToAcceptance(cfg, steps, c, mode, a, b, x);
    ConnEnds(cfg, mode, a, b, x);
    var s4 := steps + more4;
    var w4 := After(cfg, s4);
    RecordStep(cfg, w4.ledger, mode, a, b, LocalOf(w4, w4.conns[c]), x);
    ActSnoc(cfg, s4, c, RecordPeer);
    var s5 := s4 + [At(c, RecordPeer)];
    var w5 := After(cfg, s5);
    ConcludeStep(cfg, w5.ledger, mode, a, b, LocalOf(w5, w5.conns[c]), x);
    ActSnoc(cfg, s5, c, Conclude);
    more := more4 + [At(c, RecordPeer), At(c, Conclude)];
    SameListsChain(After(cfg, steps), w4, w5);
    SameListsChain(After(cfg, steps), w5, After(cfg, s5 + [At(c, Conclude)]));
    assert s5 + [At(c, Conclude)] == steps + more;
  }

  lemma ConnEnds(cfg: Config, mode: Mode, a: Id, b: Id, x: Inputs)
    requires ValidConfig(cfg) && a in cfg.parties && b in cfg.parties
    ensures NewConn(mode, a, b).acceptor == b && Greeted(mode, a, b, x).acceptor == b
    ensures Challenged(mode, cfg.parties[a], cfg.parties[b], x).acceptor == b
    ensures Proved(mode, cfg.parties[a], cfg.parties[b], x).acceptor == b
    ensures Accepted(mode, cfg.parties[a], cfg.parties[b], x).acceptor == b
    ensures Recorded(mode, cfg.parties[a], cfg.parties[b], x).acceptor == b
    ensures Concluded(mode, cfg.parties[a], cfg.parties[b], x).acceptor == b
  {
    hide Written, Hello, ChallengeOf, ProofOf;
  }

  lemma LocalSame(w: World, k: Conn, k': Conn)
    requires k.acceptor == k'.acceptor
    ensures LocalOf(w, k) == LocalOf(w, k')
  {
  }

  lemma GreetDraws(cfg: Config, ledger: Ledger, local: Option<Id>, i: nat, k: Conn, x: Inputs)
    requires CanAct(cfg, ledger.drawn, local, k, Greet(x.nonceA))
    ensures x.nonceB !in ledger.drawn && x.nonceB != x.nonceA ==>
              x.nonceB !in Grow(cfg, ledger, local, i, k, Greet(x.nonceA)).drawn
  {
  }

  /** From any reachable state, a fresh handshake between compatible honest endpoints has a continuation of eight
      steps after which each side's set holds the other. */
  lemma HonestHandshakeCompletes(cfg: Config, steps: seq<Step>, c: nat, mode: Mode, a: Id, b: Id, x: Inputs)
    returns (more: seq<Step>)
    requires ValidConfig(cfg) && Run(cfg, steps) && c < |After(cfg, steps).conns|
    requires var w := After(cfg, steps);
             w.conns[c] == NewConn(mode, a, b) && Ready(cfg, w.ledger.drawn, mode, a, b, LocalOf(w, w.conns[c]), x)
    ensures |more| == 8 && Run(cfg, steps + more)
    ensures var w, w' := After(cfg, steps), After(cfg, steps + more);
            && a in w.nodes && a in w'.nodes && b in w'.nodes
            && b in Members(w'.nodes[a], DialGate(mode))
            && a in Members(w'.nodes[b], AcceptGate(mode))
            && Answers(TaskOf(w.nodes[a], mode), TaskOf(w'.nodes[a], mode), b, Ok(()))
  {
    hide Run, After, CanAct, ActOn, Grow, LocalOf, Compatible, Inv, Members, Do, Can, NewConn, Concluded, Learned, TaskOf,
      Answers;
    var more6 := RunToConclusion(cfg, steps, c, mode, a, b, x);
    var s6 := steps + more6;
    var w6 := After(cfg, s6);
    LearnStep(cfg, w6.ledger, mode, a, b, LocalOf(w6, w6.conns[c]), x);
    ActSnoc(cfg, s6, c, Learn);
    var s7 := s6 + [At(c, Learn)];
    RunsKeepNodes(cfg, steps);
    SameListsChain(After(cfg, steps), w6, After(cfg, s7));
    SettleSnoc(cfg, s7, c, mode, a, b, x);
    SameWaiters(TaskOf(After(cfg, steps).nodes[a], mode), TaskOf(After(cfg, s7).nodes[a], mode),
                TaskOf(After(cfg, s7 + [Settle(c)]).nodes[a], mode), b, Ok(()));
    more := more6 + [At(c, Learn), Settle(c)];
    assert s7 + [Settle(c)] == steps + more;
  }

  lemma SettleSnoc(cfg: Config, steps: seq<Step>, c: nat, mode: Mode, a: Id, b: Id, x: Inputs)
    requires ValidConfig(cfg) && Run(cfg, steps) && c < |After(cfg, steps).conns|
    requires a in cfg.parties && b in cfg.parties
    requires After(cfg, steps).conns[c] == Learned(mode, cfg.parties[a], cfg.parties[b], x)
    ensures Run(cfg, steps + [Settle(c)])
    ensures var w, w' := After(cfg, steps), After(cfg, steps + [Settle(c)]);
            && a in w.nodes && a in w'.nodes && b in w'.nodes
            && b in Members(w'.nodes[a], DialGate(mode))
            && a in Members(w'.nodes[b], AcceptGate(mode))
            && Answers(TaskOf(w.nodes[a], mode), TaskOf(w'.nodes[a], mode), b, Ok(()))
  {
    hide TaskOf, Answers;
    var w := After(cfg, steps);
    RunsKeepNodes(cfg, steps);
    var k := w.conns[c];
    assert k.ini.phase.Returned? && k.ini.result == Ok(()) && k.dialer == a && k.acceptor == b && k.mode == mode;
    assert Can(cfg, w, Settle(c));
    RunSnoc(cfg, steps, Settle(c));
    var w' := Do(cfg, w, Settle(c));
    assert After(cfg, steps + [Settle(c)]) == w';
    assert Reachable(cfg, w');
    hide Run, After, Learned, Reachable;
    SettleAnswers(cfg, w, c);
    SettledMeansRecorded(cfg, w', c);
  }

  /** Symmetry is not claimed mid-run: from any such state in which `a` does not hold `b`, one is reached where `b`
      holds `a` and `a` still does not hold `b`. */
  lemma MidRunAsymmetry(cfg: Config, steps: seq<Step>, c: nat, a: Id, b: Id, x: Inputs) returns (more: seq<Step>)
    requires ValidConfig(cfg) && Run(cfg, steps) && c < |After(cfg, steps).conns| && a != b
    requires var w := After(cfg, steps);
             && w.conns[c] == NewConn(MutualAuth, a, b)
             && Ready(cfg, w.ledger.drawn, MutualAuth, a, b, LocalOf(w, w.conns[c]), x)
             && a in w.nodes && b !in w.nodes[a].mutual.allowed
    ensures Run(cfg, steps + more) && forall s :: s in more ==> s.At?
    ensures SameLists(After(cfg, steps), After(cfg, steps + more))
    ensures var w' := After(cfg, steps + more);
            && a in w'.nodes && b in w'.nodes
            && a in w'.nodes[b].mutual.allowed
            && b !in w'.nodes[a].mutual.allowed
  {
    more := RunToConclusion(cfg, steps, c, MutualAuth, a, b, x);
    var w' := After(cfg, steps + more);
    RunsKeepInv(cfg, steps + more);
    hide Run, After, LocalOf, Ready, ConnInv, SigInv, MadeInv, DrawnDistinct, FlightInv, NodeInv, SameLists;
    assert WorldInvariant.Admits(w'.conns[c], MutualGate, b, a);
    assert AdmittedBy(w'.conns, MutualGate, b, a);
    assert a in Members(w'.nodes[b], MutualGate);
  }

  // ---------------------------------------------------------------------------
  // From the start
  // ---------------------------------------------------------------------------

  /** A node that has received no request yet receives its first. */
  lemma FirstAsk(cfg: Config, w: World, mode: Mode, a: Id, b: Id, q: Req)
    requires a in w.nodes && b in w.nodes && w.conns == [] && w.ledger.drawn == {}
    requires w.nodes[a].mutual == Fresh && w.nodes[a].outgoing == Fresh && w.nodes[b].local == Some(b)
    requires w.nodes[b].mutual == Fresh
    ensures var w' := Do(cfg, w, Ask(a, mode, b, q));
            && |w'.conns| == 1 && w'.conns[0] == NewConn(mode, a, b)
            && w'.ledger.drawn == {} && LocalOf(w', w'.conns[0]) == Some(b)
            && a in w'.nodes && w'.nodes[a].mutual.allowed == {}
            && b in w'.nodes && !w'.nodes[b].mutual.stopped && w'.nodes[b].mutual.sent == []
            && TaskOf(w'.nodes[a], mode).pending == map[b := [q]] && TaskOf(w'.nodes[a], mode).sent == []
  {
    hide Apply;
    FreshAsk(b, q);
    RequestStarts(Fresh, b, q);
  }

  lemma FreshAsk(r: Id, q: Req)
    ensures Apply(Fresh, Request(r, q)) == Task({}, map[r := [q]], multiset{r}, multiset{r}, [], false)
  {
  }

  /** `b`'s task is spawned, then `a`'s task receives its first request for `b`. */
  lemma FirstRequest(cfg: Config, mode: Mode, a: Id, b: Id, q: Req)
    requires ValidConfig(cfg) && a in cfg.parties && b in cfg.parties
    ensures var steps := [Spawn(b), Ask(a, mode, b, q)];
            && Run(cfg, steps)
            && var w := After(cfg, steps);
            && |w.conns| == 1 && w.conns[0] == NewConn(mode, a, b)
            && w.ledger.drawn == {} && LocalOf(w, w.conns[0]) == Some(b)
            && a in w.nodes && w.nodes[a].mutual.allowed == {}
            && b in w.nodes && !w.nodes[b].mutual.stopped && w.nodes[b].mutual.sent == []
            && TaskOf(w.nodes[a], mode).pending == map[b := [q]] && TaskOf(w.nodes[a], mode).sent == []
  {
    var s1, s2 := Spawn(b), Ask(a, mode, b, q);
    assert Run(cfg, []) && After(cfg, []) == Init(cfg);
    hide Run, After, Apply, NewConn, LocalOf, TaskOf;
    RunSnoc(cfg, [], s1);
    assert [] + [s1] == [s1] && [s1] + [s2] == [s1, s2];
    RunSnoc(cfg, [s1], s2);
    FirstAsk(cfg, After(cfg, [s1]), mode, a, b, q);
  }

  /** The system authenticates: from the start, any two endpoints that meet the conditions reach a state
      where each holds the other, in either mode, after one request; the dial it was made for is then accepted here, and
      let in there, whatever its protocol. */
  lemma FirstContact(cfg: Config, mode: Mode, a: Id, b: Id, q: Req, x: Inputs, alpn: Bytes) returns (steps: seq<Step>)
    requires Ready(cfg, {}, mode, a, b, Some(b), x)
    ensures |steps| == 10 && Run(cfg, steps)
    ensures var w := After(cfg, steps);
            && a in w.nodes && b in w.nodes
            && b in Members(w.nodes[a], DialGate(mode))
            && a in Members(w.nodes[b], AcceptGate(mode))
            && TaskOf(w.nodes[a], mode).sent == [Reply(q, b, Ok(()))]
            && DialAccepted(mode, alpn, TaskOf(w.nodes[a], mode), q)
            && AfterHandshake(mode, alpn, GateSet(w.nodes[b], mode), a)
  {
    hide Run, After, LocalOf, Compatible, NewConn, TaskOf;
    FirstRequest(cfg, mode, a, b, q);
    var more := HonestHandshakeCompletes(cfg, [Spawn(b), Ask(a, mode, b, q)], 0, mode, a, b, x);
    steps := [Spawn(b), Ask(a, mode, b, q)] + more;
    OneReply(TaskOf(After(cfg, [Spawn(b), Ask(a, mode, b, q)]).nodes[a], mode), TaskOf(After(cfg, steps).nodes[a], mode), b, q);
  }

  lemma OneReply(t: Task, t': Task, r: Id, q: Req)
    requires t.pending == map[r := [q]] && t.sent == [] && Answers(t, t', r, Ok(()))
    ensures t'.sent == [Reply(q, r, Ok(()))] && VerdictSeen(t', q) == Answered(Ok(()))
  {
    assert PendingOf(t, r) == [q];
    assert t'.sent == [Reply(q, r, Ok(()))];
    SoleReply(t', r, q);
  }

  /** So states in which one of two honest mutual nodes holds the other, and not the reverse, are reachable. */
  lemma AsymmetryIsReachable(cfg: Config, a: Id, b: Id, q: Req, x: Inputs) returns (w: World)
    requires a != b && Ready(cfg, {}, MutualAuth, a, b, Some(b), x)
    ensures Reachable(cfg, w) && a in w.nodes && b in w.nodes
    ensures a in w.nodes[b].mutual.allowed && b !in w.nodes[a].mutual.allowed
  {
    hide Run, After, LocalOf, Compatible, NewConn, Members, TaskOf;
    FirstRequest(cfg, MutualAuth, a, b, q);
    var steps := [Spawn(b), Ask(a, MutualAuth, b, q)];
    var more := MidRunAsymmetry(cfg, steps, 0, a, b, x);
    w := After(cfg, steps + more);
  }

  /** Only a halt stops a task. */
  lemma {:induction false} KeepsRunning(cfg: Config, steps: seq<Step>, more: seq<Step>, x: Id)
    requires ValidConfig(cfg) && Run(cfg, steps + more) && x in cfg.parties && forall s :: s in more ==> !s.Halt?
    requires Run(cfg, steps) && x in After(cfg, steps).nodes
    ensures x in After(cfg, steps + more).nodes
    ensures After(cfg, steps + more).nodes[x].mutual.stopped == After(cfg, steps).nodes[x].mutual.stopped
    decreases |more|
  {
    hide Can, Do;
    if more == [] {
      assert steps + more == steps;
    } else {
      var less := more[..|more| - 1];
      assert (steps + more)[..|steps + more| - 1] == steps + less;
      KeepsRunning(cfg, steps, less, x);
      StepKeepsRunning(cfg, After(cfg, steps + less), more[|more| - 1], x);
    }
  }

  lemma StepKeepsRunning(cfg: Config, w: World, s: Step, x: Id)
    requires Can(cfg, w, s) && x in w.nodes && !s.Halt?
    ensures x in Do(cfg, w, s).nodes && Do(cfg, w, s).nodes[x].mutual.stopped == w.nodes[x].mutual.stopped
  {
    hide ActOn, CanAct, Grow;
  }

  lemma AnsweredAtOnce(cfg: Config, w: World, x: Id, r: Id, q: Req)
    requires x in w.nodes && r in w.nodes[x].mutual.allowed && !w.nodes[x].mutual.stopped
    ensures var w' := Do(cfg, w, Ask(x, MutualAuth, r, q));
            && x in w'.nodes && w'.nodes[x].mutual.sent == w.nodes[x].mutual.sent + [Reply(q, r, Ok(()))]
            && forall z :: z in w.nodes ==> z in w'.nodes && w'.nodes[z].mutual.allowed == w.nodes[z].mutual.allowed
  {
  }

  lemma SentListsSame(w: World, w': World, x: Id)
    requires SameLists(w, w') && x in w.nodes
    ensures x in w'.nodes && w'.nodes[x].mutual.sent == w.nodes[x].mutual.sent
  {
    assert TaskOf(w'.nodes[x], MutualAuth).sent == TaskOf(w.nodes[x], MutualAuth).sent;
  }

  lemma SoleReply(t: Task, r: Id, q: Req)
    requires t.sent == [Reply(q, r, Ok(()))]
    ensures VerdictSeen(t, q) == Answered(Ok(()))
  {
    assert t.sent[..0] == [];
    assert ResultsFor(t.sent, q) == [Ok(())];
  }

  /** And the caller can meet it: for any two such endpoints a state is reachable in which a dial that the hook accepts
      is refused by the honest remote's own hook, whatever its protocol. */
  lemma AcceptedMutualDialCanBeRefused(cfg: Config, a: Id, b: Id, q: Req, q': Req, x: Inputs, alpn: Bytes) returns (w: World)
    requires a != b && Ready(cfg, {}, MutualAuth, a, b, Some(b), x) && alpn != AuthAlpn(MutualAuth)
    ensures Reachable(cfg, w) && a in w.nodes && b in w.nodes
    ensures w.nodes[b].mutual.sent == [Reply(q', a, Ok(()))]
    ensures DialAccepted(MutualAuth, alpn, w.nodes[b].mutual, q')
    ensures !AfterHandshake(MutualAuth, alpn, w.nodes[a].mutual.allowed, b)
  {
    hide Run, After, LocalOf, Compatible, NewConn, Members, TaskOf, Do, SameLists;
    FirstRequest(cfg, MutualAuth, a, b, q);
    var steps := [Spawn(b), Ask(a, MutualAuth, b, q)];
    var more := MidRunAsymmetry(cfg, steps, 0, a, b, x);
    KeepsRunning(cfg, steps, more, b);
    SentListsSame(After(cfg, steps), After(cfg, steps + more), b);
    AnsweredAtOnce(cfg, After(cfg, steps + more), b, a, q');
    RunSnoc(cfg, steps + more, Ask(b, MutualAuth, a, q'));
    w := After(cfg, steps + more + [Ask(b, MutualAuth, a, q')]);
    SoleReply(w.nodes[b].mutual, a, q');
  }
}
