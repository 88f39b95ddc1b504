/** The system cannot get stuck on a waiter between honest endpoints, and cannot go on forever. */
module Progress {
  import opened Types
  import opened Wire
  import opened Handshake
  import opened AuthTask
  import opened Network
  import opened ConnInvariant
  import opened WorldInvariant
  import opened StepInvariant
  import opened Agreement
  import opened NodeTraces

  // ---------------------------------------------------------------------------
  // A bound on handshake steps
  // ---------------------------------------------------------------------------

  /** The steps handshakes and their completions take; the others come from the environment. */
  predicate HandshakeStep(s: Step) {
    s.Settle? || (s.At? && !s.act.SendUp? && !s.act.SendDown? && !s.act.CloseDown? && !s.act.Break?)
  }

  function Weight(k: Conn): nat {
    (match k.ini.phase case Dialing => 4 case AwaitChallenge => 3 case AwaitVerdict => 2 case Returned => 1 case Settled => 0)
    + (match k.acc.phase
       case AwaitHello => 4
       case AwaitProof => 3
       case Judged => if k.acc.recorded || k.acc.proof.None? then 1 else 2
       case Finished => 0)
  }

  function TotalWeight(conns: seq<Conn>): nat {
    if conns == [] then 0 else TotalWeight(conns[..|conns| - 1]) + Weight(conns[|conns| - 1])
  }

  lemma {:induction false} TotalWeightUpdate(conns: seq<Conn>, c: nat, k: Conn)
    requires c < |conns|
    ensures TotalWeight(conns[c := k]) == TotalWeight(conns) - Weight(conns[c]) + Weight(k)
  {
    hide Weight;
    var pre := conns[..|conns| - 1];
    if c == |conns| - 1 {
      assert conns[c := k][..|conns| - 1] == pre;
    } else {
      TotalWeightUpdate(pre, c, k);
      assert conns[c := k][..|conns| - 1] == pre[c := k];
    }
  }

  lemma TotalWeightAppend(conns: seq<Conn>, k: Conn)
    ensures TotalWeight(conns + [k]) == TotalWeight(conns) + Weight(k)
  {
    assert (conns + [k])[..|conns|] == conns;
  }

  lemma {:induction false} TotalWeightHalted(conns: seq<Conn>, mode: Mode, x: Id)
    ensures TotalWeight(HaltedConns(conns, mode, x)) <= TotalWeight(conns)
  {
    hide HaltedConns;
    if conns == [] {
    } else {
      var pre := conns[..|conns| - 1];
      TotalWeightHalted(pre, mode, x);
      assert HaltedConns(conns, mode, x)[..|conns| - 1] == HaltedConns(pre, mode, x);
    }
  }

  lemma ActWeight(cfg: Config, ledger: Ledger, local: Option<Id>, k: Conn, a: Act)
    requires CanAct(cfg, ledger.drawn, local, k, a)
    ensures var k' := ActOn(cfg, ledger.sigs, ledger.drawn, local, k, a);
            if HandshakeStep(At(0, a)) then Weight(k') < Weight(k) else Weight(k') == Weight(k)
  {
    hide Encode, Written, Hello, ReadFrame, JudgeChallenge, JudgeProof, AnswerHello, Prove;
  }

  lemma StepWeight(cfg: Config, w: World, s: Step)
    requires Can(cfg, w, s)
    ensures var w' := Do(cfg, w, s);
            && (HandshakeStep(s) ==> TotalWeight(w'.conns) < TotalWeight(w.conns))
            && TotalWeight(w'.conns) <= TotalWeight(w.conns) + if s.Ask? || s.Open? then 8 else 0
  {
    hide TotalWeight, ActOn, CanAct, Grow, Apply, AuthTask.HandleCompletion, HaltedConns;
    match s
    case At(c, a) =>
      ActWeight(cfg, w.ledger, LocalOf(w, w.conns[c]), w.conns[c], a);
      TotalWeightUpdate(w.conns, c, Do(cfg, w, s).conns[c]);
    case Settle(c) => TotalWeightUpdate(w.conns, c, Do(cfg, w, s).conns[c]);
    case Halt(x, mode) => TotalWeightHalted(w.conns, mode, x);
    case Ask(x, mode, r, _) => TotalWeightAppend(w.conns, NewConn(mode, x, r));
    case Open(mode, x, y) => TotalWeightAppend(w.conns, NewConn(mode, x, y));
    case Spawn(_) =>
    case Forge(_) =>
  }

  function HandshakeSteps(steps: seq<Step>): nat {
    if steps == [] then 0
    else HandshakeSteps(steps[..|steps| - 1]) + if HandshakeStep(steps[|steps| - 1]) then 1 else 0
  }

  function Demands(steps: seq<Step>): nat {
    if steps == [] then 0
    else Demands(steps[..|steps| - 1]) + if steps[|steps| - 1].Ask? || steps[|steps| - 1].Open? then 1 else 0
  }

  /** Termination: in any run, handshakes take at most eight steps per request or foreign dial. */
  lemma {:induction false} HandshakeStepsBounded(cfg: Config, steps: seq<Step>)
    requires Run(cfg, steps)
    ensures HandshakeSteps(steps) + TotalWeight(After(cfg, steps).conns) <= 8 * Demands(steps)
  {
    hide Do, Can, Weight;
    if steps == [] {
    } else {
      var pre := steps[..|steps| - 1];
      HandshakeStepsBounded(cfg, pre);
      StepWeight(cfg, After(cfg, pre), steps[|steps| - 1]);
    }
  }

  // ---------------------------------------------------------------------------
  // No waiter is stuck
  // ---------------------------------------------------------------------------

  /** What can happen next on an unsettled connection, whatever the clocks and signers say. */
  function NextStep(k: Conn, c: nat, nonce: Nonce, now: u64, time: u64, signed: Result<Bytes>): Step {
    match k.ini.phase
    case Dialing => At(c, Greet(nonce))
    case AwaitChallenge =>
      if k.acc.phase.AwaitHello? then At(c, ReceiveHello(nonce, now, signed))
      else if k.acc.challenge.Some? then At(c, ReceiveChallenge(now, time, signed))
      else At(c, InitiatorFails)
    case AwaitVerdict =>
      if k.acc.phase.AwaitProof? then At(c, ReceiveProof(now))
      else if k.acc.phase.Judged? then At(c, if k.acc.proof.Some? && !k.acc.recorded then RecordPeer else Conclude)
      else At(c, Learn)
    case Returned => Settle(c)
    case Settled => Settle(c)
  }

  /** Between two honest ends, what the other side has written is there to be read when it is waited for. */
  lemma NothingIsMissing(cfg: Config, ledger: Ledger, c: nat, k: Conn)
    requires ConnInv(cfg, ledger, c, k) && k.dialer in cfg.parties && k.acceptor in cfg.parties
    ensures k.ini.phase.AwaitChallenge? ==> !HelloRead(k).NeedMore?
    ensures k.ini.phase.AwaitChallenge? && k.acc.challenge.Some? ==> !ChallengeRead(k).NeedMore?
    ensures k.ini.phase.AwaitChallenge? && k.acc.challenge.None? && !k.acc.phase.AwaitHello? ==> k.closed.Some?
  {
    HelloReadsBack(k);
    ChallengeReadsBack(k);
    hide Encode, Written, Hello, HelloRead, ChallengeRead, Verifies;
  }

  lemma ProofIsNotMissing(cfg: Config, ledger: Ledger, c: nat, k: Conn)
    requires ConnInv(cfg, ledger, c, k) && k.dialer in cfg.parties && k.acceptor in cfg.parties
    requires k.ini.phase.AwaitVerdict?
    ensures k.acc.phase.AwaitProof? ==>
              k.acc.challenge.Some? && KindOf(k.acc.challenge.value) == ChallengeKind(k.mode) && !ProofRead(k).NeedMore?
    ensures !k.acc.phase.AwaitProof? && !k.acc.phase.Judged? ==> k.closed.Some?
  {
    if k.acc.phase.AwaitProof? {
      ProofReadsBack(k);
    }
    hide Encode, Written, Hello, ProofRead, Verifies;
  }

  lemma ConnCanStep(cfg: Config, w: World, c: nat, nonce: Nonce, now: u64, time: u64, signed: Result<Bytes>)
    requires c < |w.conns| && ConnInv(cfg, w.ledger, c, w.conns[c]) && w.nodes.Keys == cfg.parties.Keys
    requires w.conns[c].dialer in cfg.parties && w.conns[c].acceptor in cfg.parties
    requires !w.conns[c].ini.phase.Settled? && nonce !in w.ledger.drawn
    ensures Can(cfg, w, NextStep(w.conns[c], c, nonce, now, time, signed))
  {
    hide ConnInv, HelloRead, ChallengeRead, ProofRead;
    NothingIsMissing(cfg, w.ledger, c, w.conns[c]);
    if w.conns[c].ini.phase.AwaitVerdict? {
      ProofIsNotMissing(cfg, w.ledger, c, w.conns[c]);
    }
  }

  /** While a node waits for an honest remote, in either mode, its own handshake with that remote can take a step -
      without a fault of the transport, and whatever the clocks and signers say - as long as nonces do not run out. */
  lemma WaiterIsNotStuck(cfg: Config, w: World, x: Id, mode: Mode, r: Id, nonce: Nonce, now: u64, time: u64,
                         signed: Result<Bytes>) returns (c: nat)
    requires ValidConfig(cfg) && Reachable(cfg, w) && x in cfg.parties && r in cfg.parties
    requires x in w.nodes && r in TaskOf(w.nodes[x], mode).pending && nonce !in w.ledger.drawn
    ensures c < |w.conns| && InFlight(w.conns[c], mode, x, r)
    ensures var s := NextStep(w.conns[c], c, nonce, now, time, signed);
            HandshakeStep(s) && Can(cfg, w, s)
  {
    hide Reachable, ConnInv, SigInv, MadeInv, DrawnDistinct, GateInv, NodeInv, Can;
    ReachableInv(cfg, w);
    assert FlightOf(w.conns, mode, x, r);
    c :| 0 <= c < |w.conns| && InFlight(w.conns[c], mode, x, r);
    ConnCanStep(cfg, w, c, nonce, now, time, signed);
  }

  /** So where no handshake can take a step, nobody waits for an honest remote. */
  lemma NobodyWaitsAtTheEnd(cfg: Config, w: World, nonce: Nonce)
    requires ValidConfig(cfg) && Reachable(cfg, w) && nonce !in w.ledger.drawn
    requires forall s :: HandshakeStep(s) ==> !Can(cfg, w, s)
    ensures forall x, mode, r :: x in cfg.parties && x in w.nodes && r in cfg.parties ==> r !in TaskOf(w.nodes[x], mode).pending
  {
    hide Reachable, Can, HandshakeStep, TaskOf;
    forall x, mode, r | x in cfg.parties && x in w.nodes && r in cfg.parties
      ensures r !in TaskOf(w.nodes[x], mode).pending
    {
      if r in TaskOf(w.nodes[x], mode).pending {
        var c := WaiterIsNotStuck(cfg, w, x, mode, r, nonce, 0, 0, Err(Signer));
        assert false;
      }
    }
  }

  /** Once the connection of a handshake waited for breaks, its failure is possible, whoever the remote is. */
  lemma BrokenConnectionFails(cfg: Config, w: World, x: Id, mode: Mode, r: Id) returns (c: nat)
    requires ValidConfig(cfg) && Reachable(cfg, w) && x in cfg.parties
    requires x in w.nodes && r in TaskOf(w.nodes[x], mode).pending
    ensures c < |w.conns| && InFlight(w.conns[c], mode, x, r)
    ensures w.conns[c].broken ==>
              Can(cfg, w, if w.conns[c].ini.phase.Returned? then Settle(c) else At(c, InitiatorFails))
  {
    hide Reachable, ConnInv, SigInv, MadeInv, DrawnDistinct, GateInv, NodeInv;
    ReachableInv(cfg, w);
    assert FlightOf(w.conns, mode, x, r);
    c :| 0 <= c < |w.conns| && InFlight(w.conns[c], mode, x, r);
  }

  /** All who wait for `r` are sent `result`, in arrival order, nobody else is sent anything, and nobody waits for `r` any more. */
  ghost predicate Answers(t: Task, t': Task, r: Id, result: AuthResult) {
    && t'.sent == t.sent + Replies(PendingOf(t, r), r, result)
    && r !in t'.pending
  }

  /** Handling the completion answers every waiter of that remote, in arrival order, and leaves all others waiting. */
  lemma SettleAnswers(cfg: Config, w: World, c: nat)
    requires Can(cfg, w, Settle(c))
    ensures var k, w' := w.conns[c], Do(cfg, w, Settle(c));
            var t, t' := TaskOf(w.nodes[k.dialer], k.mode), TaskOf(w'.nodes[k.dialer], k.mode);
            && Answers(t, t', k.acceptor, k.ini.result)
            && forall r :: r != k.acceptor ==> PendingOf(t', r) == PendingOf(t, r)
  {
    hide Replies;
  }

  // ---------------------------------------------------------------------------
  // Every waiter can be answered
  // ---------------------------------------------------------------------------

  /** What an act on an unsettled connection leaves of it, of its dialler's waiters, and of the unused nonces. */
  lemma ActOnOwn(cfg: Config, w: World, c: nat, a: Act, nonce: Nonce)
    requires Can(cfg, w, At(c, a)) && HandshakeStep(At(c, a)) && ConnInv(cfg, w.ledger, c, w.conns[c])
    requires w.conns[c].dialer in w.nodes && !w.conns[c].ini.phase.Settled? && Draws(w.conns[c], a) <= {nonce}
    ensures var k, w' := w.conns[c], Do(cfg, w, At(c, a));
            && |w'.conns| == |w.conns| && k.dialer in w'.nodes
            && w'.conns[c].mode == k.mode && w'.conns[c].dialer == k.dialer && w'.conns[c].acceptor == k.acceptor
            && !w'.conns[c].ini.phase.Settled? && Weight(w'.conns[c]) < Weight(k)
            && w'.ledger.drawn <= w.ledger.drawn + {nonce}
            && TaskOf(w'.nodes[k.dialer], k.mode).sent == TaskOf(w.nodes[k.dialer], k.mode).sent
            && TaskOf(w'.nodes[k.dialer], k.mode).pending == TaskOf(w.nodes[k.dialer], k.mode).pending
  {
    hide ConnInv, CanAct, ActOn, Weight, Signs, Draws;
    ActFrame(cfg, w.ledger, LocalOf(w, w.conns[c]), c, w.conns[c], a);
    ActWeight(cfg, w.ledger, LocalOf(w, w.conns[c]), w.conns[c], a);
  }

  lemma FailOnOwn(cfg: Config, w: World, c: nat)
    requires c < |w.conns| && Can(cfg, w, At(c, InitiatorFails)) && ConnInv(cfg, w.ledger, c, w.conns[c])
    requires w.conns[c].dialer in w.nodes && !w.conns[c].ini.phase.Settled?
    ensures var k, w' := w.conns[c], Do(cfg, w, At(c, InitiatorFails));
            && c < |w'.conns| && k.dialer in w'.nodes && Can(cfg, w', Settle(c))
            && w'.conns[c].mode == k.mode && w'.conns[c].dialer == k.dialer && w'.conns[c].acceptor == k.acceptor
            && TaskOf(w'.nodes[k.dialer], k.mode).sent == TaskOf(w.nodes[k.dialer], k.mode).sent
            && TaskOf(w'.nodes[k.dialer], k.mode).pending == TaskOf(w.nodes[k.dialer], k.mode).pending
  {
    hide ConnInv, Weight, TaskOf, Signs;
    ActOnOwn(cfg, w, c, InitiatorFails, NoNonce());
  }

  /** So a waiter on any remote is released by at most two steps of its own node once the connection is broken. */
  lemma BrokenConnectionReleases(cfg: Config, steps: seq<Step>, x: Id, mode: Mode, r: Id)
    returns (c: nat, more: seq<Step>, result: AuthResult)
    requires ValidConfig(cfg) && Run(cfg, steps) && x in cfg.parties
    requires x in After(cfg, steps).nodes && r in TaskOf(After(cfg, steps).nodes[x], mode).pending
    ensures c < |After(cfg, steps).conns| && InFlight(After(cfg, steps).conns[c], mode, x, r)
    ensures After(cfg, steps).conns[c].broken ==>
              && |more| <= 2 && Run(cfg, steps + more) && x in After(cfg, steps + more).nodes
              && Answers(TaskOf(After(cfg, steps).nodes[x], mode), TaskOf(After(cfg, steps + more).nodes[x], mode), r, result)
  {
    hide Run, After, Reachable, Do, Can, ConnInv, TaskOf, Answers;
    var w := After(cfg, steps);
    ReachableBy(cfg, steps);
    c := BrokenConnectionFails(cfg, w, x, mode, r);
    RunIsSound(cfg, steps, c);
    more, result := [], Err(Transport);
    if w.conns[c].broken {
      if w.conns[c].ini.phase.Returned? {
        more, result := [Settle(c)], w.conns[c].ini.result;
        RunSnoc(cfg, steps, Settle(c));
        RunsKeepNodes(cfg, steps + more);
        SettleAnswers(cfg, w, c);
      } else {
        var fail := At(c, InitiatorFails);
        FailOnOwn(cfg, w, c);
        RunSnoc(cfg, steps, fail);
        var w1 := After(cfg, steps + [fail]);
        RunSnoc(cfg, steps + [fail], Settle(c));
        more, result := [fail, Settle(c)], w1.conns[c].ini.result;
        assert steps + [fail] + [Settle(c)] == steps + more;
        RunsKeepNodes(cfg, steps + more);
        SettleAnswers(cfg, w1, c);
        SameWaiters(TaskOf(w.nodes[x], mode), TaskOf(w1.nodes[x], mode), TaskOf(After(cfg, steps + more).nodes[x], mode), r, result);
      }
    }
  }

  lemma SameWaiters(t: Task, t1: Task, t': Task, r: Id, result: AuthResult)
    requires t1.sent == t.sent && t1.pending == t.pending && Answers(t1, t', r, result)
    ensures Answers(t, t', r, result)
  {
  }

  lemma NextStepDraws(k: Conn, c: nat, nonce: Nonce, now: u64, time: u64, signed: Result<Bytes>)
    requires !k.ini.phase.Returned? && !k.ini.phase.Settled?
    ensures var s := NextStep(k, c, nonce, now, time, signed);
            s.At? && s.conn == c && HandshakeStep(s) && Draws(k, s.act) <= {nonce}
  {
  }

  /** Run to its end by the steps of `NextStep` alone, a handshake answers all who wait for it. */
  lemma {:induction false} RunToAnswer(cfg: Config, steps: seq<Step>, c: nat, spare: set<Nonce>, now: nat -> u64,
                                       time: nat -> u64, signed: nat -> Result<Bytes>)
    returns (more: seq<Step>, result: AuthResult)
    requires ValidConfig(cfg) && Run(cfg, steps) && c < |After(cfg, steps).conns|
    requires var w := After(cfg, steps);
             && w.conns[c].dialer in cfg.parties && w.conns[c].acceptor in cfg.parties
             && !w.conns[c].ini.phase.Settled? && spare !! w.ledger.drawn && |spare| >= Weight(w.conns[c])
    ensures Run(cfg, steps + more) && forall s :: s in more ==> HandshakeStep(s)
    ensures var w, w' := After(cfg, steps), After(cfg, steps + more);
            var k := w.conns[c];
            && k.dialer in w.nodes && k.dialer in w'.nodes
            && Answers(TaskOf(w.nodes[k.dialer], k.mode), TaskOf(w'.nodes[k.dialer], k.mode), k.acceptor, result)
    decreases Weight(After(cfg, steps).conns[c])
  {
    hide Run, After, Do, Can, ConnInv, Weight, TaskOf, NextStep, HandshakeStep;
    RunIsSound(cfg, steps, c);
    var w := After(cfg, steps);
    var k := w.conns[c];
    UnsettledWeighs(k);
    var nonce :| nonce in spare;
    var m := Weight(k);
    var s := NextStep(k, c, nonce, now(m), time(m), signed(m));
    ConnCanStep(cfg, w, c, nonce, now(m), time(m), signed(m));
    RunSnoc(cfg, steps, s);
    if k.ini.phase.Returned? {
      assert s == Settle(c) && HandshakeStep(s) by { SettleIsNext(k, c, nonce, now(m), time(m), signed(m)); }
      more, result := [s], k.ini.result;
      RunsKeepNodes(cfg, steps + more);
      SettleAnswers(cfg, w, c);
    } else {
      NextStepDraws(k, c, nonce, now(m), time(m), signed(m));
      ActOnOwn(cfg, w, c, s.act, nonce);
      var rest;
      rest, result := RunToAnswer(cfg, steps + [s], c, spare - {nonce}, now, time, signed);
      more := [s] + rest;
      assert steps + [s] + rest == steps + more;
    }
  }

  lemma RunIsSound(cfg: Config, steps: seq<Step>, c: nat)
    requires ValidConfig(cfg) && Run(cfg, steps) && c < |After(cfg, steps).conns|
    ensures After(cfg, steps).nodes.Keys == cfg.parties.Keys
    ensures ConnInv(cfg, After(cfg, steps).ledger, c, After(cfg, steps).conns[c])
  {
    hide Run, After, ConnInv, SigInv, MadeInv, DrawnDistinct, GateInv, FlightInv, NodeInv;
    RunsKeepInv(cfg, steps);
  }

  lemma UnsettledWeighs(k: Conn)
    requires !k.ini.phase.Settled?
    ensures 0 < Weight(k) <= 8
  {
  }

  lemma SettleIsNext(k: Conn, c: nat, nonce: Nonce, now: u64, time: u64, signed: Result<Bytes>)
    requires k.ini.phase.Returned?
    ensures NextStep(k, c, nonce, now, time, signed) == Settle(c) && HandshakeStep(Settle(c))
  {
  }

  /** From every reachable state, a waiter on an honest remote can be answered by steps of handshakes alone, with no
      fault of the transport and whatever each clock and signer says: all who wait get the one result, in order. */
  lemma WaitersCanBeAnswered(cfg: Config, steps: seq<Step>, x: Id, mode: Mode, r: Id, spare: set<Nonce>,
                             now: nat -> u64, time: nat -> u64, signed: nat -> Result<Bytes>)
    returns (more: seq<Step>, result: AuthResult)
    requires ValidConfig(cfg) && Run(cfg, steps) && x in cfg.parties && r in cfg.parties
    requires x in After(cfg, steps).nodes && r in TaskOf(After(cfg, steps).nodes[x], mode).pending
    requires |spare| >= 8 && spare !! After(cfg, steps).ledger.drawn
    ensures Run(cfg, steps + more) && forall s :: s in more ==> HandshakeStep(s)
    ensures x in After(cfg, steps + more).nodes
    ensures Answers(TaskOf(After(cfg, steps).nodes[x], mode), TaskOf(After(cfg, steps + more).nodes[x], mode), r, result)
  {
    var w := After(cfg, steps);
    assert Reachable(cfg, w);
    var nonce :| nonce in spare;
    var c := WaiterIsNotStuck(cfg, w, x, mode, r, nonce, 0, 0, signed(0));
    UnsettledWeighs(w.conns[c]);
    more, result := RunToAnswer(cfg, steps, c, spare, now, time, signed);
  }

  // ---------------------------------------------------------------------------
  // Every waiter is answered
  // ---------------------------------------------------------------------------

  /** The handshake steps that a run takes on one connection. */
  function StepsOn(steps: seq<Step>, c: nat): nat {
    if steps == [] then 0
    else
      var s := steps[|steps| - 1];
      StepsOn(steps[..|steps| - 1], c) + if HandshakeStep(s) && s.conn == c then 1 else 0
  }

  /** `waiting` were all sent the one result, from position `i` of the replies on, one after the other in their order. */
  predicate ServedAt(waiting: seq<Req>, t: Task, r: Id, result: AuthResult, i: int) {
    0 <= i <= |t.sent| - |waiting| && t.sent[i..i + |waiting|] == Replies(waiting, r, result)
  }

  /** Served by a handshake with that result, after `t0`. */
  ghost predicate Served(waiting: seq<Req>, t0: Task, t: Task, r: Id, result: AuthResult) {
    exists i :: |t0.sent| <= i && ServedAt(waiting, t, r, result, i)
  }

  /** What has become of those who waited for `r` in `t0`: while their handshake is unsettled they wait, first in line; once
      it is settled they have been sent its result, since `t0`; unless the task stopped. */
  ghost predicate Outcome(waiting: seq<Req>, t0: Task, t: Task, r: Id, s: Ini) {
    || t.stopped
    || (if s.phase.Settled? then Served(waiting, t0, t, r, s.result) else waiting <= PendingOf(t, r))
  }

  lemma ServedStays(waiting: seq<Req>, t0: Task, t: Task, t': Task, r: Id, result: AuthResult)
    requires Served(waiting, t0, t, r, result) && t.sent <= t'.sent
    ensures Served(waiting, t0, t', r, result)
  {
    hide Replies;
    var i :| |t0.sent| <= i && ServedAt(waiting, t, r, result, i);
    assert t'.sent[i..i + |waiting|] == t.sent[i..i + |waiting|];
    assert ServedAt(waiting, t', r, result, i);
  }

  lemma CompletionServes(waiting: seq<Req>, t0: Task, t: Task, r: Id, result: AuthResult)
    requires waiting <= PendingOf(t, r) && |t0.sent| <= |t.sent|
    ensures Served(waiting, t0, Apply(t, Completion(r, result)), r, result)
  {
    var i := |t.sent|;
    var t' := Apply(t, Completion(r, result));
    assert ServedAt(waiting, t', r, result, i);
  }

  lemma SentExtends(t: Task, e: Event)
    ensures t.sent <= Apply(t, e).sent
  {
  }

  /** One event of the task, with what the step does to the handshake: settled by its own completion, or by a stop. */
  lemma OutcomeAfter(waiting: seq<Req>, t0: Task, t: Task, e: Option<Event>, t': Task, r: Id, s: Ini, s': Ini)
    requires EventEffect(t, e, t') && Outcome(waiting, t0, t, r, s) && t0.sent <= t.sent
    requires s.phase.Settled? ==> s'.phase.Settled? && s'.result == s.result
    requires !s.phase.Settled? && s'.phase.Settled? ==> e == Some(Stop) || e == Some(Completion(r, s'.result))
    requires !s.phase.Settled? && !s'.phase.Settled? ==> !(e.Some? && e.value.Completion? && e.value.remote == r)
    ensures Outcome(waiting, t0, t', r, s') && t0.sent <= t'.sent
  {
    if e.Some? {
      ApplyStopped(t, e.value);
      SentExtends(t, e.value);
      PendingAfter(t, e.value, r);
    }
    hide Apply, PendingOf, Served;
    if !t.stopped {
      if s.phase.Settled? {
        ServedStays(waiting, t0, t, t', r, s.result);
      } else if s'.phase.Settled? && e != Some(Stop) {
        CompletionServes(waiting, t0, t, r, s'.result);
      }
    }
  }

  lemma ConnAfter(cfg: Config, w: World, s: Step, c: nat)
    requires Can(cfg, w, s) && c < |w.conns| && ConnInv(cfg, w.ledger, c, w.conns[c])
    ensures var k, w' := w.conns[c], Do(cfg, w, s);
            && c < |w'.conns|
            && w'.conns[c].mode == k.mode && w'.conns[c].dialer == k.dialer && w'.conns[c].acceptor == k.acceptor
            && Weight(w'.conns[c]) + (if HandshakeStep(s) && s.conn == c then 1 else 0) <= Weight(k)
            && (k.ini.phase.Settled? ==> w'.conns[c].ini.phase.Settled? && w'.conns[c].ini.result == k.ini.result)
            && (!k.ini.phase.Settled? && w'.conns[c].ini.phase.Settled? ==>
                  s == Halt(k.dialer, k.mode) || (s == Settle(c) && w'.conns[c].ini.result == k.ini.result))
            && (s == Settle(c) ==> w'.conns[c].ini.phase.Settled?)
  {
    hide ActOn, CanAct, Grow, Apply, AuthTask.HandleCompletion, HaltedConns, ConnInv, NewConn;
    match s
    case At(d, a) =>
      if d == c {
        ActFrame(cfg, w.ledger, LocalOf(w, w.conns[c]), c, w.conns[c], a);
        ActWeight(cfg, w.ledger, LocalOf(w, w.conns[c]), w.conns[c], a);
      }
    case _ =>
  }

  /** While a handshake is unsettled, the only completion for its remote is its own. */
  lemma OnlyItsOwnCompletion(cfg: Config, w: World, s: Step, c: nat)
    requires FlightInv(w) && Can(cfg, w, s) && c < |w.conns| && w.conns[c].dialer in w.nodes && !w.conns[c].ini.phase.Settled?
    ensures var k := w.conns[c];
            var e := EventOf(cfg, w, s, k.dialer, k.mode);
            && (s == Settle(c) ==> e == Some(Completion(k.acceptor, k.ini.result)))
            && (s == Halt(k.dialer, k.mode) ==> e == Some(Stop))
            && (s != Settle(c) ==> !(e.Some? && e.value.Completion? && e.value.remote == k.acceptor))
  {
    hide Do, CanAct;
    var k := w.conns[c];
    if s.Settle? {
      assert InFlight(k, k.mode, k.dialer, k.acceptor);
      assert OneFlight(w.conns, k.mode, k.dialer, k.acceptor);
    }
  }

  lemma OutcomeStep(cfg: Config, w: World, s: Step, c: nat, waiting: seq<Req>, t0: Task)
    requires Inv(cfg, w) && Can(cfg, w, s) && c < |w.conns| && w.conns[c].dialer in w.nodes
    requires var t := TaskOf(w.nodes[w.conns[c].dialer], w.conns[c].mode);
             Outcome(waiting, t0, t, w.conns[c].acceptor, w.conns[c].ini) && t0.sent <= t.sent
    ensures var k, w' := w.conns[c], Do(cfg, w, s);
            && c < |w'.conns| && k.dialer in w'.nodes
            && var t' := TaskOf(w'.nodes[k.dialer], k.mode);
            Outcome(waiting, t0, t', k.acceptor, w'.conns[c].ini) && t0.sent <= t'.sent
  {
    hide Inv, FlightInv, Do, Can, TaskOf, EventEffect, Outcome, EventOf, ConnInv, Weight;
    var k, w' := w.conns[c], Do(cfg, w, s);
    ConnHolds(cfg, w, c);
    ConnAfter(cfg, w, s, c);
    StepIsEvent(cfg, w, s, k.dialer, k.mode);
    if !k.ini.phase.Settled? {
      OnlyItsOwnCompletion(cfg, w, s, c);
    }
    OutcomeAfter(waiting, t0, TaskOf(w.nodes[k.dialer], k.mode), EventOf(cfg, w, s, k.dialer, k.mode),
                 TaskOf(w'.nodes[k.dialer], k.mode), k.acceptor, k.ini, w'.conns[c].ini);
  }

  lemma ConnHolds(cfg: Config, w: World, c: nat)
    requires Inv(cfg, w) && c < |w.conns|
    ensures ConnInv(cfg, w.ledger, c, w.conns[c]) && FlightInv(w) && w.nodes.Keys == cfg.parties.Keys
  {
    hide ConnInv, SigInv, MadeInv, DrawnDistinct, GateInv, FlightInv, NodeInv;
  }

  /** In every continuation, whatever happens in it and whoever the remote is: the handshake steps on a connection are
      bounded by what was left of it; those who waited on it wait, first in line, exactly as long as it is unsettled, and
      once it is settled they have been sent its result, in order; unless the task stopped. */
  lemma {:induction false} HandshakeRunsOut(cfg: Config, steps: seq<Step>, more: seq<Step>, c: nat)
    requires ValidConfig(cfg) && Continues(cfg, steps, more) && c < |After(cfg, steps).conns|
    requires After(cfg, steps).conns[c].dialer in cfg.parties && !After(cfg, steps).conns[c].ini.phase.Settled?
    ensures var w, w' := After(cfg, steps), After(cfg, steps + more);
            var k := w.conns[c];
            && c < |w'.conns| && k.dialer in w.nodes && k.dialer in w'.nodes
            && w'.conns[c].mode == k.mode && w'.conns[c].dialer == k.dialer && w'.conns[c].acceptor == k.acceptor
            && StepsOn(more, c) + Weight(w'.conns[c]) <= Weight(k)
            && var t, t' := TaskOf(w.nodes[k.dialer], k.mode), TaskOf(w'.nodes[k.dialer], k.mode);
            Outcome(PendingOf(t, k.acceptor), t, t', k.acceptor, w'.conns[c].ini) && t.sent <= t'.sent
    decreases |more|
  {
    hide Do, Can, Inv, Weight, TaskOf, PendingOf, HandshakeStep;
    RunsKeepNodes(cfg, steps);
    var k := After(cfg, steps).conns[c];
    var t := TaskOf(After(cfg, steps).nodes[k.dialer], k.mode);
    if more == [] {
      assert steps + more == steps;
    } else {
      var less, s := more[..|more| - 1], more[|more| - 1];
      assert (steps + more)[..|steps + more| - 1] == steps + less;
      HandshakeRunsOut(cfg, steps, less, c);
      var w := After(cfg, steps + less);
      RunIsSound(cfg, steps + less, c);
      RunsKeepInv(cfg, steps + less);
      hide Outcome;
      ConnAfter(cfg, w, s, c);
      OutcomeStep(cfg, w, s, c, PendingOf(t, k.acceptor), t);
    }
  }

  /** Every waiter is answered, whatever else happens in whatever order, and whoever the remote is: once the handshake that
      a node waits for is settled, all who waited have been sent that handshake's result, in arrival order and since then,
      or the task has stopped. */
  lemma WaitersAreAnswered(cfg: Config, steps: seq<Step>, more: seq<Step>, x: Id, mode: Mode, r: Id, c: nat)
    requires ValidConfig(cfg) && Continues(cfg, steps, more) && x in cfg.parties
    requires c < |After(cfg, steps).conns| && InFlight(After(cfg, steps).conns[c], mode, x, r)
    requires c < |After(cfg, steps + more).conns| && After(cfg, steps + more).conns[c].ini.phase.Settled?
    ensures x in After(cfg, steps).nodes && x in After(cfg, steps + more).nodes
    ensures var t, t' := TaskOf(After(cfg, steps).nodes[x], mode), TaskOf(After(cfg, steps + more).nodes[x], mode);
            t'.stopped || Served(PendingOf(t, r), t, t', r, After(cfg, steps + more).conns[c].ini.result)
  {
    hide Run, After, TaskOf, PendingOf, Served, StepsOn, Weight;
    HandshakeRunsOut(cfg, steps, more, c);
  }

  /** With an honest remote: once no step of that handshake is possible any more, though a nonce is unused, it is settled,
      so all who waited have been answered or the task has stopped. */
  lemma WaitersAreAnsweredAtTheEnd(cfg: Config, steps: seq<Step>, more: seq<Step>, x: Id, mode: Mode, r: Id, c: nat, nonce: Nonce)
    requires ValidConfig(cfg) && Continues(cfg, steps, more) && x in cfg.parties && r in cfg.parties
    requires c < |After(cfg, steps).conns| && InFlight(After(cfg, steps).conns[c], mode, x, r)
    requires nonce !in After(cfg, steps + more).ledger.drawn
    requires forall s :: HandshakeStep(s) && s.conn == c ==> !Can(cfg, After(cfg, steps + more), s)
    ensures x in After(cfg, steps).nodes && x in After(cfg, steps + more).nodes && c < |After(cfg, steps + more).conns|
    ensures var t, t' := TaskOf(After(cfg, steps).nodes[x], mode), TaskOf(After(cfg, steps + more).nodes[x], mode);
            t'.stopped || Served(PendingOf(t, r), t, t', r, After(cfg, steps + more).conns[c].ini.result)
  {
    hide Run, After, Can, HandshakeStep, NextStep, TaskOf, PendingOf, Served, StepsOn, Weight, ConnInv;
    HandshakeRunsOut(cfg, steps, more, c);
    RunIsSound(cfg, steps + more, c);
    UnsettledCanStep(cfg, After(cfg, steps + more), c, nonce);
    WaitersAreAnswered(cfg, steps, more, x, mode, r, c);
  }

  /** An unsettled handshake between honest ends can take a step. */
  lemma UnsettledCanStep(cfg: Config, w: World, c: nat, nonce: Nonce)
    requires c < |w.conns| && ConnInv(cfg, w.ledger, c, w.conns[c]) && w.nodes.Keys == cfg.parties.Keys
    requires w.conns[c].dialer in cfg.parties && w.conns[c].acceptor in cfg.parties && nonce !in w.ledger.drawn
    ensures !w.conns[c].ini.phase.Settled? ==> exists s :: HandshakeStep(s) && s.conn == c && Can(cfg, w, s)
  {
    hide ConnInv, Can;
    if !w.conns[c].ini.phase.Settled? {
      ConnCanStep(cfg, w, c, nonce, 0, 0, Err(Signer));
      var s := NextStep(w.conns[c], c, nonce, 0, 0, Err(Signer));
      assert HandshakeStep(s) && s.conn == c;
    }
  }

  // ---------------------------------------------------------------------------
  // Endless runs
  // ---------------------------------------------------------------------------

  function Prefix(run: nat -> Step, n: nat): (steps: seq<Step>)
    ensures |steps| == n
  {
    if n == 0 then [] else Prefix(run, n - 1) + [run(n - 1)]
  }

  function Between(run: nat -> Step, m: nat, n: nat): seq<Step>
    requires m <= n
  {
    if n == m then [] else Between(run, m, n - 1) + [run(n - 1)]
  }

  lemma {:induction false} PrefixSplits(run: nat -> Step, m: nat, n: nat)
    requires m <= n
    ensures Prefix(run, n) == Prefix(run, m) + Between(run, m, n)
    decreases n - m
  {
    if n == m {
      assert Prefix(run, m) + [] == Prefix(run, m);
    } else {
      PrefixSplits(run, m, n - 1);
    }
  }

  ghost predicate EndlessRun(cfg: Config, run: nat -> Step) {
    forall n: nat :: Run(cfg, Prefix(run, n))
  }

  /** The world after `n` steps. */
  ghost function Moment(cfg: Config, run: nat -> Step, n: nat): World
    requires EndlessRun(cfg, run)
  {
    After(cfg, Prefix(run, n))
  }

  /** At `n` the handshake on `c` takes a step, or could not. */
  ghost predicate Turn(cfg: Config, run: nat -> Step, c: nat, n: nat)
    requires EndlessRun(cfg, run)
  {
    || (HandshakeStep(run(n)) && run(n).conn == c)
    || forall s :: HandshakeStep(s) && s.conn == c ==> !Can(cfg, Moment(cfg, run, n), s)
  }

  /** Weak fairness: no handshake is able to take a step for ever without ever taking one. */
  ghost predicate WeaklyFair(cfg: Config, run: nat -> Step, c: nat)
    requires EndlessRun(cfg, run)
  {
    forall m: nat :: TurnFrom(cfg, run, c, m)
  }

  ghost predicate TurnFrom(cfg: Config, run: nat -> Step, c: nat, m: nat)
    requires EndlessRun(cfg, run)
  {
    exists n: nat :: m <= n && Turn(cfg, run, c, n)
  }

  ghost predicate NoncesLast(cfg: Config, run: nat -> Step)
    requires EndlessRun(cfg, run)
  {
    forall n: nat :: HasSpare(Moment(cfg, run, n).ledger.drawn)
  }

  ghost predicate HasSpare(drawn: set<Nonce>) {
    exists nonce: Nonce :: nonce !in drawn
  }

  lemma NextMoment(cfg: Config, run: nat -> Step, n: nat)
    requires EndlessRun(cfg, run)
    ensures Can(cfg, Moment(cfg, run, n), run(n)) && Moment(cfg, run, n + 1) == Do(cfg, Moment(cfg, run, n), run(n))
  {
    hide Can, Do;
    var steps := Prefix(run, n + 1);
    assert Run(cfg, steps) && steps[..n] == Prefix(run, n) && steps[n] == run(n);
  }

  ghost predicate HonestConn(cfg: Config, w: World, c: nat) {
    c < |w.conns| && w.conns[c].dialer in cfg.parties && w.conns[c].acceptor in cfg.parties
  }

  /** The step taken in its turn takes something off what is left of an unsettled handshake. */
  lemma TurnTaken(cfg: Config, run: nat -> Step, n: nat, c: nat)
    requires ValidConfig(cfg) && EndlessRun(cfg, run) && NoncesLast(cfg, run) && Turn(cfg, run, c, n)
    requires HonestConn(cfg, Moment(cfg, run, n), c) && !Moment(cfg, run, n).conns[c].ini.phase.Settled?
    ensures HonestConn(cfg, Moment(cfg, run, n + 1), c)
    ensures Weight(Moment(cfg, run, n + 1).conns[c]) < Weight(Moment(cfg, run, n).conns[c])
  {
    hide Can, Do, ConnInv, Weight, HandshakeStep, Run, After;
    var w := Moment(cfg, run, n);
    var nonce := SpareNonce(cfg, run, n);
    assert Run(cfg, Prefix(run, n));
    RunIsSound(cfg, Prefix(run, n), c);
    UnsettledCanStep(cfg, w, c, nonce);
    NextMoment(cfg, run, n);
    ConnAfter(cfg, w, run(n), c);
  }

  /** Between two moments a handshake only loses of what is left of it. */
  lemma Meanwhile(cfg: Config, run: nat -> Step, m: nat, n: nat, c: nat)
    requires ValidConfig(cfg) && EndlessRun(cfg, run) && m <= n
    requires HonestConn(cfg, Moment(cfg, run, m), c) && !Moment(cfg, run, m).conns[c].ini.phase.Settled?
    ensures HonestConn(cfg, Moment(cfg, run, n), c)
    ensures Weight(Moment(cfg, run, n).conns[c]) <= Weight(Moment(cfg, run, m).conns[c])
  {
    hide Run, After, Weight, Outcome;
    PrefixSplits(run, m, n);
    assert Run(cfg, Prefix(run, m)) && Run(cfg, Prefix(run, n));
    HandshakeRunsOut(cfg, Prefix(run, m), Between(run, m, n), c);
  }

  /** Under weak fairness every handshake between honest ends is settled in the end. */
  lemma {:induction false} EventuallySettles(cfg: Config, run: nat -> Step, m: nat, c: nat) returns (n: nat)
    requires ValidConfig(cfg) && EndlessRun(cfg, run) && WeaklyFair(cfg, run, c) && NoncesLast(cfg, run)
    requires HonestConn(cfg, Moment(cfg, run, m), c)
    ensures m <= n && HonestConn(cfg, Moment(cfg, run, n), c) && Moment(cfg, run, n).conns[c].ini.phase.Settled?
    decreases Weight(Moment(cfg, run, m).conns[c])
  {
    hide EndlessRun, Moment, Turn, Weight, NoncesLast, HonestConn;
    if IsSettled(cfg, run, m, c) {
      n := m;
    } else {
      assert TurnFrom(cfg, run, c, m);
      var next: nat :| m <= next && Turn(cfg, run, c, next);
      Meanwhile(cfg, run, m, next, c);
      if IsSettled(cfg, run, next, c) {
        n := next;
      } else {
        TurnTaken(cfg, run, next, c);
        n := EventuallySettles(cfg, run, next + 1, c);
      }
    }
  }

  ghost predicate IsSettled(cfg: Config, run: nat -> Step, n: nat, c: nat)
    requires EndlessRun(cfg, run) && HonestConn(cfg, Moment(cfg, run, n), c)
  {
    Moment(cfg, run, n).conns[c].ini.phase.Settled?
  }

  /** Liveness: in every endless run that is weakly fair to handshakes, whoever waits for an honest remote is answered in
      the end, all with the one result of the handshake waited for, in arrival order, unless the task stops. */
  lemma WaitersAreEventuallyAnswered(cfg: Config, run: nat -> Step, m: nat, x: Id, mode: Mode, r: Id) returns (n: nat, c: nat)
    requires ValidConfig(cfg) && EndlessRun(cfg, run) && NoncesLast(cfg, run) && forall c: nat :: WeaklyFair(cfg, run, c)
    requires x in cfg.parties && r in cfg.parties && x in Moment(cfg, run, m).nodes
    requires r in TaskOf(Moment(cfg, run, m).nodes[x], mode).pending
    ensures m <= n && x in Moment(cfg, run, n).nodes && c < |Moment(cfg, run, m).conns| && c < |Moment(cfg, run, n).conns|
    ensures InFlight(Moment(cfg, run, m).conns[c], mode, x, r)
    ensures var t, t' := TaskOf(Moment(cfg, run, m).nodes[x], mode), TaskOf(Moment(cfg, run, n).nodes[x], mode);
            t'.stopped || Served(PendingOf(t, r), t, t', r, Moment(cfg, run, n).conns[c].ini.result)
  {
    hide Run, After, Reachable, TaskOf, PendingOf, Served, Turn, WeaklyFair, NoncesLast, Prefix, Between;
    var w := Moment(cfg, run, m);
    assert Run(cfg, Prefix(run, m));
    ReachableBy(cfg, Prefix(run, m));
    var nonce := SpareNonce(cfg, run, m);
    c := WaiterIsNotStuck(cfg, w, x, mode, r, nonce, 0, 0, Err(Signer));
    n := EventuallySettles(cfg, run, m, c);
    PrefixSplits(run, m, n);
    assert Run(cfg, Prefix(run, n));
    WaitersAreAnswered(cfg, Prefix(run, m), Between(run, m, n), x, mode, r, c);
  }

  lemma SpareNonce(cfg: Config, run: nat -> Step, m: nat) returns (nonce: Nonce)
    requires EndlessRun(cfg, run) && NoncesLast(cfg, run)
    ensures nonce !in Moment(cfg, run, m).ledger.drawn
  {
    assert HasSpare(Moment(cfg, run, m).ledger.drawn);
    nonce :| nonce !in Moment(cfg, run, m).ledger.drawn;
  }
}
