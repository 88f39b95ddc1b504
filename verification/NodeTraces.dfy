/** Inside the system, each node's tasks are exactly the task machine run on the events that reach them, so
    everything proved of that machine holds of every node. */
module NodeTraces {
  import opened Types
  import opened Handshake
  import opened AuthTask
  import opened Network
  import opened ConnInvariant
  import opened WorldInvariant
  import opened StepInvariant
  import opened Agreement
  import opened Tasks

  /** The event a step is for one task of one node, if it is one. */
  ghost function EventOf(cfg: Config, w: World, s: Step, x: Id, mode: Mode): Option<Event>
    requires Can(cfg, w, s)
  {
    match s
    case Ask(y, m, r, q) => if y == x && m == mode then Some(Request(r, q)) else None
    case Settle(c) =>
      var k := w.conns[c];
      if k.dialer == x && k.mode == mode then Some(Completion(k.acceptor, k.ini.result)) else None
    case Halt(y, m) => if y == x && m == mode then Some(Stop) else None
    case At(c, _) =>
      var k, k' := w.conns[c], Do(cfg, w, s).conns[c];
      if mode.MutualAuth? && k.mode.MutualAuth? && k.acceptor == x && k'.acc.recorded && !k.acc.recorded
      then Some(Inserted(k.dialer)) else None
    case _ => None
  }

  ghost function EventsOf(cfg: Config, steps: seq<Step>, x: Id, mode: Mode): seq<Event>
    requires Run(cfg, steps)
  {
    if steps == [] then []
    else
      var pre, s := steps[..|steps| - 1], steps[|steps| - 1];
      var e := EventOf(cfg, After(cfg, pre), s, x, mode);
      if e.Some? then EventsOf(cfg, pre, x, mode) + [e.value] else EventsOf(cfg, pre, x, mode)
  }

  ghost predicate EventEffect(t: Task, e: Option<Event>, t': Task) {
    if e.Some? then Enabled(t, e.value) && t' == Apply(t, e.value) else t' == t
  }

  lemma SettleIsEvent(cfg: Config, w: World, c: nat, x: Id, mode: Mode)
    requires Can(cfg, w, Settle(c)) && x in w.nodes
    requires w.conns[c].acceptor in TaskOf(w.nodes[w.conns[c].dialer], w.conns[c].mode).running
    ensures EventEffect(TaskOf(w.nodes[x], mode), EventOf(cfg, w, Settle(c), x, mode), TaskOf(Do(cfg, w, Settle(c)).nodes[x], mode))
  {
    hide AuthTask.HandleCompletion;
  }

  lemma AtIsEvent(cfg: Config, w: World, c: nat, a: Act, x: Id, mode: Mode)
    requires Can(cfg, w, At(c, a)) && x in w.nodes
    ensures EventEffect(TaskOf(w.nodes[x], mode), EventOf(cfg, w, At(c, a), x, mode), TaskOf(Do(cfg, w, At(c, a)).nodes[x], mode))
  {
    hide ActOn, CanAct, Grow;
  }

  lemma AskIsEvent(cfg: Config, w: World, y: Id, m: Mode, r: Id, q: Req, x: Id, mode: Mode)
    requires Can(cfg, w, Ask(y, m, r, q)) && x in w.nodes
    ensures EventEffect(TaskOf(w.nodes[x], mode), EventOf(cfg, w, Ask(y, m, r, q), x, mode),
                        TaskOf(Do(cfg, w, Ask(y, m, r, q)).nodes[x], mode))
  {
    hide Apply, NewConn;
  }

  lemma OtherIsNoEvent(cfg: Config, w: World, s: Step, x: Id, mode: Mode)
    requires Can(cfg, w, s) && x in w.nodes && (s.Spawn? || s.Open? || s.Forge?)
    ensures EventEffect(TaskOf(w.nodes[x], mode), EventOf(cfg, w, s, x, mode), TaskOf(Do(cfg, w, s).nodes[x], mode))
  {
    hide NewConn, Forgeable;
  }

  lemma HaltIsEvent(cfg: Config, w: World, y: Id, m: Mode, x: Id, mode: Mode)
    requires Can(cfg, w, Halt(y, m)) && x in w.nodes
    ensures EventEffect(TaskOf(w.nodes[x], mode), EventOf(cfg, w, Halt(y, m), x, mode),
                        TaskOf(Do(cfg, w, Halt(y, m)).nodes[x], mode))
  {
    hide Apply, HaltedConns;
  }

  lemma FlightsAndNodes(cfg: Config, w: World)
    requires Inv(cfg, w)
    ensures FlightInv(w)
    ensures forall c :: 0 <= c < |w.conns| && w.conns[c].dialer in w.nodes ==> NodeInv(w.conns[c].dialer, w.nodes[w.conns[c].dialer])
  {
    hide ConnInv, SigInv, MadeInv, DrawnDistinct, GateInv, FlightInv, InFlightBijection, SentInv;
  }

  lemma StepIsEvent(cfg: Config, w: World, s: Step, x: Id, mode: Mode)
    requires Inv(cfg, w) && Can(cfg, w, s) && x in w.nodes
    ensures x in Do(cfg, w, s).nodes
    ensures EventEffect(TaskOf(w.nodes[x], mode), EventOf(cfg, w, s, x, mode), TaskOf(Do(cfg, w, s).nodes[x], mode))
  {
    hide Inv, NodeInv, FlightInv, EventEffect, EventOf, TaskOf, ActOn, CanAct, Grow, Apply, AuthTask.HandleCompletion;
    FlightsAndNodes(cfg, w);
    match s
    case Settle(c) =>
      SettlesInFlight(w, c);
      SettleIsEvent(cfg, w, c, x, mode);
    case At(c, a) => AtIsEvent(cfg, w, c, a, x, mode);
    case Ask(y, m, r, q) => AskIsEvent(cfg, w, y, m, r, q, x, mode);
    case Halt(y, m) => HaltIsEvent(cfg, w, y, m, x, mode);
    case _ => OtherIsNoEvent(cfg, w, s, x, mode);
  }

  /** On every run of the system, each task's state is what its own trace of events makes it. */
  lemma {:induction false} NodeTasksAreTraces(cfg: Config, steps: seq<Step>, x: Id, mode: Mode)
    requires ValidConfig(cfg) && Run(cfg, steps) && x in cfg.parties
    ensures x in After(cfg, steps).nodes
    ensures Trace(EventsOf(cfg, steps, x, mode))
    ensures Exec(EventsOf(cfg, steps, x, mode)) == TaskOf(After(cfg, steps).nodes[x], mode)
  {
    hide Do, Can, Inv, EventOf, TaskOf, Apply, Enabled;
    if steps == [] {
      NoEvents(cfg, x, mode);
    } else {
      var pre, s := steps[..|steps| - 1], steps[|steps| - 1];
      var w := After(cfg, pre);
      NodeTasksAreTraces(cfg, pre, x, mode);
      RunsKeepInv(cfg, pre);
      StepIsEvent(cfg, w, s, x, mode);
      var e := EventOf(cfg, w, s, x, mode);
      if e.Some? {
        ExecSnoc(EventsOf(cfg, pre, x, mode), e.value);
      }
    }
  }

  lemma NoEvents(cfg: Config, x: Id, mode: Mode)
    requires x in cfg.parties
    ensures x in Init(cfg).nodes && TaskOf(Init(cfg).nodes[x], mode) == Fresh
    ensures Exec([]) == Fresh && Trace([])
  {
  }

  lemma NoInsertion(cfg: Config, w: World, s: Step, x: Id)
    requires Can(cfg, w, s)
    ensures var e := EventOf(cfg, w, s, x, OneWayAuth); e.Some? ==> !e.value.Inserted?
  {
    hide Do;
  }

  /** A one-way task's trace has no insertions, so the one-way results on order and counting apply to it. */
  lemma {:induction false} OneWayTasksAreAlone(cfg: Config, steps: seq<Step>, x: Id)
    requires ValidConfig(cfg) && Run(cfg, steps) && x in cfg.parties
    ensures OneWayTrace(EventsOf(cfg, steps, x, OneWayAuth))
  {
    hide Do, Can, EventOf, Exec, Trace, TaskOf;
    NodeTasksAreTraces(cfg, steps, x, OneWayAuth);
    if steps == [] {
    } else {
      var pre := steps[..|steps| - 1];
      OneWayTasksAreAlone(cfg, pre, x);
      NoInsertion(cfg, After(cfg, pre), steps[|steps| - 1], x);
    }
  }

  /** So every request a node of the system receives stands exactly where its verdict says, under every interleaving
      of handshakes, requests, and peers recorded by its acceptor side. */
  lemma RequestsInTheSystem(cfg: Config, steps: seq<Step>, x: Id, mode: Mode, i: nat)
    requires ValidConfig(cfg) && Run(cfg, steps) && x in cfg.parties
    requires i < |EventsOf(cfg, steps, x, mode)| && EventsOf(cfg, steps, x, mode)[i].Request?
    requires DistinctRequests(EventsOf(cfg, steps, x, mode))
    ensures x in After(cfg, steps).nodes
    ensures var es := EventsOf(cfg, steps, x, mode);
            Stands(TaskOf(After(cfg, steps).nodes[x], mode), es[i].remote, es[i].req, VerdictOf(es, i))
  {
    NodeTasksAreTraces(cfg, steps, x, mode);
    TaskRefinesVerdicts(EventsOf(cfg, steps, x, mode), i);
    hide After, Run, EventsOf, Stands, VerdictOf;
  }

  // ---------------------------------------------------------------------------
  // What a node's own events tell about its peers
  // ---------------------------------------------------------------------------

  lemma SettleRecorded(cfg: Config, steps: seq<Step>, s: Step, x: Id, mode: Mode, r: Id)
    requires ValidConfig(cfg) && Run(cfg, steps) && Can(cfg, After(cfg, steps), s) && x in cfg.parties && r in cfg.parties
    requires EventOf(cfg, After(cfg, steps), s, x, mode) == Some(Completion(r, Ok(())))
    ensures r in After(cfg, steps).nodes && x in Members(After(cfg, steps).nodes[r], AcceptGate(mode))
  {
    hide Run, After, Reachable, Do, Members;
    assert s.Settle?;
    ReachableBy(cfg, steps);
    SettledMeansRecorded(cfg, After(cfg, steps), s.conn);
  }

  lemma ReachableBy(cfg: Config, steps: seq<Step>)
    requires Run(cfg, steps)
    ensures Reachable(cfg, After(cfg, steps))
  {
  }

  lemma {:induction false} CompletedIsRecorded(cfg: Config, steps: seq<Step>, x: Id, mode: Mode, r: Id)
    requires ValidConfig(cfg) && Run(cfg, steps) && x in cfg.parties && r in cfg.parties
    ensures r in After(cfg, steps).nodes
    ensures Completion(r, Ok(())) in EventsOf(cfg, steps, x, mode) ==> x in Members(After(cfg, steps).nodes[r], AcceptGate(mode))
  {
    hide Do, Can, EventOf, Members;
    RunsKeepNodes(cfg, steps);
    if steps == [] {
    } else {
      var pre, s := steps[..|steps| - 1], steps[|steps| - 1];
      CompletedIsRecorded(cfg, pre, x, mode, r);
      StepGrows(cfg, After(cfg, pre), s, r, AcceptGate(mode));
      if EventOf(cfg, After(cfg, pre), s, x, mode) == Some(Completion(r, Ok(()))) {
        SettleRecorded(cfg, pre, s, x, mode, r);
      }
    }
  }

  /** Both modes, and what a node can know by itself: once its own handshake with an honest remote has completed with
      success, that remote's gate admits it at every later time. */
  lemma CompletedPassesRemoteGate(cfg: Config, steps: seq<Step>, more: seq<Step>, x: Id, mode: Mode, r: Id)
    requires ValidConfig(cfg) && Continues(cfg, steps, more) && x in cfg.parties && r in cfg.parties
    requires Completion(r, Ok(())) in EventsOf(cfg, steps, x, mode)
    ensures r in After(cfg, steps + more).nodes
    ensures AfterHandshakeAccepts(false, Members(After(cfg, steps + more).nodes[r], AcceptGate(mode)), x)
  {
    hide Run, After, EventsOf, Members;
    CompletedIsRecorded(cfg, steps, x, mode, r);
    SetsGrow(cfg, steps, more, r, AcceptGate(mode));
  }

  /** So a mutual dial that is accepted here and refused by an honest remote comes of an entry made by the acceptor side
      alone: the remote's own handshake was recorded here, and no handshake of this node's with it has succeeded. */
  lemma RefusedDialWasInserted(cfg: Config, steps: seq<Step>, x: Id, rep: Reply)
    requires ValidConfig(cfg) && Run(cfg, steps) && x in cfg.parties && rep.remote in cfg.parties
    requires x in After(cfg, steps).nodes && rep in After(cfg, steps).nodes[x].mutual.sent && rep.result.Ok?
    ensures rep.remote in After(cfg, steps).nodes
    ensures !AfterHandshakeAccepts(false, After(cfg, steps).nodes[rep.remote].mutual.allowed, x) ==>
              && Completion(rep.remote, Ok(())) !in EventsOf(cfg, steps, x, MutualAuth)
              && Inserted(rep.remote) in EventsOf(cfg, steps, x, MutualAuth)
  {
    hide Run, After, EventsOf, Reachable, Exec, Trace;
    CompletedIsRecorded(cfg, steps, x, MutualAuth, rep.remote);
    ReachableBy(cfg, steps);
    AcceptedDialsAreMembers(cfg, After(cfg, steps), x, MutualAuth, rep);
    NodeTasksAreTraces(cfg, steps, x, MutualAuth);
    var es := EventsOf(cfg, steps, x, MutualAuth);
    TaskInvariant(es);
    assert Admitted(es, rep.remote);
    var j :| 0 <= j < |es| && AuthTask.Admits(es[j], rep.remote);
    assert es[j] in es;
    assert es[j].Completion? ==> es[j].result.value == ();
    assert es[j] == Inserted(rep.remote) || es[j] == Completion(rep.remote, Ok(()));
  }

  // ---------------------------------------------------------------------------
  // Dials that the hook has accepted
  // ---------------------------------------------------------------------------

  /** Both modes: the remote of an application dial that the hook accepted is in the dialling side's set. */
  lemma AcceptedDialIsHeld(cfg: Config, steps: seq<Step>, x: Id, mode: Mode, i: nat, alpn: Bytes)
    requires ValidConfig(cfg) && Run(cfg, steps) && x in cfg.parties && alpn != AuthAlpn(mode)
    requires i < |EventsOf(cfg, steps, x, mode)| && EventsOf(cfg, steps, x, mode)[i].Request?
    requires DistinctRequests(EventsOf(cfg, steps, x, mode))
    ensures x in After(cfg, steps).nodes
    ensures var r := EventsOf(cfg, steps, x, mode)[i];
            DialAccepted(mode, alpn, TaskOf(After(cfg, steps).nodes[x], mode), r.req) ==>
              r.remote in Members(After(cfg, steps).nodes[x], DialGate(mode))
  {
    hide Run, After, EventsOf, Exec, Trace, VerdictSeen, VerdictOf;
    NodeTasksAreTraces(cfg, steps, x, mode);
    var es := EventsOf(cfg, steps, x, mode);
    VerdictIsSeen(es, i);
    if !VerdictOf(es, i).Waiting? {
      AcceptedDialIsAdmitted(es, i);
    }
  }

  /** One-way mode: an application dial that the hook accepted towards an honest acceptor is let in by that acceptor's own
      hook, whenever later it arrives. */
  lemma AcceptedDialIsLetIn(cfg: Config, steps: seq<Step>, more: seq<Step>, x: Id, i: nat, alpn: Bytes)
    requires ValidConfig(cfg) && Continues(cfg, steps, more) && x in cfg.parties && alpn != AuthAlpn(OneWayAuth)
    requires i < |EventsOf(cfg, steps, x, OneWayAuth)| && EventsOf(cfg, steps, x, OneWayAuth)[i].Request?
    requires DistinctRequests(EventsOf(cfg, steps, x, OneWayAuth))
    requires EventsOf(cfg, steps, x, OneWayAuth)[i].remote in cfg.parties
    requires x in After(cfg, steps).nodes
    requires DialAccepted(OneWayAuth, alpn, After(cfg, steps).nodes[x].outgoing, EventsOf(cfg, steps, x, OneWayAuth)[i].req)
    ensures var r := EventsOf(cfg, steps, x, OneWayAuth)[i].remote;
            && r in After(cfg, steps + more).nodes
            && AfterHandshake(OneWayAuth, alpn, After(cfg, steps + more).nodes[r].incoming, x)
  {
    hide Run, After, EventsOf, DialAccepted, Reachable;
    AcceptedDialIsHeld(cfg, steps, x, OneWayAuth, i, alpn);
    ReachableBy(cfg, steps);
    var r := EventsOf(cfg, steps, x, OneWayAuth)[i].remote;
    CachedMeansRecorded(cfg, After(cfg, steps), x, r);
    SetsGrow(cfg, steps, more, r, IncomingGate);
  }

  /** Mutual mode: the node's own inbound hook lets in the remote of a dial that its outbound hook accepted, at any time. */
  lemma AcceptedMutualDialIsLetInHere(cfg: Config, steps: seq<Step>, more: seq<Step>, x: Id, i: nat, alpn: Bytes, alpn': Bytes)
    requires ValidConfig(cfg) && Continues(cfg, steps, more) && x in cfg.parties && alpn != AuthAlpn(MutualAuth)
    requires i < |EventsOf(cfg, steps, x, MutualAuth)| && EventsOf(cfg, steps, x, MutualAuth)[i].Request?
    requires DistinctRequests(EventsOf(cfg, steps, x, MutualAuth))
    requires x in After(cfg, steps).nodes
    requires DialAccepted(MutualAuth, alpn, After(cfg, steps).nodes[x].mutual, EventsOf(cfg, steps, x, MutualAuth)[i].req)
    ensures x in After(cfg, steps + more).nodes
    ensures AfterHandshake(MutualAuth, alpn', After(cfg, steps + more).nodes[x].mutual.allowed,
                           EventsOf(cfg, steps, x, MutualAuth)[i].remote)
  {
    hide Run, After, EventsOf, DialAccepted;
    AcceptedDialIsHeld(cfg, steps, x, MutualAuth, i, alpn);
    SetsGrow(cfg, steps, more, x, MutualGate);
  }
}
