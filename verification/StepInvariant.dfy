/** Every step of the system keeps the global invariant, so every run does. */
module StepInvariant {
  import opened Types
  import opened Wire
  import opened Transcripts
  import opened Handshake
  import opened AuthTask
  import opened Network
  import opened ConnInvariant
  import opened WorldInvariant

  // ---------------------------------------------------------------------------
  // Sets and flights after an update of one connection
  // ---------------------------------------------------------------------------

  /** If the connection comes to admit at most one more peer, and exactly that membership is added, the sets stay exact. */
  lemma GatesAfter(w: World, w': World, c: nat, gate0: Gate, x0: Id, r0: Id, adds: bool)
    requires GateInv(w) && c < |w.conns| && |w'.conns| == |w.conns| && w'.conns == w.conns[c := w'.conns[c]]
    requires w'.nodes.Keys == w.nodes.Keys
    requires forall gate, x, r :: WorldInvariant.Admits(w'.conns[c], gate, x, r)
               <==> WorldInvariant.Admits(w.conns[c], gate, x, r) || (adds && gate == gate0 && x == x0 && r == r0)
    requires forall x, gate, r :: x in w.nodes ==>
               (r in Members(w'.nodes[x], gate)
                <==> r in Members(w.nodes[x], gate) || (adds && gate == gate0 && x == x0 && r == r0))
    ensures GateInv(w')
  {
    hide WorldInvariant.Admits, AdmittedBy, Members;
    forall x, gate, r | x in w'.nodes
      ensures r in Members(w'.nodes[x], gate) <==> AdmittedBy(w'.conns, gate, x, r)
    {
      AdmittedUpdate(w.conns, c, w'.conns[c], gate, x, r);
      if WorldInvariant.Admits(w.conns[c], gate, x, r) {
        AdmittedUpdate(w.conns, c, w.conns[c], gate, x, r);
        assert w.conns[c := w.conns[c]] == w.conns;
      }
    }
  }

  /** If the connection leaves flight exactly when its remote leaves the waiters, flights and waiters still match. */
  lemma FlightsAfter(w: World, w': World, c: nat, gone: bool)
    requires FlightInv(w) && c < |w.conns| && |w'.conns| == |w.conns| && w'.conns == w.conns[c := w'.conns[c]]
    requires w'.nodes.Keys == w.nodes.Keys
    requires forall mode, x, r :: InFlight(w'.conns[c], mode, x, r) <==> InFlight(w.conns[c], mode, x, r) && !gone
    requires forall x, mode, r :: x in w.nodes ==>
               (r in TaskOf(w'.nodes[x], mode).pending
                <==> r in TaskOf(w.nodes[x], mode).pending && !(gone && InFlight(w.conns[c], mode, x, r)))
    ensures FlightInv(w')
  {
    hide InFlight, FlightOf, OneFlight, TaskOf;
    forall x, mode, r | x in w'.nodes
      ensures r in TaskOf(w'.nodes[x], mode).pending <==> FlightOf(w'.conns, mode, x, r)
      ensures OneFlight(w'.conns, mode, x, r)
    {
      FlightUpdate(w.conns, c, w'.conns[c], mode, x, r);
    }
  }

  // ---------------------------------------------------------------------------
  // An act on one connection
  // ---------------------------------------------------------------------------

  lemma LocalIsOwn(cfg: Config, w: World, k: Conn)
    requires Inv(cfg, w)
    ensures LocalOf(w, k).None? || LocalOf(w, k) == Some(k.acceptor)
  {
    hide ConnInv, SigInv, MadeInv, DrawnDistinct, GateInv, FlightInv;
  }

  lemma AtKeepsConns(cfg: Config, w: World, c: nat, a: Act)
    requires ValidConfig(cfg) && Inv(cfg, w) && Can(cfg, w, At(c, a))
    ensures var w' := Do(cfg, w, At(c, a));
            forall i :: 0 <= i < |w'.conns| ==> ConnInv(cfg, w'.ledger, i, w'.conns[i])
    ensures SigInv(cfg, Do(cfg, w, At(c, a)).ledger)
  {
    var w', local := Do(cfg, w, At(c, a)), LocalOf(w, w.conns[c]);
    LocalIsOwn(cfg, w, w.conns[c]);
    ActKeepsConn(cfg, w.ledger, local, c, w.conns[c], a);
    ActKeepsSigs(cfg, w.ledger, local, c, w.conns[c], a);
    hide ActOn, CanAct, Grow, ConnInv, Extends, SigInv, MadeInv, DrawnDistinct, GateInv, FlightInv, NodeInv;
    forall i | 0 <= i < |w'.conns|
      ensures ConnInv(cfg, w'.ledger, i, w'.conns[i])
    {
      if i != c {
        ConnInvMonotone(cfg, w.ledger, w'.ledger, i, w.conns[i]);
      }
    }
  }

  lemma AtKeepsMade(cfg: Config, w: World, c: nat, a: Act)
    requires ValidConfig(cfg) && Can(cfg, w, At(c, a))
    requires MadeInv(cfg, w.conns, w.ledger.made) && ConnInv(cfg, w.ledger, c, w.conns[c])
    requires LocalOf(w, w.conns[c]).None? || LocalOf(w, w.conns[c]) == Some(w.conns[c].acceptor)
    ensures MadeInv(cfg, Do(cfg, w, At(c, a)).conns, Do(cfg, w, At(c, a)).ledger.made)
  {
    var w', local := Do(cfg, w, At(c, a)), LocalOf(w, w.conns[c]);
    ActKeepsMade(cfg, w.ledger, local, c, w.conns[c], a);
    hide ActOn, CanAct, Grow, ConnInv, SignedOn;
    forall m | m in w'.ledger.made
      ensures m.conn < |w'.conns| && SignedOn(cfg, w'.conns[m.conn], m)
    {
      if m in w.ledger.made && m.conn == c {
        ActKeepsSigned(cfg, w.ledger, local, c, w.conns[c], a, m);
      }
    }
  }

  lemma DrawnUpdate(cfg: Config, conns: seq<Conn>, drawn: set<Nonce>, c: nat, k': Conn, side: bool)
    requires c < |conns| && DrawnDistinct(cfg, conns)
    requires forall i, b :: 0 <= i < |conns| && DrawnAt(cfg, conns[i], b).Some? ==> DrawnAt(cfg, conns[i], b).value in drawn
    requires DrawnAt(cfg, k', !side) == DrawnAt(cfg, conns[c], !side)
    requires DrawnAt(cfg, k', side) == DrawnAt(cfg, conns[c], side)
             || (DrawnAt(cfg, k', side).Some? && DrawnAt(cfg, k', side).value !in drawn)
    ensures DrawnDistinct(cfg, conns[c := k'])
  {
    hide DrawnAt;
    var conns' := conns[c := k'];
    forall i, j, b, b' | 0 <= i < |conns'| && 0 <= j < |conns'|
      ensures DrawnAt(cfg, conns'[i], b).Some? && DrawnAt(cfg, conns'[i], b) == DrawnAt(cfg, conns'[j], b') ==> i == j && b == b'
    {
      assert b == side || b == !side;
      assert b' == side || b' == !side;
    }
  }

  lemma AtKeepsDrawn(cfg: Config, w: World, c: nat, a: Act)
    requires Inv(cfg, w) && Can(cfg, w, At(c, a))
    ensures DrawnDistinct(cfg, Do(cfg, w, At(c, a)).conns)
  {
    var w', local, k := Do(cfg, w, At(c, a)), LocalOf(w, w.conns[c]), w.conns[c];
    forall i, b | 0 <= i < |w.conns|
      ensures DrawnAt(cfg, w.conns[i], b).Some? ==> DrawnAt(cfg, w.conns[i], b).value in w.ledger.drawn
    {
      DrawnIsDrawn(cfg, w.ledger, i, w.conns[i], b);
    }
    ActDraws(cfg, w.ledger, local, c, k, a, a.Greet?);
    ActDraws(cfg, w.ledger, local, c, k, a, !a.Greet?);
    assert w'.conns == w.conns[c := ActOn(cfg, w.ledger.sigs, w.ledger.drawn, local, k, a)];
    hide *;
    DrawnUpdate(cfg, w.conns, w.ledger.drawn, c, ActOn(cfg, w.ledger.sigs, w.ledger.drawn, local, k, a), a.Greet?);
  }

  lemma DrawnIsDrawn(cfg: Config, ledger: Ledger, i: nat, k: Conn, b: bool)
    requires ConnInv(cfg, ledger, i, k)
    ensures DrawnAt(cfg, k, b).Some? ==> DrawnAt(cfg, k, b).value in ledger.drawn
  {
    hide Encode, StatementBytes, Frame, Written, Hello, Verifies, LinkInv;
  }

  /** An act adds the initiator to the acceptor's set when it is accepted, and changes no other membership. */
  lemma AtKeepsGates(cfg: Config, w: World, c: nat, a: Act)
    requires GateInv(w) && Can(cfg, w, At(c, a)) && ConnInv(cfg, w.ledger, c, w.conns[c])
    requires w.nodes.Keys == cfg.parties.Keys
    ensures GateInv(Do(cfg, w, At(c, a)))
  {
    var w', k := Do(cfg, w, At(c, a)), w.conns[c];
    ActFrame(cfg, w.ledger, LocalOf(w, k), c, k, a);
    var adds := w'.conns[c].acc.recorded && !k.acc.recorded;
    assert adds ==> k.acceptor in w.nodes;
    assert w'.nodes == if adds then w.nodes[k.acceptor := Record(w.nodes[k.acceptor], k.mode, k.dialer)] else w.nodes;
    forall gate, r | adds
      ensures r in Members(w'.nodes[k.acceptor], gate)
              <==> r in Members(w.nodes[k.acceptor], gate) || (r == k.dialer && gate == AcceptGate(k.mode))
    {
      RecordMembers(w.nodes[k.acceptor], k.mode, k.dialer, gate, r);
    }
    hide ActOn, CanAct, Grow, ConnInv, GateInv, Members, Record, Can, Do, LocalOf;
    GatesAfter(w, w', c, AcceptGate(k.mode), k.acceptor, k.dialer, adds);
  }

  lemma RecordMembers(n: Node, mode: Mode, remote: Id, gate: Gate, r: Id)
    ensures r in Members(Record(n, mode, remote), gate)
            <==> r in Members(n, gate) || (r == remote && gate == AcceptGate(mode))
  {
  }

  lemma AtKeepsFlights(cfg: Config, w: World, c: nat, a: Act)
    requires FlightInv(w) && Can(cfg, w, At(c, a)) && ConnInv(cfg, w.ledger, c, w.conns[c])
    ensures FlightInv(Do(cfg, w, At(c, a)))
  {
    hide ActOn, CanAct, Grow, ConnInv, FlightInv, LocalOf;
    var w', k := Do(cfg, w, At(c, a)), w.conns[c];
    ActFrame(cfg, w.ledger, LocalOf(w, k), c, k, a);
    FlightsAfter(w, w', c, false);
  }

  /** An act changes no node, or enters the initiator in the acceptor's set. */
  lemma AtShape(cfg: Config, w: World, c: nat, a: Act)
    requires Can(cfg, w, At(c, a))
    ensures var k, nodes := w.conns[c], Do(cfg, w, At(c, a)).nodes;
            nodes == w.nodes
            || (k.acceptor in w.nodes && nodes == w.nodes[k.acceptor := Record(w.nodes[k.acceptor], k.mode, k.dialer)])
  {
    hide ActOn, CanAct, Grow, Record;
  }

  lemma UpdateKeepsNodes(nodes: map<Id, Node>, x: Id, n: Node, nodes': map<Id, Node>)
    requires x in nodes && NodeInv(x, n) && nodes' == nodes[x := n] && forall y :: y in nodes ==> NodeInv(y, nodes[y])
    ensures nodes'.Keys == nodes.Keys && forall y :: y in nodes' ==> NodeInv(y, nodes'[y])
  {
    hide NodeInv;
  }

  lemma AtKeepsNodes(cfg: Config, w: World, c: nat, a: Act)
    requires Can(cfg, w, At(c, a)) && w.nodes.Keys == cfg.parties.Keys
    requires forall x :: x in w.nodes ==> NodeInv(x, w.nodes[x])
    ensures var w' := Do(cfg, w, At(c, a));
            w'.nodes.Keys == cfg.parties.Keys && forall x :: x in w'.nodes ==> NodeInv(x, w'.nodes[x])
  {
    AtShape(cfg, w, c, a);
    hide Do, Can, NodeInv, Record;
    var k := w.conns[c];
    if k.acceptor in w.nodes {
      RecordKeepsNode(k.acceptor, w.nodes[k.acceptor], k.mode, k.dialer);
      var n := Record(w.nodes[k.acceptor], k.mode, k.dialer);
      UpdateKeepsNodes(w.nodes, k.acceptor, n, w.nodes[k.acceptor := n]);
    }
  }

  lemma RecordKeepsNode(x: Id, n: Node, mode: Mode, remote: Id)
    requires NodeInv(x, n)
    ensures NodeInv(x, Record(n, mode, remote))
  {
    ApplyKeepsBijection(n.mutual, Inserted(remote));
    SentAfter(n.mutual, Inserted(remote));
    hide Apply, InFlightBijection, SentInv;
  }

  lemma AtKeepsInv(cfg: Config, w: World, c: nat, a: Act)
    requires ValidConfig(cfg) && Inv(cfg, w) && Can(cfg, w, At(c, a))
    ensures Inv(cfg, Do(cfg, w, At(c, a)))
  {
    AtKeepsConns(cfg, w, c, a);
    LocalIsOwn(cfg, w, w.conns[c]);
    AtKeepsMade(cfg, w, c, a);
    AtKeepsDrawn(cfg, w, c, a);
    AtKeepsGates(cfg, w, c, a);
    AtKeepsFlights(cfg, w, c, a);
    AtKeepsNodes(cfg, w, c, a);
    hide Do, Can, ConnInv, SigInv, MadeInv, DrawnDistinct, GateInv, FlightInv, NodeInv;
  }

  // ---------------------------------------------------------------------------
  // New connections
  // ---------------------------------------------------------------------------

  /** A fresh connection carries no signature, nonce or admission. */
  lemma AppendKeepsConns(cfg: Config, w: World, mode: Mode, dialer: Id, acceptor: Id)
    requires MadeInv(cfg, w.conns, w.ledger.made) && DrawnDistinct(cfg, w.conns)
    requires forall i :: 0 <= i < |w.conns| ==> ConnInv(cfg, w.ledger, i, w.conns[i])
    ensures var w' := w.(conns := w.conns + [NewConn(mode, dialer, acceptor)]);
            && (forall i :: 0 <= i < |w'.conns| ==> ConnInv(cfg, w'.ledger, i, w'.conns[i]))
            && MadeInv(cfg, w'.conns, w'.ledger.made)
            && DrawnDistinct(cfg, w'.conns)
  {
    var k := NewConn(mode, dialer, acceptor);
    NewConnInv(cfg, w.ledger, |w.conns|, mode, dialer, acceptor);
    assert forall b :: DrawnAt(cfg, k, b).None?;
    hide NewConn, ConnInv, SignedOn, DrawnAt;
  }

  lemma AppendKeepsGates(w: World, mode: Mode, dialer: Id, acceptor: Id)
    requires GateInv(w)
    ensures GateInv(w.(conns := w.conns + [NewConn(mode, dialer, acceptor)]))
  {
    hide NewConn, AdmittedBy, Members;
    forall x, gate, r | x in w.nodes
      ensures AdmittedBy(w.conns + [NewConn(mode, dialer, acceptor)], gate, x, r) <==> AdmittedBy(w.conns, gate, x, r)
    {
      AdmittedAppend(w.conns, mode, dialer, acceptor, gate, x, r);
    }
  }

  /** If a new connection is in flight exactly for a pair that starts to be waited for, flights and waiters still match. */
  lemma FlightsAfterAppend(w: World, w': World, k: Conn)
    requires FlightInv(w) && w'.conns == w.conns + [k] && w'.nodes.Keys == w.nodes.Keys
    requires forall x, mode, r :: x in w.nodes ==>
               (r in TaskOf(w'.nodes[x], mode).pending <==> r in TaskOf(w.nodes[x], mode).pending || InFlight(k, mode, x, r))
    requires forall x, mode, r :: x in w.nodes && InFlight(k, mode, x, r) ==> r !in TaskOf(w.nodes[x], mode).pending
    ensures FlightInv(w')
  {
    hide InFlight, FlightOf, OneFlight, TaskOf;
    forall x, mode, r | x in w'.nodes
      ensures r in TaskOf(w'.nodes[x], mode).pending <==> FlightOf(w'.conns, mode, x, r)
      ensures OneFlight(w'.conns, mode, x, r)
    {
      FlightAppend(w.conns, k, mode, x, r);
    }
  }

  lemma OpenKeepsInv(cfg: Config, w: World, mode: Mode, x: Id, y: Id)
    requires Inv(cfg, w) && Can(cfg, w, Open(mode, x, y))
    ensures Inv(cfg, Do(cfg, w, Open(mode, x, y)))
  {
    var w', k := Do(cfg, w, Open(mode, x, y)), NewConn(mode, x, y);
    AppendKeepsConns(cfg, w, mode, x, y);
    AppendKeepsGates(w, mode, x, y);
    assert forall z, mode', r :: z in w.nodes ==> !InFlight(k, mode', z, r);
    hide ConnInv, MadeInv, DrawnDistinct, GateInv, NodeInv, SigInv, FlightInv, InFlight, NewConn;
    FlightsAfterAppend(w, w', k);
  }

  // ---------------------------------------------------------------------------
  // The tasks
  // ---------------------------------------------------------------------------

  lemma SentAfter(t: Task, e: Event)
    requires SentInv(t)
    ensures SentInv(Apply(t, e))
  {
  }

  lemma TaskStepKeepsNode(x: Id, n: Node, mode: Mode, e: Event)
    requires NodeInv(x, n) && Enabled(TaskOf(n, mode), e)
    ensures NodeInv(x, WithTask(n, mode, Apply(TaskOf(n, mode), e)))
  {
    var t := TaskOf(n, mode);
    ApplyKeepsBijection(t, e);
    SentAfter(t, e);
    hide Apply, InFlightBijection, SentInv;
  }

  lemma WithTaskMembers(n: Node, mode: Mode, t: Task, gate: Gate)
    ensures Members(WithTask(n, mode, t), gate) == if gate == DialGate(mode) then t.allowed else Members(n, gate)
  {
  }

  lemma SpawnKeepsInv(cfg: Config, w: World, x: Id)
    requires Inv(cfg, w) && Can(cfg, w, Spawn(x))
    ensures Inv(cfg, Do(cfg, w, Spawn(x)))
  {
    hide ConnInv, DrawnDistinct, AdmittedBy, TaskInv, SigInv, FlightOf, OneFlight, SignedOn, DrawnAt;
    var w' := Do(cfg, w, Spawn(x));
    forall z, gate, mode | z in w'.nodes
      ensures Members(w'.nodes[z], gate) == Members(w.nodes[z], gate)
      ensures TaskOf(w'.nodes[z], mode) == TaskOf(w.nodes[z], mode)
    {
    }
  }

  /** A request for a remote that is neither cached nor in flight starts its one handshake; no other does. */
  lemma RequestStarts(t: Task, r: Id, q: Req)
    ensures var t' := Apply(t, Request(r, q));
            && t'.allowed == t.allowed
            && (t'.running == t.running <==> t.stopped || r in t.allowed || r in t.pending)
            && t'.pending.Keys == t.pending.Keys + (if t.stopped || r in t.allowed || r in t.pending then {} else {r})
  {
    var t' := Apply(t, Request(r, q));
    if !t.stopped && r !in t.allowed && r !in t.pending {
      assert t'.running[r] == t.running[r] + 1;
    }
  }

  lemma AskShape(cfg: Config, w: World, x: Id, mode: Mode, r: Id, q: Req)
    requires Can(cfg, w, Ask(x, mode, r, q))
    ensures var w' := Do(cfg, w, Ask(x, mode, r, q));
            && w'.nodes == w.nodes[x := WithTask(w.nodes[x], mode, Apply(TaskOf(w.nodes[x], mode), Request(r, q)))]
            && (w'.conns == w.conns || w'.conns == w.conns + [NewConn(mode, x, r)])
            && w'.ledger == w.ledger
  {
    hide Apply, NewConn, TaskOf, WithTask;
  }

  lemma AskKeepsFlights(cfg: Config, w: World, x: Id, mode: Mode, r: Id, q: Req)
    requires FlightInv(w) && Can(cfg, w, Ask(x, mode, r, q))
    ensures FlightInv(Do(cfg, w, Ask(x, mode, r, q)))
  {
    var t := TaskOf(w.nodes[x], mode);
    var w', k := Do(cfg, w, Ask(x, mode, r, q)), NewConn(mode, x, r);
    RequestStarts(t, r, q);
    assert forall z, mode', s :: InFlight(k, mode', z, s) <==> mode' == mode && z == x && s == r;
    hide Apply, FlightInv, InFlight, NewConn;
    var starts := !t.stopped && r !in t.allowed && r !in t.pending;
    forall z, mode', s | z in w.nodes
      ensures s in TaskOf(w'.nodes[z], mode').pending
              <==> s in TaskOf(w.nodes[z], mode').pending || (starts && mode' == mode && z == x && s == r)
    {
      assert s in t.pending <==> s in t.pending.Keys;
    }
    if starts {
      FlightsAfterAppend(w, w', k);
    } else {
      SamePending(w, w');
    }
  }

  lemma SamePending(w: World, w': World)
    requires FlightInv(w) && w'.conns == w.conns && w'.nodes.Keys == w.nodes.Keys
    requires forall x, mode, r :: x in w.nodes ==>
               (r in TaskOf(w'.nodes[x], mode).pending <==> r in TaskOf(w.nodes[x], mode).pending)
    ensures FlightInv(w')
  {
    hide FlightOf, OneFlight, TaskOf;
  }

  lemma SameMembers(w: World, w': World)
    requires GateInv(w) && w'.conns == w.conns && w'.nodes.Keys == w.nodes.Keys
    requires forall x, gate :: x in w.nodes ==> Members(w'.nodes[x], gate) == Members(w.nodes[x], gate)
    ensures GateInv(w')
  {
    hide AdmittedBy, Members;
  }

  lemma AskKeepsGates(cfg: Config, w: World, x: Id, mode: Mode, r: Id, q: Req)
    requires GateInv(w) && Can(cfg, w, Ask(x, mode, r, q))
    ensures GateInv(Do(cfg, w, Ask(x, mode, r, q)))
  {
    var w', n := Do(cfg, w, Ask(x, mode, r, q)), w.nodes[x];
    RequestStarts(TaskOf(n, mode), r, q);
    forall gate
      ensures Members(w'.nodes[x], gate) == Members(n, gate)
    {
      WithTaskMembers(n, mode, Apply(TaskOf(n, mode), Request(r, q)), gate);
    }
    hide Apply, GateInv, Members;
    SameMembers(w, w.(nodes := w'.nodes));
    AppendKeepsGates(w.(nodes := w'.nodes), mode, x, r);
  }

  lemma RequestKeepsNode(x: Id, n: Node, mode: Mode, r: Id, q: Req)
    requires NodeInv(x, n)
    ensures NodeInv(x, WithTask(n, mode, Apply(TaskOf(n, mode), Request(r, q))))
  {
    TaskStepKeepsNode(x, n, mode, Request(r, q));
    hide Apply, NodeInv;
  }

  lemma AskKeepsNodes(cfg: Config, w: World, x: Id, mode: Mode, r: Id, q: Req)
    requires Can(cfg, w, Ask(x, mode, r, q)) && w.nodes.Keys == cfg.parties.Keys
    requires forall z :: z in w.nodes ==> NodeInv(z, w.nodes[z])
    ensures var w' := Do(cfg, w, Ask(x, mode, r, q));
            w'.nodes.Keys == cfg.parties.Keys && forall z :: z in w'.nodes ==> NodeInv(z, w'.nodes[z])
  {
    RequestKeepsNode(x, w.nodes[x], mode, r, q);
    AskShape(cfg, w, x, mode, r, q);
    hide Apply, NodeInv, TaskOf, WithTask, Do, Can, NewConn;
  }

  lemma AskKeepsConns(cfg: Config, w: World, x: Id, mode: Mode, r: Id, q: Req)
    requires MadeInv(cfg, w.conns, w.ledger.made) && DrawnDistinct(cfg, w.conns) && Can(cfg, w, Ask(x, mode, r, q))
    requires forall i :: 0 <= i < |w.conns| ==> ConnInv(cfg, w.ledger, i, w.conns[i])
    ensures var w' := Do(cfg, w, Ask(x, mode, r, q));
            && (forall i :: 0 <= i < |w'.conns| ==> ConnInv(cfg, w'.ledger, i, w'.conns[i]))
            && MadeInv(cfg, w'.conns, w'.ledger.made)
            && DrawnDistinct(cfg, w'.conns)
            && w'.ledger == w.ledger
  {
    AppendKeepsConns(cfg, w, mode, x, r);
    AskShape(cfg, w, x, mode, r, q);
    hide *;
  }

  lemma AskKeepsInv(cfg: Config, w: World, x: Id, mode: Mode, r: Id, q: Req)
    requires Inv(cfg, w) && Can(cfg, w, Ask(x, mode, r, q))
    ensures Inv(cfg, Do(cfg, w, Ask(x, mode, r, q)))
  {
    AskKeepsFlights(cfg, w, x, mode, r, q);
    AskKeepsGates(cfg, w, x, mode, r, q);
    AskKeepsNodes(cfg, w, x, mode, r, q);
    AskKeepsConns(cfg, w, x, mode, r, q);
    hide Do, Can, ConnInv, DrawnDistinct, NodeInv, SigInv, FlightInv, GateInv, MadeInv;
  }

  lemma SettleKeepsConn(cfg: Config, ledger: Ledger, i: nat, k: Conn)
    requires ConnInv(cfg, ledger, i, k) && k.ini.phase.Returned?
    ensures ConnInv(cfg, ledger, i, k.(ini := k.ini.(phase := Settled)))
  {
    hide Encode, StatementBytes, Frame, Written, Hello, Verifies;
  }

  lemma SettleKeepsConns(cfg: Config, w: World, c: nat)
    requires MadeInv(cfg, w.conns, w.ledger.made) && DrawnDistinct(cfg, w.conns) && Can(cfg, w, Settle(c))
    requires forall i :: 0 <= i < |w.conns| ==> ConnInv(cfg, w.ledger, i, w.conns[i])
    ensures var w' := Do(cfg, w, Settle(c));
            && (forall i :: 0 <= i < |w'.conns| ==> ConnInv(cfg, w'.ledger, i, w'.conns[i]))
            && MadeInv(cfg, w'.conns, w'.ledger.made)
            && DrawnDistinct(cfg, w'.conns)
  {
    var w' := Do(cfg, w, Settle(c));
    SettleKeepsConn(cfg, w.ledger, c, w.conns[c]);
    assert forall b :: DrawnAt(cfg, w'.conns[c], b) == DrawnAt(cfg, w.conns[c], b);
    assert forall m :: SignedOn(cfg, w.conns[c], m) ==> SignedOn(cfg, w'.conns[c], m);
    hide AuthTask.HandleCompletion, ConnInv, SignedOn, DrawnAt;
  }

  /** Handling a success adds the remote to the set the dialling side keeps; nothing else changes a membership. */
  lemma SettleMembers(n: Node, mode: Mode, remote: Id, result: AuthResult, gate: Gate, r: Id)
    ensures var n' := WithTask(n, mode, AuthTask.HandleCompletion(TaskOf(n, mode), remote, result));
            r in Members(n', gate)
            <==> r in Members(n, gate) || (result.Ok? && r == remote && gate == DialGate(mode))
  {
  }

  lemma SettleAdmits(k: Conn, gate: Gate, x: Id, r: Id)
    requires k.ini.phase.Returned?
    ensures WorldInvariant.Admits(k.(ini := k.ini.(phase := Settled)), gate, x, r)
            <==> WorldInvariant.Admits(k, gate, x, r)
                 || (k.ini.result.Ok? && gate == DialGate(k.mode) && x == k.dialer && r == k.acceptor)
  {
  }

  lemma SettleKeepsGates(cfg: Config, w: World, c: nat)
    requires GateInv(w) && Can(cfg, w, Settle(c))
    ensures GateInv(Do(cfg, w, Settle(c)))
  {
    var w', k := Do(cfg, w, Settle(c)), w.conns[c];
    var n := w.nodes[k.dialer];
    forall gate, x, r
      ensures WorldInvariant.Admits(w'.conns[c], gate, x, r)
              <==> WorldInvariant.Admits(k, gate, x, r)
                   || (k.ini.result.Ok? && gate == DialGate(k.mode) && x == k.dialer && r == k.acceptor)
      ensures r in Members(w'.nodes[k.dialer], gate)
              <==> r in Members(n, gate) || (k.ini.result.Ok? && r == k.acceptor && gate == DialGate(k.mode))
    {
      SettleAdmits(k, gate, x, r);
      SettleMembers(n, k.mode, k.acceptor, k.ini.result, gate, r);
    }
    hide AuthTask.HandleCompletion, GateInv, WorldInvariant.Admits, Members, WithTask, TaskOf;
    GatesAfter(w, w', c, DialGate(k.mode), k.dialer, k.acceptor, k.ini.result.Ok?);
  }

  lemma SettleKeepsFlights(cfg: Config, w: World, c: nat)
    requires FlightInv(w) && Can(cfg, w, Settle(c))
    ensures FlightInv(Do(cfg, w, Settle(c)))
  {
    var w', k := Do(cfg, w, Settle(c)), w.conns[c];
    var t := TaskOf(w.nodes[k.dialer], k.mode);
    assert forall r :: r in AuthTask.HandleCompletion(t, k.acceptor, k.ini.result).pending <==> r in t.pending && r != k.acceptor;
    hide AuthTask.HandleCompletion, FlightInv;
    FlightsAfter(w, w', c, true);
  }

  /** A finished handshake is one its node's task still has in flight. */
  lemma SettlesInFlight(w: World, c: nat)
    requires FlightInv(w) && c < |w.conns| && w.conns[c].dialer in w.nodes && w.conns[c].ini.phase.Returned?
    requires NodeInv(w.conns[c].dialer, w.nodes[w.conns[c].dialer])
    ensures w.conns[c].acceptor in TaskOf(w.nodes[w.conns[c].dialer], w.conns[c].mode).running
  {
    var k := w.conns[c];
    hide SentInv;
    assert InFlight(k, k.mode, k.dialer, k.acceptor);
    assert FlightOf(w.conns, k.mode, k.dialer, k.acceptor);
    assert k.acceptor in TaskOf(w.nodes[k.dialer], k.mode).pending.Keys;
  }

  /** The completion of a handshake in flight keeps what holds of its node. */
  lemma CompletionKeepsNode(x: Id, n: Node, mode: Mode, remote: Id, result: AuthResult)
    requires NodeInv(x, n) && remote in TaskOf(n, mode).running
    ensures NodeInv(x, WithTask(n, mode, AuthTask.HandleCompletion(TaskOf(n, mode), remote, result)))
  {
    hide NodeInv, TaskOf, WithTask, AuthTask.HandleCompletion;
    TaskStepKeepsNode(x, n, mode, Completion(remote, result));
  }

  lemma SettleKeepsNodes(cfg: Config, w: World, c: nat)
    requires FlightInv(w) && w.nodes.Keys == cfg.parties.Keys && Can(cfg, w, Settle(c))
    requires forall x :: x in w.nodes ==> NodeInv(x, w.nodes[x])
    ensures var w' := Do(cfg, w, Settle(c));
            w'.nodes.Keys == cfg.parties.Keys && forall x :: x in w'.nodes ==> NodeInv(x, w'.nodes[x])
  {
    hide NodeInv, FlightInv, TaskOf, WithTask, AuthTask.HandleCompletion;
    var k := w.conns[c];
    SettlesInFlight(w, c);
    CompletionKeepsNode(k.dialer, w.nodes[k.dialer], k.mode, k.acceptor, k.ini.result);
  }

  lemma SettleKeepsInv(cfg: Config, w: World, c: nat)
    requires Inv(cfg, w) && Can(cfg, w, Settle(c))
    ensures Inv(cfg, Do(cfg, w, Settle(c)))
  {
    SettleKeepsConns(cfg, w, c);
    SettleKeepsGates(cfg, w, c);
    SettleKeepsFlights(cfg, w, c);
    SettleKeepsNodes(cfg, w, c);
    assert Do(cfg, w, Settle(c)).ledger == w.ledger;
    hide Do, Can, ConnInv, NodeInv, SigInv, FlightInv, GateInv, MadeInv, DrawnDistinct;
  }

  lemma HaltKeepsConn(cfg: Config, ledger: Ledger, i: nat, k: Conn, mode: Mode, x: Id)
    requires ConnInv(cfg, ledger, i, k)
    ensures ConnInv(cfg, ledger, i, Halted(k, mode, x))
    ensures forall b :: DrawnAt(cfg, Halted(k, mode, x), b) == DrawnAt(cfg, k, b)
    ensures forall m :: SignedOn(cfg, k, m) ==> SignedOn(cfg, Halted(k, mode, x), m)
  {
    hide Encode, StatementBytes, Frame, Written, Hello, Verifies;
  }

  lemma HaltKeepsConns(cfg: Config, w: World, x: Id, mode: Mode)
    requires MadeInv(cfg, w.conns, w.ledger.made) && DrawnDistinct(cfg, w.conns)
    requires forall i :: 0 <= i < |w.conns| ==> ConnInv(cfg, w.ledger, i, w.conns[i])
    ensures var conns' := HaltedConns(w.conns, mode, x);
            && (forall i :: 0 <= i < |conns'| ==> ConnInv(cfg, w.ledger, i, conns'[i]))
            && MadeInv(cfg, conns', w.ledger.made)
            && DrawnDistinct(cfg, conns')
  {
    hide ConnInv, SignedOn, DrawnAt, Halted, HaltedConns;
    forall i | 0 <= i < |w.conns|
      ensures ConnInv(cfg, w.ledger, i, Halted(w.conns[i], mode, x))
      ensures forall b :: DrawnAt(cfg, Halted(w.conns[i], mode, x), b) == DrawnAt(cfg, w.conns[i], b)
      ensures forall m :: SignedOn(cfg, w.conns[i], m) ==> SignedOn(cfg, Halted(w.conns[i], mode, x), m)
    {
      HaltKeepsConn(cfg, w.ledger, i, w.conns[i], mode, x);
    }
  }

  lemma HaltKeepsAdmitted(conns: seq<Conn>, mode: Mode, x: Id, gate: Gate, y: Id, r: Id)
    ensures AdmittedBy(HaltedConns(conns, mode, x), gate, y, r) <==> AdmittedBy(conns, gate, y, r)
  {
    hide HaltedConns;
    var conns' := HaltedConns(conns, mode, x);
    assert forall c :: 0 <= c < |conns| ==>
                         (WorldInvariant.Admits(conns'[c], gate, y, r) <==> WorldInvariant.Admits(conns[c], gate, y, r));
    hide WorldInvariant.Admits;
  }

  lemma HaltKeepsGates(cfg: Config, w: World, x: Id, mode: Mode)
    requires GateInv(w) && Can(cfg, w, Halt(x, mode))
    ensures GateInv(Do(cfg, w, Halt(x, mode)))
  {
    hide HaltedConns, AdmittedBy;
    forall y, gate, r | y in w.nodes
      ensures AdmittedBy(HaltedConns(w.conns, mode, x), gate, y, r) <==> AdmittedBy(w.conns, gate, y, r)
    {
      HaltKeepsAdmitted(w.conns, mode, x, gate, y, r);
    }
  }

  lemma HaltedFlights(conns: seq<Conn>, mode: Mode, x: Id, mode': Mode, y: Id, r: Id)
    requires OneFlight(conns, mode', y, r)
    ensures FlightOf(HaltedConns(conns, mode, x), mode', y, r)
            <==> FlightOf(conns, mode', y, r) && !(mode' == mode && y == x)
    ensures OneFlight(HaltedConns(conns, mode, x), mode', y, r)
  {
    hide HaltedConns;
    var conns' := HaltedConns(conns, mode, x);
    assert forall c :: 0 <= c < |conns| ==>
                         (InFlight(conns'[c], mode', y, r) <==> InFlight(conns[c], mode', y, r) && !(mode' == mode && y == x));
    hide InFlight;
  }

  lemma HaltKeepsFlights(cfg: Config, w: World, x: Id, mode: Mode)
    requires FlightInv(w) && Can(cfg, w, Halt(x, mode))
    ensures FlightInv(Do(cfg, w, Halt(x, mode)))
  {
    hide HaltedConns, FlightOf, OneFlight;
    var w' := Do(cfg, w, Halt(x, mode));
    forall y, mode', r | y in w.nodes
      ensures r in TaskOf(w'.nodes[y], mode').pending <==> FlightOf(w'.conns, mode', y, r)
      ensures OneFlight(w'.conns, mode', y, r)
    {
      HaltedFlights(w.conns, mode, x, mode', y, r);
    }
  }

  /** A task that stops leaves nobody waiting and nothing in flight, and what was recorded stays. */
  lemma HaltKeepsInv(cfg: Config, w: World, x: Id, mode: Mode)
    requires Inv(cfg, w) && Can(cfg, w, Halt(x, mode))
    ensures Inv(cfg, Do(cfg, w, Halt(x, mode)))
  {
    HaltKeepsConns(cfg, w, x, mode);
    HaltKeepsGates(cfg, w, x, mode);
    HaltKeepsFlights(cfg, w, x, mode);
    TaskStepKeepsNode(x, w.nodes[x], mode, Stop);
    hide ConnInv, NodeInv, SigInv, FlightInv, GateInv, MadeInv, DrawnDistinct, WithTask, TaskOf, Apply, HaltedConns;
  }

  lemma ForgeKeepsInv(cfg: Config, w: World, g: Sig)
    requires Inv(cfg, w) && Can(cfg, w, Forge(g))
    ensures Inv(cfg, Do(cfg, w, Forge(g)))
  {
    hide ConnInv, NodeInv, AdmittedBy, FlightOf, OneFlight, Members, TaskOf, MadeInv, DrawnDistinct, StatementBytes;
    var w' := Do(cfg, w, Forge(g));
    if g.key in cfg.honestKeys {
      var s :| Sig(g.key, g.message, s) in w.ledger.sigs;
      assert MadeBySigner(w.ledger, Sig(g.key, g.message, s));
    }
    forall i | 0 <= i < |w.conns|
      ensures ConnInv(cfg, w'.ledger, i, w.conns[i])
    {
      ConnInvMonotone(cfg, w.ledger, w'.ledger, i, w.conns[i]);
    }
  }

  // ---------------------------------------------------------------------------
  // Runs
  // ---------------------------------------------------------------------------

  lemma StepKeepsInv(cfg: Config, w: World, s: Step)
    requires ValidConfig(cfg) && Inv(cfg, w) && Can(cfg, w, s)
    ensures Inv(cfg, Do(cfg, w, s))
  {
    hide Inv, Do, Can;
    match s
    case Spawn(x) => SpawnKeepsInv(cfg, w, x);
    case Ask(x, mode, r, q) => AskKeepsInv(cfg, w, x, mode, r, q);
    case At(c, a) => AtKeepsInv(cfg, w, c, a);
    case Settle(c) => SettleKeepsInv(cfg, w, c);
    case Halt(x, mode) => HaltKeepsInv(cfg, w, x, mode);
    case Open(mode, x, y) => OpenKeepsInv(cfg, w, mode, x, y);
    case Forge(g) => ForgeKeepsInv(cfg, w, g);
  }

  lemma InitInv(cfg: Config)
    ensures Inv(cfg, Init(cfg))
  {
  }

  /** The invariant holds after every run of any interleaving. */
  lemma {:induction false} RunsKeepInv(cfg: Config, steps: seq<Step>)
    requires ValidConfig(cfg) && Run(cfg, steps)
    ensures Inv(cfg, After(cfg, steps))
  {
    if steps == [] {
      InitInv(cfg);
    } else {
      var pre := steps[..|steps| - 1];
      RunsKeepInv(cfg, pre);
      StepKeepsInv(cfg, After(cfg, pre), steps[|steps| - 1]);
    }
  }

  /** A possible step extends a run. */
  lemma RunSnoc(cfg: Config, steps: seq<Step>, s: Step)
    requires Run(cfg, steps) && Can(cfg, After(cfg, steps), s)
    ensures Run(cfg, steps + [s]) && After(cfg, steps + [s]) == Do(cfg, After(cfg, steps), s)
  {
    hide Can, Do;
    assert (steps + [s])[..|steps|] == steps;
  }

  lemma RunsKeepNodes(cfg: Config, steps: seq<Step>)
    requires ValidConfig(cfg) && Run(cfg, steps)
    ensures After(cfg, steps).nodes.Keys == cfg.parties.Keys
  {
    hide Run, After, ConnInv, SigInv, MadeInv, DrawnDistinct, GateInv, FlightInv, NodeInv;
    RunsKeepInv(cfg, steps);
  }
}
