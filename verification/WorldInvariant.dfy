/** What the whole system keeps on every run: the global invariant behind the agreement theorems. */
module WorldInvariant {
  import opened Types
  import opened Wire
  import opened Transcripts
  import opened Handshake
  import opened AuthTask
  import opened Network
  import opened ConnInvariant

  // ---------------------------------------------------------------------------
  // Signatures and nonces
  // ---------------------------------------------------------------------------

  ghost predicate MadeBySigner(ledger: Ledger, g: Sig) {
    exists m :: m in ledger.made && m.key == g.key && StatementBytes(m.statement) == g.message
  }

  /** Whatever verifies under an honest key was signed by an honest run. */
  ghost predicate SigInv(cfg: Config, ledger: Ledger) {
    forall g :: g in ledger.sigs && g.key in cfg.honestKeys ==> MadeBySigner(ledger, g)
  }

  function NonceOf(m: Option<Message>): Option<Nonce> {
    match m
    case Some(ServerChallenge(_, n, _)) => Some(n)
    case Some(MutualHello(_, n)) => Some(n)
    case Some(MutualChallenge(_, n, _, _, _)) => Some(n)
    case _ => None
  }

  /** The run that signs a statement: in the statement's mode and role, at the endpoint it names and with that
      endpoint's key, for the nonce that run was sent. */
  ghost predicate SignedOn(cfg: Config, k: Conn, m: Made) {
    match m.statement
    case OneWay(n, id, _) =>
      && k.mode.OneWayAuth? && k.dialer == id && id in cfg.parties && cfg.parties[id].oneWay.key == m.key
      && NonceOf(k.ini.challenge) == Some(n)
    case Mutual(role, n, id, _) =>
      && k.mode.MutualAuth? && id in cfg.parties && cfg.parties[id].mutual.key == m.key
      && ((role == ROLE_INITIATOR && k.dialer == id && NonceOf(k.ini.challenge) == Some(n))
          || (role == ROLE_ACCEPTOR && k.acceptor == id && NonceOf(k.acc.hello) == Some(n)))
  }

  ghost predicate MadeInv(cfg: Config, conns: seq<Conn>, made: set<Made>) {
    forall m :: m in made ==> m.conn < |conns| && SignedOn(cfg, conns[m.conn], m)
  }

  /** The nonce an honest end of a connection drew, if it has. */
  function DrawnAt(cfg: Config, k: Conn, dialling: bool): Option<Nonce> {
    if dialling then
      if k.dialer in cfg.parties && k.mode.MutualAuth? && k.ini.greeted then Some(k.ini.nonce) else None
    else
      if k.acceptor in cfg.parties then NonceOf(k.acc.challenge) else None
  }

  ghost predicate DrawnDistinct(cfg: Config, conns: seq<Conn>) {
    forall i, j, b, b' | 0 <= i < |conns| && 0 <= j < |conns| ::
      DrawnAt(cfg, conns[i], b).Some? && DrawnAt(cfg, conns[i], b) == DrawnAt(cfg, conns[j], b') ==> i == j && b == b'
  }

  // ---------------------------------------------------------------------------
  // Peer sets and handshakes in flight
  // ---------------------------------------------------------------------------

  /** The three peer sets of a node. */
  datatype Gate = MutualGate | IncomingGate | OutgoingGate

  function Members(n: Node, gate: Gate): set<Id> {
    match gate
    case MutualGate => n.mutual.allowed
    case IncomingGate => n.incoming
    case OutgoingGate => n.outgoing.allowed
  }

  function AcceptGate(mode: Mode): Gate { if mode.OneWayAuth? then IncomingGate else MutualGate }
  function DialGate(mode: Mode): Gate { if mode.OneWayAuth? then OutgoingGate else MutualGate }

  /** A connection that puts `r` in a set of `x`: `x` accepted its initiator `r`, or `x` dialled `r`, was
      accepted, and its task has handled the completion. */
  predicate Admits(k: Conn, gate: Gate, x: Id, r: Id) {
    || (k.acc.recorded && gate == AcceptGate(k.mode) && k.acceptor == x && k.dialer == r)
    || (k.ini.phase.Settled? && k.ini.result.Ok? && gate == DialGate(k.mode) && k.dialer == x && k.acceptor == r)
  }

  ghost predicate AdmittedBy(conns: seq<Conn>, gate: Gate, x: Id, r: Id) {
    exists c :: 0 <= c < |conns| && Admits(conns[c], gate, x, r)
  }

  predicate InFlight(k: Conn, mode: Mode, x: Id, r: Id) {
    k.mode == mode && k.dialer == x && k.acceptor == r && !k.ini.phase.Settled?
  }

  ghost predicate FlightOf(conns: seq<Conn>, mode: Mode, x: Id, r: Id) {
    exists c :: 0 <= c < |conns| && InFlight(conns[c], mode, x, r)
  }

  /** The sets hold exactly the admitted peers. */
  ghost predicate GateInv(w: World) {
    forall x, gate, r :: x in w.nodes ==> (r in Members(w.nodes[x], gate) <==> AdmittedBy(w.conns, gate, x, r))
  }

  ghost predicate OneFlight(conns: seq<Conn>, mode: Mode, x: Id, r: Id) {
    forall i, j | 0 <= i < |conns| && 0 <= j < |conns| ::
      InFlight(conns[i], mode, x, r) && InFlight(conns[j], mode, x, r) ==> i == j
  }

  /** A node waits for a remote exactly while one connection it dialled to it, and only one, is unsettled. */
  ghost predicate FlightInv(w: World) {
    && (forall x, mode, r :: x in w.nodes ==>
          (r in TaskOf(w.nodes[x], mode).pending <==> FlightOf(w.conns, mode, x, r)))
    && (forall x, mode, r :: x in w.nodes ==> OneFlight(w.conns, mode, x, r))
  }

  /** Every request answered with success asked for a member of the set. */
  ghost predicate SentInv(t: Task) {
    forall rep :: rep in t.sent && rep.result.Ok? ==> rep.remote in t.allowed
  }

  ghost predicate TaskInv(t: Task) {
    InFlightBijection(t) && SentInv(t)
  }

  ghost predicate NodeInv(x: Id, n: Node) {
    && (n.local.None? || n.local == Some(x))
    && TaskInv(n.mutual)
    && TaskInv(n.outgoing)
  }

  ghost predicate Inv(cfg: Config, w: World) {
    && w.nodes.Keys == cfg.parties.Keys
    && (forall x :: x in w.nodes ==> NodeInv(x, w.nodes[x]))
    && (forall i :: 0 <= i < |w.conns| ==> ConnInv(cfg, w.ledger, i, w.conns[i]))
    && SigInv(cfg, w.ledger)
    && MadeInv(cfg, w.conns, w.ledger.made)
    && DrawnDistinct(cfg, w.conns)
    && GateInv(w)
    && FlightInv(w)
  }

  // ---------------------------------------------------------------------------
  // Sequences of connections
  // ---------------------------------------------------------------------------

  lemma AdmittedUpdate(conns: seq<Conn>, c: nat, k': Conn, gate: Gate, x: Id, r: Id)
    requires c < |conns| && (Admits(conns[c], gate, x, r) ==> Admits(k', gate, x, r))
    ensures AdmittedBy(conns[c := k'], gate, x, r) <==> AdmittedBy(conns, gate, x, r) || Admits(k', gate, x, r)
  {
    hide Admits;
    var conns' := conns[c := k'];
    if AdmittedBy(conns, gate, x, r) {
      var d :| 0 <= d < |conns| && Admits(conns[d], gate, x, r);
      assert Admits(conns'[d], gate, x, r);
    }
    if Admits(k', gate, x, r) {
      assert Admits(conns'[c], gate, x, r);
    }
    if AdmittedBy(conns', gate, x, r) && !Admits(k', gate, x, r) {
      var d :| 0 <= d < |conns'| && Admits(conns'[d], gate, x, r);
      assert Admits(conns[d], gate, x, r);
    }
  }

  lemma AdmittedAppend(conns: seq<Conn>, mode: Mode, dialer: Id, acceptor: Id, gate: Gate, x: Id, r: Id)
    ensures AdmittedBy(conns + [NewConn(mode, dialer, acceptor)], gate, x, r) <==> AdmittedBy(conns, gate, x, r)
  {
    var conns' := conns + [NewConn(mode, dialer, acceptor)];
    if AdmittedBy(conns, gate, x, r) {
      var d :| 0 <= d < |conns| && Admits(conns[d], gate, x, r);
      assert Admits(conns'[d], gate, x, r);
    }
    if AdmittedBy(conns', gate, x, r) {
      var d :| 0 <= d < |conns'| && Admits(conns'[d], gate, x, r);
      assert d < |conns| && Admits(conns[d], gate, x, r);
    }
  }

  lemma FlightAppend(conns: seq<Conn>, k: Conn, mode: Mode, x: Id, r: Id)
    ensures FlightOf(conns + [k], mode, x, r) <==> FlightOf(conns, mode, x, r) || InFlight(k, mode, x, r)
    ensures OneFlight(conns, mode, x, r) && !(FlightOf(conns, mode, x, r) && InFlight(k, mode, x, r)) ==>
              OneFlight(conns + [k], mode, x, r)
  {
    hide InFlight;
    var conns' := conns + [k];
    if FlightOf(conns, mode, x, r) {
      var d :| 0 <= d < |conns| && InFlight(conns[d], mode, x, r);
      assert InFlight(conns'[d], mode, x, r);
    }
    if InFlight(k, mode, x, r) {
      assert InFlight(conns'[|conns|], mode, x, r);
    }
    if FlightOf(conns', mode, x, r) && !InFlight(k, mode, x, r) {
      var d :| 0 <= d < |conns'| && InFlight(conns'[d], mode, x, r);
      assert InFlight(conns[d], mode, x, r);
    }
  }

  /** An update that keeps a connection's place in flight, or takes the only one for its pair out of it. */
  lemma FlightUpdate(conns: seq<Conn>, c: nat, k': Conn, mode: Mode, x: Id, r: Id)
    requires c < |conns|
    requires InFlight(k', mode, x, r) ==> InFlight(conns[c], mode, x, r)
    requires OneFlight(conns, mode, x, r)
    ensures FlightOf(conns[c := k'], mode, x, r)
            <==> FlightOf(conns, mode, x, r) && (InFlight(conns[c], mode, x, r) ==> InFlight(k', mode, x, r))
    ensures OneFlight(conns[c := k'], mode, x, r)
  {
    hide InFlight;
    var conns' := conns[c := k'];
    if FlightOf(conns, mode, x, r) {
      var d :| 0 <= d < |conns| && InFlight(conns[d], mode, x, r);
      assert d != c ==> InFlight(conns'[d], mode, x, r);
      assert d == c && InFlight(k', mode, x, r) ==> InFlight(conns'[c], mode, x, r);
    }
    if FlightOf(conns', mode, x, r) {
      var d :| 0 <= d < |conns'| && InFlight(conns'[d], mode, x, r);
      assert InFlight(conns[d], mode, x, r);
    }
  }

  // ---------------------------------------------------------------------------
  // Steps on one connection
  // ---------------------------------------------------------------------------

  /** What an act leaves alone and what it can add, seen from the rest of the system. */
  lemma ActFrame(cfg: Config, ledger: Ledger, local: Option<Id>, i: nat, k: Conn, a: Act)
    requires ConnInv(cfg, ledger, i, k) && CanAct(cfg, ledger.drawn, local, k, a)
    ensures var k' := ActOn(cfg, ledger.sigs, ledger.drawn, local, k, a);
            && k'.mode == k.mode && k'.dialer == k.dialer && k'.acceptor == k.acceptor
            && (k'.ini.phase.Settled? <==> k.ini.phase.Settled?)
            && (k.ini.phase.Settled? ==> k'.ini.result == k.ini.result)
            && (k.acc.recorded ==> k'.acc.recorded)
            && (k'.acc.recorded ==> k.acc.recorded || k.acceptor in cfg.parties)
  {
    hide Encode, StatementBytes, Frame, Written, Hello, Verifies, ReadFrame;
  }

  lemma ActKeepsChallenges(cfg: Config, ledger: Ledger, local: Option<Id>, i: nat, k: Conn, a: Act)
    requires ConnInv(cfg, ledger, i, k) && CanAct(cfg, ledger.drawn, local, k, a)
    ensures var k' := ActOn(cfg, ledger.sigs, ledger.drawn, local, k, a);
            && (k.dialer in cfg.parties && k.ini.challenge.Some? ==> k'.ini.challenge == k.ini.challenge)
            && (k.acceptor in cfg.parties && k.acc.hello.Some? ==> k'.acc.hello == k.acc.hello)
  {
    hide Encode, StatementBytes, Frame, Written, Hello, Verifies, ReadFrame;
  }

  lemma ActKeepsSigned(cfg: Config, ledger: Ledger, local: Option<Id>, i: nat, k: Conn, a: Act, m: Made)
    requires ConnInv(cfg, ledger, i, k) && CanAct(cfg, ledger.drawn, local, k, a) && SignedOn(cfg, k, m)
    ensures SignedOn(cfg, ActOn(cfg, ledger.sigs, ledger.drawn, local, k, a), m)
  {
    ActFrame(cfg, ledger, local, i, k, a);
    ActKeepsChallenges(cfg, ledger, local, i, k, a);
    hide ActOn, CanAct, ConnInv;
  }

  lemma InitiatorSigns(cfg: Config, ledger: Ledger, local: Option<Id>, i: nat, k: Conn, a: Act)
    requires ConnInv(cfg, ledger, i, k) && CanAct(cfg, ledger.drawn, local, k, a) && ValidConfig(cfg)
    requires a.ReceiveChallenge?
    ensures var k' := ActOn(cfg, ledger.sigs, ledger.drawn, local, k, a);
            forall m :: m in Grow(cfg, ledger, local, i, k, a).made && m !in ledger.made ==>
                          m.conn == i && SignedOn(cfg, k', m)
  {
    hide Encode, StatementBytes, Frame, Written, Hello, Verifies, ReadFrame, InTime;
  }

  lemma AcceptorSignsFor(cfg: Config, ledger: Ledger, local: Option<Id>, i: nat, k: Conn, a: Act)
    requires ConnInv(cfg, ledger, i, k) && CanAct(cfg, ledger.drawn, local, k, a) && ValidConfig(cfg)
    requires a.ReceiveHello? && (local.None? || local == Some(k.acceptor))
    ensures var k' := ActOn(cfg, ledger.sigs, ledger.drawn, local, k, a);
            forall m :: m in Grow(cfg, ledger, local, i, k, a).made && m !in ledger.made ==>
                          m.conn == i && SignedOn(cfg, k', m)
  {
    hide Encode, StatementBytes, Frame, Written, Hello, Verifies, ReadFrame, InTime;
  }

  lemma ActKeepsMade(cfg: Config, ledger: Ledger, local: Option<Id>, i: nat, k: Conn, a: Act)
    requires ConnInv(cfg, ledger, i, k) && CanAct(cfg, ledger.drawn, local, k, a) && ValidConfig(cfg)
    requires local.None? || local == Some(k.acceptor)
    ensures var k' := ActOn(cfg, ledger.sigs, ledger.drawn, local, k, a);
            forall m :: m in Grow(cfg, ledger, local, i, k, a).made && m !in ledger.made ==>
                          m.conn == i && SignedOn(cfg, k', m)
  {
    if a.ReceiveHello? {
      AcceptorSignsFor(cfg, ledger, local, i, k, a);
    } else if a.ReceiveChallenge? {
      InitiatorSigns(cfg, ledger, local, i, k, a);
    } else {
      assert Grow(cfg, ledger, local, i, k, a).made == ledger.made;
    }
    hide Grow, ActOn, CanAct, ConnInv, SignedOn;
  }

  lemma ActKeepsSigs(cfg: Config, ledger: Ledger, local: Option<Id>, i: nat, k: Conn, a: Act)
    requires CanAct(cfg, ledger.drawn, local, k, a) && SigInv(cfg, ledger)
    ensures SigInv(cfg, Grow(cfg, ledger, local, i, k, a))
  {
    hide CanAct, StatementBytes, Signs;
    var ledger' := Grow(cfg, ledger, local, i, k, a);
    forall g | g in ledger'.sigs && g.key in cfg.honestKeys
      ensures MadeBySigner(ledger', g)
    {
      if g in ledger.sigs {
        var m :| m in ledger.made && m.key == g.key && StatementBytes(m.statement) == g.message;
        assert m in ledger'.made;
      } else {
        var (key, statement, _) := Signs(cfg, ledger.sigs, ledger.drawn, local, k, a).value;
        assert Made(key, statement, i) in ledger'.made;
      }
    }
  }

  /** An act draws at most one nonce, for one end of its connection, and a new one. */
  lemma ActDraws(cfg: Config, ledger: Ledger, local: Option<Id>, i: nat, k: Conn, a: Act, b: bool)
    requires ConnInv(cfg, ledger, i, k) && CanAct(cfg, ledger.drawn, local, k, a)
    ensures var k' := ActOn(cfg, ledger.sigs, ledger.drawn, local, k, a);
            || DrawnAt(cfg, k', b) == DrawnAt(cfg, k, b)
            || (DrawnAt(cfg, k', b).Some? && DrawnAt(cfg, k', b).value !in ledger.drawn && a.Greet? == b)
    ensures DrawnAt(cfg, k, b).Some? ==> DrawnAt(cfg, k, b).value in ledger.drawn
    ensures a.Greet? != b ==>
              DrawnAt(cfg, ActOn(cfg, ledger.sigs, ledger.drawn, local, k, a), b) == DrawnAt(cfg, k, b)
  {
    hide Encode, StatementBytes, Frame, Written, Hello, Verifies, ReadFrame, InTime;
  }
}
