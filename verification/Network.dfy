/** The whole system: any number of endpoints, honest and not, with any number of auth connections
    between them, all interleaved step by step.

    A connection is an authenticated two-ended byte channel. Honest ends take exactly the steps of the
    handshake code. An end whose endpoint id is not a party's may send any bytes, close with any code, and
    use any signature, but cannot make one verify under an honest key that did not sign those bytes. */
module Network {
  import opened Types
  import opened Wire
  import opened Transcripts
  import opened Handshake
  import opened AuthTask
  import opened Tasks

  // ---------------------------------------------------------------------------
  // State
  // ---------------------------------------------------------------------------

  datatype IniPhase =
    | Dialing          // spawned by the task
    | AwaitChallenge   // greeted
    | AwaitVerdict     // proof written
    | Returned         // the handshake future is done
    | Settled          // the task has handled the completion, or stopped

  /** The dialling side's run. `nonce` counts once it has greeted (mutual mode); `challenge` is the one it
      accepted, when its clock read `clock`; `proof` is the one it wrote. */
  datatype Ini = Ini(phase: IniPhase, greeted: bool, nonce: Nonce, challenge: Option<Message>, clock: u64,
                     proof: Option<Message>, result: AuthResult)

  datatype AccPhase =
    | AwaitHello
    | AwaitProof
    | Judged      // the proof is accepted or refused; recording and closing are still to come
    | Finished

  /** The accepting side's run. `pos` is how much it has read; `proof` is the one it accepted, when its clock
      read `clock`; `recorded` says that the initiator has since been put in the set. */
  datatype Acc = Acc(phase: AccPhase, hello: Option<Message>, challenge: Option<Message>, proof: Option<Message>,
                     clock: u64, recorded: bool, pos: nat)

  /** One auth connection: `up` and `down` are all bytes sent to and by the acceptor; `closed` is the code
      the acceptor closed with; a broken connection delivers nothing more that can be relied on. */
  datatype Conn = Conn(mode: Mode, dialer: Id, acceptor: Id, up: Bytes, down: Bytes, ini: Ini, acc: Acc,
                       closed: Option<nat>, broken: bool)

  /** A statement signed with `key` by the run on connection `conn`. */
  datatype Made = Made(key: Bytes, statement: Statement, conn: nat)

  /** What exists of signatures and nonces: it only grows. */
  datatype Ledger = Ledger(sigs: set<Sig>, made: set<Made>, drawn: set<Nonce>)

  /** One honest endpoint: the mutual set lives in its mutual task, `incoming` is the one-way acceptor's set. */
  datatype Node = Node(local: Option<Id>, mutual: Task, outgoing: Task, incoming: set<Id>)

  datatype World = World(nodes: map<Id, Node>, conns: seq<Conn>, ledger: Ledger)

  /** The honest endpoints, and the keys that only they sign with. */
  datatype Config = Config(parties: map<Id, Party>, honestKeys: set<Bytes>)

  ghost predicate ValidConfig(cfg: Config) {
    forall x :: x in cfg.parties ==> cfg.parties[x].id == x
  }

  function NoNonce(): Nonce {
    seq(32, i => 0)
  }

  function NewConn(mode: Mode, dialer: Id, acceptor: Id): Conn {
    Conn(mode, dialer, acceptor, [], [], Ini(Dialing, false, NoNonce(), None, 0, None, Err(Transport)),
         Acc(AwaitHello, None, None, None, 0, false, 0), None, false)
  }

  const FreshNode := Node(None, Fresh, Fresh, {})

  function Init(cfg: Config): World {
    World(map x | x in cfg.parties :: FreshNode, [], Ledger({}, {}, {}))
  }

  function TaskOf(n: Node, mode: Mode): Task {
    if mode.OneWayAuth? then n.outgoing else n.mutual
  }

  function WithTask(n: Node, mode: Mode, t: Task): Node {
    if mode.OneWayAuth? then n.(outgoing := t) else n.(mutual := t)
  }

  /** The acceptor side records an authenticated peer. */
  function Record(n: Node, mode: Mode, remote: Id): Node {
    if mode.OneWayAuth? then n.(incoming := n.incoming + {remote})
    else n.(mutual := AuthTask.Apply(n.mutual, Inserted(remote)))
  }

  // ---------------------------------------------------------------------------
  // Steps on one connection
  // ---------------------------------------------------------------------------

  datatype Act =
    | Greet(nonce: Nonce)
    | ReceiveHello(nonce: Nonce, now: u64, signed: Result<Bytes>)
    | ReceiveChallenge(now: u64, time: u64, signed: Result<Bytes>)
    | ReceiveProof(now: u64)
    | RecordPeer          // the acceptor puts the initiator in its set
    | Conclude            // the acceptor closes with its verdict
    | Learn               // the initiator sees the acceptor's close
    | InitiatorFails      // a transport error at the initiator
    | AcceptorFails       // a transport error at the acceptor
    | SendUp(bytes: Bytes)
    | SendDown(bytes: Bytes)
    | CloseDown(code: nat)
    | Break

  predicate InitiatorDone(k: Conn) {
    k.ini.phase.Returned? || k.ini.phase.Settled?
  }

  function HelloRead(k: Conn): (r: Read)
    ensures r.Got? ==> KindOf(r.message) == HelloKind(k.mode)
  {
    ReadFrame(HelloKind(k.mode), k.up, MAX_MSG)
  }

  function ProofRead(k: Conn): (r: Read)
    ensures r.Got? ==> KindOf(r.message) == ProofKind(k.mode)
  {
    if k.acc.pos <= |k.up| then ReadFrame(ProofKind(k.mode), k.up[k.acc.pos..], MAX_MSG) else NeedMore
  }

  function ChallengeRead(k: Conn): (r: Read)
    ensures r.Got? ==> KindOf(r.message) == ChallengeKind(k.mode)
  {
    ReadFrame(ChallengeKind(k.mode), k.down, MAX_MSG)
  }

  /** `local` is the acceptor's published id. */
  predicate CanAct(cfg: Config, drawn: set<Nonce>, local: Option<Id>, k: Conn, a: Act) {
    match a
    case Greet(nonce) =>
      k.dialer in cfg.parties && k.ini.phase.Dialing? && (k.mode.MutualAuth? ==> nonce !in drawn)
    case ReceiveHello(nonce, _, _) =>
      k.acceptor in cfg.parties && k.acc.phase.AwaitHello? && nonce !in drawn
      && (!HelloRead(k).NeedMore? || (k.mode.MutualAuth? && local.None?))
    case ReceiveChallenge(_, _, _) =>
      k.dialer in cfg.parties && k.ini.phase.AwaitChallenge? && !ChallengeRead(k).NeedMore?
    case ReceiveProof(_) =>
      k.acceptor in cfg.parties && k.acc.phase.AwaitProof? && k.acc.challenge.Some?
      && KindOf(k.acc.challenge.value) == ChallengeKind(k.mode) && !ProofRead(k).NeedMore?
    case RecordPeer =>
      k.acceptor in cfg.parties && k.acc.phase.Judged? && k.acc.proof.Some? && !k.acc.recorded
    case Conclude =>
      k.acceptor in cfg.parties && k.acc.phase.Judged? && (k.acc.proof.Some? ==> k.acc.recorded)
    case Learn =>
      k.dialer in cfg.parties && k.ini.phase.AwaitVerdict? && k.closed.Some?
    case InitiatorFails =>
      k.dialer in cfg.parties && !InitiatorDone(k) && (k.broken || (k.ini.phase.AwaitChallenge? && k.closed.Some?))
    case AcceptorFails =>
      k.acceptor in cfg.parties && (k.acc.phase.AwaitHello? || k.acc.phase.AwaitProof?)
      && (k.broken || k.dialer !in cfg.parties || InitiatorDone(k))
    case SendUp(_) => k.dialer !in cfg.parties
    case SendDown(_) => k.acceptor !in cfg.parties
    case CloseDown(_) => k.acceptor !in cfg.parties && k.closed.None?
    case Break => true
  }

  function AcceptorAnswer(cfg: Config, local: Option<Id>, k: Conn, a: Act): (r: Result<Message>)
    requires a.ReceiveHello? && k.acceptor in cfg.parties
    ensures r.Ok? ==> KindOf(r.value) == ChallengeKind(k.mode)
  {
    AnswerHello(k.mode, cfg.parties[k.acceptor], local, ReadResult(HelloRead(k)), a.nonce, a.now, a.signed)
  }

  function AcceptorJudgement(cfg: Config, sigs: set<Sig>, k: Conn, a: Act): Result<Id>
    requires a.ReceiveProof? && k.acceptor in cfg.parties
    requires k.acc.challenge.Some? && KindOf(k.acc.challenge.value) == ChallengeKind(k.mode)
  {
    JudgeProof(k.mode, cfg.parties[k.acceptor], sigs, k.dialer, k.acc.challenge.value, ReadResult(ProofRead(k)), a.now)
  }

  function InitiatorJudgement(cfg: Config, sigs: set<Sig>, k: Conn, a: Act): (r: Result<Message>)
    requires a.ReceiveChallenge? && k.dialer in cfg.parties
    ensures r.Ok? ==> ChallengeRead(k).Got? && r.value == ChallengeRead(k).message
  {
    JudgeChallenge(k.mode, cfg.parties[k.dialer], sigs, k.acceptor, k.ini.nonce, ReadResult(ChallengeRead(k)), a.now)
  }

  function Return(k: Conn, result: AuthResult): Conn {
    k.(ini := k.ini.(phase := Returned, result := result))
  }

  function Finish(k: Conn, code: nat): Conn {
    k.(acc := k.acc.(phase := Finished), closed := Some(code))
  }

  function ActOn(cfg: Config, sigs: set<Sig>, drawn: set<Nonce>, local: Option<Id>, k: Conn, a: Act): Conn
    requires CanAct(cfg, drawn, local, k, a)
  {
    match a
    case Greet(nonce) =>
      k.(up := Written(Hello(k.mode, nonce)), ini := k.ini.(phase := AwaitChallenge, greeted := true, nonce := nonce))
    case ReceiveHello(_, _, _) =>
      var heard := k.(acc := k.acc.(hello := if HelloRead(k).Got? then Some(HelloRead(k).message) else None,
                                    pos := if HelloRead(k).Got? then HelloRead(k).consumed else 0));
      (match AcceptorAnswer(cfg, local, k, a)
       case Err(_) => Finish(heard, CLOSE_DENIED)
       case Ok(challenge) =>
         heard.(down := Written(challenge), acc := heard.acc.(phase := AwaitProof, challenge := Some(challenge))))
    case ReceiveChallenge(now, time, signed) =>
      (match InitiatorJudgement(cfg, sigs, k, a)
       case Err(e) => Return(k, Err(e))
       case Ok(challenge) =>
         var seen := k.(ini := k.ini.(challenge := Some(challenge), clock := now));
         match Prove(k.mode, cfg.parties[k.dialer], time, signed)
         case Err(e) => Return(seen, Err(e))
         case Ok(proof) =>
           seen.(up := k.up + Written(proof), ini := seen.ini.(phase := AwaitVerdict, proof := Some(proof))))
    case ReceiveProof(now) =>
      var r := AcceptorJudgement(cfg, sigs, k, a);
      k.(acc := k.acc.(phase := Judged, clock := now,
                       proof := if r.Ok? && ProofRead(k).Got? then Some(ProofRead(k).message) else None))
    case RecordPeer => k.(acc := k.acc.(recorded := true))
    case Conclude => Finish(k, if k.acc.proof.Some? then CLOSE_ACCEPTED else CLOSE_DENIED)
    case Learn => Return(k, CloseVerdict(k.closed))
    case InitiatorFails => Return(k, Err(Transport))
    case AcceptorFails => Finish(k, CLOSE_DENIED)
    case SendUp(bytes) => k.(up := k.up + bytes)
    case SendDown(bytes) => k.(down := k.down + bytes)
    case CloseDown(code) => k.(closed := Some(code))
    case Break => k.(broken := true)
  }

  /** The statement an act signs, with its signature, if the signer answers. */
  function Signs(cfg: Config, sigs: set<Sig>, drawn: set<Nonce>, local: Option<Id>, k: Conn, a: Act)
    : Option<(Bytes, Statement, Bytes)>
    requires CanAct(cfg, drawn, local, k, a)
  {
    match a
    case ReceiveHello(_, now, signed) =>
      var hello := ReadResult(HelloRead(k));
      if signed.Ok? && AcceptorSigns(k.mode, local, hello)
      then Some((cfg.parties[k.acceptor].mutual.key, AcceptorStatement(hello.value.nonce, local.value, now), signed.value))
      else None
    case ReceiveChallenge(_, time, signed) =>
      var challenge := InitiatorJudgement(cfg, sigs, k, a);
      if signed.Ok? && challenge.Ok?
      then Some((cfg.parties[k.dialer].For(k.mode).key,
                 InitiatorStatement(k.mode, challenge.value.nonce, cfg.parties[k.dialer].id, time), signed.value))
      else None
    case _ => None
  }

  function Draws(k: Conn, a: Act): set<Nonce> {
    if a.ReceiveHello? || (a.Greet? && k.mode.MutualAuth?) then {a.nonce} else {}
  }

  /** The ledger after an act on connection `i`. */
  function Grow(cfg: Config, ledger: Ledger, local: Option<Id>, i: nat, k: Conn, a: Act): Ledger
    requires CanAct(cfg, ledger.drawn, local, k, a)
  {
    var signed := Signs(cfg, ledger.sigs, ledger.drawn, local, k, a);
    var drawn := ledger.drawn + Draws(k, a);
    match signed
    case None => ledger.(drawn := drawn)
    case Some((key, statement, signature)) =>
      Ledger(ledger.sigs + {Sig(key, StatementBytes(statement), signature)}, ledger.made + {Made(key, statement, i)}, drawn)
  }

  // ---------------------------------------------------------------------------
  // Steps of the system
  // ---------------------------------------------------------------------------

  datatype Step =
    | Spawn(node: Id)                                      // publishes the node's id to its acceptor side
    | Ask(node: Id, mode: Mode, remote: Id, req: Req)      // the task receives a request
    | At(conn: nat, act: Act)
    | Settle(conn: nat)                                    // the task joins a finished handshake
    | Halt(node: Id, mode: Mode)                           // the task's loop exits or is aborted
    | Open(mode: Mode, dialer: Id, acceptor: Id)           // an endpoint that is no party dials
    | Forge(sig: Sig)                                      // a signature no honest signer made

  /** Forgeries are limited to keys that are not honest, and to new signatures on what the key signed already. */
  ghost predicate Forgeable(cfg: Config, sigs: set<Sig>, g: Sig) {
    g.key in cfg.honestKeys ==> exists s :: Sig(g.key, g.message, s) in sigs
  }

  function LocalOf(w: World, k: Conn): Option<Id> {
    if k.acceptor in w.nodes then w.nodes[k.acceptor].local else None
  }

  /** A stopped task drops its handshakes: their connections break, and nobody learns how they would have ended. */
  function Halted(k: Conn, mode: Mode, x: Id): Conn {
    if k.mode == mode && k.dialer == x && !k.ini.phase.Settled?
    then k.(ini := k.ini.(phase := Settled, result := Err(AuthenticatorStopped)), broken := true)
    else k
  }

  function HaltedConns(conns: seq<Conn>, mode: Mode, x: Id): (conns': seq<Conn>)
    ensures |conns'| == |conns|
    ensures forall i :: 0 <= i < |conns| ==> conns'[i] == Halted(conns[i], mode, x)
  {
    seq(|conns|, i requires 0 <= i < |conns| => Halted(conns[i], mode, x))
  }

  /** The set that the inbound gate of one mode reads. */
  function GateSet(n: Node, mode: Mode): set<Id> {
    if mode.OneWayAuth? then n.incoming else n.mutual.allowed
  }

  /** Auth connections are asked of the hooks too: the task's own dial before it is made, when it has no verdict to show,
      and the connection at the acceptor before its greeting is read. */
  predicate HooksPass(w: World, k: Conn, a: Act) {
    && (a.Greet? ==> BeforeConnect(k.mode, AuthAlpn(k.mode), Waiting))
    && (a.ReceiveHello? && k.acceptor in w.nodes ==>
          AfterHandshake(k.mode, AuthAlpn(k.mode), GateSet(w.nodes[k.acceptor], k.mode), k.dialer))
  }

  ghost predicate Can(cfg: Config, w: World, s: Step) {
    match s
    case Spawn(x) => x in w.nodes
    case Ask(x, _, _, _) => x in w.nodes
    case At(c, a) =>
      c < |w.conns| && CanAct(cfg, w.ledger.drawn, LocalOf(w, w.conns[c]), w.conns[c], a) && HooksPass(w, w.conns[c], a)
    case Settle(c) => c < |w.conns| && w.conns[c].dialer in w.nodes && w.conns[c].ini.phase.Returned?
    case Halt(x, mode) => x in w.nodes && !TaskOf(w.nodes[x], mode).stopped
    case Open(_, x, _) => x !in cfg.parties
    case Forge(g) => Forgeable(cfg, w.ledger.sigs, g)
  }

  function Do(cfg: Config, w: World, s: Step): World
    requires Can(cfg, w, s)
  {
    match s
    case Spawn(x) =>
      w.(nodes := w.nodes[x := w.nodes[x].(local := if w.nodes[x].local.None? then Some(x) else w.nodes[x].local)])
    case Ask(x, mode, r, q) =>
      var t := TaskOf(w.nodes[x], mode);
      var t' := Apply(t, Request(r, q));
      w.(nodes := w.nodes[x := WithTask(w.nodes[x], mode, t')],
         conns := if t'.running == t.running then w.conns else w.conns + [NewConn(mode, x, r)])
    case At(c, a) =>
      var k := w.conns[c];
      var local := LocalOf(w, k);
      var k' := ActOn(cfg, w.ledger.sigs, w.ledger.drawn, local, k, a);
      World(if k'.acc.recorded && !k.acc.recorded && k.acceptor in w.nodes
            then w.nodes[k.acceptor := Record(w.nodes[k.acceptor], k.mode, k.dialer)]
            else w.nodes,
            w.conns[c := k'],
            Grow(cfg, w.ledger, local, c, k, a))
    case Settle(c) =>
      var k := w.conns[c];
      var n := w.nodes[k.dialer];
      w.(nodes := w.nodes[k.dialer := WithTask(n, k.mode, AuthTask.HandleCompletion(TaskOf(n, k.mode), k.acceptor, k.ini.result))],
         conns := w.conns[c := k.(ini := k.ini.(phase := Settled))])
    case Halt(x, mode) =>
      w.(nodes := w.nodes[x := WithTask(w.nodes[x], mode, Apply(TaskOf(w.nodes[x], mode), Stop))],
         conns := HaltedConns(w.conns, mode, x))
    case Open(mode, x, y) => w.(conns := w.conns + [NewConn(mode, x, y)])
    case Forge(g) => w.(ledger := w.ledger.(sigs := w.ledger.sigs + {g}))
  }

  /** The world after a run of steps, each of which is possible when it is taken. */
  ghost predicate Run(cfg: Config, steps: seq<Step>)
    decreases |steps|, 0
  {
    steps == [] || (Run(cfg, steps[..|steps| - 1]) && Can(cfg, After(cfg, steps[..|steps| - 1]), steps[|steps| - 1]))
  }

  ghost function After(cfg: Config, steps: seq<Step>): World
    requires Run(cfg, steps)
    decreases |steps|, 1
  {
    if steps == [] then Init(cfg) else Do(cfg, After(cfg, steps[..|steps| - 1]), steps[|steps| - 1])
  }
}
