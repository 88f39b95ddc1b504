/** The authenticator tasks as the objects the source updates in place, proved against `AuthTask`. */
module Tasks {
  import opened Types
  import opened AuthTask
  import opened Wire
  import opened Handshake

  /** Consumes the waiters' senders one by one. */
  method SendAll(sent: seq<Reply>, waiters: seq<Req>, remote: Id, result: AuthResult) returns (sent': seq<Reply>)
    ensures sent' == SentTo(sent, waiters, remote, result)
  {
    hide SentTo;
    RepliesOfNone(sent, remote, result);
    sent' := sent;
    var i := 0;
    while i < |waiters|
      invariant i <= |waiters|
      invariant sent' == SentTo(sent, waiters[..i], remote, result)
    {
      assert waiters[..i + 1] == waiters[..i] + [waiters[i]];
      RepliesSnoc(sent, waiters[..i], waiters[i], remote, result);
      sent' := sent' + [Reply(waiters[i], remote, result)];
      i := i + 1;
    }
    assert waiters[..|waiters|] == waiters;
  }

  /** `HashMap::remove`, and the loop over what it returns. */
  method Serve(pending: map<Id, seq<Req>>, sent: seq<Reply>, remote: Id, result: AuthResult)
    returns (pending': map<Id, seq<Req>>, sent': seq<Reply>)
    ensures pending' == Without(pending, remote)
    ensures sent' == SentFor(sent, pending, remote, result)
  {
    hide SentTo;
    pending', sent' := pending - {remote}, sent;
    if remote in pending {
      sent' := SendAll(sent, pending[remote], remote, result);
    }
  }

  /** The map update both tasks make for a completion or a request is the same; only where the cache
      lives differs. `started` and `sent` record what was spawned and what went out on the oneshot channels. */
  class OutgoingAuthTask {
    var allowedRemotes: set<Id>
    var pendingRemotes: map<Id, seq<Req>>
    var tasks: multiset<Id>
    var sent: seq<Reply>
    var stopped: bool
    ghost var started: multiset<Id>

    ghost function State(): Task
      reads this
    {
      Task(allowedRemotes, pendingRemotes, tasks, started, sent, stopped)
    }

    constructor ()
      ensures State() == Fresh
    {
      allowedRemotes, pendingRemotes, tasks, sent, stopped := {}, map[], multiset{}, [], false;
      started := multiset{};
    }

    method HandleRequest(remote: Id, req: Req)
      modifies this
      ensures State() == AuthTask.HandleRequest(old(State()), remote, req)
    {
      if remote in allowedRemotes {
        sent := sent + [Reply(req, remote, Ok(()))];
        return;
      }
      if remote in pendingRemotes {
        pendingRemotes := pendingRemotes[remote := pendingRemotes[remote] + [req]];
      } else {
        tasks := tasks + multiset{remote};
        started := started + multiset{remote};
        pendingRemotes := pendingRemotes[remote := [req]];
      }
    }

    method HandleCompletion(remote: Id, result: AuthResult)
      modifies this
      ensures State() == AuthTask.HandleCompletion(old(State()), remote, result)
    {
      hide Without, SentFor, AuthTask.HandleCompletion;
      ghost var was := State();
      tasks := tasks - multiset{remote};
      if result.Ok? {
        allowedRemotes := allowedRemotes + {remote};
      }
      ghost var t := State();
      assert t == was.(allowed := if result.Ok? then was.allowed + {remote} else was.allowed,
                       running := was.running - multiset{remote});
      pendingRemotes, sent := Serve(pendingRemotes, sent, remote, result);
      assert State() == t.(pending := Without(t.pending, remote), sent := SentFor(t.sent, t.pending, remote, result));
      CompletionIs(was, remote, result, t, State());
    }

    /** One arm of the select. */
    method Receive(arm: Event)
      requires !arm.Inserted? && !stopped
      modifies this
      ensures State() == Apply(old(State()), arm)
    {
      match arm {
        case Request(remote, req) => HandleRequest(remote, req);
        case Completion(remote, result) => HandleCompletion(remote, result);
        case Stop => stopped, pendingRemotes, tasks := true, map[], multiset{};
      }
    }

    /** The select loop. `arms` is what it receives, in order; it leaves the loop at a stop. */
    method Run(arms: seq<Event>)
      requires State() == Fresh && OneWayTrace(arms)
      requires forall i :: 0 <= i < |arms| - 1 ==> !arms[i].Stop?
      modifies this
      ensures State() == Exec(arms)
    {
      var i := 0;
      while i < |arms|
        invariant i <= |arms|
        invariant State() == Exec(arms[..i])
      {
        RunningBeforeArm(arms, i);
        hide Exec, Apply;
        Receive(arms[i]);
        i := i + 1;
      }
      assert arms[..i] == arms;
    }
  }

  /** Before an arm is received nothing has stopped the loop, and receiving it is one step of the trace. */
  lemma RunningBeforeArm(arms: seq<Event>, i: nat)
    requires Trace(arms) && i < |arms| && forall j :: 0 <= j < |arms| - 1 ==> !arms[j].Stop?
    ensures !Exec(arms[..i]).stopped
    ensures Exec(arms[..i + 1]) == Apply(Exec(arms[..i]), arms[i])
  {
    hide Exec, Trace, Apply, Enabled, InFlightBijection, Admitted;
    PrefixTrace(arms, i);
    TaskInvariant(arms[..i]);
    assert arms[..i + 1] == arms[..i] + [arms[i]];
    ExecSnoc(arms[..i], arms[i]);
  }

  lemma RepliesOfNone(sent: seq<Reply>, remote: Id, result: AuthResult)
    ensures SentTo(sent, [], remote, result) == sent
  {
    assert Replies([], remote, result) == [];
  }

  lemma RepliesSnoc(sent: seq<Reply>, qs: seq<Req>, q: Req, remote: Id, result: AuthResult)
    ensures SentTo(sent, qs, remote, result) + [Reply(q, remote, result)] == SentTo(sent, qs + [q], remote, result)
  {
    assert Replies(qs + [q], remote, result) == Replies(qs, remote, result) + [Reply(q, remote, result)];
  }

  /** A set of authenticated peers, shared behind its lock by those that record and those that gate. */
  class PeerSet {
    var members: set<Id>

    constructor ()
      ensures members == {}
    {
      members := {};
    }

    method Insert(remote: Id)
      modifies this
      ensures members == old(members) + {remote}
    {
      members := members + {remote};
    }
  }

  /** The peer set and the set-once endpoint id a mutual node's three parts share. */
  class Shared {
    const allowed: PeerSet
    var localId: Option<Id>

    constructor ()
      ensures fresh(allowed) && allowed.members == {} && localId.None?
    {
      allowed := new PeerSet();
      localId := None;
    }

    /** `OnceLock::set`: only the first value is kept. */
    method SetLocalId(id: Id)
      modifies this
      ensures localId == if old(localId).None? then Some(id) else old(localId)
    {
      if localId.None? {
        localId := Some(id);
      }
    }
  }

  class MutualAuthTask {
    const shared: Shared
    var pending: map<Id, seq<Req>>
    var tasks: multiset<Id>
    var sent: seq<Reply>
    var stopped: bool
    ghost var started: multiset<Id>

    ghost function State(): Task
      reads this, shared.allowed
    {
      Task(shared.allowed.members, pending, tasks, started, sent, stopped)
    }

    constructor (shared: Shared)
      ensures this.shared == shared
      ensures State() == Fresh.(allowed := shared.allowed.members)
    {
      this.shared := shared;
      pending, tasks, sent, stopped := map[], multiset{}, [], false;
      started := multiset{};
    }

    method HandleRequest(remote: Id, req: Req)
      modifies this
      ensures State() == AuthTask.HandleRequest(old(State()), remote, req)
    {
      if remote in shared.allowed.members {
        sent := sent + [Reply(req, remote, Ok(()))];
        return;
      }
      if remote in pending {
        pending := pending[remote := pending[remote] + [req]];
      } else {
        tasks := tasks + multiset{remote};
        started := started + multiset{remote};
        pending := pending[remote := [req]];
      }
    }

    method HandleCompletion(remote: Id, result: AuthResult)
      modifies this, shared.allowed
      ensures State() == AuthTask.HandleCompletion(old(State()), remote, result)
    {
      hide Without, SentFor, AuthTask.HandleCompletion;
      ghost var was := State();
      tasks := tasks - multiset{remote};
      if result.Ok? {
        shared.allowed.Insert(remote);
      }
      ghost var t := State();
      assert t == was.(allowed := if result.Ok? then was.allowed + {remote} else was.allowed,
                       running := was.running - multiset{remote});
      pending, sent := Serve(pending, sent, remote, result);
      assert State() == t.(pending := Without(t.pending, remote), sent := SentFor(t.sent, t.pending, remote, result));
      CompletionIs(was, remote, result, t, State());
    }

    /** One arm of the select, or the acceptor side recording a peer between two arms. */
    method Receive(arm: Event)
      requires !stopped
      modifies this, shared.allowed
      ensures State() == Apply(old(State()), arm)
    {
      match arm {
        case Request(remote, req) => HandleRequest(remote, req);
        case Completion(remote, result) => HandleCompletion(remote, result);
        case Stop => stopped, pending, tasks := true, map[], multiset{};
        case Inserted(remote) => shared.allowed.Insert(remote);
      }
    }

    /** Publishes the endpoint's own id, then runs the loop. */
    method Spawn(endpoint: Id, arms: seq<Event>)
      requires State() == Fresh && Trace(arms)
      requires forall i :: 0 <= i < |arms| - 1 ==> !arms[i].Stop?
      modifies this, shared, shared.allowed
      ensures State() == Exec(arms)
      ensures shared.localId == if old(shared.localId).None? then Some(endpoint) else old(shared.localId)
    {
      shared.SetLocalId(endpoint);
      var i := 0;
      while i < |arms|
        invariant i <= |arms|
        invariant State() == Exec(arms[..i])
        invariant shared.localId == if old(shared.localId).None? then Some(endpoint) else old(shared.localId)
      {
        RunningBeforeArm(arms, i);
        hide Exec, Apply;
        Receive(arms[i]);
        i := i + 1;
      }
      assert arms[..i] == arms;
    }
  }

  // ---------------------------------------------------------------------------
  // Hooks
  // ---------------------------------------------------------------------------

  /** `authenticate`: what the awaiting caller gets once its request has a verdict. */
  function Authenticate(v: Verdict): AuthResult
    requires !v.Waiting?
  {
    match v
    case Answered(Ok(_)) => Ok(())
    case Answered(Err(_)) => Err(Denied)
    case Abandoned => Err(AuthenticatorStopped)
  }

  /** `before_connect`: dials of the auth protocol itself bypass the task, all others wait for a verdict. */
  predicate BeforeConnectAccepts(authAlpn: bool, v: Verdict)
    requires authAlpn || !v.Waiting?
  {
    authAlpn || Authenticate(v).Ok?
  }

  /** `after_handshake`. */
  predicate AfterHandshakeAccepts(authAlpn: bool, allowed: set<Id>, remote: Id) {
    authAlpn || remote in allowed
  }

  /** The hooks of one mode, asked of a connection with the protocol name `alpn`. */
  predicate BeforeConnect(mode: Mode, alpn: Bytes, v: Verdict)
    requires alpn == AuthAlpn(mode) || !v.Waiting?
  {
    BeforeConnectAccepts(alpn == AuthAlpn(mode), v)
  }

  predicate AfterHandshake(mode: Mode, alpn: Bytes, allowed: set<Id>, remote: Id) {
    AfterHandshakeAccepts(alpn == AuthAlpn(mode), allowed, remote)
  }

  /** A dial has passed the hook: of an auth connection at once, of any other when request `q` for it was granted. */
  predicate DialAccepted(mode: Mode, alpn: Bytes, t: Task, q: Req) {
    (alpn == AuthAlpn(mode) || !VerdictSeen(t, q).Waiting?) && BeforeConnect(mode, alpn, VerdictSeen(t, q))
  }

  /** What each hook lets pass, exactly. */
  lemma HookOutcomes(mode: Mode, alpn: Bytes, allowed: set<Id>, remote: Id, t: Task, q: Req)
    ensures DialAccepted(mode, alpn, t, q)
            <==> alpn == (if mode.OneWayAuth? then ALPN else MUTUAL_ALPN) || VerdictSeen(t, q) == Answered(Ok(()))
    ensures AfterHandshake(mode, alpn, allowed, remote)
            <==> alpn == (if mode.OneWayAuth? then ALPN else MUTUAL_ALPN) || remote in allowed
  {
    if VerdictSeen(t, q).Answered? && VerdictSeen(t, q).result.Ok? {
      assert VerdictSeen(t, q).result.value == ();
    }
  }

  /** What the awaiting caller gets. */
  lemma AuthenticateOutcomes(v: Verdict)
    requires !v.Waiting?
    ensures Authenticate(v) == Ok(()) <==> v == Answered(Ok(()))
    ensures Authenticate(v) == Err(AuthenticatorStopped) <==> v.Abandoned?
    ensures Authenticate(v) == Err(Denied) <==> v.Answered? && v.result.Err?
  {
    if v.Answered? && v.result.Ok? {
      assert v.result.value == ();
    }
  }

  /** The hook of one mode does not let the other mode's auth connections pass by their name alone. */
  lemma OtherModesAlpn(mode: Mode, other: Mode, allowed: set<Id>, remote: Id)
    requires mode != other
    ensures AfterHandshake(mode, AuthAlpn(other), allowed, remote) <==> remote in allowed
  {
    AlpnsDiffer();
  }

  /** `es[j]` is the first completion for the remote of the request at `i` after it, and no stop comes before. */
  ghost predicate FirstCompletion(es: seq<Event>, i: nat, j: nat)
    requires i < |es| && es[i].Request?
  {
    && i < j < |es| && es[j].Completion? && es[j].remote == es[i].remote
    && forall k :: i < k < j ==> !es[k].Stop? && !(es[k].Completion? && es[k].remote == es[i].remote)
  }

  lemma {:induction false} FirstVerdictIs(es: seq<Event>, remote: Id, from: nat, j: nat)
    requires from <= j < |es| && es[j].Completion? && es[j].remote == remote
    requires forall k :: from <= k < j ==> !es[k].Stop? && !(es[k].Completion? && es[k].remote == remote)
    ensures FirstVerdict(es, remote, from) == Answered(es[j].result)
    decreases j - from
  {
    if from == j {
    } else {
      FirstVerdictIs(es, remote, from + 1, j);
    }
  }

  /** Exactly when an application dial is accepted, on every trace: its remote was in the set when it was requested, or the
      first handshake with it to complete after that did so with success, before any stop. */
  lemma ApplicationDialExactly(es: seq<Event>, i: nat)
    requires Trace(es) && i < |es| && es[i].Request? && !VerdictOf(es, i).Waiting?
    ensures BeforeConnectAccepts(false, VerdictOf(es, i))
            <==> && Stop !in es[..i]
                 && (Admitted(es[..i], es[i].remote) || exists j: nat :: FirstCompletion(es, i, j) && es[j].result.Ok?)
  {
    hide Trace, Admitted;
    var r := es[i].remote;
    if Stop !in es[..i] && !Admitted(es[..i], r) {
      if FirstVerdict(es, r, i + 1).Answered? {
        var j := FirstVerdictWitness(es, r, i + 1);
        assert FirstCompletion(es, i, j);
      }
      forall j: nat | FirstCompletion(es, i, j)
        ensures FirstVerdict(es, r, i + 1) == Answered(es[j].result)
      {
        FirstVerdictIs(es, r, i + 1, j);
      }
    }
  }

  lemma {:induction false} FirstVerdictWitness(es: seq<Event>, remote: Id, from: nat) returns (j: nat)
    requires from <= |es| && FirstVerdict(es, remote, from).Answered?
    ensures from <= j < |es| && es[j] == Completion(remote, FirstVerdict(es, remote, from).result)
    ensures forall k :: from <= k < j ==> !es[k].Stop? && !(es[k].Completion? && es[k].remote == remote)
    decreases |es| - from
  {
    if es[from].Completion? && es[from].remote == remote {
      j := from;
    } else {
      j := FirstVerdictWitness(es, remote, from + 1);
    }
  }

  /** A dial that `before_connect` accepts goes to a remote that a handshake admitted, and the node's own
      inbound gate admits that remote too, then and at every later time. */
  lemma AcceptedDialIsAdmitted(es: seq<Event>, i: nat)
    requires Trace(es) && i < |es| && es[i].Request? && !VerdictOf(es, i).Waiting?
    ensures BeforeConnectAccepts(false, VerdictOf(es, i)) ==> Admitted(es, es[i].remote)
    ensures BeforeConnectAccepts(false, VerdictOf(es, i)) ==>
              AfterHandshakeAccepts(false, Exec(es).allowed, es[i].remote)
  {
    TaskInvariant(es);
    if BeforeConnectAccepts(false, VerdictOf(es, i)) {
      var r := es[i].remote;
      if Stop !in es[..i] && Admitted(es[..i], r) {
        var j :| 0 <= j < i && Admits(es[..i][j], r);
        assert Admits(es[j], r);
      } else {
        var j := FirstVerdictWitness(es, r, i + 1);
        assert Admits(es[j], r);
      }
    }
  }

  /** A hook that intercepted auth dials too: the handshake for the remote of the request at `i`, which is its own dial,
      completes only when that request has a verdict. */
  predicate Intercepted(es: seq<Event>, i: nat)
    requires i < |es| && es[i].Request?
  {
    forall j :: i < j < |es| && es[j].Completion? && es[j].remote == es[i].remote ==> !VerdictOf(es[..j], i).Waiting?
  }

  lemma InterceptedPrefix(es: seq<Event>, e: Event, i: nat)
    requires i < |es| && es[i].Request? && Intercepted(es + [e], i)
    ensures Intercepted(es, i)
    ensures e.Completion? && e.remote == es[i].remote ==> !VerdictOf(es, i).Waiting?
  {
    hide VerdictOf;
    var es' := es + [e];
    assert es'[..|es|] == es;
    forall j | i < j < |es| && es[j].Completion? && es[j].remote == es[i].remote
      ensures !VerdictOf(es[..j], i).Waiting?
    {
      assert es'[j] == es[j] && es'[..j] == es[..j];
    }
  }

  /** Why auth dials bypass the hook: if the task's own dial for a remote it is waited for had to ask the task, no
      handshake with that remote could ever complete, the dial would never be accepted, and all who wait for the remote
      would wait for as long as the task runs. */
  lemma {:induction false} InterceptedDialDeadlocks(es: seq<Event>, i: nat)
    requires Trace(es) && i < |es| && es[i].Request? && Intercepted(es, i)
    requires es[i].remote in Exec(es[..i]).pending && es[i].remote !in Exec(es[..i]).allowed
    ensures forall j :: i < j < |es| && es[j].Completion? ==> es[j].remote != es[i].remote
    ensures if Stop in es then VerdictOf(es, i).Abandoned? else VerdictOf(es, i).Waiting?
    ensures Stop !in es ==> es[i].remote in Exec(es).pending
    decreases |es|
  {
    hide Exec, VerdictOf, InFlightBijection, Admitted;
    var pre, e := es[..|es| - 1], es[|es| - 1];
    assert es == pre + [e];
    TaskInvariant(pre);
    ExecSnoc(pre, e);
    if i == |es| - 1 {
      assert es[..i] == pre;
      DialWaits(pre, e);
    } else {
      assert es[..i] == pre[..i];
      InterceptedPrefix(pre, e, i);
      InterceptedDialDeadlocks(pre, i);
      VerdictSnoc(pre, e, i);
      StoppedHasNoFlights(Exec(pre));
      StaysPending(Exec(pre), e, es[i].remote);
    }
  }

  lemma DialWaits(es: seq<Event>, e: Event)
    requires Trace(es) && e.Request? && e.remote in Exec(es).pending && e.remote !in Exec(es).allowed
    ensures VerdictOf(es + [e], |es|).Waiting? && Stop !in es + [e]
    ensures e.remote in Exec(es + [e]).pending
  {
    TaskInvariant(es);
    ExecSnoc(es, e);
    assert (es + [e])[..|es|] == es;
    hide Exec;
  }

  lemma StoppedHasNoFlights(t: Task)
    requires InFlightBijection(t)
    ensures t.stopped ==> t.running == multiset{}
  {
  }

  lemma StaysPending(t: Task, e: Event, r: Id)
    ensures r in t.pending && !(e.Completion? && e.remote == r) && !e.Stop? ==> r in Apply(t, e).pending
  {
  }
}
