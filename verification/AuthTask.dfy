/** The authenticator task as a state machine, and the per-request specification it meets on every trace.

    One definition serves both modes: a one-way trace has no `Inserted` event, because nobody but the
    task itself adds to its cache; in mutual mode the acceptor side inserts concurrently. */
module AuthTask {
  import opened Types

  type Req = nat

  /** A value sent on the oneshot channel of request `req`, which asked for `remote`. */
  datatype Reply = Reply(req: Req, remote: Id, result: AuthResult)

  datatype Task = Task(
    allowed: set<Id>,
    pending: map<Id, seq<Req>>,
    running: multiset<Id>,   // the JoinSet: remotes of the handshakes in flight
    started: multiset<Id>,   // every handshake ever spawned
    sent: seq<Reply>,        // every reply ever sent, in order
    stopped: bool)

  const Fresh := Task({}, map[], multiset{}, multiset{}, [], false)

  function Replies(qs: seq<Req>, remote: Id, result: AuthResult): (rs: seq<Reply>)
    ensures |rs| == |qs|
    ensures forall i :: 0 <= i < |qs| ==> rs[i] == Reply(qs[i], remote, result)
  {
    seq(|qs|, i requires 0 <= i < |qs| => Reply(qs[i], remote, result))
  }

  function SentTo(sent: seq<Reply>, qs: seq<Req>, remote: Id, result: AuthResult): seq<Reply> {
    sent + Replies(qs, remote, result)
  }

  function PendingOf(t: Task, remote: Id): seq<Req> {
    if remote in t.pending then t.pending[remote] else []
  }

  function HandleRequest(t: Task, remote: Id, req: Req): Task {
    if remote in t.allowed then
      t.(sent := t.sent + [Reply(req, remote, Ok(()))])
    else if remote in t.pending then
      t.(pending := t.pending[remote := t.pending[remote] + [req]])
    else
      t.(pending := t.pending[remote := [req]],
         running := t.running + multiset{remote},
         started := t.started + multiset{remote})
  }

  function HandleCompletion(t: Task, remote: Id, result: AuthResult): Task {
    t.(allowed := if result.Ok? then t.allowed + {remote} else t.allowed,
       pending := t.pending - {remote},
       running := t.running - multiset{remote},
       sent := t.sent + Replies(PendingOf(t, remote), remote, result))
  }

  function Without(pending: map<Id, seq<Req>>, remote: Id): map<Id, seq<Req>> {
    pending - {remote}
  }

  /** What has been sent once the waiters for `remote` have got their result. */
  function SentFor(sent: seq<Reply>, pending: map<Id, seq<Req>>, remote: Id, result: AuthResult): seq<Reply> {
    if remote in pending then SentTo(sent, pending[remote], remote, result) else sent
  }

  /** What both tasks do for a completion, in two parts: the set and the join set first, then the waiters. */
  lemma CompletionIs(t: Task, remote: Id, result: AuthResult, t1: Task, t2: Task)
    requires t1 == t.(allowed := if result.Ok? then t.allowed + {remote} else t.allowed, running := t.running - multiset{remote})
    requires t2 == t1.(pending := Without(t1.pending, remote), sent := SentFor(t1.sent, t1.pending, remote, result))
    ensures t2 == HandleCompletion(t, remote, result)
  {
    if remote !in t.pending {
      assert Replies([], remote, result) == [];
    }
  }

  datatype Event =
    | Request(remote: Id, req: Req)
    | Completion(remote: Id, result: AuthResult)
    | Inserted(remote: Id)   // the acceptor side of a mutual node records a peer
    | Stop                   // the loop exits or the task is aborted: waiters and handshakes are dropped

  predicate Enabled(t: Task, e: Event) {
    match e
    case Request(_, _) => true
    case Inserted(_) => true
    case Completion(r, _) => r in t.running
    case Stop => !t.stopped
  }

  function Apply(t: Task, e: Event): Task {
    match e
    case Request(r, q) => if t.stopped then t else HandleRequest(t, r, q)
    case Completion(r, res) => HandleCompletion(t, r, res)
    case Inserted(r) => t.(allowed := t.allowed + {r})
    case Stop => t.(pending := map[], running := multiset{}, stopped := true)
  }

  function Exec(es: seq<Event>): Task {
    if es == [] then Fresh else Apply(Exec(es[..|es| - 1]), es[|es| - 1])
  }

  /** Any interleaving in which only handshakes in flight complete. */
  predicate Trace(es: seq<Event>) {
    es != [] ==> Trace(es[..|es| - 1]) && Enabled(Exec(es[..|es| - 1]), es[|es| - 1])
  }

  predicate OneWayTrace(es: seq<Event>) {
    Trace(es) && forall i :: 0 <= i < |es| ==> !es[i].Inserted?
  }

  lemma ExecSnoc(es: seq<Event>, e: Event)
    ensures Exec(es + [e]) == Apply(Exec(es), e)
    ensures Trace(es + [e]) <==> Trace(es) && Enabled(Exec(es), e)
  {
    assert (es + [e])[..|es|] == es;
  }

  lemma {:induction false} PrefixTrace(es: seq<Event>, n: nat)
    requires Trace(es) && n <= |es|
    ensures Trace(es[..n])
    decreases |es|
  {
    if n < |es| {
      PrefixTrace(es[..|es| - 1], n);
      assert es[..|es| - 1][..n] == es[..n];
    } else {
      assert es[..n] == es;
    }
  }

  // ---------------------------------------------------------------------------
  // The specification of one request, read off the trace alone
  // ---------------------------------------------------------------------------

  predicate Admits(e: Event, remote: Id) {
    !e.Stop? && e.remote == remote && (e.Inserted? || (e.Completion? && e.result.Ok?))
  }

  predicate Admitted(es: seq<Event>, remote: Id) {
    exists j :: 0 <= j < |es| && Admits(es[j], remote)
  }

  datatype Verdict = Waiting | Answered(result: AuthResult) | Abandoned

  /** The first completion for `remote` from position `from` on, unless the task stops before it. */
  function FirstVerdict(es: seq<Event>, remote: Id, from: nat): Verdict
    requires from <= |es|
    decreases |es| - from
  {
    if from == |es| then Waiting
    else if es[from].Completion? && es[from].remote == remote then Answered(es[from].result)
    else if es[from].Stop? then Abandoned
    else FirstVerdict(es, remote, from + 1)
  }

  /** What the request at position `i` gets. */
  function VerdictOf(es: seq<Event>, i: nat): Verdict
    requires i < |es| && es[i].Request?
  {
    if Stop in es[..i] then Abandoned
    else if Admitted(es[..i], es[i].remote) then Answered(Ok(()))
    else FirstVerdict(es, es[i].remote, i + 1)
  }

  /** How one more event changes the verdict on a request for `remote`. */
  function NextVerdict(v: Verdict, remote: Id, e: Event): Verdict {
    if !v.Waiting? then v
    else if e.Completion? && e.remote == remote then Answered(e.result)
    else if e.Stop? then Abandoned
    else Waiting
  }

  lemma {:induction false} FirstVerdictSnoc(es: seq<Event>, e: Event, remote: Id, from: nat)
    requires from <= |es|
    ensures FirstVerdict(es + [e], remote, from) == NextVerdict(FirstVerdict(es, remote, from), remote, e)
    decreases |es| - from
  {
    if from < |es| {
      assert (es + [e])[from] == es[from];
      FirstVerdictSnoc(es, e, remote, from + 1);
    } else {
      assert FirstVerdict(es + [e], remote, from + 1).Waiting?;
    }
  }

  lemma VerdictSnoc(es: seq<Event>, e: Event, i: nat)
    requires i < |es| && es[i].Request?
    ensures VerdictOf(es + [e], i) == NextVerdict(VerdictOf(es, i), es[i].remote, e)
  {
    assert (es + [e])[..i] == es[..i];
    FirstVerdictSnoc(es, e, es[i].remote, i + 1);
  }

  // ---------------------------------------------------------------------------
  // What every reachable task state keeps
  // ---------------------------------------------------------------------------

  /** The waiting keys are exactly the remotes of the handshakes in flight, one each, and nobody waits on an empty list. */
  ghost predicate InFlightBijection(t: Task) {
    && t.running == multiset(t.pending.Keys)
    && (forall r :: r in t.pending ==> t.pending[r] != [])
    && (t.stopped ==> t.pending == map[])
  }

  lemma RequestKeepsBijection(t: Task, r: Id, q: Req)
    requires InFlightBijection(t) && !t.stopped
    ensures InFlightBijection(HandleRequest(t, r, q))
  {
    var t' := HandleRequest(t, r, q);
    if r !in t.allowed {
      assert t'.pending.Keys == t.pending.Keys + {r};
    }
  }

  lemma CompletionKeepsBijection(t: Task, r: Id, res: AuthResult)
    requires InFlightBijection(t) && r in t.running
    ensures InFlightBijection(HandleCompletion(t, r, res))
  {
    hide Replies;
    var t' := HandleCompletion(t, r, res);
    assert t'.pending.Keys == t.pending.Keys - {r};
  }

  lemma ApplyKeepsBijection(t: Task, e: Event)
    requires InFlightBijection(t) && Enabled(t, e)
    ensures InFlightBijection(Apply(t, e))
  {
    hide HandleRequest, HandleCompletion;
    match e
    case Request(r, q) =>
      if !t.stopped {
        RequestKeepsBijection(t, r, q);
      }
    case Completion(r, res) => CompletionKeepsBijection(t, r, res);
    case Inserted(r) =>
    case Stop =>
  }

  lemma ApplyAllowed(t: Task, e: Event, r: Id)
    ensures r in Apply(t, e).allowed <==> r in t.allowed || Admits(e, r)
  {
    hide Replies, PendingOf;
  }

  lemma ApplyStopped(t: Task, e: Event)
    ensures Apply(t, e).stopped <==> t.stopped || e.Stop?
  {
  }

  /** In every reachable state the cache holds exactly the remotes admitted so far. */
  lemma {:induction false} TaskInvariant(es: seq<Event>)
    requires Trace(es)
    ensures InFlightBijection(Exec(es))
    ensures Exec(es).stopped <==> Stop in es
    ensures forall r :: r in Exec(es).allowed <==> Admitted(es, r)
  {
    if es == [] {
    } else {
      var pre, e := es[..|es| - 1], es[|es| - 1];
      assert es == pre + [e];
      TaskInvariant(pre);
      ApplyKeepsBijection(Exec(pre), e);
      hide Apply, InFlightBijection, Admitted, Admits, Enabled;
      forall r
        ensures r in Exec(es).allowed <==> Admitted(es, r)
      {
        AdmittedSnoc(pre, e, r);
        ApplyAllowed(Exec(pre), e, r);
      }
      ApplyStopped(Exec(pre), e);
    }
  }

  lemma AdmittedSnoc(es: seq<Event>, e: Event, r: Id)
    ensures Admitted(es + [e], r) <==> Admitted(es, r) || Admits(e, r)
  {
    var es' := es + [e];
    if Admitted(es, r) {
      var j :| 0 <= j < |es| && Admits(es[j], r);
      assert Admits(es'[j], r);
    }
    if Admits(e, r) {
      assert Admits(es'[|es|], r);
    }
    if Admitted(es', r) && !Admits(e, r) {
      var j :| 0 <= j < |es'| && Admits(es'[j], r);
      assert Admits(es[j], r);
    }
  }

  /** How one event changes the list of waiters for `r`. */
  lemma PendingAfter(t: Task, e: Event, r: Id)
    ensures PendingOf(Apply(t, e), r)
            == if e.Stop? || (e.Completion? && e.remote == r) then []
               else if e.Request? && e.remote == r && !t.stopped && r !in t.allowed then PendingOf(t, r) + [e.req]
               else PendingOf(t, r)
  {
    hide Replies;
  }

  // ---------------------------------------------------------------------------
  // Refinement: every request gets exactly its verdict
  // ---------------------------------------------------------------------------

  /** The results sent to a request, in order. */
  function ResultsFor(sent: seq<Reply>, q: Req): seq<AuthResult> {
    if sent == [] then []
    else
      var before := ResultsFor(sent[..|sent| - 1], q);
      if sent[|sent| - 1].req == q then before + [sent[|sent| - 1].result] else before
  }

  function Repeat(res: AuthResult, n: nat): seq<AuthResult> {
    if n == 0 then [] else Repeat(res, n - 1) + [res]
  }

  function Times(t: Task, r: Id, q: Req): nat {
    multiset(PendingOf(t, r))[q]
  }

  lemma {:induction false} ResultsForConcat(a: seq<Reply>, b: seq<Reply>, q: Req)
    ensures ResultsFor(a + b, q) == ResultsFor(a, q) + ResultsFor(b, q)
  {
    if b == [] {
      assert a + b == a;
    } else {
      var b' := b[..|b| - 1];
      assert (a + b)[..|a + b| - 1] == a + b';
      ResultsForConcat(a, b', q);
    }
  }

  lemma {:induction false} ResultsForReplies(qs: seq<Req>, r: Id, res: AuthResult, q: Req)
    ensures ResultsFor(Replies(qs, r, res), q) == Repeat(res, multiset(qs)[q])
  {
    if qs == [] {
    } else {
      var qs', last := qs[..|qs| - 1], qs[|qs| - 1];
      assert qs == qs' + [last];
      assert Replies(qs, r, res)[..|qs| - 1] == Replies(qs', r, res);
      ResultsForReplies(qs', r, res, q);
    }
  }

  /** The state of request `q` for `remote` in a task state: what was sent to it and where it waits. */
  ghost predicate Stands(t: Task, remote: Id, q: Req, v: Verdict) {
    && ResultsFor(t.sent, q) == ResultsOf(v)
    && (forall r :: Times(t, r, q) == if v.Waiting? && r == remote then 1 else 0)
    && (v.Waiting? ==> !t.stopped)
    && (v.Abandoned? ==> t.stopped)
  }

  ghost predicate Unseen(t: Task, q: Req) {
    ResultsFor(t.sent, q) == [] && forall r :: Times(t, r, q) == 0
  }

  /** An event changes nothing for a request it does not carry, except that a completion serves its waiters. */
  lemma TimesAfter(t: Task, e: Event, r: Id, q: Req)
    requires e.Request? ==> e.req != q
    ensures Times(Apply(t, e), r, q)
            == if e.Stop? || (e.Completion? && e.remote == r) then 0 else Times(t, r, q)
  {
    PendingAfter(t, e, r);
    hide Apply;
  }

  lemma ResultsAfter(t: Task, e: Event, q: Req)
    requires e.Request? ==> e.req != q
    ensures ResultsFor(Apply(t, e).sent, q)
            == if e.Completion? && Times(t, e.remote, q) > 0
               then ResultsFor(t.sent, q) + Repeat(e.result, Times(t, e.remote, q))
               else ResultsFor(t.sent, q)
  {
    match e
    case Request(r, q') =>
      ResultsForConcat(t.sent, [Reply(q', r, Ok(()))], q);
      assert ResultsFor([Reply(q', r, Ok(()))], q) == [];
    case Completion(r, res) =>
      ResultsForConcat(t.sent, Replies(PendingOf(t, r), r, res), q);
      ResultsForReplies(PendingOf(t, r), r, res, q);
    case Inserted(r) =>
    case Stop =>
  }

  function ResultsOf(v: Verdict): seq<AuthResult> {
    if v.Answered? then [v.result] else []
  }

  lemma ResultsStep(t: Task, e: Event, remote: Id, q: Req, v: Verdict)
    requires e.Request? ==> e.req != q
    requires ResultsFor(t.sent, q) == ResultsOf(v)
    requires e.Completion? ==> Times(t, e.remote, q) == if v.Waiting? && e.remote == remote then 1 else 0
    ensures ResultsFor(Apply(t, e).sent, q) == ResultsOf(NextVerdict(v, remote, e))
  {
    ResultsAfter(t, e, q);
    hide Apply, ResultsFor, Times;
    if e.Completion? {
      assert Repeat(e.result, 0) + [e.result] == [e.result];
    }
  }

  lemma StandsStep(t: Task, e: Event, remote: Id, q: Req, v: Verdict)
    requires Stands(t, remote, q, v) && (t.stopped ==> t.pending == map[])
    requires e.Request? ==> e.req != q
    ensures Stands(Apply(t, e), remote, q, NextVerdict(v, remote, e))
  {
    ResultsStep(t, e, remote, q, v);
    ApplyStopped(t, e);
    hide Apply, Times, ResultsFor, PendingOf, ResultsOf;
    forall r
      ensures Times(Apply(t, e), r, q) == if NextVerdict(v, remote, e).Waiting? && r == remote then 1 else 0
    {
      TimesAfter(t, e, r, q);
    }
  }

  lemma ResultsAtArrival(t: Task, remote: Id, q: Req)
    requires ResultsFor(t.sent, q) == []
    ensures ResultsFor(Apply(t, Request(remote, q)).sent, q) == if !t.stopped && remote in t.allowed then [Ok(())] else []
  {
    ResultsForConcat(t.sent, [Reply(q, remote, Ok(()))], q);
    assert ResultsFor([Reply(q, remote, Ok(()))], q) == [Ok(())];
  }

  lemma TimesAtArrival(t: Task, remote: Id, q: Req, r: Id)
    requires Times(t, r, q) == 0
    ensures Times(Apply(t, Request(remote, q)), r, q)
            == if r == remote && !t.stopped && remote !in t.allowed then 1 else 0
  {
    hide Apply, PendingOf;
    PendingAfter(t, Request(remote, q), r);
  }

  lemma StandsAtArrival(t: Task, remote: Id, q: Req)
    requires Unseen(t, q)
    ensures Stands(Apply(t, Request(remote, q)), remote, q,
                   if t.stopped then Abandoned else if remote in t.allowed then Answered(Ok(())) else Waiting)
  {
    hide Apply, Times, ResultsFor;
    ApplyStopped(t, Request(remote, q));
    ResultsAtArrival(t, remote, q);
    forall r
      ensures Times(Apply(t, Request(remote, q)), r, q)
              == if r == remote && !t.stopped && remote !in t.allowed then 1 else 0
    {
      TimesAtArrival(t, remote, q, r);
    }
  }

  /** A request number that has not arrived yet has been sent nothing and waits nowhere. */
  lemma {:induction false} UnseenBeforeArrival(es: seq<Event>, q: Req)
    requires Trace(es) && forall j :: 0 <= j < |es| && es[j].Request? ==> es[j].req != q
    ensures Unseen(Exec(es), q)
  {
    if es == [] {
    } else {
      var pre, e := es[..|es| - 1], es[|es| - 1];
      UnseenBeforeArrival(pre, q);
      ResultsAfter(Exec(pre), e, q);
      forall r
        ensures Times(Exec(es), r, q) == 0
      {
        TimesAfter(Exec(pre), e, r, q);
      }
    }
  }

  /** Request numbers are never reused. */
  ghost predicate DistinctRequests(es: seq<Event>) {
    forall i, j :: 0 <= i < j < |es| && es[i].Request? && es[j].Request? ==> es[i].req != es[j].req
  }

  /** The task refines the per-request specification: after any interleaving, each request has been sent
      exactly what its verdict says, once, or waits exactly once, under its own remote. */
  lemma {:induction false} TaskRefinesVerdicts(es: seq<Event>, i: nat)
    requires Trace(es) && DistinctRequests(es) && i < |es| && es[i].Request?
    ensures Stands(Exec(es), es[i].remote, es[i].req, VerdictOf(es, i))
    decreases |es|
  {
    var pre, e := es[..|es| - 1], es[|es| - 1];
    assert es == pre + [e];
    TaskInvariant(pre);
    if i == |es| - 1 {
      UnseenBeforeArrival(pre, e.req);
      StandsAtArrival(Exec(pre), e.remote, e.req);
      assert es[..i] == pre;
    } else {
      TaskRefinesVerdicts(pre, i);
      StandsStep(Exec(pre), e, es[i].remote, es[i].req, VerdictOf(pre, i));
      VerdictSnoc(pre, e, i);
    }
  }

  /** What whoever awaits request `q` sees: the first reply sent to it, or its channel dropped with the task. */
  function VerdictSeen(t: Task, q: Req): Verdict {
    var rs := ResultsFor(t.sent, q);
    if rs != [] then Answered(rs[0]) else if t.stopped then Abandoned else Waiting
  }

  /** It is the request's verdict, at every moment. */
  lemma VerdictIsSeen(es: seq<Event>, i: nat)
    requires Trace(es) && DistinctRequests(es) && i < |es| && es[i].Request?
    ensures VerdictSeen(Exec(es), es[i].req) == VerdictOf(es, i)
  {
    TaskRefinesVerdicts(es, i);
    hide Exec, VerdictOf, ResultsFor, Times;
  }

  // ---------------------------------------------------------------------------
  // Order and conservation
  // ---------------------------------------------------------------------------

  /** The requests for `r` among the first `n` events whose verdict is not an answer, in arrival order. */
  function UnansweredFor(es: seq<Event>, n: nat, r: Id): seq<Req>
    requires n <= |es|
  {
    if n == 0 then []
    else
      var before := UnansweredFor(es, n - 1, r);
      if es[n - 1].Request? && es[n - 1].remote == r && !VerdictOf(es, n - 1).Answered?
      then before + [es[n - 1].req]
      else before
  }

  lemma {:induction false} FirstVerdictNotAbandoned(es: seq<Event>, remote: Id, from: nat)
    requires from <= |es| && Stop !in es
    ensures !FirstVerdict(es, remote, from).Abandoned?
    decreases |es| - from
  {
    if from == |es| {
    } else {
      assert es[from] in es;
      FirstVerdictNotAbandoned(es, remote, from + 1);
    }
  }

  /** A request is abandoned only by a task that stopped. */
  lemma AbandonedOnlyAfterStop(es: seq<Event>, i: nat)
    requires i < |es| && es[i].Request? && VerdictOf(es, i).Abandoned?
    ensures Stop in es
  {
    if Stop !in es {
      assert Stop !in es[..i];
      FirstVerdictNotAbandoned(es, es[i].remote, i + 1);
    }
  }

  lemma AnsweredSnoc(es: seq<Event>, e: Event, i: nat)
    requires i < |es| && es[i].Request? && (e.Completion? ==> Stop !in es)
    ensures VerdictOf(es + [e], i).Answered?
            <==> VerdictOf(es, i).Answered? || (e.Completion? && e.remote == es[i].remote)
  {
    VerdictSnoc(es, e, i);
    if VerdictOf(es, i).Abandoned? {
      AbandonedOnlyAfterStop(es, i);
    }
  }

  lemma {:induction false} UnansweredSnoc(es: seq<Event>, e: Event, n: nat, r: Id)
    requires n <= |es| && (e.Completion? ==> Stop !in es)
    ensures UnansweredFor(es + [e], n, r) == if e.Completion? && e.remote == r then [] else UnansweredFor(es, n, r)
  {
    hide VerdictOf;
    if n == 0 {
    } else {
      UnansweredSnoc(es, e, n - 1, r);
      assert (es + [e])[n - 1] == es[n - 1];
      if es[n - 1].Request? {
        AnsweredSnoc(es, e, n - 1);
      }
    }
  }

  /** The verdict on a request at the moment it arrives. */
  lemma VerdictAtArrival(es: seq<Event>, e: Event)
    requires Trace(es) && e.Request?
    ensures VerdictOf(es + [e], |es|).Answered? <==> !Exec(es).stopped && e.remote in Exec(es).allowed
  {
    TaskInvariant(es);
    assert (es + [e])[..|es|] == es;
    hide Exec;
  }

  /** How one more event changes the list of unanswered requests for `r`. */
  lemma UnansweredAfter(es: seq<Event>, e: Event, r: Id)
    requires Trace(es) && Enabled(Exec(es), e)
    ensures UnansweredFor(es + [e], |es| + 1, r)
            == if e.Completion? && e.remote == r then []
               else if e.Request? && e.remote == r && (Exec(es).stopped || r !in Exec(es).allowed)
               then UnansweredFor(es, |es|, r) + [e.req]
               else UnansweredFor(es, |es|, r)
  {
    TaskInvariant(es);
    assert e.Completion? ==> Stop !in es;
    UnansweredSnoc(es, e, |es|, r);
    if e.Request? {
      VerdictAtArrival(es, e);
    }
    hide VerdictOf, Exec, InFlightBijection;
    assert (es + [e])[|es|] == e;
  }

  /** In both modes, while the task runs, the list kept for a remote is exactly its unanswered requests, in
      arrival order, and a completion serves them in that order; a stopped task keeps none. */
  lemma {:induction false} WaitersInArrivalOrder(es: seq<Event>, r: Id)
    requires Trace(es)
    ensures PendingOf(Exec(es), r) == if Exec(es).stopped then [] else UnansweredFor(es, |es|, r)
  {
    if es == [] {
    } else {
      var pre, e := es[..|es| - 1], es[|es| - 1];
      assert es == pre + [e];
      WaitersInArrivalOrder(pre, r);
      UnansweredAfter(pre, e, r);
      PendingAfter(Exec(pre), e, r);
      ApplyStopped(Exec(pre), e);
      hide Apply, PendingOf, UnansweredFor;
    }
  }

  /** All requests for `r`, in arrival order. */
  function RequestsFor(es: seq<Event>, r: Id): seq<Req> {
    if es == [] then []
    else
      var before := RequestsFor(es[..|es| - 1], r);
      if es[|es| - 1].Request? && es[|es| - 1].remote == r then before + [es[|es| - 1].req] else before
  }

  /** The requests for `r` that were sent a reply, in the order of the replies. */
  function AnsweredFor(sent: seq<Reply>, r: Id): seq<Req> {
    if sent == [] then []
    else
      var before := AnsweredFor(sent[..|sent| - 1], r);
      if sent[|sent| - 1].remote == r then before + [sent[|sent| - 1].req] else before
  }

  lemma {:induction false} AnsweredForConcat(a: seq<Reply>, b: seq<Reply>, r: Id)
    ensures AnsweredFor(a + b, r) == AnsweredFor(a, r) + AnsweredFor(b, r)
  {
    if b == [] {
      assert a + b == a;
    } else {
      assert (a + b)[..|a + b| - 1] == a + b[..|b| - 1];
      AnsweredForConcat(a, b[..|b| - 1], r);
    }
  }

  lemma {:induction false} AnsweredForReplies(qs: seq<Req>, remote: Id, res: AuthResult, r: Id)
    ensures AnsweredFor(Replies(qs, remote, res), r) == if remote == r then qs else []
  {
    if qs == [] {
    } else {
      var qs' := qs[..|qs| - 1];
      assert Replies(qs, remote, res)[..|qs| - 1] == Replies(qs', remote, res);
      AnsweredForReplies(qs', remote, res, r);
      assert qs == qs' + [qs[|qs| - 1]];
    }
  }

  lemma AnsweredAfter(t: Task, e: Event, r: Id)
    ensures AnsweredFor(Apply(t, e).sent, r)
            == if e.Completion? && e.remote == r then AnsweredFor(t.sent, r) + PendingOf(t, r)
               else if e.Request? && e.remote == r && !t.stopped && r in t.allowed
               then AnsweredFor(t.sent, r) + [e.req]
               else AnsweredFor(t.sent, r)
  {
    match e
    case Request(remote, q) =>
      AnsweredForConcat(t.sent, [Reply(q, remote, Ok(()))], r);
      assert AnsweredFor([Reply(q, remote, Ok(()))], r) == if remote == r then [q] else [];
    case Completion(remote, res) =>
      AnsweredForConcat(t.sent, Replies(PendingOf(t, remote), remote, res), r);
      AnsweredForReplies(PendingOf(t, remote), remote, res, r);
    case Inserted(_) =>
    case Stop =>
  }

  lemma ConservationStep(t: Task, e: Event, r: Id, arrived: seq<Req>, unanswered: seq<Req>, unanswered': seq<Req>)
    requires multiset(arrived) == multiset(AnsweredFor(t.sent, r)) + multiset(unanswered)
    requires e.Completion? && e.remote == r ==> unanswered == PendingOf(t, r)
    requires unanswered'
             == if e.Completion? && e.remote == r then []
                else if e.Request? && e.remote == r && (t.stopped || r !in t.allowed) then unanswered + [e.req]
                else unanswered
    ensures multiset(if e.Request? && e.remote == r then arrived + [e.req] else arrived)
            == multiset(AnsweredFor(Apply(t, e).sent, r)) + multiset(unanswered')
  {
    AnsweredAfter(t, e, r);
    hide Apply, AnsweredFor, PendingOf;
    var answered := AnsweredFor(t.sent, r);
    assert multiset(answered + unanswered) == multiset(answered) + multiset(unanswered);
    if e.Request? {
      MultisetSnoc(arrived, e.req);
      MultisetSnoc(answered, e.req);
      MultisetSnoc(unanswered, e.req);
    }
  }

  lemma MultisetSnoc(s: seq<Req>, q: Req)
    ensures multiset(s + [q]) == multiset(s) + multiset{q}
  {
  }

  /** Conservation, in both modes: every request received is answered or still unanswered, once. */
  lemma {:induction false} Conservation(es: seq<Event>, r: Id)
    requires Trace(es)
    ensures multiset(RequestsFor(es, r))
            == multiset(AnsweredFor(Exec(es).sent, r)) + multiset(UnansweredFor(es, |es|, r))
  {
    if es == [] {
    } else {
      var pre, e := es[..|es| - 1], es[|es| - 1];
      assert es == pre + [e];
      Conservation(pre, r);
      WaitersInArrivalOrder(pre, r);
      UnansweredAfter(pre, e, r);
      assert e.Completion? ==> !Exec(pre).stopped by { TaskInvariant(pre); }
      ConservationStep(Exec(pre), e, r, RequestsFor(pre, r), UnansweredFor(pre, |pre|, r), UnansweredFor(es, |es|, r));
    }
  }

  /** A request for `r` that is answered at once while others still wait: the acceptor side recorded `r` meanwhile. */
  predicate Overtakes(t: Task, e: Event, r: Id) {
    e.Request? && e.remote == r && r in t.allowed && r in t.pending
  }

  ghost predicate NoneOvertakes(es: seq<Event>, r: Id) {
    forall i :: 0 <= i < |es| ==> !Overtakes(Exec(es[..i]), es[i], r)
  }

  /** First in, first out for `r`: the replies so far, then those without one, are the arrivals in order. */
  predicate Fifo(es: seq<Event>, r: Id) {
    RequestsFor(es, r) == AnsweredFor(Exec(es).sent, r) + UnansweredFor(es, |es|, r)
  }

  lemma NoneOvertakesSnoc(es: seq<Event>, e: Event, r: Id)
    ensures NoneOvertakes(es + [e], r) <==> NoneOvertakes(es, r) && !Overtakes(Exec(es), e, r)
  {
    hide Exec, Overtakes;
    var es' := es + [e];
    assert es'[..|es|] == es;
    assert forall i :: 0 <= i < |es| ==> es'[..i] == es[..i] && es'[i] == es[i];
    if NoneOvertakes(es', r) {
      assert !Overtakes(Exec(es'[..|es|]), es'[|es|], r);
      forall i | 0 <= i < |es|
        ensures !Overtakes(Exec(es[..i]), es[i], r)
      {
        assert !Overtakes(Exec(es'[..i]), es'[i], r);
      }
    }
  }

  lemma AppendEnds(a: seq<Req>, b: seq<Req>, q: Req, w: seq<Req>)
    ensures a + [q] == b + (w + [q]) <==> a == b + w
    ensures w != [] && q !in w ==> a + [q] != (b + [q]) + w
    ensures a + [q] == (b + [q]) <==> a == b
  {
    assert b + (w + [q]) == (b + w) + [q];
    assert forall c: seq<Req> {:trigger c + [q]} :: (c + [q])[..|c|] == c;
    if w != [] && a + [q] == (b + [q]) + w {
      assert (a + [q])[|a|] == q;
      assert ((b + [q]) + w)[|a|] == w[|w| - 1];
    }
  }

  /** One event keeps the order, unless it is a request that overtakes; then the order is lost. */
  lemma FifoStep(t: Task, e: Event, r: Id, arrived: seq<Req>, unanswered: seq<Req>, unanswered': seq<Req>)
    requires !t.stopped ==> unanswered == PendingOf(t, r)
    requires e.Completion? ==> !t.stopped
    requires t.stopped ==> r !in t.pending
    requires r in t.pending ==> t.pending[r] != []
    requires unanswered'
             == if e.Completion? && e.remote == r then []
                else if e.Request? && e.remote == r && (t.stopped || r !in t.allowed) then unanswered + [e.req]
                else unanswered
    ensures var arrived' := if e.Request? && e.remote == r then arrived + [e.req] else arrived;
            var kept, keeps := arrived == AnsweredFor(t.sent, r) + unanswered,
                               arrived' == AnsweredFor(Apply(t, e).sent, r) + unanswered';
            && (!Overtakes(t, e, r) ==> (keeps <==> kept))
            && (Overtakes(t, e, r) && e.req !in unanswered ==> !keeps)
  {
    AnsweredAfter(t, e, r);
    hide Apply, AnsweredFor;
    var answered := AnsweredFor(t.sent, r);
    if e.Request? {
      AppendEnds(arrived, answered, e.req, unanswered);
      if e.remote == r && r in t.allowed && !t.stopped && r !in t.pending {
        assert unanswered == [] && (answered + [e.req]) + [] == answered + [e.req] && answered + [] == answered;
      }
    } else if e.Completion? && e.remote == r {
      assert (answered + unanswered) + [] == answered + unanswered;
    }
  }

  lemma {:induction false} UnansweredArrived(es: seq<Event>, n: nat, r: Id, q: Req)
    requires n <= |es|
    ensures q in UnansweredFor(es, n, r) ==> exists i :: 0 <= i < n && es[i].Request? && es[i].req == q
  {
    hide VerdictOf;
    if n == 0 {
    } else {
      UnansweredArrived(es, n - 1, r, q);
      if es[n - 1].Request? && es[n - 1].req == q {
        assert 0 <= n - 1 < n;
      } else {
        assert q in UnansweredFor(es, n, r) ==> q in UnansweredFor(es, n - 1, r);
      }
    }
  }

  lemma ArrivesNew(es: seq<Event>, e: Event)
    requires DistinctRequests(es + [e]) && e.Request?
    ensures forall i :: 0 <= i < |es| && es[i].Request? ==> es[i].req != e.req
  {
    var es' := es + [e];
    forall i | 0 <= i < |es| && es[i].Request?
      ensures es[i].req != e.req
    {
      assert es'[i] == es[i] && es'[|es|] == e;
    }
  }

  /** Exactly when a remote is served first in, first out, in either mode, through any stop: when no request for it
      arrives while it is in the set and still waited for, where `HandleRequest` answers at once over the waiters' heads. */
  lemma {:induction false} FifoExactly(es: seq<Event>, r: Id)
    requires Trace(es)
    ensures NoneOvertakes(es, r) ==> Fifo(es, r)
    ensures DistinctRequests(es) ==> (Fifo(es, r) <==> NoneOvertakes(es, r))
  {
    hide Fifo, NoneOvertakes, Overtakes, Exec, Apply, Enabled;
    if es == [] {
      FifoOfNone(r);
    } else {
      var pre, e := es[..|es| - 1], es[|es| - 1];
      assert es == pre + [e];
      FifoExactly(pre, r);
      NoneOvertakesSnoc(pre, e, r);
      FifoLast(pre, e, r);
      if DistinctRequests(es) {
        DistinctPrefix(pre, e);
      }
    }
  }

  lemma FifoOfNone(r: Id)
    ensures Fifo([], r) && NoneOvertakes([], r)
  {
  }

  lemma DistinctPrefix(es: seq<Event>, e: Event)
    requires DistinctRequests(es + [e])
    ensures DistinctRequests(es)
  {
    var es' := es + [e];
    forall i, j | 0 <= i < j < |es| && es[i].Request? && es[j].Request?
      ensures es[i].req != es[j].req
    {
      assert es'[i] == es[i] && es'[j] == es[j];
    }
  }

  lemma FifoLast(es: seq<Event>, e: Event, r: Id)
    requires Trace(es) && Enabled(Exec(es), e)
    ensures !Overtakes(Exec(es), e, r) ==> (Fifo(es + [e], r) <==> Fifo(es, r))
    ensures DistinctRequests(es + [e]) && Overtakes(Exec(es), e, r) ==> !Fifo(es + [e], r)
  {
    var es' := es + [e];
    assert es'[..|es|] == es;
    WaitersInArrivalOrder(es, r);
    UnansweredAfter(es, e, r);
    TaskInvariant(es);
    FifoStep(Exec(es), e, r, RequestsFor(es, r), UnansweredFor(es, |es|, r), UnansweredFor(es', |es'|, r));
    hide UnansweredFor, Overtakes, Apply;
    if DistinctRequests(es') && e.Request? {
      ArrivesNew(es, e);
      UnansweredArrived(es, |es|, r, e.req);
    }
  }

  /** One-way mode is first in, first out per remote, always: replies so far, then the waiters, are the arrivals. */
  lemma OneWayFifo(es: seq<Event>, r: Id)
    requires OneWayTrace(es)
    ensures Fifo(es, r)
    ensures Stop !in es ==> RequestsFor(es, r) == AnsweredFor(Exec(es).sent, r) + PendingOf(Exec(es), r)
  {
    forall i | 0 <= i < |es|
      ensures !Overtakes(Exec(es[..i]), es[i], r)
    {
      PrefixTrace(es, i);
      OneWayDisjoint(es[..i]);
    }
    FifoExactly(es, r);
    WaitersInArrivalOrder(es, r);
    TaskInvariant(es);
  }

  /** In mutual mode it is lost by this: a request that arrives after the acceptor side recorded the remote overtakes one that waits. */
  lemma MutualOvertakes(r: Id, q1: Req, q2: Req)
    ensures var es := [Request(r, q1), Inserted(r), Request(r, q2)];
            && Trace(es)
            && PendingOf(Exec(es), r) == [q1]
            && AnsweredFor(Exec(es).sent, r) == [q2]
            && (q1 != q2 ==> !Fifo(es, r))
  {
    var e1, e2, e3 := Request(r, q1), Inserted(r), Request(r, q2);
    ExecSnoc([], e1);
    ExecSnoc([e1], e2);
    ExecSnoc([e1, e2], e3);
    assert [] + [e1] == [e1] && [e1] + [e2] == [e1, e2] && [e1, e2] + [e3] == [e1, e2, e3];
    assert Exec([]) == Fresh && Trace([]);
    hide Exec, Trace;
    var t := Exec([e1, e2, e3]);
    assert t.sent == [Reply(q2, r, Ok(()))];
    assert t.sent[..0] == [];
    if q1 != q2 {
      assert [e1, e2, e3][..2] == [e1, e2];
      OvertakingLosesOrder([e1, e2, e3], 2, r);
    }
  }

  lemma OvertakingLosesOrder(es: seq<Event>, i: nat, r: Id)
    requires Trace(es) && DistinctRequests(es) && i < |es| && Overtakes(Exec(es[..i]), es[i], r)
    ensures !Fifo(es, r)
  {
    FifoExactly(es, r);
  }

  // ---------------------------------------------------------------------------
  // Counting handshakes
  // ---------------------------------------------------------------------------

  function Completions(es: seq<Event>, r: Id): nat {
    if es == [] then 0
    else Completions(es[..|es| - 1], r) + if es[|es| - 1].Completion? && es[|es| - 1].remote == r then 1 else 0
  }

  function Successes(es: seq<Event>, r: Id): nat {
    if es == [] then 0
    else Successes(es[..|es| - 1], r) + if es[|es| - 1].Completion? && Admits(es[|es| - 1], r) then 1 else 0
  }

  function Bit(b: bool): nat {
    if b then 1 else 0
  }

  lemma StartedAfter(t: Task, e: Event, r: Id)
    requires InFlightBijection(t) && Enabled(t, e) && !e.Stop? && !t.stopped
    ensures var t' := Apply(t, e);
            && t'.started[r] + Bit(r in t.pending) + Bit(e.Completion? && e.remote == r)
               == t.started[r] + Bit(r in t'.pending) + 2 * Bit(e.Completion? && e.remote == r)
            && (r in t'.pending ==> r in t.pending || (e.Request? && e.remote == r && r !in t.allowed))
            && (e.Completion? && e.remote == r ==> r in t.pending && r !in t'.pending)
  {
  }

  /** While the task runs, in both modes: handshakes started for a remote have completed or are in flight,
      and at most one ever succeeds, whatever the acceptor side inserts meanwhile. */
  lemma {:induction false} HandshakesCounted(es: seq<Event>, r: Id)
    requires Trace(es) && Stop !in es
    ensures Exec(es).started[r] == Completions(es, r) + Bit(r in Exec(es).pending)
    ensures Successes(es, r) <= 1
    ensures Successes(es, r) == 1 ==> r in Exec(es).allowed && r !in Exec(es).pending
  {
    if es == [] {
    } else {
      var pre, e := es[..|es| - 1], es[|es| - 1];
      assert es == pre + [e];
      HandshakesCounted(pre, r);
      TaskInvariant(pre);
      StartedAfter(Exec(pre), e, r);
      ApplyAllowed(Exec(pre), e, r);
      hide Apply, Admitted, Admits, InFlightBijection;
    }
  }

  /** In one-way mode the successes are the cache: started = failed + in flight + cached. */
  lemma {:induction false} OneWayHandshakesCounted(es: seq<Event>, r: Id)
    requires OneWayTrace(es) && Stop !in es
    ensures Exec(es).started[r]
            == (Completions(es, r) - Successes(es, r)) + Bit(r in Exec(es).pending) + Bit(r in Exec(es).allowed)
  {
    HandshakesCounted(es, r);
    SuccessesAreCached(es, r);
  }

  lemma {:induction false} SuccessesAreCached(es: seq<Event>, r: Id)
    requires OneWayTrace(es) && Stop !in es
    ensures Successes(es, r) == Bit(r in Exec(es).allowed)
  {
    if es == [] {
    } else {
      var pre, e := es[..|es| - 1], es[|es| - 1];
      assert es == pre + [e];
      SuccessesAreCached(pre, r);
      HandshakesCounted(es, r);
      ApplyAllowed(Exec(pre), e, r);
      hide Apply;
    }
  }

  // ---------------------------------------------------------------------------
  // When the set and the waiters overlap
  // ---------------------------------------------------------------------------

  lemma {:induction false} SuccessCounted(es: seq<Event>, r: Id, j: nat)
    requires j < |es| && es[j].Completion? && Admits(es[j], r)
    ensures Successes(es, r) >= 1
  {
    if j == |es| - 1 {
    } else {
      SuccessCounted(es[..|es| - 1], r, j);
    }
  }

  /** Exactly when a remote is in the set while it is waited for: when the acceptor side recorded it. */
  lemma OverlapExactly(es: seq<Event>, r: Id)
    requires Trace(es)
    ensures r in Exec(es).pending ==> (r in Exec(es).allowed <==> Inserted(r) in es)
  {
    TaskInvariant(es);
    hide Exec, Trace;
    if r in Exec(es).pending {
      HandshakesCounted(es, r);
      if Inserted(r) in es {
        var j :| 0 <= j < |es| && es[j] == Inserted(r);
        assert Admits(es[j], r);
      }
      if r in Exec(es).allowed {
        var j :| 0 <= j < |es| && Admits(es[j], r);
        if es[j].Completion? {
          SuccessCounted(es, r, j);
        }
        assert es[j] == Inserted(r);
      }
    }
  }

  /** So in one-way mode nobody waits for a remote that is cached. */
  lemma OneWayDisjoint(es: seq<Event>)
    requires OneWayTrace(es)
    ensures Exec(es).allowed !! Exec(es).pending.Keys
  {
    forall r | r in Exec(es).pending
      ensures r !in Exec(es).allowed
    {
      OverlapExactly(es, r);
    }
  }

  /** In mutual mode the two sets can overlap: a peer records us while we wait for our own handshake with it. */
  lemma MutualOverlap(r: Id, q: Req)
    ensures var es := [Request(r, q), Inserted(r)];
            Trace(es) && r in Exec(es).allowed && r in Exec(es).pending
  {
    ExecSnoc([], Request(r, q));
    ExecSnoc([Request(r, q)], Inserted(r));
    assert [] + [Request(r, q)] == [Request(r, q)];
    assert [Request(r, q)] + [Inserted(r)] == [Request(r, q), Inserted(r)];
  }
}
