/** The handshakes as the code runs them: sequential methods over a connection's streams. */
module Endpoints {
  import opened Types
  import opened Wire
  import opened Transcripts
  import opened Handshake
  import opened Tasks

  /** An auth connection as one end holds it. `remoteId` is the id the transport authenticated. */
  class Connection {
    const remoteId: Id
    const send: SendStream
    const recv: RecvStream
    var closedWith: Option<nat>   // the code this end closed with first
    ghost var heldAtClose: set<Id>   // this node's set at that moment

    constructor (remoteId: Id, send: SendStream, recv: RecvStream)
      ensures this.remoteId == remoteId && this.send == send && this.recv == recv && closedWith.None?
    {
      this.remoteId, this.send, this.recv, closedWith := remoteId, send, recv, None;
    }

    /** Tells the peer the verdict. `gate` is the set this node's gate reads, if it has one to tell of: it must hold the
        peer already when the peer is told that it was accepted. */
    method Close(code: nat, ghost gate: Option<PeerSet>)
      requires code == CLOSE_ACCEPTED ==> gate.Some? && remoteId in gate.value.members
      modifies this`closedWith, this`heldAtClose
      ensures closedWith == if old(closedWith).None? then Some(code) else old(closedWith)
      ensures heldAtClose
              == if old(closedWith).Some? then old(heldAtClose) else if gate.Some? then gate.value.members else {}
    {
      if closedWith.None? {
        closedWith := Some(code);
        heldAtClose := if gate.Some? then gate.value.members else {};
      }
    }
  }

  /** An institutional signer. What it answers is up to the backend; what it was asked to sign is recorded. */
  class InstitutionalSigner {
    const key: Bytes
    ghost var asked: seq<Bytes>

    constructor (key: Bytes)
      ensures this.key == key && asked == []
    {
      this.key := key;
      asked := [];
    }

    method Sign(message: Bytes, answer: Result<Bytes>) returns (r: Result<Bytes>)
      modifies this
      ensures r == answer && asked == old(asked) + [message]
    {
      asked := asked + [message];
      r := answer;
    }
  }

  /** What the acceptor asks its signer for. */
  ghost function AcceptorAsks(mode: Mode, local: Option<Id>, incoming: Bytes, now: u64): seq<Bytes> {
    var hello := ReadResult(ReadHello(mode, incoming));
    if AcceptorSigns(mode, local, hello)
    then [StatementBytes(AcceptorStatement(hello.value.nonce, local.value, now))]
    else []
  }

  /** What the initiator asks its signer for. */
  ghost function InitiatorAsks(mode: Mode, me: Party, sigs: set<Sig>, peer: Id, incoming: Bytes, nonce: Nonce,
                               received: u64, sent: u64): seq<Bytes> {
    var challenge := InitiatorAccepts(mode, me, sigs, peer, incoming, nonce, received);
    if challenge.Ok? then [StatementBytes(InitiatorStatement(mode, challenge.value.nonce, me.id, sent))] else []
  }

  lemma ChallengeIsWritable(mode: Mode, me: Party, local: Option<Id>, incoming: Bytes, nonce: Nonce, now: u64,
                            signed: Result<Bytes>)
    ensures var c := AcceptorChallenge(mode, me, local, incoming, nonce, now, signed);
            c.Ok? ==> |Encode(c.value)| < U32_LIMIT
  {
    hide ReadHello, Encode;
  }

  class MutualAuthProtocol {
    const me: Party
    const signer: InstitutionalSigner
    const shared: Shared

    constructor (me: Party, signer: InstitutionalSigner, shared: Shared)
      requires signer.key == me.mutual.key
      ensures this.me == me && this.signer == signer && this.shared == shared
    {
      this.me, this.signer, this.shared := me, signer, shared;
    }

    method Handshake(conn: Connection, sigs: set<Sig>, nonceB: Nonce, timeB: u64, answer: Result<Bytes>, now: u64)
      returns (r: Result<Id>)
      requires signer.key == me.mutual.key
      modifies conn.send, conn.recv, signer
      ensures r == AcceptorRun(MutualAuth, me, shared.localId, sigs, conn.remoteId, old(conn.recv.rest),
                               nonceB, timeB, answer, now)
      ensures signer.asked == old(signer.asked) + AcceptorAsks(MutualAuth, shared.localId, old(conn.recv.rest), timeB)
      ensures conn.send.sent
              == old(conn.send.sent) + AcceptorSends(MutualAuth, me, shared.localId, old(conn.recv.rest), nonceB, timeB, answer)
    {
      ChallengeIsWritable(MutualAuth, me, shared.localId, conn.recv.rest, nonceB, timeB, answer);
      hide Encode, Decode, StatementBytes, ReadFrame, Verifies, InTime;
      if shared.localId.None? {
        return Err(Signer);
      }
      var hello := ReadMsg(conn.recv, KMutualHello, MAX_MSG);
      if hello.Err? {
        return Err(hello.error);
      }
      if hello.value.version != PROTOCOL_VERSION {
        return Err(Version(hello.value.version));
      }
      var transcript := BuildMutualTranscript(ROLE_ACCEPTOR, hello.value.nonce, shared.localId.value, timeB);
      var signature := signer.Sign(transcript, answer);
      if signature.Err? {
        return Err(signature.error);
      }
      var challenge := MutualChallenge(PROTOCOL_VERSION, nonceB, signer.key, signature.value, timeB);
      var written := WriteMsg(conn.send, challenge);
      if written.Err? {
        return Err(written.error);
      }
      var response := ReadMsg(conn.recv, KMutualResponse, MAX_MSG);
      if response.Err? {
        return Err(response.error);
      }
      if !InTime(me.mutual.maxSkew, now, response.value.time) {
        return Err(ClockSkew);
      }
      var statement := Mutual(ROLE_INITIATOR, nonceB, conn.remoteId, response.value.time);
      if !Verifies(me.mutual.roster, sigs, response.value.key, statement, response.value.signature) {
        return Err(Denied);
      }
      r := Ok(conn.remoteId);
    }

    /** Records the peer, and only then closes with the verdict: the set the peer will meet is the set at the close. */
    method Accept(conn: Connection, sigs: set<Sig>, nonceB: Nonce, timeB: u64, answer: Result<Bytes>, now: u64)
      requires signer.key == me.mutual.key && conn.closedWith.None?
      modifies conn, conn.send, conn.recv, signer, shared.allowed
      ensures var r := AcceptorRun(MutualAuth, me, shared.localId, sigs, conn.remoteId, old(conn.recv.rest),
                                   nonceB, timeB, answer, now);
              && shared.allowed.members
                 == (if r.Ok? then old(shared.allowed.members) + {conn.remoteId} else old(shared.allowed.members))
              && conn.closedWith == Some(CloseCode(r))
      ensures conn.heldAtClose == shared.allowed.members
    {
      var r := Handshake(conn, sigs, nonceB, timeB, answer, now);
      hide AcceptorRun;
      match r
      case Ok(remote) =>
        AcceptorRunNamesRemote(MutualAuth, me, shared.localId, sigs, conn.remoteId, old(conn.recv.rest), nonceB, timeB, answer, now);
        shared.allowed.Insert(remote);
        conn.Close(CLOSE_ACCEPTED, Some(shared.allowed));
      case Err(_) =>
        conn.Close(CLOSE_DENIED, Some(shared.allowed));
    }
  }

  lemma AcceptorRunNamesRemote(mode: Mode, me: Party, local: Option<Id>, sigs: set<Sig>, remote: Id, incoming: Bytes,
                               nonce: Nonce, sent: u64, signed: Result<Bytes>, received: u64)
    ensures var r := AcceptorRun(mode, me, local, sigs, remote, incoming, nonce, sent, signed, received);
            r.Ok? ==> r.value == remote
  {
  }

  /** The one-way acceptor and its peer set. */
  class AuthProtocol {
    const me: Party
    const allowedRemotes: PeerSet

    constructor (me: Party, allowedRemotes: PeerSet)
      ensures this.me == me && this.allowedRemotes == allowedRemotes
    {
      this.me, this.allowedRemotes := me, allowedRemotes;
    }

    method RunHandshake(conn: Connection, sigs: set<Sig>, nonce: Nonce, serverNow: u64) returns (r: Result<string>)
      modifies conn.send, conn.recv
      ensures forall answer, now ::
                var run := AcceptorRun(OneWayAuth, me, None, sigs, conn.remoteId, old(conn.recv.rest), nonce, serverNow, answer, now);
                if run.Ok? then r.Ok? else r == Err(run.error)
      ensures r.Ok? ==>
                var proof := ReadProof(OneWayAuth, old(conn.recv.rest));
                proof.Ok? && proof.value.key in me.oneWay.roster && r.value == me.oneWay.roster[proof.value.key]
      ensures conn.send.sent
              == old(conn.send.sent) + AcceptorSends(OneWayAuth, me, None, old(conn.recv.rest), nonce, serverNow, Err(Signer))
    {
      ChallengeIsWritable(OneWayAuth, me, None, conn.recv.rest, nonce, serverNow, Err(Signer));
      hide Encode, Decode, StatementBytes, ReadFrame, InTime;
      var hello := ReadMsg(conn.recv, KClientHello, MAX_MSG);
      if hello.Err? {
        return Err(hello.error);
      }
      if hello.value.version != PROTOCOL_VERSION {
        return Err(Version(hello.value.version));
      }
      var written := WriteMsg(conn.send, ServerChallenge(PROTOCOL_VERSION, nonce, serverNow));
      if written.Err? {
        return Err(written.error);
      }
      var auth := ReadMsg(conn.recv, KClientAuth, MAX_MSG);
      if auth.Err? {
        return Err(auth.error);
      }
      if !InTime(me.oneWay.maxSkew, serverNow, auth.value.time) {
        return Err(ClockSkew);
      }
      var verdict := Verify(me.oneWay.roster, sigs, auth.value.key, OneWay(nonce, conn.remoteId, auth.value.time), auth.value.signature);
      if verdict.Rejected? {
        return Err(Denied);
      }
      r := Ok(verdict.institution);
    }

    method Accept(conn: Connection, sigs: set<Sig>, nonce: Nonce, serverNow: u64)
      requires conn.closedWith.None?
      modifies conn, conn.send, conn.recv, allowedRemotes
      ensures var r := AcceptorRun(OneWayAuth, me, None, sigs, conn.remoteId, old(conn.recv.rest),
                                   nonce, serverNow, Err(Signer), serverNow);
              && allowedRemotes.members
                 == (if r.Ok? then old(allowedRemotes.members) + {conn.remoteId} else old(allowedRemotes.members))
              && conn.closedWith == Some(CloseCode(r))
      ensures conn.heldAtClose == allowedRemotes.members
    {
      var r := RunHandshake(conn, sigs, nonce, serverNow);
      hide AcceptorRun;
      if r.Ok? {
        allowedRemotes.Insert(conn.remoteId);
        conn.Close(CLOSE_ACCEPTED, Some(allowedRemotes));
      } else {
        conn.Close(CLOSE_DENIED, Some(allowedRemotes));
      }
    }
  }

  /** The initiator side of the mutual handshake. On a challenge it refuses it closes at once and signs nothing. */
  method MutualHandshake(conn: Connection, me: Party, signer: InstitutionalSigner, sigs: set<Sig>, nonceA: Nonce,
                         received: u64, timeA: u64, answer: Result<Bytes>, reason: Option<nat>) returns (r: AuthResult)
    requires signer.key == me.mutual.key && conn.closedWith.None?
    modifies conn, conn.send, conn.recv, signer
    ensures r == InitiatorRun(MutualAuth, me, sigs, conn.remoteId, old(conn.recv.rest), nonceA, received, timeA, answer, reason)
    ensures signer.asked == old(signer.asked)
                            + InitiatorAsks(MutualAuth, me, sigs, conn.remoteId, old(conn.recv.rest), nonceA, received, timeA)
    ensures var c := ReadResult(ReadFrame(KMutualChallenge, old(conn.recv.rest), MAX_MSG));
            var refused := c.Ok? && JudgeChallenge(MutualAuth, me, sigs, conn.remoteId, nonceA, c, received).Err?;
            conn.closedWith == if refused then Some(CLOSE_DENIED) else None
    ensures conn.send.sent
            == old(conn.send.sent)
               + InitiatorSends(MutualAuth, me, sigs, conn.remoteId, old(conn.recv.rest), nonceA, received, timeA, answer)
  {
    hide Encode, Decode, StatementBytes, ReadFrame, Verifies, InTime;
    var written := WriteMsg(conn.send, Hello(MutualAuth, nonceA));
    var challenge := ReadMsg(conn.recv, KMutualChallenge, MAX_MSG);
    if challenge.Err? {
      return Err(challenge.error);
    }
    var c := challenge.value;
    if c.version != PROTOCOL_VERSION {
      conn.Close(CLOSE_DENIED, None);
      return Err(Version(c.version));
    }
    if !InTime(INITIATOR_MAX_SKEW, received, c.time) {
      conn.Close(CLOSE_DENIED, None);
      return Err(ClockSkew);
    }
    if !Verifies(me.mutual.roster, sigs, c.key, Mutual(ROLE_ACCEPTOR, nonceA, conn.remoteId, c.time), c.signature) {
      conn.Close(CLOSE_DENIED, None);
      return Err(Denied);
    }
    var transcript := BuildMutualTranscript(ROLE_INITIATOR, c.nonce, me.id, timeA);
    var signature := signer.Sign(transcript, answer);
    if signature.Err? {
      return Err(signature.error);
    }
    written := WriteMsg(conn.send, MutualResponse(signer.key, signature.value, timeA));
    if written.Err? {
      return Err(written.error);
    }
    if reason.Some? {
      var code := reason.value % U32_LIMIT;
      if code == CLOSE_ACCEPTED {
        return Ok(());
      } else if code == CLOSE_DENIED {
        return Err(Denied);
      }
    }
    r := Err(Transport);
  }

  /** The initiator side of the one-way handshake: it signs for any challenge of its version. */
  method OneWayHandshake(conn: Connection, me: Party, signer: InstitutionalSigner, sigs: set<Sig>, nonce: Nonce,
                         now: u64, answer: Result<Bytes>, reason: Option<nat>) returns (r: AuthResult)
    requires signer.key == me.oneWay.key
    modifies conn.send, conn.recv, signer
    ensures r == InitiatorRun(OneWayAuth, me, sigs, conn.remoteId, old(conn.recv.rest), nonce, now, now, answer, reason)
    ensures signer.asked == old(signer.asked)
                            + InitiatorAsks(OneWayAuth, me, sigs, conn.remoteId, old(conn.recv.rest), nonce, now, now)
    ensures conn.send.sent
            == old(conn.send.sent)
               + InitiatorSends(OneWayAuth, me, sigs, conn.remoteId, old(conn.recv.rest), nonce, now, now, answer)
  {
    hide Encode, Decode, StatementBytes, ReadFrame;
    var written := WriteMsg(conn.send, Hello(OneWayAuth, nonce));
    var challenge := ReadMsg(conn.recv, KServerChallenge, MAX_MSG);
    if challenge.Err? {
      return Err(challenge.error);
    }
    if challenge.value.version != PROTOCOL_VERSION {
      return Err(Version(challenge.value.version));
    }
    var transcript := BuildTranscript(challenge.value.nonce, me.id, now);
    var signature := signer.Sign(transcript, answer);
    if signature.Err? {
      return Err(signature.error);
    }
    written := WriteMsg(conn.send, ClientAuth(signer.key, signature.value, now));
    if written.Err? {
      return Err(written.error);
    }
    if reason.Some? {
      var code := reason.value % U32_LIMIT;
      if code == CLOSE_ACCEPTED {
        return Ok(());
      } else if code == CLOSE_DENIED {
        return Err(Denied);
      }
    }
    r := Err(Transport);
  }
}
