/** What each side of a handshake makes of everything it can receive, outcome by outcome and in plain terms: versions and
    codes as numbers, windows as inequalities, signatures as the bytes they are on. */
module Outcomes {
  import opened Types
  import opened Wire
  import opened Transcripts
  import opened Verifier
  import opened Handshake

  lemma InTimeMeans(max: Option<u64>, now: u64, claimed: u64)
    ensures InTime(max, now, claimed) <==> (max.Some? ==> now - max.value <= claimed <= now + max.value)
  {
  }

  lemma VerifiesMeans(roster: Keys, sigs: set<Sig>, key: Bytes, statement: Statement, signature: Bytes)
    ensures Verifies(roster, sigs, key, statement, signature)
            <==> key in roster && Sig(key, StatementBytes(statement), signature) in sigs
  {
    hide StatementBytes;
  }

  lemma InitiatorSignsOver(mode: Mode, nonce: Nonce, id: Id, time: u64)
    ensures StatementBytes(InitiatorStatement(mode, nonce, id, time))
            == if mode.OneWayAuth? then Transcript(nonce, id, time) else MutualTranscript(1, nonce, id, time)
    ensures StatementBytes(AcceptorStatement(nonce, id, time)) == MutualTranscript(2, nonce, id, time)
  {
    hide Transcript, MutualTranscript;
  }

  /** The judgement of a proof, exactly: a window missed is reported first, then an untrusted key or a bad signature. */
  lemma ProofOutcomes(mode: Mode, me: Party, sigs: set<Sig>, remote: Id, challenge: Message, proof: Message, now: u64)
    requires if mode.OneWayAuth? then challenge.ServerChallenge? && proof.ClientAuth?
             else challenge.MutualChallenge? && proof.MutualResponse?
    ensures var r := JudgeProof(mode, me, sigs, remote, challenge, Ok(proof), now);
            var s := if mode.OneWayAuth? then me.oneWay else me.mutual;
            var clock := if mode.OneWayAuth? then challenge.time else now;
            var signed := if mode.OneWayAuth? then Transcript(challenge.nonce, remote, proof.time)
                          else MutualTranscript(1, challenge.nonce, remote, proof.time);
            r == if s.maxSkew.Some? && !(clock - s.maxSkew.value <= proof.time <= clock + s.maxSkew.value) then Err(ClockSkew)
                 else if proof.key in s.roster && Sig(proof.key, signed, proof.signature) in sigs then Ok(remote)
                 else Err(Denied)
  {
    hide InTime, Verifies, StatementBytes, InitiatorStatement, Transcript, MutualTranscript;
    var s := me.For(mode);
    InTimeMeans(s.maxSkew, if mode.OneWayAuth? then challenge.time else now, proof.time);
    VerifiesMeans(s.roster, sigs, proof.key, InitiatorStatement(mode, challenge.nonce, remote, proof.time), proof.signature);
    InitiatorSignsOver(mode, challenge.nonce, remote, proof.time);
  }

  /** The judgement of a challenge, exactly; a one-way initiator looks at the version alone. */
  lemma ChallengeOutcomes(mode: Mode, me: Party, sigs: set<Sig>, peer: Id, nonce: Nonce, challenge: Message, now: u64)
    requires if mode.OneWayAuth? then challenge.ServerChallenge? else challenge.MutualChallenge?
    ensures var r := JudgeChallenge(mode, me, sigs, peer, nonce, Ok(challenge), now);
            r == if challenge.version != 0 then Err(Version(challenge.version))
                 else if mode.OneWayAuth? then Ok(challenge)
                 else if !(now - 300 <= challenge.time <= now + 300) then Err(ClockSkew)
                 else if challenge.key in me.mutual.roster
                         && Sig(challenge.key, MutualTranscript(2, nonce, peer, challenge.time), challenge.signature) in sigs
                 then Ok(challenge)
                 else Err(Denied)
  {
    hide InTime, Verifies, StatementBytes, AcceptorStatement, Transcript, MutualTranscript;
    if mode.MutualAuth? {
      InTimeMeans(INITIATOR_MAX_SKEW, now, challenge.time);
      VerifiesMeans(me.mutual.roster, sigs, challenge.key, AcceptorStatement(nonce, peer, challenge.time), challenge.signature);
      InitiatorSignsOver(mode, nonce, peer, challenge.time);
    }
  }

  /** Every result of an acceptor that is sent a whole greeting and a whole proof, whatever they hold and whatever follows. */
  lemma AcceptorOutcomes(mode: Mode, me: Party, local: Option<Id>, sigs: set<Sig>, remote: Id, hello: Message, proof: Message,
                         tail: Bytes, nonce: Nonce, sent: u64, signed: Result<Bytes>, received: u64)
    requires if mode.OneWayAuth? then hello.ClientHello? && proof.ClientAuth? else hello.MutualHello? && proof.MutualResponse?
    requires |Encode(hello)| <= 16384 && |Encode(proof)| <= 16384
    requires mode.MutualAuth? && signed.Ok? ==> |Encode(MutualChallenge(0, nonce, me.mutual.key, signed.value, sent))| < U32_LIMIT
    ensures var r := AcceptorRun(mode, me, local, sigs, remote, Frame(hello) + Frame(proof) + tail, nonce, sent, signed, received);
            var s := if mode.OneWayAuth? then me.oneWay else me.mutual;
            var clock := if mode.OneWayAuth? then sent else received;
            var over := if mode.OneWayAuth? then Transcript(nonce, remote, proof.time)
                        else MutualTranscript(1, nonce, remote, proof.time);
            r == if mode.MutualAuth? && local.None? then Err(Signer)
                 else if hello.version != 0 then Err(Version(hello.version))
                 else if mode.MutualAuth? && signed.Err? then Err(signed.error)
                 else if s.maxSkew.Some? && !(clock - s.maxSkew.value <= proof.time <= clock + s.maxSkew.value) then Err(ClockSkew)
                 else if proof.key in s.roster && Sig(proof.key, over, proof.signature) in sigs then Ok(remote)
                 else Err(Denied)
  {
    hide Encode, Frame, ReadFrame, JudgeProof, Transcript, MutualTranscript;
    var incoming, rest := Frame(hello) + Frame(proof) + tail, Frame(proof) + tail;
    assert incoming == Frame(hello) + rest;
    FrameRoundTrip(hello, rest, MAX_MSG);
    FrameRoundTrip(proof, tail, MAX_MSG);
    assert incoming[|Frame(hello)|..] == rest;
    OneWayChallengeIsSmall(nonce, sent);
    var challenge := if mode.OneWayAuth? then ServerChallenge(0, nonce, sent)
                     else MutualChallenge(0, nonce, me.mutual.key, if signed.Ok? then signed.value else [], sent);
    ProofOutcomes(mode, me, sigs, remote, challenge, proof, received);
  }

  lemma OneWayChallengeIsSmall(nonce: Nonce, time: u64)
    ensures |Encode(ServerChallenge(0, nonce, time))| < U32_LIMIT
  {
    VarintLengthU64(time);
  }

  /** And of one that is not: without its id (mutual) it fails before it reads; else with what the reading fails with. */
  lemma AcceptorUnreadable(mode: Mode, me: Party, local: Option<Id>, sigs: set<Sig>, remote: Id, incoming: Bytes,
                           nonce: Nonce, sent: u64, signed: Result<Bytes>, received: u64)
    ensures var r := AcceptorRun(mode, me, local, sigs, remote, incoming, nonce, sent, signed, received);
            var hello := ReadFrame(if mode.OneWayAuth? then KClientHello else KMutualHello, incoming, 16384);
            && (mode.MutualAuth? && local.None? ==> r == Err(Signer))
            && (mode.OneWayAuth? || local.Some? ==>
                  && (hello.Bad? ==> r == Err(hello.error))
                  && (hello.NeedMore? ==> r == Err(Transport)))
  {
    hide ReadFrame, JudgeProof;
  }

  lemma AcceptorUnreadableProof(mode: Mode, me: Party, local: Option<Id>, sigs: set<Sig>, remote: Id, hello: Message,
                                rest: Bytes, nonce: Nonce, sent: u64, signed: Result<Bytes>, received: u64)
    requires if mode.OneWayAuth? then hello == ClientHello(0) else hello.MutualHello? && hello.version == 0 && local.Some?
    requires |Encode(hello)| <= 16384
    requires mode.MutualAuth? ==>
               signed.Ok? && |Encode(MutualChallenge(0, nonce, me.mutual.key, signed.value, sent))| < U32_LIMIT
    ensures var r := AcceptorRun(mode, me, local, sigs, remote, Frame(hello) + rest, nonce, sent, signed, received);
            var proof := ReadFrame(if mode.OneWayAuth? then KClientAuth else KMutualResponse, rest, 16384);
            && (proof.Bad? ==> r == Err(proof.error))
            && (proof.NeedMore? ==> r == Err(Transport))
  {
    hide Encode, Frame, ReadFrame, InTime, Verifies;
    FrameRoundTrip(hello, rest, MAX_MSG);
    OneWayChallengeIsSmall(nonce, sent);
    assert (Frame(hello) + rest)[|Frame(hello)|..] == rest;
  }

  /** Every result of an initiator that is sent a whole challenge, whatever it holds, whatever follows, and however the
      connection ends. */
  lemma InitiatorOutcomes(mode: Mode, me: Party, sigs: set<Sig>, peer: Id, challenge: Message, tail: Bytes, nonce: Nonce,
                          received: u64, sent: u64, signed: Result<Bytes>, reason: Option<nat>)
    requires if mode.OneWayAuth? then challenge.ServerChallenge? else challenge.MutualChallenge?
    requires |Encode(challenge)| <= 16384
    requires signed.Ok? ==> |Encode(ClientAuth(me.For(mode).key, signed.value, sent))| < U32_LIMIT
    ensures var r := InitiatorRun(mode, me, sigs, peer, Frame(challenge) + tail, nonce, received, sent, signed, reason);
            r == if challenge.version != 0 then Err(Version(challenge.version))
                 else if mode.MutualAuth? && !(received - 300 <= challenge.time <= received + 300) then Err(ClockSkew)
                 else if mode.MutualAuth?
                         && !(challenge.key in me.mutual.roster
                              && Sig(challenge.key, MutualTranscript(2, nonce, peer, challenge.time), challenge.signature) in sigs)
                 then Err(Denied)
                 else if signed.Err? then Err(signed.error)
                 else if reason.Some? && reason.value % 0x1_0000_0000 == 1 then Ok(())
                 else if reason.Some? && reason.value % 0x1_0000_0000 == 403 then Err(Denied)
                 else Err(Transport)
  {
    hide Frame, ReadFrame, JudgeChallenge, Transcript, MutualTranscript, PutBytes, Varint;
    FrameRoundTrip(challenge, tail, MAX_MSG);
    ChallengeOutcomes(mode, me, sigs, peer, nonce, challenge, received);
  }

  /** And of one that is not. */
  lemma InitiatorUnreadable(mode: Mode, me: Party, sigs: set<Sig>, peer: Id, incoming: Bytes, nonce: Nonce,
                            received: u64, sent: u64, signed: Result<Bytes>, reason: Option<nat>)
    ensures var r := InitiatorRun(mode, me, sigs, peer, incoming, nonce, received, sent, signed, reason);
            var challenge := ReadFrame(if mode.OneWayAuth? then KServerChallenge else KMutualChallenge, incoming, 16384);
            && (challenge.Bad? ==> r == Err(challenge.error))
            && (challenge.NeedMore? ==> r == Err(Transport))
  {
    hide ReadFrame;
  }

  /** What each side writes, message by message: nothing but a challenge and nothing but a greeting and a proof. */
  lemma WhatIsWritten(mode: Mode, me: Party, local: Option<Id>, sigs: set<Sig>, peer: Id, incoming: Bytes, nonce: Nonce,
                      received: u64, sent: u64, signed: Result<Bytes>)
    ensures var hello := if mode.OneWayAuth? then ClientHello(0) else MutualHello(0, nonce);
            |Encode(hello)| < U32_LIMIT
            && (InitiatorAccepts(mode, me, sigs, peer, incoming, nonce, received).Err? || signed.Err? ==>
                  InitiatorSends(mode, me, sigs, peer, incoming, nonce, received, sent, signed) == Frame(hello))
            && (InitiatorAccepts(mode, me, sigs, peer, incoming, nonce, received).Ok? && signed.Ok? ==>
                  var proof := if mode.OneWayAuth? then ClientAuth(me.oneWay.key, signed.value, sent)
                               else MutualResponse(me.mutual.key, signed.value, sent);
                  |Encode(proof)| < U32_LIMIT ==>
                    InitiatorSends(mode, me, sigs, peer, incoming, nonce, received, sent, signed) == Frame(hello) + Frame(proof))
    ensures AcceptorChallenge(mode, me, local, incoming, nonce, sent, signed).Ok? ==>
              AcceptorChallenge(mode, me, local, incoming, nonce, sent, signed).value
              == if mode.OneWayAuth? then ServerChallenge(0, nonce, sent)
                 else MutualChallenge(0, nonce, me.mutual.key, if signed.Ok? then signed.value else [], sent)
  {
    hide ReadFrame, InitiatorAccepts, Frame;
    assert forall f: Bytes :: f + [] == f;
  }
}
