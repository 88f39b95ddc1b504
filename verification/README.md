# iroh-hyde-auth: protocol model and proofs

`iroh-hyde-auth` puts an institutional challenge-response in front of iroh connections. A one-way handshake
proves the dialling side to the accepting side; a mutual handshake proves both sides to each other; every node keeps
sets of authenticated peers that gate its application connections; and a background task runs one handshake per remote
however many dials wait for it. This project models all of that in Dafny, down to the bytes signed and framed, and
proves what authentication means across any number of honest and dishonest endpoints.

## How the model is built

| file | what it holds |
|---|---|
| `Types.dfy` | bytes, machine words, errors, big-endian words |
| `Wire.dfy` | the six messages, their postcard encoding, length-prefixed frames, streams |
| `Transcripts.dfy` | the byte strings that are signed |
| `Verifier.dfy` | the roster and the two verification back ends |
| `SshAgent.dfy` | the ssh-agent codec: cursor, strings, keys, choice of an identity, signing |
| `AuthTask.dfy` | the authenticator task as a state machine, and its per-request specification |
| `Tasks.dfy` | both tasks as objects updated in place, the shared peer set, the hooks |
| `Handshake.dfy` | every decision of both handshakes, as functions of the mode |
| `Outcomes.dfy` | every result of both handshakes in plain terms: numbers, inequalities, signed bytes |
| `Endpoints.dfy` | the four handshake procedures and both `accept` handlers as sequential code over streams |
| `Network.dfy` | the whole system: endpoints, connections, signatures, and all steps, interleaved |
| `ConnInvariant.dfy`, `WorldInvariant.dfy`, `StepInvariant.dfy` | the inductive invariant of the system |
| `Agreement.dfy` | agreement, binding, two-sidedness, gates, verdict ordering, symmetry |
| `Progress.dfy` | termination of handshakes, that no waiter is stuck, and that waiters are answered |
| `Completeness.dfy` | interleaved steps and sequential code agree; when an honest run succeeds, exactly |
| `NodeTraces.dfy` | each node's tasks inside the system are traces of the task machine |
| `HonestRun.dfy` | honest runs to success from any reachable state, and the asymmetry in mid-run |

Three layers meet. The code as it is written (`Tasks`, `Endpoints`, `SshAgent.Reader`, `Wire.ReadMsg` ...) is proved
equal to specification functions. The step system in `Network` is built from the same functions, and
`AcceptorStepsRunTheCode`, `InitiatorStepsRunTheCode` and `NodeTasksAreTraces` say that taking the steps one at a time,
with everything else in between, computes what the sequential code and the task computes. The theorems are about every
run of the step system.

In a run, an honest endpoint takes exactly the message steps of the code. An end whose id is not a configured party may
send any bytes, close with any code and use every signature that exists. Requests, handshake steps, completions, stops
of tasks, foreign dials and transport failures interleave freely, in both modes at once, on the same keys or different ones.

## Assumptions

- A connection has two authenticated ends: `conn.remote_id()` is the true id of the other end, and for a dialled
  connection it is the id that was dialled. The code relies on this: the initiator verifies `conn.remote_id()`
  (`src/mutual.rs:372`) but the task records `remote_addr.id` (`src/mutual.rs:325`).
- Messages on a connection arrive in order, or the connection fails. A failure may come at any time.
- Signatures are ideal: one that verifies under an honest key is on bytes that this key signed. Other signatures on the
  same bytes, and any signature under other keys, may appear (step `Forge`).
- Honest keys sign only where the code asks for it: `src/mutual.rs:194`, `src/mutual.rs:391`, `src/outgoing.rs:188`.
- A random nonce is never drawn twice by honest endpoints.
- An endpoint has its own key, roster and acceptor window in each mode; they may coincide. The mutual initiator's window is
  always the default of 300 seconds (`src/mutual.rs:92`), as nothing sets it.
- An endpoint may run both modes; a connection is asked of the hooks of its own mode only. The hook of one mode does not
  let the other mode's auth connections pass by their name (`OtherModesAlpn`); how a transport would combine the hooks of
  both on one endpoint is not part of the model.
- `Endpoint::id` is the endpoint's id as its peers see it, and an honest endpoint opens auth connections only from its task.

## What the code does where its documentation says otherwise

- `write_msg` does not enforce the message limit; only `read_msg` does (`src/wire.rs:166-189`). `ChallengeFits` gives the
  exact condition under which an honest message is never refused for its size.
- "Waiters in arrival order" holds for all who wait, in both modes. For all requests of a remote it holds exactly while
  no request arrives for a remote that is in the set and still waited for (`FifoExactly`): always in one-way mode
  (`OneWayFifo`), not always in mutual mode (`MutualOvertakes` is a trace).
- A remote that is waited for is in the peer set exactly if the acceptor side has recorded it (`OverlapExactly`): never in
  one-way mode (`OneWayDisjoint`), possibly in mutual mode (`MutualOverlap` is a trace).
- The acceptor's nonce is not covered by the acceptor's signature. That both nonces belong to one run follows from the
  connection: `InitiatorAgreement` and `AcceptorAgreement` are per connection.
- The two peer sets of a mutual pair are not equal at every instant (`AsymmetryIsReachable`). They differ exactly when one
  of the two does not hold the other and has not learnt of an acceptance by it (`SymmetricExactly`), which lasts only
  while that handshake is unsettled, or if its connection broke (`UnlearnedIsOutstanding`).
- A mutual node can therefore accept a dial that the honest remote's own gate then refuses
  (`AcceptedMutualDialCanBeRefused`). Whether it passes, in terms of handshakes, is exactly whether the remote has recorded
  the node on one; that no acceptance of the remote's own handshakes is unlearnt is sufficient, not necessary
  (`AcceptedMutualDialAtRemoteGate`). What the node can know by itself is sufficient too: once its own handshake with the
  remote has completed with success, every later dial passes (`CompletedPassesRemoteGate`), so a refused one rests on an
  entry made by its acceptor side alone (`RefusedDialWasInserted`). In one-way mode every accepted dial passes
  (`AcceptedDialPassesRemoteGate`).
- `src/verifier.rs:44` speaks of removing a key to revoke it; no operation removes one, and no verifier reports a revocation.

## Model

The rows run from the system-wide results through the task, the sequential code and the codecs to the small building blocks at the end.

| member | source | states |
|---|---|---|
| Agreement.AcceptorAgreement | src/mutual.rs:189-224 | In every reachable state of both modes, an acceptor that accepted a proof did so on a roster key's proof for a nonce it drew, dated within its window of the clock the mode compares; under an honest key, the remote is an honest endpoint with that key, which on this very connection answered this very challenge and signed for this acceptor's nonce and its own id |
| Agreement.InitiatorAgreement | src/mutual.rs:349-386 | In every reachable state, a mutual initiator that accepted a challenge did so on a roster key's signature for a nonce it drew, dated within 300 seconds of its clock; under an honest key, the dialled endpoint is honest, sent that challenge on this connection in answer to this initiator's own greeting, and signed there for that nonce and its own id |
| Agreement.NoReplay | src/wire.rs:146-164 | Agreement is injective: no two verifications by honest endpoints, in any modes, roles or connections, are of the same signed bytes |
| Agreement.SessionBinding | src/wire.rs:81-101 | Whatever an honest run signed that could count for a verification was signed for exactly the mode, role, nonce, id and time verified, in a run of that mode and role at that endpoint, although honest endpoints sign for any nonce they are sent |
| Agreement.HonestSignature | src/mutual.rs:214-222 | A signature verifying under an honest key was made for exactly the verified statement, by the honest endpoint the statement names |
| Agreement.RecordedMeansVerifiedBack | src/mutual.rs:379-400 | Two-sidedness: an acceptor that recorded an honest initiator had been verified by it, under the acceptor's own roster key, bound to the acceptor's true id, on that connection; an initiator that refuses the acceptor is never recorded by that run |
| Agreement.MutualGateSafety | src/mutual.rs:141-156 | Any application connection a mutual node's gate admits, at any time, comes from a remote that proved itself by a roster signature bound to its id and a nonce this node drew |
| Agreement.IncomingGateSafety | src/incoming.rs:56-71 | The same for a one-way acceptor's gate |
| Agreement.MutualMembersAreListed | src/mutual.rs:141-156 | If a mutual node's roster lists honest keys only, its gate admits, at any time, only honest endpoints whose own mutual key is on that roster |
| Agreement.IncomingMembersAreListed | src/incoming.rs:56-71 | The same for a one-way acceptor, with the key its dialler signs with |
| Agreement.AcceptedDialsAreMembers | src/mutual.rs:293-302 | A success is only ever sent for a remote in the dialling side's set; on a mutual node its own inbound gate then admits that remote too |
| Agreement.AcceptanceMeansRecorded | src/mutual.rs:230-238 | Record before close, both modes, whoever dialled: when an honest acceptor's connection is closed with acceptance, its set already holds the initiator |
| Agreement.SettledMeansRecorded | src/mutual.rs:403-411 | Both modes: once an initiator has learnt of success from an honest acceptor, that acceptor's set already holds the initiator |
| Agreement.CachedMeansRecorded | src/outgoing.rs:150-153 | One-way: every honest acceptor in an initiator's cache already admits that initiator |
| Agreement.AcceptedDialPassesRemoteGate | src/outgoing.rs:72-90 | One-way: a dial accepted by `before_connect` towards an honest acceptor passes that acceptor's gate at every later time |
| NodeTraces.AcceptedDialIsLetIn | src/outgoing.rs:72-90 | One-way: an application dial that the hook accepted towards an honest acceptor is let in by that acceptor's hook, whenever later it arrives |
| NodeTraces.AcceptedMutualDialIsLetInHere | src/mutual.rs:121-156 | Mutual: the node's own inbound hook lets in, at any later time, the remote of a dial that its outbound hook accepted |
| NodeTraces.AcceptedDialIsHeld | src/mutual.rs:121-139 | Both modes: the remote of an application dial that the hook accepted is in the dialling side's set |
| Agreement.AcceptedMutualDialAtRemoteGate | src/mutual.rs:121-156 | Mutual: a dial accepted by `before_connect` towards an honest remote, whenever later it arrives, passes there if and only if the remote has recorded the dialler on some handshake, and in particular if no acceptance of the remote's own handshakes is unlearnt |
| NodeTraces.CompletedPassesRemoteGate | src/mutual.rs:319-326 | Both modes: once a node's own handshake with an honest remote has completed with success, by the node's own events, that remote's gate admits it at every later time |
| NodeTraces.RefusedDialWasInserted | src/mutual.rs:293-302 | Mutual: an accepted dial that an honest remote's gate refuses rests on an entry made by the node's acceptor side, with no successful handshake of its own |
| Agreement.SetsGrow | src/incoming.rs:131-148 | Over any continuation of any run, no peer set loses a member |
| Agreement.HeldOneSided | src/mutual.rs:230-238 | In any run, while an honest node does not hold another, that other holds it if and only if it accepted a handshake of the node whose success the node has not handled |
| Agreement.SymmetricExactly | src/mutual.rs:319-332 | Symmetry of two honest mutual nodes, for any interleaving including cross-dials, if and only if each that has an unlearnt acceptance by the other holds the other anyway |
| Agreement.UnlearnedIsOutstanding | src/mutual.rs:230-238 | An acceptance is unlearnt only while its handshake is unsettled, or if its connection broke |
| Agreement.RecordedBack | src/mutual.rs:230-238 | If an honest mutual node holds another and no handshake dialled by that other to it is outstanding, it is held in return |
| Agreement.SymmetricWhenQuiet | src/mutual.rs:319-332 | So when no handshake between two honest mutual nodes is outstanding, each holds the other or neither does |
| HonestRun.MidRunAsymmetry | src/mutual.rs:403-411 | From any state with a fresh handshake between compatible honest mutual endpoints, one is reached where the acceptor holds the initiator and the initiator still does not hold the acceptor |
| HonestRun.HonestHandshakeCompletes | src/mutual.rs:336-414 | From any reachable state, a fresh handshake between compatible honest endpoints, in either mode, has an eight-step continuation after which each side's set holds the other |
| HonestRun.FirstContact | src/mutual.rs:121-332 | From the start, in either mode, one request brings any two endpoints that meet the conditions of `HonestRunExactly` to a state where each side's set holds the other, the application dial it was made for is accepted by the hook here, and let in by the hook there; the auth connection itself passes both hooks on the way |
| HonestRun.AsymmetryIsReachable | src/mutual.rs:230-238 | Symmetry does fail in mid-run: for any two such mutual endpoints a state is reachable in which the acceptor holds the initiator and not the reverse |
| HonestRun.AcceptedMutualDialCanBeRefused | src/mutual.rs:293-302 | For any two compatible mutual endpoints a state is reachable in which a dial that one's hook accepts is refused by the other's |
| StepInvariant.RunsKeepInv | src/mutual.rs:178-414 | Every run of any interleaving keeps the global invariant: what each end accepted it verified, signatures come from signing runs, nonces are distinct, sets hold exactly the admitted peers, waiters match handshakes in flight |
| StepInvariant.StepKeepsInv | src/mutual.rs:271-332 | Each single step of any participant keeps it |
| StepInvariant.HaltKeepsInv | src/util.rs:18-35 | A task that stops, at any time, leaves nobody waiting and nothing in flight, and keeps what was recorded |
| NodeTraces.NodeTasksAreTraces | src/mutual.rs:271-284 | In every run of the system, each node's task state is what the task machine makes of the events that reached that node, stops included |
| NodeTraces.OneWayTasksAreAlone | src/outgoing.rs:93-101 | Nothing but the one-way task itself adds to its cache |
| NodeTraces.RequestsInTheSystem | src/mutual.rs:286-332 | Every request a node receives stands exactly where its verdict says, under every interleaving with handshakes, with peers recorded by its acceptor side and with a stop of the task |
| AuthTask.TaskRefinesVerdicts | src/mutual.rs:286-332 | Refinement: on every trace each request has been sent, exactly once, Ok if its remote was admitted before it, else the result of the first handshake for that remote to complete after it; or it waits exactly once; or the task stopped |
| AuthTask.WaitersInArrivalOrder | src/outgoing.rs:154-158 | Both modes: the list kept for a remote is exactly its unanswered requests in arrival order |
| AuthTask.Conservation | src/mutual.rs:319-332 | Requests received for a remote are those answered plus those unanswered, as multisets, on every trace |
| AuthTask.FifoExactly | src/mutual.rs:286-332 | Both modes, through any stop: the replies for a remote followed by those without one are the arrivals in order if and only if no request arrived for a remote both in the set and waited for |
| AuthTask.OneWayFifo | src/outgoing.rs:125-159 | One-way: that condition always holds, so per remote the replies followed by the waiters are the arrivals in order |
| AuthTask.MutualOvertakes | src/mutual.rs:293-302 | Mutual: a concrete trace on which it fails and a later request is answered first |
| AuthTask.AbandonedOnlyAfterStop | src/mutual.rs:106-117 | A request goes without a result only if the task stopped |
| AuthTask.TaskInvariant | src/outgoing.rs:131-159 | On every trace the handshakes in flight are duplicate-free and are exactly the waiting keys, no waiting list is empty, and the set holds exactly the remotes admitted so far |
| AuthTask.OverlapExactly | src/mutual.rs:303-316 | Both modes: a remote that is waited for is in the set if and only if the acceptor side has recorded it |
| AuthTask.OneWayDisjoint | src/outgoing.rs:150-154 | One-way: nobody waits for a cached remote |
| AuthTask.MutualOverlap | src/mutual.rs:303-316 | Mutual: a remote can be in the set and waited for at once |
| AuthTask.HandshakesCounted | src/mutual.rs:303-326 | Both modes: handshakes started for a remote are those completed plus the one in flight, and at most one ever succeeds |
| AuthTask.OneWayHandshakesCounted | src/outgoing.rs:136-153 | One-way: started = failed + in flight + cached, for every remote |
| Tasks.OutgoingAuthTask.HandleRequest | src/outgoing.rs:125-148 | The object's new state is the machine's request step on its old one |
| Tasks.OutgoingAuthTask.HandleCompletion | src/outgoing.rs:150-159 | The object's new state, with every reply sent, is the machine's completion step |
| Tasks.OutgoingAuthTask.Run | src/outgoing.rs:110-123 | The loop ends in the state of the machine on the arms received |
| Tasks.MutualAuthTask.HandleRequest | src/mutual.rs:286-317 | The same for the mutual task over the shared set |
| Tasks.MutualAuthTask.HandleCompletion | src/mutual.rs:319-332 | The same, inserting into the shared set |
| Tasks.MutualAuthTask.Spawn | src/mutual.rs:265-284 | Publishes the id once, then ends in the state of the machine on the arms received and the insertions made by the acceptor side |
| Tasks.AcceptedDialIsAdmitted | src/mutual.rs:121-156 | A dial `before_connect` accepts goes to a remote that some handshake admitted, and the node's own `after_handshake` admits it too |
| Tasks.ApplicationDialExactly | src/mutual.rs:121-139 | On every trace, an application dial with a verdict is accepted if and only if its remote was in the set when it was requested, or the first handshake with it to complete after that succeeded, before any stop |
| AuthTask.VerdictIsSeen | src/mutual.rs:106-117 | What the awaiting hook sees on its channel is the request's verdict at every moment |
| Tasks.HookOutcomes | src/mutual.rs:121-156 | What each hook lets pass, exactly: the auth protocol's name, a granted request, a member of the set |
| Tasks.AuthenticateOutcomes | src/outgoing.rs:57-68 | What the caller gets: success, a denial for any failure, or `AuthenticatorStopped` exactly when the channel was dropped |
| Progress.HandshakeStepsBounded | src/mutual.rs:271-284 | Termination: in any run, handshake steps and completions number at most eight per request or foreign dial |
| Progress.WaiterIsNotStuck | src/mutual.rs:271-284 | While a node waits for an honest remote, its own handshake with it can take a step, with no fault and whatever clocks and signers say |
| Progress.NobodyWaitsAtTheEnd | src/mutual.rs:319-332 | In a reachable state where no handshake step is possible and a nonce is unused, nobody waits for an honest remote |
| Progress.WaitersAreEventuallyAnswered | src/mutual.rs:271-332 | Liveness: in every endless run that is weakly fair to handshakes and never out of nonces, whoever waits for an honest remote is in the end sent the result of the handshake waited for, in arrival order, unless the task stops |
| Progress.EventuallySettles | src/mutual.rs:271-284 | In every such run every handshake between honest ends is settled in the end |
| Progress.WaitersAreAnswered | src/mutual.rs:319-332 | In every continuation, whatever else happens and whoever the remote is: once the handshake a node waits for is settled, all who waited have since been sent that handshake's result, in arrival order, or the task has stopped |
| Progress.WaitersAreAnsweredAtTheEnd | src/mutual.rs:319-332 | With an honest remote: where no step of the handshake waited for is possible and a nonce is unused, all who waited have been answered or the task has stopped |
| Progress.HandshakeRunsOut | src/mutual.rs:271-284 | In every continuation the handshake steps on a connection are bounded by what was left of it; those who waited on it wait, first in line, exactly as long as it is unsettled, and then have been sent its result, unless the task stopped |
| Tasks.InterceptedDialDeadlocks | src/outgoing.rs:77-80 | Why auth dials bypass the hook: if the task's own dial had to wait for its verdict, on no trace could a handshake with that remote complete, and dial and waiters would wait for as long as the task runs |
| Progress.WaitersCanBeAnswered | src/mutual.rs:319-332 | From every reachable state handshake steps alone can end a wait for an honest remote: all who wait get the one result, in order, whatever clocks and signers say |
| Progress.BrokenConnectionReleases | src/mutual.rs:343-347 | Once the connection of a handshake waited for is broken, two steps of the waiting node at most answer all its waiters, whoever the remote is |
| Progress.SettleAnswers | src/mutual.rs:327-331 | Handling a completion answers all waiters of its remote in order and leaves all others waiting |
| Completeness.AcceptorStepsRunTheCode | src/mutual.rs:178-247 | The acceptor's readings, with anything arriving between, are followed exactly as in the sequential code on all bytes received: on acceptance it can only record, and only then close with acceptance; else it closes with denial and records nobody |
| Completeness.AcceptorAnswersAsTheCode | src/mutual.rs:178-205 | Its step on the greeting writes, and puts to the signer, exactly what the sequential handshake does |
| Completeness.AcceptorFailsAsTheCode | src/mutual.rs:178-247 | An acceptor that fails before it has read a whole proof closes as the sequential code does when the connection ends after the bytes read, and records nobody |
| Completeness.InitiatorStepsRunTheCode | src/mutual.rs:336-414 | The initiator's steps write, put to the signer and return exactly what the sequential handshake does on all bytes received, whether the connection ends by any application close or by a fault |
| Completeness.InitiatorStartsAsTheCode | src/mutual.rs:343-358 | The greeting is what the code writes first, and a failure before a challenge returns what the code does |
| Completeness.HonestRunExactly | src/incoming.rs:91-127 | Both modes: an honest run succeeds at both ends if and only if each side trusts the key it must verify, the times are within the windows, the acceptor's id is published and the assertions fit a message |
| Completeness.HonestRunIsFresh | src/incoming.rs:99-116 | If clocks differ by at most d and the relevant delay is at most s, with d + s within the windows the mode checks, no honest run fails for its times; the interval is the acceptor's challenge to the proof (one-way) or signature to receipt (mutual) |
| Completeness.HonestRunFits | src/wire.rs:50-54 | A key and signature of at most 16337 bytes together fit in every assertion their mode sends |
| Completeness.HonestRunSucceeds | src/mutual.rs:178-225 | So endpoints that list each other, with such clocks and sizes, always authenticate |
| Outcomes.AcceptorOutcomes | src/incoming.rs:91-127 | Every result of an acceptor of either mode that is sent a whole greeting and a whole proof, whatever they hold: id unset, version, signer, window, denial or acceptance, in that order |
| Outcomes.InitiatorOutcomes | src/mutual.rs:349-414 | Every result of an initiator of either mode that is sent a whole challenge, whatever it holds and however the connection ends: version, 300-second window, denial, signer, and the close codes 1 and 403 modulo 32 bits |
| Outcomes.AcceptorUnreadable | src/mutual.rs:178-187 | An acceptor fails with what reading the greeting fails with, and without its id before it reads at all |
| Outcomes.AcceptorUnreadableProof | src/incoming.rs:111 | After a good greeting it fails with what reading the proof fails with |
| Outcomes.InitiatorUnreadable | src/mutual.rs:361 | An initiator fails with what reading the challenge fails with |
| Outcomes.ProofOutcomes | src/mutual.rs:207-224 | The judgement of a proof: the window first, as inequalities, then roster and signature over the transcript bytes of its mode and role |
| Outcomes.ChallengeOutcomes | src/mutual.rs:361-385 | The judgement of a challenge: version, window, roster and signature over the acceptor's transcript bytes |
| Outcomes.WhatIsWritten | src/mutual.rs:196-206 | Each side writes its messages and nothing else, field by field |
| Endpoints.MutualAuthProtocol.Handshake | src/mutual.rs:178-225 | Result, bytes sent and statements put to the signer, for every input stream, signer answer and clock |
| Endpoints.MutualAuthProtocol.Accept | src/mutual.rs:228-247 | The remote is recorded exactly on success, the close code says which, and the shared set already holds the remote when it is told that it was accepted |
| Endpoints.AuthProtocol.RunHandshake | src/incoming.rs:91-127 | Success or the error, the institution named by the roster for the key in the proof, and the bytes sent, for every input stream; no clock but the challenge's matters |
| Endpoints.AuthProtocol.Accept | src/incoming.rs:130-150 | The remote is recorded exactly on success, the close code says which, and the shared set already holds the remote when it is told that it was accepted |
| Endpoints.MutualHandshake | src/mutual.rs:336-414 | Result, bytes sent, statements put to the signer, and an immediate denial without signing on a refused challenge |
| Endpoints.OneWayHandshake | src/outgoing.rs:163-211 | Result, bytes sent and statements put to the signer; any challenge of the right version is signed for |
| Transcripts.StatementsInjective | src/wire.rs:89-101 | Equal signed bytes mean equal mode, role, nonce, id and time, over both transcript forms |
| Transcripts.ModesDisjoint | src/wire.rs:150-164 | The domain tags alone keep the modes apart: no transcript of one, however extended, is one of the other, however extended |
| Wire.StreamRoundTrip | src/wire.rs:166-189 | A stream of frames of any mix of the six message types is read back exactly, consuming exactly its bytes, whatever follows |
| Wire.FrameRoundTrip | src/wire.rs:175-189 | A frame is read back as its message exactly when within the limit, and otherwise refused with its length |
| Wire.ReadFrameExactly | src/wire.rs:175-189 | On arbitrary bytes: wait, refuse for size, fail to decode, or yield the message, exactly when |
| Wire.FramePrefix | src/wire.rs:180-187 | A proper prefix of a frame never yields a message or a decoding error |
| Wire.ReadFrameStable | src/wire.rs:180-188 | A decision once made does not change as more bytes arrive |
| Wire.DecodeEncode | src/wire.rs:56-144 | Decoding inverts encoding for every message, whatever follows |
| Wire.EncodeFields | src/wire.rs:56-144 | Where each field of each of the six encodings stands |
| Wire.VarintRoundTrip | src/wire.rs:166-189 | A varint is read back, with its length, for every u64 |
| Wire.VarintExactly | src/wire.rs:166-189 | On arbitrary bytes, a u64 is read exactly where at most ten bytes of a varint stand whose value fits |
| Wire.VarintLength | src/wire.rs:128-135 | A varint takes at most n bytes exactly for values below 128 to the n |
| Wire.ChallengeFits | src/wire.rs:128-135 | The exact condition under which a mutual challenge is within the limit for every timestamp |
| Wire.ChallengeSizeBound | src/wire.rs:50-54 | 16337 bytes of key and signature always fit, and no larger total always does once both need two-byte lengths |
| Wire.WriteMsg | src/wire.rs:167-173 | Appends the frame, and refuses only what 32 bits cannot measure |
| Wire.ReadMsg | src/wire.rs:176-189 | Returns what the frame reader makes of the stream, and consumes exactly the frame on success |
| SshAgent.SelectFindsFirst | src/ssh_agent.rs:62-89 | For every well-formed identities reply, the choice is exactly the first entry that is an ed25519 key blob of the wanted key (or of any, if none is wanted), with that key, and fails exactly when there is none |
| SshAgent.SelectExactly | src/ssh_agent.rs:66-88 | On arbitrary bytes, the choice is exactly the last of some entries listed first in an identities reply, of which it alone is an ed25519 key and the wanted one |
| SshAgent.SignatureExactly | src/ssh_agent.rs:106-118 | On arbitrary bytes, the signature taken from a reply is exactly one that the nested encoding carries |
| SshAgent.StringExactly | src/ssh_agent.rs:238-241 | On arbitrary bytes, a field is read exactly where a length-prefixed string stands |
| SshAgent.KeyExactly | src/ssh_agent.rs:196-205 | On arbitrary bytes, a key is found exactly in a key blob of that key |
| SshAgent.ChooseFindsFirst | src/ssh_agent.rs:73-85 | The same of the loop over parsed entries |
| SshAgent.Connect | src/ssh_agent.rs:66-88 | On arbitrary bytes, the loop with its cursor computes the specified selection |
| SshAgent.StringRoundTrip | src/ssh_agent.rs:191-194 | A string is read back wherever it stands if and only if its length fits 32 bits |
| SshAgent.KeyBlobRoundTrip | src/ssh_agent.rs:196-205 | A blob of two strings is a key exactly when the first names ed25519 and the second has 32 bytes |
| SshAgent.ParseEd25519PublicKey | src/ssh_agent.rs:197-205 | On arbitrary bytes, computes the specified key or none |
| SshAgent.SignRequestReadsBack | src/ssh_agent.rs:100-103 | An agent that parses the request finds exactly the key and the message |
| SshAgent.ParseSignReply | src/ssh_agent.rs:107-118 | On arbitrary bytes, computes the specified signature or failure |
| SshAgent.SignReplyRoundTrip | src/ssh_agent.rs:111-118 | The nested reply is inverted, and any other signature type refused |
| Tasks.Shared.SetLocalId | src/mutual.rs:265-267 | Only the first id set is kept |
| Endpoints.AcceptorRunNamesRemote | src/mutual.rs:214-224 | A successful run names the transport's remote id and nothing the peer claimed |
| Verifier.BackendsAgree | src/verifier.rs:110-131 | The ssh verifier is the hyde verifier under one ideal outcome of its scheme, on every input: trusted exactly for a listed key with a valid signature, and labelled as listed; never revoked |
| Verifier.Roster.Insert | src/verifier.rs:57-60 | Changes the verdict on the inserted key only, to its label |
| SshAgent.Reader.Take | src/ssh_agent.rs:218-227 | Success advances by exactly n; failure leaves the cursor where it was |
| SshAgent.Reader.U8 | src/ssh_agent.rs:229-231 | One byte, or failure at the end with the cursor unmoved |
| SshAgent.Reader.U32 | src/ssh_agent.rs:233-236 | Four bytes big-endian, or failure with the cursor unmoved |
| SshAgent.Reader.String | src/ssh_agent.rs:238-241 | Success advances over length and field; a field cut short consumes its length only |
| SshAgent.PutString | src/ssh_agent.rs:191-194 | Appends the length modulo 2 to the 32 and the bytes |
| SshAgent.BuildSignRequest | src/ssh_agent.rs:100-103 | The request is the tag, the two strings and four zero bytes |
| Transcripts.BuildTranscript | src/wire.rs:94-100 | Appending field by field builds the one-way statement's bytes |
| Transcripts.BuildMutualTranscript | src/wire.rs:156-163 | The same for the mutual statement |
| Transcripts.TranscriptFields | src/wire.rs:36-43 | Lengths 114 and 108, and where each byte stands: tag, version 0, role, nonce, id, time |
| Types.BigEndianRoundTrip | src/wire.rs:169-182 | Big-endian words are read back, at every width |
| Transcripts.TagsBeginAlike | src/wire.rs:36-37 | The two tags share their first 18 bytes |
| Transcripts.OneWayTagEnds | src/wire.rs:36-37 | The rest of the one-way tag, byte for byte |
| Transcripts.MutualTagEnds | src/wire.rs:111-117 | The rest of the mutual tag, byte for byte, and the role bytes |
| Types.BigEndianBytes | src/wire.rs:169-182 | A 32-bit word is written most significant byte first |
| Types.FromBigEndianBytes | src/ssh_agent.rs:233-236 | And read so |
| Wire.WireLiterals | src/wire.rs:33-54 | Version 0, close codes 1 and 403, limit 16384 |
| SshAgent.AgentLiterals | src/ssh_agent.rs:31-37 | The agent message numbers and the key type, byte for byte |
| Verifier.HydeOutcomes | src/verifier.rs:110-131 | Each outcome of the hyde verifier, exactly |
| Tasks.OtherModesAlpn | src/mutual.rs:141-156 | The hook of one mode lets the other mode's auth connections pass only for members of its set |
| ConnInvariant.ActKeepsConn | src/mutual.rs:178-246 | Each act on one connection, honest or not, keeps what its two ends know of each other |
| StepInvariant.SettlesInFlight | src/mutual.rs:305-316 | A finished handshake is one its node's task still has in flight, so a completion always finds its task entry |
| HonestRun.RunToAcceptance | src/mutual.rs:178-225 | Its first four steps lead to exactly the state where the acceptor has accepted the proof and the initiator's node is unchanged |
| HonestRun.RunToConclusion | src/mutual.rs:228-246 | The next two record the initiator and then close |
| Tasks.PeerSet.Insert | src/incoming.rs:134-137 | Adds the remote and removes nobody |

## Left out

- QUIC, TLS, relays, discovery and the router: a connection is an authenticated two-ended byte channel, and every lock-protected update, message step or select arm is one atomic step.
- The refusal of a self-dial by the transport: a node may dial itself in the model.
- Interleaving inside one sequential method: `Endpoints` fixes the shared state a run reads at its start; the interleaved form of the same run is in `Network`, and the two are connected in `Completeness`.
- ML-DSA, TPM sealing and ed25519: a signature scheme is a set of verifying triples, limited for honest keys to what was signed.
- Randomness and the wall clock: nonces and clock readings are inputs of steps; only freshness of nonces is assumed.
- The signer's thread pool, `TaskGuard` and feature flags: plumbing. Dropping the guard, or the last sender of the request channel, is the step `Halt`.
- Tasks.Authenticate: an error keeps only its kind, not the text passed on in `Denied`.
- AuthTask.Conservation: requests are counted from when the task receives them; the bound of 16 on the request channel only delays that.
- Unix sockets, the agent's message framing and `SSH_AUTH_SOCK`: the agent's reply is an input.
- SshAgent.Reader.Take: positions are unbounded, so the overflow check of `checked_add` is the comparison with the length.
- A panic in a spawned handshake, which ends the task.
- `MAX_AGENT_MSG`, error strings, logging, `Debug`, the examples and the echo protocol.
- Revocation and external sources of validity: the roster is fixed once a verifier holds it.
- Progress.WaiterIsNotStuck: the scheduler itself is not modelled; where it matters (`WaitersAreEventuallyAnswered`) weak fairness is a hypothesis. A dishonest remote can keep its waiters waiting until the connection breaks, since the code has no timeout. `InterceptedDialDeadlocks` says why the task's own dials must pass the hook unasked.
- Progress.WaitersCanBeAnswered: needs eight unused nonces, because 32-byte nonces that never repeat can run out.
