# Tuntom in Dafny

A model of the parts of Tuntom in which state, concurrency and wire formats meet, with
proofs about every run of them:

- the CONTROL v2 stack: the frame codec, the session authentication under it, and the
  source-routed router with flood discovery, alone and in networks whose connections come
  and go (`ControlRoute`, `ReplayWindow`, `ControlAuth`, `AuthRuns`, `AuthAgreement`,
  `AuthInterleaving`, `AuthSessions`, `ControlRouter`, `RouterFacts`, `EdgeTable`,
  `RouterObject`, `DiscoveryRuns`, `DiscoveryAuth`, `SpreadOnce`, `RouterNetwork`,
  `FloodCoverage`, `NetworkTermination`, `ReplyEmissions`, `ReturnPath`, `SentFrames`,
  `AnswerTrip`);
- the Ascon-AEAD128 mode (`Ascon`, `AsconObject`) and the IPv4 checksum (`Ip`);
- the local control socket and its client (`ControlProtocol`, `ControlSocket`,
  `SocketObject`, `ControlClient`);
- the fabric: network reconciliation (`SasInstall`, `SasRuns`, `SasObject`), the table of
  remote components (`FabricNetwork`, `FabricRuns`, `FabricPaths`, `FabricObject`), tunnel
  deployments (`TunnelDeployments`, `DeploymentScripts`, `DeploymentHistories`,
  `DeploymentObject`), the problem journal (`Journal`, `JournalMoments`, `JournalRuns`,
  `JournalObject`), DNS names (`PeekDns`) and background requests (`Requests`,
  `RequestsObject`).

`dafny verify dfyconfig.toml` checks the whole project with Dafny 4.11.

## How it is built

Where the source is a class that updates its fields, the model has a class with those
fields (`Auth`, `Router`, `WindowCell`, `Aead128`, `Transaction`, `Machine`, `Network`,
`Row`, `Store`, `Jobs`), and loops stay loops. Each method is proved against a function of
the old state, and the theorems speak about those functions, because lemmas cannot call
methods. Where a theorem says what an operation means, it says so by something that is not
that function: a plain set of numbers for the replay window, the moments at which a target
was seen for the journal, the records of a conversation for the control socket.

What comes from outside is a parameter: the clock, random draws, the cryptographic
primitives (`Crypto`, of which only the commutation of the key exchange is used), whether a
connection takes a datagram, which remote step succeeds, where a process dies. Exceptions
of the source are `None`, an outcome, or `Effect.ok == false`. Handing a frame to the
application or to a connection is an entry in the list of outputs; what the application
does with it is a later step of the run.

Three properties that the code suggests hold only under a condition. Each is stated with the
exact condition, and with an input or a run at which it fails:

- A fan-out reaches every connection but the ingress: it aims right exactly if the router has
  one peer connection at most (`RouterNetwork.AimsAreExactIffOnePeer`, `SecondPeerIsMissed`).
- Reconciliation never deletes what it did not record: in one pass, exactly if no unrecorded
  route is met by a recorded, undesired one without a gateway; over all passes, exactly if
  none lies under the key of such a route at the start (`SasInstall.ForeignRoutesSurviveIff`,
  `SasRuns.StartDecides`, `UnrecordedRouteCanBeLost`). And it installs every desired route
  exactly if no two of one destination and metric differ (`SasInstall.DesiredInstalled`,
  `SecondRouteDisplacesFirst`).
- There is always room for a request within the bounds: the refusal for lack of room is
  reachable exactly if more threads than records are allowed (`Requests.NoRoomIffMoreThreads`).

## Model

The theorems first, then the classes that link the procedures of the source to them.

| member | source | states |
|---|---|---|
| Bytes.FromToBe | src/control_route.hpp:94-98 | storing a number big-endian in n bytes and loading it gives the number |
| Bytes.ToFromBe | src/control_route.hpp:119-120 | loading n bytes and storing the number gives the bytes |
| Bytes.SplitJoin | src/control_route.hpp:99-102 | fields written one after another are read back by their lengths, whatever follows |
| Bytes.JoinSplit | src/control_route.hpp:122-126 | cutting a string by lengths that add up to it and joining the parts gives the string |
| ControlRoute.EncodePath | src/control_route.hpp:35-45 | yields the image of a path exactly if it has at most 16 valid hops and 1024 bytes |
| ControlRoute.DecodePath | src/control_route.hpp:46-58 | accepts exactly the images of admissible paths and returns the one path behind each |
| ControlRoute.PathInjective | src/control_route.hpp:35-58 | two paths with the same image are equal |
| ControlRoute.FormatPath | src/control_route.hpp:59-62 | yields the textual form exactly for admissible paths |
| ControlRoute.ParsePath | src/control_route.hpp:63-69 | accepts exactly the texts that formatting produces and returns the path behind each |
| ControlRoute.PathTextInjective | src/control_route.hpp:59-69 | two paths with the same text are equal, so parsing inverts formatting |
| ControlRoute.Encode | src/control_route.hpp:86-104 | yields the image of a frame exactly if its fields, paths and size are admissible |
| ControlRoute.Decode | src/control_route.hpp:115-129 | returns the frame behind a byte string, and nothing exactly if it is no frame's image |
| ControlRoute.Decoded | src/control_route.hpp:115-129 | what is decoded is encodable and encodes to the same bytes; nothing is decoded only if no frame has this image |
| ControlRoute.FrameInjective | src/control_route.hpp:86-129 | two encodable frames with the same bytes are equal |
| ControlRoute.DecodedEncoded | src/control_route.hpp:86-129 | decoding inverts encoding on every encodable frame |
| ReplayWindow.AcceptRefines | src/control_auth.hpp:201-209 | one call of the bitmap window accepts exactly the numbers that are nonzero, not in the set it stands for and not 64 behind, and then stands for the set with the number |
| ReplayWindow.RunRefines | src/control_auth.hpp:201-209 | after any calls the window stands for the set of accepted numbers and its highest |
| ReplayWindow.EveryCallIsExact | src/control_auth.hpp:201-209 | in every call sequence each call succeeds if and only if its number is nonzero, was never accepted, and is less than 64 behind the highest |
| ControlAuth.CheckGrant | src/control_auth.hpp:62-66 | the loop over 64 capabilities decides whether every requested one is granted at the level |
| ControlAuth.ChallengeRoundTrip | src/control_auth.hpp:165-178 | a challenge with a nonzero key decodes to itself from its 80 bytes |
| ControlAuth.ProofFields | src/control_auth.hpp:229-234 | a proof shows its challenge, authority and number at the places where verification reads them |
| AuthRuns.AtMostOnce | src/control_auth.hpp:210-328 | in every run with fresh challenge keys no (challenge, number) pair is accepted twice, a request has one bound session at most, and every responding entry names a live session bound to its request |
| AuthRuns.RejectedProofIsInert | src/control_auth.hpp:303-327 | a rejected proof, after any past, changes no later answer of any operation in any continuation |
| AuthAgreement.HandshakeLinks | src/control_auth.hpp:254-286 | with a commuting key exchange, an authority that accepts a live challenge shares key and challenge with the node that issued it |
| AuthAgreement.ConversationExact | src/control_auth.hpp:287-327 | linked parties: every outcome of every conversation equals that of two plain sets of numbers |
| AuthAgreement.Agreement | src/control_auth.hpp:183-327 | after an accepted challenge, in any order of delivery with any loss and repetition, a protected message verifies exactly if it is new and lags fewer than 64 numbers, and so does every reply on its way back; nothing else happening meanwhile |
| AuthInterleaving.AgreementAmongOthers | src/control_auth.hpp:183-327 | the same for two objects with any pasts and among any other operations of both: the passage of time within the life of the session, other requests, rival challenges, rejected proofs and replies; only a reset, the retirement or release of the request, its expiry or another proof accepted for it is excluded |
| ControlRouter.Resolve | src/control_router.hpp:52-60 | finds an edge that the hop designates, and none exactly if none does |
| EdgeTable.UpsertIsExact | src/control_router.hpp:183-191 | assignment keeps the table ordered and holds exactly the new edge and the old ones of other names |
| EdgeTable.RemoveIsExact | src/control_router.hpp:192 | removal keeps the order and all edges of other names |
| EdgeTable.SetEdgeIsExact | src/control_router.hpp:183-191 | zero generation removes, the same generation changes the limit alone, a changed one starts a connection without a token; other names are untouched |
| DiscoveryRuns.AtMostOncePerLife | src/control_router.hpp:118-143 | in every run, two steps that answer FOUND to or spread one (origin, request) lie a whole remembering period apart |
| SpreadOnce.EveryStepSpreadsOnce | src/control_router.hpp:118-143 | in every run every step answers FOUND at most once and spreads at most one frame for each entry of the table of connections, in its order; with one peer entry at most, no two of them go out by the same connection |
| DiscoveryAuth.RememberedWasLicensed | src/control_router.hpp:88-122 | with authentication required, a run remembers a flood only if it began it or verified a proof for that origin and request |
| DiscoveryAuth.ProofBeforeDisclosure | src/control_router.hpp:88-143 | with authentication required, every answer and every spread frame of every run leaves in a step that begins that discovery here or verifies a proof for it |
| DiscoveryAuth.ProtectedAnswer | src/control_router.hpp:126-129 | a protected answer goes the way of the bare one, and is missing only if with its proof it cannot be signed, encoded or fitted to the connection |
| DiscoveryAuth.ProvedStepRefinesPlain | src/control_router.hpp:108-143 | the step after a proof is the unauthenticated step on the held-back frame and ingress, throwing or not: the same memory and quotas, the same spread frames in the same order, and the same answers in both directions but for their proof; an answer, or the whole step, is missing only if the proof stands in the way of the answer |
| DiscoveryAuth.ProofRoutingIsIgnored | src/control_router.hpp:108-117 | no routing field of a proof packet has any effect |
| DiscoveryAuth.ParkedWasReceived | src/control_router.hpp:88-107 | every held-back request is a frame that the run received without proof, with the connection it came by |
| DiscoveryAuth.ProvedStepsContinue | src/control_router.hpp:88-143 | in every run each step that verifies a proof does in this sense what the unauthenticated step would have done with a frame that an earlier input delivered without proof, by the connection it came in by |
| RouterNetwork.BytesArriveAsFrames | src/control_router.hpp:207-218 | sending the encoded frame has the effect of handing over the frame |
| RouterNetwork.AimsAreExactIffOnePeer | src/control_router.hpp:52-60 | the hop that a fan-out aims at an edge designates that edge, for all edges, exactly if at most one is a peer edge |
| RouterNetwork.SecondPeerIsMissed | src/control_router.hpp:52-60 | with two peer edges both hops lead to the first, so the second gets nothing |
| RouterNetwork.CleanFlood | src/control_router.hpp:118-143 | a first flood step without drop or refusal remembers the request and puts it on every connection but the ingress |
| FloodCoverage.MoveSpreads | src/control_router.hpp:87-143 | every move of the network that neither loses, refuses, forgets nor forges the flood keeps: a router that knows it has passed it on over each link, or the far end knows it |
| FloodCoverage.QuiescentFloodHasReachedAll | src/control_router.hpp:87-143 | in every such run, with any order and duplication, once no frame of the flood is in flight every router that a path of links joins to the origin has recorded it |
| NetworkTermination.FloodWeighs | src/control_router.hpp:118-143 | the answer and all branches of a flood step weigh less than the request |
| NetworkTermination.ArrivalWeighs | src/control_router.hpp:61-143 | whatever an arrival makes a router emit weighs less than what arrived, challenges and proofs included |
| NetworkTermination.RunsAreFinite | src/control_router.hpp:61-78 | delivering and losing frames in any order, a network comes to rest within a number of moves given by the frames in flight at the start |
| ReplyEmissions.ArrivalEmits | src/control_router.hpp:61-143 | each emitted frame goes on under the reply path it came with, or back along the reply path of the frame it answers |
| ReturnPath.LinkIsExact | src/control_router.hpp:52-60 | a link hop resolves to the connection its token was drawn for, or to none |
| ReturnPath.AttachLedger | src/control_router.hpp:183-191 | replacing a connection never lets an old token name the new one |
| ReturnPath.EventTracks | src/control_router.hpp:52-143 | every event keeps: all frames of a request lead back to its origin, with hops to spare |
| ReturnPath.AnswersReachOnlyTheOrigin | src/control_router.hpp:207-218 | in every run, with connections replaced at any moment, the answers, challenges and refusals of a request are handed over at its origin and nowhere else |
| AnswerTrip.PassingKeepsSize | src/control_route.hpp:86-104 | passing an answer on by a link hop leaves its encoded size unchanged |
| AnswerTrip.AnswerHop | src/control_router.hpp:67-78 | in every reachable state an answer goes on over exactly the connection its next token was drawn for, if that still holds the token, is wide enough and up; it is dropped if no connection holds the token, and never for want of hops |
| AnswerTrip.AnswerComesHome | src/control_router.hpp:207-218 | over any number of hops, an answer that can be encoded and whose connections are all open arrives at the origin with an empty destination and its contents intact |
| SentFrames.StepEncodes | src/control_router.hpp:67-78 | every frame that any step puts on a connection can be encoded |
| AnswerTrip.AnswersComeHome | src/control_router.hpp:207-218 | in every run from a state in which the request does not exist, any answer to it that is in flight and whose way home is open arrives at the origin intact |
| Ascon.LoadXor | src/ascon.hpp:81-94 | exclusive or of words is that of their little-endian bytes |
| Ascon.XorShifted | src/ascon.hpp:138-140 | flipping by a byte shifted into place changes that byte alone |
| Ascon.PutShifted | src/ascon.hpp:156-158 | masking a byte out and putting another in changes that byte alone |
| Ascon.DecipherInverts | src/ascon.hpp:145-161 | for any permutation and length, deciphering an enciphered message gives the message and passes through the same states |
| Ascon.EncipherInverts | src/ascon.hpp:145-161 | and enciphering a deciphered one gives the ciphertext |
| Ascon.SealedOpens | src/ascon.hpp:104-121 | what encryption produces, for any key, nonce, associated data and message, opens to the message with the same tag |
| Ascon.OpenedWasSealed | src/ascon.hpp:104-121 | a ciphertext with the tag that decryption expects is what encrypting the plaintext gives |
| Ip.CarriedSumIsOnes | src/ip.hpp:11-37 | carrying round at each addition gives the sum of all words reduced once at the end |
| Ip.FoldAll | src/ip.hpp:22-24 | folding the carry in until 16 bits remain preserves the ones' complement value |
| Ip.HeaderChecksum | src/ip.hpp:11-37 | the loop that folds as it goes computes the complement of the canonical sum, for odd sizes too |
| Ip.ChecksumVerifies | src/ip.hpp:62-70 | putting the checksum of a header over its zeros makes the header's checksum zero |
| Ip.CompensateTtl | src/ip.hpp:39-72 | refuses exactly what has no complete header, leaves a maximal hop count, else raises it by one, changes only octets 8, 10 and 11, and the header verifies |
| ControlProtocol.ControlLength | src/control_protocol.hpp:10-21 | accepts a text exactly if it is digits whose value is within the limit, and returns the value |
| ControlProtocol.DecimalValue | src/control_socket.hpp:85-86 | the decimal form of a size denotes the size |
| ControlProtocol.JoinChunks | src/control_socket.hpp:87-88 | the chunks of a text, in order, are the text |
| ControlSocket.FlushTurnIs | src/control_socket.hpp:82-99 | a turn of writing sends the next part of the answer or nothing, and ends exactly when nothing is left or the connection broke |
| ControlSocket.StepInv | src/control_socket.hpp:72-254 | every step of a transaction keeps the relation between records received, the request dispatched and records sent |
| ControlSocket.DispatchedOnceWithDeclaredBody | src/control_socket.hpp:187-254 | however reading is split, a request is dispatched at most once, with exactly its declared body, made of exactly the records after the first |
| ControlSocket.SentInOrder | src/control_socket.hpp:82-99 | at any time what was sent is the beginning of the ticket, the one header and the chunks, and all of them once nothing is left |
| ControlSocket.CompleteRequestIsOneCall | src/control_socket.hpp:187-254 | a complete request is dispatched once as it stands, unless it is for a remote component and none is served; a local one is answered, a remote one is pending with its ticket sent until an event answers it |
| ControlSocket.AnswerIsDetermined | src/control_socket.hpp:72-254 | however reading, writing and waiting are split, every answer is what its records ask for: the exact refusal of bad records, what the one call returned, or for a remote request what the one answering event brought |
| ControlClient.SendRequest | fabric/control.py:96-98 | the command, then the body in pieces of at most 16384 bytes |
| ControlClient.StatusRoundTrip | fabric/control.py:111-113 | the status line that the daemon writes is read as the same status and length |
| ControlClient.ReceiveResponse | fabric/control.py:111-123 | the loop accepts exactly a status line followed by its announced bytes |
| ControlClient.CollectedIsExact | fabric/control.py:117-119 | what is accepted has the announced length and is the records that followed, in order |
| ControlClient.FramesReassemble | fabric/control.py:111-123 | the client puts the daemon's frames together to the answer |
| ControlClient.TicketRoundTrip | fabric/control.py:99-104 | the ticket line that the daemon writes is accepted with its identifier |
| ControlClient.PlainAnswer | fabric/control.py:105-109 | an answer without a status line is read as it stands, and passes for a success exactly if it is one and does not begin like an error |
| ControlClient.Understand | fabric/control.py:99-123 | what the client makes of all records: the ticket of a routed request first, one record for plain statistics, else a framed answer |
| ControlClient.TransactionIsOneCall | fabric/control.py:96-123 | for every service, body and answer within the limits and every way in which reading, writing and the wait for a remote component were split, the request is dispatched once with exactly its body, and the client ends with exactly the reply: of the one call, or of the one answering event of a routed request after its ticket; plain answers included |
| ControlClient.EncodeRoute | fabric/control.py:25-41 | for peer and port hops, the very text that the C++ side formats and parses, refused exactly where that refuses |
| SasInstall.EveryAbortIsRecorded | fabric/sas_install.py:150-166 | wherever a pass breaks off, what is installed is recorded or was there before, and the record names all that was recorded or desired |
| SasInstall.ForeignRoutesSurviveIff | fabric/sas_install.py:157-165 | routes neither recorded nor desired survive every point of a pass exactly if none is met by a recorded, undesired one without a gateway |
| SasInstall.UnrecordedRouteCanBeLost | fabric/sas_install.py:153-158 | a case in which one is lost |
| SasInstall.DesiredInstalled | fabric/sas_install.py:161-162 | after the mutations all desired routes are installed exactly if no two of one destination and metric differ |
| SasInstall.SecondRouteDisplacesFirst | fabric/sas_install.py:161-162 | a case in which one is not: two gateways for one destination and metric |
| SasInstall.CompletedPass | fabric/sas_install.py:127-166 | a completed pass leaves an exact record, exactly the addresses desired or never recorded, and no route but those desired or never recorded; all of these routes exactly if no two desired ones of one destination and metric differ |
| SasRuns.StartDecides | fabric/sas_install.py:127-166 | no sequence of passes with any desired sets, broken off anywhere, takes away a route that none of them recorded, exactly if at the start none lies under the key of a recorded route without a gateway |
| SasRuns.InterruptedReconciliationConverges | fabric/sas_install.py:127-166 | after any number of passes with any desired sets, broken off anywhere, a pass that is admitted and completes leaves exactly its desired entries beside what was there at the start and never recorded, with an exact record, if and only if no two desired routes of one destination and metric differ; of the start it is asked only that no unrecorded route lies under the key of a recorded one without a gateway |
| SasRuns.RetryAdmitted | fabric/sas_install.py:143-149 | a desired set that was admitted once is admitted again wherever its pass broke off |
| SasRuns.RetriedPassConverges | fabric/sas_install.py:127-166 | once a desired set was admitted, after any past, its pass may break off any number of times anywhere and still is admitted and converges |
| FabricNetwork.SumWithout | fabric/network.py:200-201 | the total of cached bytes is that of one node and of the others |
| FabricRuns.EveryInterleavingKeeps | fabric/network.py:86-233 | in every interleaving each path belongs to one component, nothing local is listed as remote, the counters are those of outstanding requests (4 per origin, 16 in all), and the cache stays within 2 MiB |
| FabricPaths.RebindingRowDecides | fabric/network.py:143-149 | a row of an ingested text that names another component, listed in the end, takes the path from this one, unless a later row gives it back |
| FabricPaths.LostStaysLost | fabric/network.py:100-233 | a component that lost a path has it again only if it is announced for it |
| FabricPaths.ReboundResultIsDiscarded | fabric/network.py:143-287 | while a request is outstanding, a discovery announces its path for another component: whatever happens then, short of announcing the path for this component again, the result of a poll changes nothing and a reader is told that the path has changed |
| FabricPaths.UncontestedReadIsAnswered | fabric/network.py:283-288 | unless a discovery names another component on the path, or finds this one local, a reader gets the answer |
| DeploymentHistories.EveryHistoryKeeps | fabric/tunnel_deployments.py:588-734 | every history of operations, failures and restarts keeps the relation of status, sides, key and steps |
| DeploymentHistories.KeyFollowsState | fabric/tunnel_deployments.py:588-617 | at every cut of every history: a deployable or running deployment has its key; the key is touched only when both sides are down; an undeployed one has both sides down and the key erased |
| DeploymentHistories.RunningIsVerified | fabric/tunnel_deployments.py:683-715 | running means that since the last claim exactly the steps of the script were tried, all successfully, in order |
| DeploymentHistories.ListenerBeforeInitiator | fabric/tunnel_deployments.py:693-705 | in every history, failed, cut, rolled back and undeployed attempts included, no step that starts the initiator is tried before every step that starts the listener has succeeded in that attempt |
| DeploymentHistories.NoDeploymentAfterUndeploy | fabric/tunnel_deployments.py:588-650 | once undeployment has begun no deployment happens again |
| DeploymentScripts.FailedAttemptRollsBack | fabric/tunnel_deployments.py:716-734 | a failed attempt tries to roll back exactly the sides it started, last first, whichever steps fail |
| JournalRuns.EveryEventShows | fabric/journal.py:142-150 | every event shows something of every target: that it is gone, exactly for a restart or an observation without it, or else each state it is found in |
| JournalMoments.LatestIsGreatest | fabric/journal.py:143-159 | the sample that new ones are compared with is the greatest fresh one since the target was last gone |
| JournalMoments.RecoveredIffLong | fabric/journal.py:178-187 | after a fault, an unbroken recovery of 30 seconds is complete exactly where the first and last sample kept for it lie that far apart |
| JournalRuns.ProblemsAreExact | fabric/journal.py:140-187 | in every run the stored problems are exactly what the events say: each opens with a newer faulty sample, is resolved exactly with the first complete recovery, undecided exactly if the target goes before, open otherwise, counts the faulty samples of its time; no two of a kind overlap, and every newer faulty sample belongs to one |
| JournalRuns.RecoveryIsNeverInvented | fabric/journal.py:140-187 | in every run a resolved problem was ended by moments of its target that show fresh, newer, healthy samples, each at most 15 seconds after the one before and 30 seconds from first to last, after the fault it opened with; in between the target was never gone or stale and showed no newer sample that was faulty or silent, only samples already seen |
| JournalRuns.CountIsFaultySamples | fabric/journal.py:168-175 | in every run there is at most one active problem per target and code, and its count is the number of moments since it opened that show the fault in a fresh, newer sample, no two of one time |
| PeekDns.NamesAreBounded | fabric/peek_dns.py:67-83 | whatever is read is at most 255 octets, with labels of 1 to 63 |
| PeekDns.CyclesFail | fabric/peek_dns.py:70-76 | an offset that leads back to itself cannot be read, with or without a set of visited ones |
| PeekDns.ReadName | fabric/peek_dns.py:67-83 | terminates on every byte string and computes the recursive expansion of compression pointers |
| PeekDns.WriteReadRoundTrip | fabric/peek_dns.py:11-83 | a written ASCII name is read back in lower case at any offset of any message, and reading ends right behind it |
| PeekDns.AliasNames | fabric/peek_dns.py:131-134 | as many passes as answers, each seeing what it added |
| PeekDns.AliasLoopIsLeastFixpoint | fabric/peek_dns.py:131-134 | that many passes reach the least set that contains the queried name and follows every alias |
| Requests.EveryInterleavingKeeps | fabric/async_requests.py:18-79 | in every interleaving the unfinished jobs are the live threads, one per target, eight records per target, table and threads within their limits |
| Requests.RunningJobStays | fabric/async_requests.py:18-41 | a running job is never evicted or pruned |
| Requests.NoRoomIffMoreThreads | fabric/async_requests.py:38-42 | the refusal for lack of room is reachable exactly if the concurrency exceeds the limit |
| ReplayWindow.WindowCell.TryAccept | src/control_auth.hpp:203-208 | the struct in place: same verdict, and the set it stands for grows exactly by an accepted number |
| AuthSessions.EraseExpired | src/control_auth.hpp:249-251 | erasing while iterating leaves exactly the sessions whose time has not come |
| AuthSessions.EraseRequest | src/control_auth.hpp:323-325 | erasing while iterating leaves exactly the sessions of other requests, and those to be kept |
| AuthSessions.EraseOrphans | src/control_auth.hpp:252 | leaves exactly the responding entries whose session still exists |
| AuthSessions.Auth.constructor | src/control_auth.hpp:210-221 | starts without sessions |
| AuthSessions.Auth.Reset | src/control_auth.hpp:242 | the state machine's reset |
| AuthSessions.Auth.ReleaseOutgoing | src/control_auth.hpp:243 | only the outgoing session of the request goes |
| AuthSessions.Auth.Retire | src/control_auth.hpp:244-247 | the sessions and the responding entry of the request go, all else stays |
| AuthSessions.Auth.Tick | src/control_auth.hpp:249-253 | expired sessions and orphaned responding entries go |
| AuthSessions.Auth.Challenge | src/control_auth.hpp:254-270 | the state machine's challenge: rate, memory, entropy and collision refusals, then one new session |
| AuthSessions.Auth.AcceptChallenge | src/control_auth.hpp:271-286 | the first configured key that suits the challenge answers it; a repeated challenge resets nothing |
| AuthSessions.Auth.Protect | src/control_auth.hpp:287-295 | signs with the next number of the session that the request is bound to |
| AuthSessions.Auth.VerifyReply | src/control_auth.hpp:296-302 | accepts a reply of the outgoing session only |
| AuthSessions.Auth.Verify | src/control_auth.hpp:303-327 | the state machine's verification, policy, binding, window and the removal of rival challenges |
| RouterObject.EscapeName | src/control_router.hpp:79-86 | the loop yields the escaped name |
| RouterObject.EraseExpired | src/control_router.hpp:196-201 | erasing while iterating leaves exactly the unexpired sessions |
| RouterObject.Forget | src/control_router.hpp:202-204 | forgets exactly the expired floods, and the quotas of those |
| RouterObject.RetainedIsExact | src/control_router.hpp:193-195 | retaining keeps the order and exactly the named edges |
| RouterObject.Router.constructor | src/control_router.hpp:146-149 | starts empty with its configuration |
| RouterObject.Router.Resolve | src/control_router.hpp:52-60 | the loop finds the first designated edge in name order |
| RouterObject.Router.Reject | src/control_router.hpp:61-66 | counts answers and refusals as dropped, and routes one refusal for anything else |
| RouterObject.Router.Route | src/control_router.hpp:67-78 | delivers, refuses, or sends the popped frame on, as the routing function says; a frame that cannot be encoded ends the call |
| RouterObject.Router.SetEdge | src/control_router.hpp:183-191 | the table after attaching, renewing or detaching |
| RouterObject.Router.Retain | src/control_router.hpp:193-195 | exactly the named edges stay |
| RouterObject.Router.Tick | src/control_router.hpp:196-205 | sessions, floods and quotas after the passage of time |
| RouterObject.Router.ReleaseDiscovery | src/control_router.hpp:178-182 | the proofs given for the request go, all others stay |
| RouterObject.Router.SpreadOne | src/control_router.hpp:134-142 | one branch of the fan-out: without proof, traced, refused if the trace is too long |
| RouterObject.Router.FanOut | src/control_router.hpp:131-143 | the loop sends through every edge but the ingress, in order, until encoding fails |
| RouterObject.Router.AnswerTo | src/control_router.hpp:126-128 | the answer, protected by the session the request was proved in |
| RouterObject.Router.Flood | src/control_router.hpp:118-143 | reserves the entry before answering and spreading; a repeat is answered within its quota |
| RouterObject.Router.FloodFirst | src/control_router.hpp:126-143 | the answer first, then the fan-out |
| RouterObject.Router.DemandProof | src/control_router.hpp:90-96 | the pace and memory bounds, then the challenge |
| RouterObject.Router.Park | src/control_router.hpp:96-107 | holds the frame back under the challenge key and sends the challenge |
| RouterObject.Router.Prove | src/control_router.hpp:108-117 | checks the proof and continues the held-back frame |
| RouterObject.Router.DiscoverRemote | src/control_router.hpp:88-117 | plain, challenged or proved, by requirement and proof |
| RouterObject.Router.Receive | src/control_router.hpp:207-218 | what arriving bytes do, through the decoder |
| RouterObject.Router.Send | src/control_router.hpp:219 | tick, then route |
| RouterObject.Router.BeginDiscovery | src/control_router.hpp:220-227 | the local root of a flood |
| RouterObject.Router.AnswerChallenge | src/control_router.hpp:150-166 | the originator's proof, for its own discovery and once per challenge |
| RouterObject.Router.VerifyAnswer | src/control_router.hpp:167-177 | believes answers only as required |
| AsconObject.MixedIs | src/ascon.hpp:135-151 | taking two words in is taking a 16-byte block in |
| AsconObject.AbsorbData | src/ascon.hpp:133-142 | whole blocks by words and the rest by bytes absorb the padded associated data |
| AsconObject.Bulk | src/ascon.hpp:145-152 | the block loop transforms all whole blocks, writing nothing ahead of what it has read, also when the buffers overlap |
| AsconObject.Tail | src/ascon.hpp:153-161 | the byte loop transforms the rest |
| AsconObject.Aead128.constructor | src/ascon.hpp:98-99 | loads the key |
| AsconObject.Aead128.Crypt | src/ascon.hpp:123-166 | the in-place procedure computes the padded-block definition of section 4 of NIST SP 800-232, and changes nothing beside its output |
| AsconObject.Aead128.Finish | src/ascon.hpp:162-165 | the tag of the final state |
| AsconObject.Aead128.Encrypt | src/ascon.hpp:104-108 | ciphertext and tag as defined, with separate, identical or forward-overlapping buffers |
| AsconObject.Aead128.Decrypt | src/ascon.hpp:110-121 | succeeds exactly on what encrypting some message gives, and leaves that message; otherwise leaves zeros; nothing else changes |
| AsconObject.SameTag | src/ascon.hpp:115-117 | the accumulated difference is zero exactly if the tags are equal |
| SocketObject.Transaction.Readable | src/control_socket.hpp:199-254 | at most four records per readiness, until the socket is empty or the request complete |
| SocketObject.Transaction.Writable | src/control_socket.hpp:82-99 | at most four records of the answer per readiness |
| SocketObject.Transaction.Resolve | src/control_socket.hpp:162-170 | the answer of a remote request is sent like a local one |
| SasObject.Machine.Run | fabric/sas_install.py:133-137 | one command, or the end of the process |
| SasObject.Machine.Check | fabric/sas_install.py:143-149 | clear exactly if whatever is in the way is on this interface and recorded, or the route itself |
| SasObject.Machine.ApplyNetwork | fabric/sas_install.py:127-166 | changes nothing if not clear, else as many commands of the plan as take effect |
| FabricObject.Network.constructor | fabric/network.py:55-68 | starts empty |
| FabricObject.Network.Update | fabric/network.py:86-97 | origins and what is known local of them only |
| FabricObject.Network.Locals | fabric/network.py:110-120 | the origin itself and the one direct attachment of a port |
| FabricObject.Network.Ingest | fabric/network.py:100-153 | local ones leave the table, then row by row |
| FabricObject.Network.IngestRow | fabric/network.py:125-149 | a new component within the limit, the path bound to it and to no other |
| FabricObject.Network.Unbind | fabric/network.py:145-147 | the path goes from every other component, all else stays |
| FabricObject.Network.Reserve | fabric/network.py:155-160 | reserves exactly if the key is free and both bounds allow |
| FabricObject.Network.Release | fabric/network.py:162-170 | the key and its count go |
| FabricObject.Network.Choose | fabric/network.py:172-174 | the preferred usable path, else the first usable, none exactly if there is none |
| FabricObject.Network.CachedBytes | fabric/network.py:201 | the total in any order of the nodes |
| FabricObject.Network.FinishPoll | fabric/network.py:194-226 | records a sample only for a path that still belongs to the component, within the cache limits, and rotates a failed path |
| FabricObject.Network.BeginRead | fabric/network.py:267-282 | the refusals in their order, then a usable path and its reservation |
| FabricObject.Network.FinishRead | fabric/network.py:283-288 | the answer exactly if the path still belongs to the component |
| FabricObject.Network.Expire | fabric/network.py:247-249 | forgets a component exactly if it has long been silent and has no request outstanding |
| DeploymentObject.Row.constructor | fabric/tunnel_deployments.py:486-488 | a draft with its key |
| DeploymentObject.Row.TryStep | fabric/tunnel_deployments.py:575-586 | notes the attempt, tries, notes the result |
| DeploymentObject.Row.PlayScript | fabric/tunnel_deployments.py:682-713 | the steps up to the first failure, and which sides were started |
| DeploymentObject.Row.RollbackAll | fabric/tunnel_deployments.py:717-727 | rolls back in reverse order, whatever fails |
| DeploymentObject.Row.DeployNow | fabric/tunnel_deployments.py:644-734 | the trace of a deployment, and whether it runs |
| DeploymentObject.Row.UndeployNow | fabric/tunnel_deployments.py:588-617 | the initiator first, sides already down skipped, the key last |
| DeploymentObject.Row.Reopen | fabric/tunnel_deployments.py:384 | no operation stays half done after a restart |
| JournalObject.Store.Mark | fabric/journal.py:168-187 | one row and its recovery after a note |
| JournalObject.Store.MarkAbsent | fabric/journal.py:142-148 | problems of absent targets become undecided |
| JournalObject.Store.Visit | fabric/journal.py:149-187 | stale, repeated or new, as the sample is |
| JournalObject.Store.OpenMissing | fabric/journal.py:168-175 | a problem for every fault that had no active one |
| JournalObject.Store.ObserveProblems | fabric/journal.py:140-187 | the whole observation |
| RequestsObject.Jobs.constructor | fabric/async_requests.py:11-16 | starts empty |
| RequestsObject.Jobs.Prune | fabric/async_requests.py:18-20 | leaves the unfinished and the recently finished |
| RequestsObject.Jobs.FindOldest | fabric/async_requests.py:33-40 | the completed job that finished first, of a target or of all |
| RequestsObject.Jobs.Submit | fabric/async_requests.py:22-48 | the refusals in their order, then room, then the job and its thread |
| RequestsObject.Jobs.Finish | fabric/async_requests.py:70-72 | the job is finished and its thread gone |

## Left out

- The round function of Ascon, X25519 and the strength of the MAC and the key derivation: the permutation and the primitives are arbitrary functions; of the key exchange only commutation is assumed.
- Wiping of secrets from memory, key files, option parsing and the textual statistics of the control code.
- `wrap`, `unwrap` and the transaction layer above CONTROL frames; `local_discovery` with a frame made by the caller.
- Configuration changes of a router during a run (`configure`, `configure_auth`) and the drawing of its instance identifier.
- The fields of a session held by a parked discovery are values of the authentication state machine, not references to an `Auth` object; no two parked discoveries share one.
- Real sockets, epoll, deadlines and accept backoff: their results are events; a deadline is an event that closes a transaction.
- ControlSocket.DispatchedOnceWithDeclaredBody: the grammar of commands is an arbitrary function from the first record to an operation, because the properties hold for every grammar; of it only `control_length` is modelled.
- ControlSocket: a ticket that the client's socket does not take at once closes the transaction; the model counts it as sent and has the closing as an `Expire` event.
- SasObject.Machine.ApplyNetwork: the interface ownership and transport checks before it, which change nothing, are left out; the kernel holds one route per destination and metric, and deleting without a gateway matches any.
- FabricNetwork: parsing of discovery text, telemetry rates, history and the order in which the scheduler visits components; choosing at most eight origins from local samples is a parameter.
- TunnelDeployments: bundles, archives, concurrent operations on one deployment and failures outside the caught exceptions; the checks before the claim are one outcome.
- Journal: the event log of `observe`, pruning by age, and a failed database transaction.
- PeekDns: names beyond ASCII, records other than aliases, and the probes around them.
- IPv6 hop compensation, fragmentation, adaptive polling, accept backoff and the other easy members of `src/`.
- Update in place of the five state words of Ascon: the state is a local value that is reassigned; the message buffers are arrays.
