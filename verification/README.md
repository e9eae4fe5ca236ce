# StrangerTV: verified protocols

StrangerTV connects strangers and friends over WebRTC. This project models the parts of it in which
a wrong interleaving, a wrong byte or a wrong row does damage, and proves what they keep:

- **Mesh signalling** (`MeshPeer`, `MeshOverlap`, `MeshEndpoint`, `MeshPair`, `MeshNetwork`,
  `MeshProgress`). Each end of a group call runs the hook's handlers, which wait at `await`s; signals
  travel in any order. The browser's part follows sections 4.3.1 and 4.4 of W3C WebRTC 1.0 and
  section 3.2 of RFC 8829.
- **The worklet's UTF-8 decoder** (`Utf8Decoder`), against sections 3 and 4 of RFC 3629.
- **Minigame instances** (`Activities`, `ActivityHistory`, `ActivityOutcomes`, `ActivitySeats`,
  `ActivityExchange`, `ActivityTokens`): who may do what, seats, single-use launch codes and instance tokens, as whole operations and again
  one SQL statement at a time.
- **Friends, invitations and presence** (`Friends`, `Invitations`, `Hubs`, `Presence`): the two tables,
  the registry of sockets with its bounded outboxes, and the online set that every tab shows.
- **The active-speaker election** (`SpeakerFocus`), over real-valued levels.
- **Expiry text and sessions** (`Timestamps`, `Sessions`, `SessionRefresh`).
- **The restartable user import** (`AuthImport`).
- **The Markdown renderer** (`Markdown`, `MarkdownTokens`).
- **The match socket's lifecycle** (`MatchSocket`).

Code that updates state is a class whose fields are the source's refs, maps or tables, with one
method for each function (or each stretch between two `await`s). The method's postcondition gives
its whole new state as a function of the old one; the lemmas are about those functions, over
single steps and over whole runs. `Wrappers` holds the option and result types.

Clocks, random tokens, the browser's choices (session descriptions, candidates, measured levels) and
the order in which things happen are parameters. Hashes are injective. Where the code does not
do what it is meant to do, the model follows the code; a lemma shows an input, and another one
exactly when the promise holds:

- A description that is accepted while another handler has still to flush can hand a candidate over
  twice (`MeshPeer.RepeatedOfferHandsOverTwice`); nothing else can (`MeshOverlap.OverlapExactly`,
  `MeshOverlap.ConservationExactly`).
- Text order is not time order within one second (`Timestamps.WholeSecondExpiresEarly`), although a
  comment in `expired` says so (`Timestamps.ExpiryExact`).
- A user who returns and is announced between the offline check and the offline news is hidden from
  friends (`Presence.ReloadCanHideFriend`, `Presence.TellExactly`); a user's only socket, dropped for a
  full outbox, is not announced (`Presence.OverflowIsNotAnnounced`, `Presence.OverflowExactly`,
  `Presence.AnnounceExactly`); a socket bound to a second user leaves the first one online
  (`Hubs.ReboundSocketLeavesUserOnline`, `Hubs.RegisterIndexed`). `Presence.StepExactly` covers every step.
- Two users who ask each other at the same moment get two rows (`Friends.CrossedRequestsMakeTwoRows`,
  `Friends.CrossedRequestsExactly`, `Friends.ExecuteExactly`); an acceptance that is written late can
  accept the request the other way round (`Friends.AcceptedWithoutConsent`, `Friends.ConsentExactly`); and
  a request that is written late can end a friendship (`Friends.OvertakenRequest`,
  `Friends.WriteKeepsFriendsExactly`).
- Two answers to an invitation that both find it pending can differ (`Invitations.TwoTabsDisagree`,
  `Invitations.AnswersExactly`), and two refreshes that both find a session live issue two
  (`SessionRefresh.CrossedRefreshes`, `SessionRefresh.RotationExactly`).
- Two exchanges that read one launch code before either marks it get a token each
  (`ActivityExchange.CrossedExchangesIssueTwo`, `ActivityExchange.SingleUseExactly`); a token that is
  stored after its user has left outlives the departure (`ActivityTokens.LateTokenResolves`,
  `ActivityTokens.LateExactly`).
- Joining again can cost a player the seat while another join is undecided, and leave an active game
  without players (`ActivitySeats.RejoinCanEmpty`, `ActivitySeats.RejoinExactly`,
  `ActivitySeats.OccupiedExactly`). A refused join keeps a new seat if the activity has left the catalog
  (`Activities.RefusedJoinExactly`).
- The match socket authenticates by the browser's cookies, which another tab can change while the hook
  still has its user (`MatchSocket.OtherTabsFramesAreDispatched`, `MatchSocket.CookiesMatchExactly`). A call while the open
  socket is closing leaves `connected` set until the new one opens (`MatchSocket.ShownThroughout`).
- The dry-run count of an import is too high exactly for the rows in `AuthImport.DryRunExactly`.

The election treats the empty id as no holder (`SpeakerFocus.EmptyIdIsNotProtected`). No caller passes
it: ids are `p` with a peer's number, or `local` (src/components/VideoStage.tsx:273, 283).

Check everything with `dafny verify --resource-limit 2000000 --verification-time-limit 0 dfyconfig.toml`.

## Model

| member | source | states |
|---|---|---|
| MeshPeer.OnSignalConserves | src/hooks/useWebRTC.ts:430-485 | a signal that arrives keeps every received candidate either handed over or still to be handed over, once, unless it is a description that overlaps a handler which has still to flush |
| MeshPeer.ContinueConserves | src/hooks/useWebRTC.ts:450-475 | so does every continuation of a waiting handler; `ready` is set before the flush, so emptying the buffer loses nothing |
| MeshPeer.CandidateConservation | src/hooks/useWebRTC.ts:136-145 | in every interleaving, with any number of descriptions of which none overlaps a handler that has still to flush, each received candidate is handed over at most once, none before the remote description, and all of them once the connection is ready with nothing left to flush |
| MeshPeer.RepeatedOfferHandsOverTwice | src/hooks/useWebRTC.ts:439-458 | with two copies of an offer in flight a buffered candidate is handed over twice |
| MeshPeer.OfferIsAnswered | src/hooks/useWebRTC.ts:438-463 | an offer that arrives in `stable`, or in a glare at the end that rolls its own offer back, is applied once its handler has run: every buffered candidate is handed over in order, and one answer to it is set and sent |
| MeshPeer.AnswerIsApplied | src/hooks/useWebRTC.ts:466-474 | an answer to the offer that is out is applied, and every buffered candidate handed over in order |
| MeshPeer.IgnoredExactly | src/hooks/useWebRTC.ts:439-469 | exactly which descriptions start no handler: an offer over another one or in a glare that the own offer wins, and an answer without an own offer |
| MeshPeer.OfferOverLocalOffer | src/hooks/useWebRTC.ts:456-457 | setting an offer after an own one has come in between takes the own one back |
| MeshOverlap.OverlapExactly | src/hooks/useWebRTC.ts:430-485 | for one signal, on the state in which it arrives: no continuation without a further description hands a candidate over too often, if and only if it does not overlap a handler that has still to flush |
| MeshOverlap.ConservationExactly | src/hooks/useWebRTC.ts:136-145 | the same for whole runs, with any number of descriptions |
| MeshOverlap.OneDescriptionIsSeparate | src/hooks/useWebRTC.ts:430-485 | a run with one description at most has no overlap |
| MeshEndpoint.Mesh.constructor | src/hooks/useWebRTC.ts:383-391 | the state right after the `clear()` of `createMeshPeers` |
| MeshEndpoint.Mesh.Clear | src/hooks/useWebRTC.ts:219-239 | no peers and an empty queue, nothing else of the mesh changed |
| MeshEndpoint.Mesh.RemovePeer | src/hooks/useWebRTC.ts:264-289 | exactly that peer is gone |
| MeshEndpoint.Mesh.HandleSignal | src/hooks/useWebRTC.ts:423-482 | queued if the peer does not exist, otherwise the handler's first stretch on that peer alone |
| MeshEndpoint.Mesh.DrainPendingSignals | src/hooks/useWebRTC.ts:372-381 | the queue is emptied and every signal in it handled in order, requeued if its peer is still missing |
| MeshEndpoint.Mesh.CreatePeers | src/hooks/useWebRTC.ts:393-418 | the participant loop up to its next wait: own id and known ids are skipped, and each new peer drains the queue |
| MeshEndpoint.Mesh.CreateMeshPeers | src/hooks/useWebRTC.ts:383-421 | one stretch of the call between two waits, with the offer it sends |
| MeshEndpoint.Mesh.ResumeHandler | src/hooks/useWebRTC.ts:450-475 | one stretch of a waiting handler, with the answer it sends |
| MeshEndpoint.HandleAllAccounts | src/hooks/useWebRTC.ts:376-380 | draining adds to each sender's account exactly its signals, in order, and leaves none waiting whose peer exists |
| MeshEndpoint.RunAccounts | src/hooks/useWebRTC.ts:372-435 | at every moment, what was handled for an id followed by what is queued for it is what arrived from it |
| MeshEndpoint.EarlySignalsSurvive | src/hooks/useWebRTC.ts:383-435 | once `createMeshPeers` has returned, every listed participant's signals were handled once and in order, and only unlisted ids have signals queued |
| MeshPair.Receives | src/hooks/useWebRTC.ts:423-482 | receiving keeps the handshake of a pair in one of its phases |
| MeshPair.Continues | src/hooks/useWebRTC.ts:450-475 | so does every continuation of a handler, with the signals it sends |
| MeshPair.Offers | src/hooks/useWebRTC.ts:412-416 | so does the offer of the one end that offers |
| MeshPair.QuietPairAgrees | src/hooks/useWebRTC.ts:438-475 | a handshake with nothing under way has both ends stable and ready with each other's descriptions |
| MeshNetwork.MoveKeepsFine | src/hooks/useWebRTC.ts:383-491 | every move of any endpoint, delivered in any order, keeps all pairs in a phase and every link accounted for |
| MeshNetwork.RunFine | src/hooks/useWebRTC.ts:383-491 | so does every run |
| MeshNetwork.NeverStuck | src/hooks/useWebRTC.ts:383-491 | no run gets stuck: while the mesh is not quiet, a signal, a handler or a call can go on |
| MeshNetwork.MeshAgreement | src/hooks/useWebRTC.ts:383-491 | with one offerer per pair, once the mesh is quiet both ends of every pair agree on offer and answer and have handed over exactly the candidates the other end sent |
| MeshProgress.PressingLowers | src/hooks/useWebRTC.ts:383-491 | every move that a signal, a handler or a call waits for lowers the work that is left |
| MeshProgress.ComesToRest | src/hooks/useWebRTC.ts:383-491 | after any run, every further schedule of such moves ends within a bound, and where it cannot go on the mesh is quiet |
| MeshProgress.RestIsReachable | src/hooks/useWebRTC.ts:383-491 | every run can be continued to a quiet mesh within the bound |
| Utf8Decoder.ReadFollowing | src/denoise/denoiser.ts:58-62 | the inner loop folds the following bytes into the code point and says whether all were continuation bytes |
| Utf8Decoder.Decode | src/denoise/denoiser.ts:31-76 | the whole loop: it stops, reads in range, writes what its specification says, and gives back well-formed input when re-encoded |
| Utf8Decoder.NextOfEncoding | src/denoise/denoiser.ts:33-74 | one pass reads back exactly one encoded scalar value, whatever follows it |
| Utf8Decoder.AcceptedIsEncoding | src/denoise/denoiser.ts:54-74 | one pass accepts nothing else: no overlong form, surrogate or value above U+10FFFF |
| Utf8Decoder.CharIsAccepted | src/denoise/denoiser.ts:33-74 | every character of the RFC 3629 grammar is accepted whole |
| Utf8Decoder.RoundTrip | src/denoise/denoiser.ts:31-76 | decode(encode(s) + r) = s + decode(r) for all scalar values s and all bytes r |
| Utf8Decoder.Exact | src/denoise/denoiser.ts:31-76 | no replacement character is written if and only if the input is well-formed UTF-8, and then re-encoding gives the input |
| Utf8Decoder.MalformedSkips | src/denoise/denoiser.ts:33-74 | where no character begins, U+FFFD is written once and decoding goes on behind the bytes that the first one claims; with the round trip this gives the text of every input |
| Utf8Decoder.MalformedIsMarked | src/denoise/denoiser.ts:50-72 | malformed input leaves a U+FFFD in the text |
| Utf8Decoder.OutputIsNoLonger | src/denoise/denoiser.ts:31-76 | at most one scalar value for each byte |
| Utf8Decoder.EncodingIsInjective | src/denoise/denoiser.ts:31-76 | a well-formed input has one reading |
| Utf8Decoder.MasksAreDivisions | src/denoise/denoiser.ts:38-60 | each mask test that classifies a byte is a division |
| Utf8Decoder.PayloadMasksAreRemainders | src/denoise/denoiser.ts:40-61 | each mask that keeps a payload is a remainder |
| Utf8Decoder.ShiftIsMultiplication | src/denoise/denoiser.ts:61 | shifting by six and adding the payload is multiplying by 64 and adding the remainder, in 32 bits |
| Utf8Decoder.CodePointFits | src/denoise/denoiser.ts:58-62 | before each shift the code point is below 0x8000, so the shift does not overflow |
| Utf8Decoder.ClassifyIsByMasks | src/denoise/denoiser.ts:36-51 | the classification with masks is the one with divisions, for every byte |
| Activities.ActivityStore.constructor | rust/src/domain/activities.rs:167-205 | empty tables over a fixed catalog |
| Activities.ActivityStore.LaunchInstance | rust/src/domain/activities.rs:167-208 | the new instance and its first seat, or the refusal and no change |
| Activities.ActivityStore.JoinInstance | rust/src/domain/activities.rs:228-295 | the seat and a new code with expired ones swept, or the refusal with the seat taken back |
| Activities.ActivityStore.ExchangeCode | rust/src/domain/activities.rs:313-361 | the code is used and the token stored for its seat, or the refusal and no change |
| Activities.ActivityStore.EndInstanceRow | rust/src/domain/activities.rs:518-539 | the instance is ended and all its codes and tokens are gone |
| Activities.ActivityStore.LeaveInstance | rust/src/domain/activities.rs:467-493 | seat, codes and tokens of the user are gone, and the instance ends with its last seat |
| Activities.ActivityStore.EndInstance | rust/src/domain/activities.rs:495-516 | the caller who launched it or an admin ends it, anybody else is refused and nothing changes; `ActivityOutcomes.EndExactly` says so from the log |
| Activities.LaunchSound | rust/src/domain/activities.rs:167-208 | launching keeps the tables sound: at most three active instances in a group, seats within the limit, credentials only for seats in active instances |
| Activities.JoinSound | rust/src/domain/activities.rs:228-295 | so does joining, full or not |
| Activities.RefusedJoinExactly | rust/src/domain/activities.rs:228-271 | for all tables, exactly when a refused join leaves them as they were: an activity that left the catalog leaves a new seat behind, and a full game takes an old one |
| Activities.FullJoinChangesNothing | rust/src/domain/activities.rs:262-271 | so in sound tables a refused join changes nothing |
| Activities.ExchangeSound | rust/src/domain/activities.rs:313-361 | so does exchanging |
| Activities.LeaveSound | rust/src/domain/activities.rs:467-493 | so does leaving, also as the last one |
| Activities.EndSound | rust/src/domain/activities.rs:495-539 | so does ending |
| ActivityHistory.RunSound | rust/src/domain/activities.rs:167-549 | the tables are sound after every run |
| ActivityHistory.ExchangeExactly | rust/src/domain/activities.rs:313-361 | a code is exchanged if and only if a join of that user minted it, it has not expired or been exchanged, and no leave or end came since, even if the user joined again |
| ActivityHistory.IdentityExactly | rust/src/domain/activities.rs:367-402 | a token resolves if and only if an exchange issued it for that seat, it has not expired, and no leave or end came since |
| ActivityHistory.Provenance | rust/src/domain/activities.rs:228-361 | each token comes from one exchange of one code minted by a join of the same user and instance, and no code is exchanged twice |
| ActivityOutcomes.LaunchExactly | rust/src/domain/activities.rs:167-208 | after any run a launch succeeds if and only if the activity is in the catalog, the caller is in the group, and by the log fewer than three games of the group are going on |
| ActivityOutcomes.JoinExactly | rust/src/domain/activities.rs:228-295 | a join succeeds if and only if the caller is in the group, and by the log the instance was launched, is going on and has room; each refusal has its own error and changes nothing |
| ActivityOutcomes.LeaveExactly | rust/src/domain/activities.rs:467-493 | a leave ends the game if and only if by the log nobody else is playing, and takes nobody else's seat |
| ActivityOutcomes.EndExactly | rust/src/domain/activities.rs:495-539 | a call ends an instance if and only if by the log its caller launched it, or it was launched and the caller is an admin; every other instance and all seats stay |
| ActivityOutcomes.EndsAuthorised | rust/src/domain/activities.rs:510-514 | in every run each call that ended a game was made by an admin or by the user who had launched it |
| ActivityOutcomes.JoinSweepsOwnCodes | rust/src/domain/activities.rs:274-282 | joining sweeps the expired codes of the caller's own seat, and touches no other code and no token |
| ActivityOutcomes.Lifetimes | rust/src/domain/activities.rs:18-34 | a code is good for 300 seconds and the token it is exchanged for 86400, to the second |
| ActivitySeats.StatementRemembers | rust/src/domain/activities.rs:228-271 | what an operation has read stays true of the tables while other statements run |
| ActivitySeats.StatementFits | rust/src/domain/activities.rs:251-271 | no statement pushes the seats that are not in doubt over the limit |
| ActivitySeats.SeatLimit | rust/src/domain/activities.rs:228-295 | in every interleaving of the statements of joins, leaves and ends, the seats of an instance exceed its limit by at most its own joins still in doubt, and not at all when there are none |
| ActivitySeats.RejoinExactly | rust/src/domain/activities.rs:225-271 | a seated user who joins again keeps the seat if and only if the instance is not over its limit at that moment; so always when no join of it is in doubt |
| ActivitySeats.DecisionExactly | rust/src/domain/activities.rs:260-271 | a join that is alone in doubt keeps its seat if and only if the other seats leave room for it |
| ActivitySeats.OccupiedExactly | rust/src/domain/activities.rs:262-271 | a step leaves every active instance with a seat, or with somebody who is ending it, if and only if it is not a full join that takes back the only seat |
| ActivitySeats.SeatedInstances | rust/src/domain/activities.rs:228-295 | so in every interleaving without such a step, active instances have seats |
| ActivitySeats.RejoinCanEmpty | rust/src/domain/activities.rs:225-271 | in a game for one, its player joins again while another user joins; both are refused and nobody is left |
| ActivitySeats.StatementsAreJoin | rust/src/domain/activities.rs:228-295 | run alone, the statements of a join are the whole join |
| ActivitySeats.StatementsAreLeave | rust/src/domain/activities.rs:467-493 | run alone, those of a leave are the whole leave |
| ActivitySeats.StatementsAreEnd | rust/src/domain/activities.rs:495-539 | run alone, those of an end are the whole end |
| ActivitySeats.CallsAlone | rust/src/domain/activities.rs:228-539 | a call of each kind among any others, uninterrupted, does what the whole operation does |
| ActivityExchange.StatementsAreExchange | rust/src/domain/activities.rs:313-361 | run alone, the four statements are the whole exchange |
| ActivityExchange.ReadExactly | rust/src/domain/activities.rs:319-345 | no continuation without a further read yields two tokens for a code, if and only if the read does not find a code that another call has read and not yet marked |
| ActivityExchange.SingleUse | rust/src/domain/activities.rs:313-361 | in every interleaving without such a read, each code yields at most one token |
| ActivityExchange.SingleUseExactly | rust/src/domain/activities.rs:313-361 | for whole runs of statements: no part of a run can be continued to a second token, if and only if no read of it overlaps |
| ActivityExchange.CrossedExchangesIssueTwo | rust/src/domain/activities.rs:319-360 | two exchanges that both read a code before either marks it get a token each |
| ActivityTokens.TokenResolvesExactly | rust/src/domain/activities.rs:313-402 | however the statements of exchanges interleave with each other and with joins, leaves and ends, a token resolves if and only if it was stored for that seat, has not expired, no leave or end came since it was stored, and the seat is taken now |
| ActivityTokens.LateExactly | rust/src/domain/activities.rs:345-360 | after a step no user of a stored token has left, and no instance of one has ended, since its code was found, if and only if the step does not insert a token of which that is already true |
| ActivityTokens.TimelyExactly | rust/src/domain/activities.rs:313-361 | the same for whole runs |
| ActivityTokens.TimelyIdentity | rust/src/domain/activities.rs:367-402 | in such runs a token resolves exactly as with whole exchanges: one call found its code and stored it, it has not expired, and no leave or end came since the code was found |
| ActivityTokens.LateTokenResolves | rust/src/domain/activities.rs:319-360 | a user who leaves and joins again between the SELECT and the INSERT gets a token that resolves in spite of the departure |
| Friends.FriendStore.constructor | rust/src/db.rs:257-265 | an empty table |
| Friends.FriendStore.Select | rust/src/domain/friends.rs:162-169 | the row of two users in either order, if there is one |
| Friends.FriendStore.SendFriendRequest | rust/src/domain/friends.rs:152-196 | a new pending row, a declined row turned round, nothing for a pending or accepted one, or the refusal; `Friends.SendExactly` and `Friends.SendKeepsFriends` say so from the rows |
| Friends.FriendStore.RespondFriendRequest | rust/src/domain/friends.rs:198-222 | only the recipient answers, and only a pending request |
| Friends.FriendStore.RemoveFriend | rust/src/domain/friends.rs:224-232 | either side removes the row, and nobody else does |
| Friends.FriendStore.AcceptedFriendIds | rust/src/presence.rs:14-36 | the other side of each accepted row, in row order |
| Friends.SendKeepsTable | rust/src/domain/friends.rs:152-196 | a request never breaks UNIQUE(user_a_id, user_b_id), even when it swaps the columns, and keeps one row per pair and none with oneself |
| Friends.RunExplained | rust/src/domain/friends.rs:152-232 | after every run of calls the table has one row per pair and follows from the calls |
| Friends.Consent | rust/src/domain/friends.rs:172-221 | a row is accepted if and only if its recipient accepted after its requester's latest request and nothing came after |
| Friends.Friendship | rust/src/presence.rs:14-36 | accepted friendship is symmetric and irreflexive, and each friend is listed once |
| Friends.SendExactly | rust/src/domain/friends.rs:152-196 | from the rows alone: a request turns the declined row of the two users, adds a pending row if they have none, and changes no other row, so a pending one keeps its recipient |
| Friends.SendKeepsFriends | rust/src/domain/friends.rs:172-195 | no request changes anybody's list of friends |
| Friends.RespondExactly | rust/src/domain/friends.rs:198-222 | an answer goes through if and only if its caller is the recipient of a pending row; accepting befriends exactly the two users, and nothing else changes a friendship |
| Friends.RemoveExactly | rust/src/domain/friends.rs:224-232 | a removal by either user ends exactly that friendship; by anybody else it changes nothing |
| Friends.RunRemoves | rust/src/domain/friends.rs:152-232 | in a run a row leaves the table by the call of one of its two users, and only so |
| Friends.LookAndWriteIsSend | rust/src/domain/friends.rs:162-195 | the SELECT and the write that follows it, run together, are the whole request |
| Friends.WriteExactly | rust/src/domain/friends.rs:172-195 | however old its SELECT is, the write keeps one row per pair if and only if it is not an insert that the other user's request has crossed |
| Friends.WriteKeepsFriendsExactly | rust/src/domain/friends.rs:172-195 | the write of a request leaves everybody's friends alone if and only if it did not see the row declined and meets it accepted; with a look that is not out of date every pending row keeps its recipient |
| Friends.ExecuteRemoves | rust/src/domain/friends.rs:224-232 | a row leaves the table by the DELETE of one of its two users, and by no other statement |
| Friends.OvertakenRequest | rust/src/domain/friends.rs:172-220 | a request that saw the row declined is written after the other user asked back and was accepted: the two are no friends any more |
| Friends.CheckAndFinishIsRespond | rust/src/domain/friends.rs:204-220 | the SELECT and the UPDATE of an answer, run together, are the whole answer |
| Friends.ExecuteExactly | rust/src/domain/friends.rs:152-232 | every statement of any number of requests and answers, and every removal, keeps the table in order if and only if it is not a crossed insert |
| Friends.InterleavedRequests | rust/src/domain/friends.rs:152-232 | so there is one row per pair after every interleaving of statements without a crossed insert |
| Friends.ConsentExactly | rust/src/domain/friends.rs:204-220 | a statement keeps every accepted row last written by its recipient's acceptance, if and only if it does not write an acceptance to a row whose recipient is somebody else by then |
| Friends.ConsentedRuns | rust/src/domain/friends.rs:152-232 | the same for whole runs of statements |
| Friends.AcceptedWithoutConsent | rust/src/domain/friends.rs:178-220 | two tabs accept and decline at once, the recipient asks back, and the request back is accepted by nobody but its sender |
| Friends.CrossedRequestsExactly | rust/src/domain/friends.rs:162-195 | two requests that both look before either writes keep one row per pair, if and only if they are not two users without a row who ask each other |
| Friends.CrossedRequestsMakeTwoRows | rust/src/domain/friends.rs:162-195 | those two make two rows for one pair |
| Invitations.InvitationStore.constructor | rust/src/db.rs:273-282 | an empty table |
| Invitations.InvitationStore.SendInvitation | rust/src/domain/friends.rs:428-462 | the invitation replaces an earlier one of the two users and the room, or the refusal |
| Invitations.InvitationStore.RespondInvitation | rust/src/domain/friends.rs:464-498 | the invitee settles a pending one, repeats a settled answer, or is refused |
| Invitations.InvitationStore.CancelInvitation | rust/src/domain/friends.rs:500-509 | the inviter removes it, and nobody else does |
| Invitations.RunSettled | rust/src/domain/friends.rs:482-497 | after every run a settled row still says what its invitee was told |
| Invitations.AnswersAgree | rust/src/domain/friends.rs:482-497 | over every run, all answers to one invitation agree and come from one user |
| Invitations.SendReplaces | rust/src/domain/friends.rs:428-462 | a sent invitation is the only row of its users and room, pending, under the new id that is returned |
| Invitations.StandsExactly | rust/src/domain/friends.rs:428-509 | after any run an invitation is in the table if and only if it was sent and since then neither its inviter has cancelled it nor another one has taken its place |
| Invitations.RespondExactly | rust/src/domain/friends.rs:464-498 | an answer goes through if and only if such an invitation to the caller stands and every answer given to it says the same; which error otherwise, and what stays |
| Invitations.ReadAndWriteIsRespond | rust/src/domain/friends.rs:470-497 | the SELECT and the UPDATE of an answer, run together, are the whole answer |
| Invitations.AnswersExactly | rust/src/domain/friends.rs:470-497 | a statement leaves all answers in agreement with each other and with the rows, if and only if it is not an UPDATE that contradicts an answer already given |
| Invitations.AgreementExactly | rust/src/domain/friends.rs:464-498 | the same for whole runs of statements |
| Invitations.TwoTabsDisagree | rust/src/domain/friends.rs:470-497 | two answers that both find an invitation pending are both given |
| Hubs.Hub.constructor | rust/src/matchmaking/sockets.rs:79-84 | no sockets |
| Hubs.Hub.ConnectSocket | rust/src/matchmaking/sockets.rs:86-95 | a new socket with an empty outbox under a fresh id |
| Hubs.Hub.RegisterUser | rust/src/matchmaking/sockets.rs:99-109 | the socket is the user's, listed once |
| Hubs.Hub.DisconnectSocket | rust/src/matchmaking/sockets.rs:113-126 | the socket is gone, and its user if it was the last |
| Hubs.Hub.PushFrame | rust/src/matchmaking/sockets.rs:200-210 | the frame is queued last, or a full outbox disconnects the socket |
| Hubs.Hub.SendUser | rust/src/matchmaking/sockets.rs:178-185 | every socket of the user gets the frame, and one that overflows does not stop the others |
| Hubs.OnlineMeansBound | rust/src/matchmaking/sockets.rs:141-148 | online if and only if some open socket belongs to the user |
| Hubs.DisconnectIndexed | rust/src/matchmaking/sockets.rs:113-126 | closing a socket keeps both directions of the registry in agreement |
| Hubs.RegisterIndexed | rust/src/matchmaking/sockets.rs:99-109 | registering keeps them in agreement if and only if the socket does not belong to another user |
| Hubs.ReboundSocketLeavesUserOnline | rust/src/matchmaking/sockets.rs:99-126 | otherwise the first user is online after the socket has closed |
| Hubs.PushAllDelivers | rust/src/matchmaking/sockets.rs:178-210 | a frame reaches exactly the listed sockets with room, exactly the listed ones without room are gone from both indexes, and nothing else changes |
| Hubs.PushExactly | rust/src/matchmaking/sockets.rs:200-210 | a socket keeps up to 64 frames; the 65th disconnects it |
| Presence.AnnounceUserOnline | rust/src/presence.rs:39-56 | the list of online friends goes to the new socket, then the news to every friend; neither if there are no friends |
| Presence.AnnounceUserOffline | rust/src/presence.rs:60-67 | the news to every friend, or nothing while another socket of the user is open |
| Presence.SendEach | rust/src/presence.rs:53-55 | the message goes to the listed users, one after the other |
| Presence.SocialStore.constructor | src/store/socialStore.ts:60-63 | nobody is shown online |
| Presence.SocialStore.SetOnlineFriends | src/store/socialStore.ts:60-63 | the list replaces the view |
| Presence.SocialStore.AddOnlineFriend | src/store/socialStore.ts:65-68 | the user is added to the view |
| Presence.SocialStore.RemoveOnlineFriend | src/store/socialStore.ts:70-73 | the user is taken out of the view |
| Presence.AnnounceExactly | rust/src/presence.rs:39-56 | an announcement, whatever outboxes are full, keeps every view right if and only if its user is still online after it, on the way out or unwatched, and every friend it drops keeps a socket, is on the way out or is shown to nobody |
| Presence.TellExactly | rust/src/presence.rs:60-67 | the news of leaving, whatever outboxes are full, keeps every view right if and only if the user is offline, about to be announced or unwatched, and the same holds of the friends it drops |
| Presence.CloseKeeps | rust/src/ws/route.rs:140-148 | so does the teardown of a socket, whose news is then still to be sent |
| Presence.StepExactly | rust/src/ws/route.rs:95-147 | every step keeps every view right if and only if it is safe, which can be told before it is taken; only a socket bound to a second user breaks the bookkeeping |
| Presence.RunExactly | rust/src/ws/route.rs:95-147 | the views are right all along a run if and only if each of its steps is safe |
| Presence.Convergence | rust/src/presence.rs:39-67 | after a safe run a told socket shows exactly its online friends, but for those whose news is still to be sent; for a user without friends if and only if the tab brought an empty view |
| Presence.LateOfflineHidesFriend | rust/src/presence.rs:60-67 | with room, news of leaving leaves a friend's told tab right if and only if the user is still offline when it is sent, or the announcement of the return is still to come |
| Presence.ReloadCanHideFriend | rust/src/presence.rs:60-67 | from every quiet state, reloading a user's only tab can hide the user from a friend although nothing is left to be sent |
| Presence.ReloadInOrder | rust/src/presence.rs:39-67 | sent in the other order, the same two announcements leave every view right |
| Presence.OverflowExactly | rust/src/matchmaking/sockets.rs:200-210 | an ordinary frame keeps every view right if and only if there is room, or its socket has no user, or the user has another socket, is on the way out or is shown to nobody else |
| Presence.QuietOverflowExactly | rust/src/matchmaking/sockets.rs:200-210 | with nothing left to be sent: if and only if there is room, or it is not a user's only socket, or no friend is online |
| Presence.OverflowIsNotAnnounced | rust/src/matchmaking/sockets.rs:200-210 | a user whose only socket is dropped for a full outbox stays in friends' views, also after the teardown |
| SpeakerFocus.Focus.constructor | src/hooks/useSpeakerFocus.ts:33-35 | no levels and nobody with the floor |
| SpeakerFocus.Focus.TurnOff | src/hooks/useSpeakerFocus.ts:52-62 | the floor and the levels are cleared |
| SpeakerFocus.Focus.SmoothLevels | src/hooks/useSpeakerFocus.ts:75-85 | every measured level is smoothed, and the first loudest one is found |
| SpeakerFocus.Focus.ForgetOthers | src/hooks/useSpeakerFocus.ts:86-88 | exactly the measured ids keep a level |
| SpeakerFocus.Focus.TakeSample | src/hooks/useSpeakerFocus.ts:69-112 | the whole tick: smoothing, forgetting and the election, on the state before it |
| SpeakerFocus.BestIsLoudest | src/hooks/useSpeakerFocus.ts:72-85 | the loop finds a measured id that nobody exceeds, or nobody has a positive level |
| SpeakerFocus.FloorIsDeserved | src/hooks/useSpeakerFocus.ts:90-112 | after each sample the floor is empty only if nobody speaks; otherwise its holder is measured and, once the hold has expired, beaten by nobody |
| SpeakerFocus.AudibleKeepsFloor | src/hooks/useSpeakerFocus.ts:90-105 | an audible holder loses the floor if and only if its hold has expired and the loudest beats it by both thresholds |
| SpeakerFocus.SilentLosesFloor | src/hooks/useSpeakerFocus.ts:90-107 | a measured holder who is no longer audible loses the floor, hold or no hold, if and only if somebody speaks |
| SpeakerFocus.NewHolderIsLoudest | src/hooks/useSpeakerFocus.ts:99-112 | the floor goes to the loudest, and is empty only if its holder is gone and nobody is heard |
| SpeakerFocus.StartsFromSilence | src/hooks/useSpeakerFocus.ts:52-83 | turned off and on again, the election starts from silence and without a holder |
| SpeakerFocus.Hysteresis | src/hooks/useSpeakerFocus.ts:90-112 | over every run, a change that ousts an audible speaker with a non-empty id comes at least 900 ms after the change that gave it the floor |
| SpeakerFocus.Takeover | src/hooks/useSpeakerFocus.ts:75-112 | whoever alone is at 0.3 or louder holds the floor from the thirteenth sample on, from any state with levels in [0, 1] |
| SpeakerFocus.SteadyLevel | src/hooks/useSpeakerFocus.ts:75-80 | over any number of samples at a steady level, the distance to it shrinks by 0.45 a sample upwards and by 0.82 downwards, exactly |
| SpeakerFocus.QuietRises | src/hooks/useSpeakerFocus.ts:75-80 | whoever starts at 0 and is measured at `r` at most is at `r * (1 - 0.45^k)` at most after `k` samples |
| SpeakerFocus.FadesSlowly | src/hooks/useSpeakerFocus.ts:75-80 | a level `l` is still `l * 0.82^k` after `k` silent samples |
| SpeakerFocus.PauseKeepsFloor | src/hooks/useSpeakerFocus.ts:75-105 | so a holder who falls silent keeps the floor, sample by sample, while what is left is audible and the hold has not expired or nobody has 1.3 times as much |
| SpeakerFocus.EmptyIdIsNotProtected | src/hooks/useSpeakerFocus.ts:91-92 | a holder with the empty id is ousted after one millisecond |
| Timestamps.Rfc3339Order | rust/src/domain/activities.rs:24-34 | text order is the order of the fields, with a longer fraction first |
| Timestamps.DateOrder | rust/src/domain/activities.rs:31-33 | field order of dates is the order of the days of the Gregorian calendar |
| Timestamps.FractionOrder | rust/src/domain/activities.rs:31-33 | printed fractions are ordered as their values unless one continues the other |
| Timestamps.ExpiryExact | rust/src/domain/activities.rs:30-34 | `expired` agrees with the clock unless both fall in one second and the expiry's digits continue those of now, or those of now continue the expiry's with a larger value; and only then it does not |
| Timestamps.ExpiryWithinASecond | rust/src/domain/activities.rs:30-34 | for any number of digits it is off by less than a second |
| Timestamps.WholeSecondExpiresEarly | rust/src/domain/activities.rs:30-34 | at a whole second, what expires half a second later counts as expired |
| Timestamps.SessionLivesThroughDay | rust/src/auth/session.rs:124-136 | `expires_at > datetime('now')` holds exactly through the UTC day of the expiry: never early, and less than 24 hours late |
| Sessions.SessionStore.CreateSession | rust/src/auth/session.rs:36-45 | one more session, not revoked |
| Sessions.SessionStore.RevokeSession | rust/src/auth/session.rs:47-55 | that session is revoked |
| Sessions.SessionStore.RevokeAllSessions | rust/src/auth/session.rs:62-70 | every session of the user is revoked |
| Sessions.SessionStore.RefreshSession | rust/src/auth/session.rs:73-79 | the old session is revoked and a new one issued to the same user, or nothing happens |
| Sessions.SessionStore.UserFromToken | rust/src/auth/session.rs:124-147 | the user of a live session whose account exists |
| Sessions.ResolvesExactly | rust/src/auth/session.rs:36-147 | after every run a token resolves if and only if it was issued to that user, not ended since, the account exists, and the day of its expiry is not over |
| Sessions.RevokedForGood | rust/src/auth/session.rs:47-79 | a revoked or refreshed token never resolves again |
| Sessions.CreatingExactly | rust/src/auth/session.rs:36-45 | a new session resolves to its user while it lives, and no other token is touched |
| Sessions.RevokingExactly | rust/src/auth/session.rs:47-70 | logging out ends that token and no other; ending all sessions of a user ends exactly that user's tokens |
| Sessions.RefreshExactly | rust/src/auth/session.rs:73-79 | a refresh with a token that resolves ends it and hands its user over to the next one, and touches no other; with any other token nothing happens |
| SessionRefresh.StatementsAreRefresh | rust/src/auth/session.rs:73-79 | run alone, the three statements are the whole refresh |
| SessionRefresh.RevocationsEnd | rust/src/auth/session.rs:47-70 | between the statements of a refresh, logging out ends a token and ending all sessions all of a user's tokens |
| SessionRefresh.ResolveExactly | rust/src/auth/session.rs:73-79 | no continuation without a further read rotates one session into two, if and only if the read does not find a session that another refresh has found and not yet revoked |
| SessionRefresh.RotationExactly | rust/src/auth/session.rs:73-79 | the same for whole runs of statements, with creations and revocations between them |
| SessionRefresh.CrossedRefreshes | rust/src/auth/session.rs:73-79 | two refreshes that both find a session before either revokes it can issue two |
| AuthImport.NormalIsStable | rust/src/bin/migrate-auth-users.rs:261 | normalising an email twice is normalising it once |
| AuthImport.LegacyHashExactly | rust/src/auth/password.rs:109-117 | a legacy hash is 32 hexadecimal digits, a colon and 128 more |
| AuthImport.ValidEmailExactly | rust/vendor/better-auth-rs/crates/better-auth/src/email_password.rs:341-355 | something before the first `@`, a dot inside what follows, and 3 to 320 bytes |
| AuthImport.DisplayNameExactly | rust/src/auth/password.rs:122-130 | what precedes the first `@`, up to 200 characters of it, or a stock name |
| AuthImport.AuthTables.RunPreflight | rust/src/bin/migrate-auth-users.rs:259-295 | the class of a row, without changing anything; what each class means is `AuthImport.OutcomeExactly` |
| AuthImport.AuthTables.ImportCredential | rust/vendor/better-auth-rs/crates/better-auth/src/email_password.rs:95-151 | the user, its index entry and its account together, or the refusal and no change |
| AuthImport.AuthTables.HandleRow | rust/src/bin/migrate-auth-users.rs:88-142 | one turn of the loop: its effect on the tables and its one counter |
| AuthImport.AuthTables.RunImport | rust/src/bin/migrate-auth-users.rs:70-142 | the whole loop: tables and summary |
| AuthImport.ImportsExactly | rust/src/bin/migrate-auth-users.rs:112-137 | a row is imported if and only if it is importable, with its hash byte for byte, and otherwise nothing changes |
| AuthImport.ImportStores | rust/src/bin/migrate-auth-users.rs:112-137 | what is stored for an importable row: normal email, display name, verified flag, index entry, account and hash |
| AuthImport.OutcomeExactly | rust/src/bin/migrate-auth-users.rs:259-295 | every outcome from the tables: already imported if and only if one stored user has the row's id and normal email and a password, conflict if and only if either is taken and no stored user has both, failed otherwise |
| AuthImport.RunExtends | rust/src/bin/migrate-auth-users.rs:281-290 | no run rewrites a user, an account or a hash; a dry run writes nothing |
| AuthImport.PrefixProcessed | rust/src/bin/migrate-auth-users.rs:259-295 | a row that had its turn is never importable again, however the tables grow |
| AuthImport.Restart | rust/src/bin/migrate-auth-users.rs:70-142 | a run stopped anywhere and started again does what finishing it would do, and ends where one uninterrupted run ends |
| AuthImport.SecondRun | rust/src/bin/migrate-auth-users.rs:84-142 | a second run imports nothing, and finds already imported exactly the rows that the first imported or found imported; so do the counters |
| AuthImport.EveryRowCounted | rust/src/bin/migrate-auth-users.rs:86-142 | each scanned row adds to exactly one counter |
| AuthImport.CountersExactly | rust/src/bin/migrate-auth-users.rs:86-142 | each counter is the number of rows with its outcome |
| AuthImport.DryRunIsUpperBound | rust/src/bin/migrate-auth-users.rs:117-120 | the dry-run count is at least the real number of imports |
| AuthImport.DryRunExactly | rust/src/bin/migrate-auth-users.rs:112-137 | it is that number if and only if every counted row has an acceptable email and no stray account, and no two counted rows share an id or a normal email |
| AuthImport.DryRunCountsTwins | rust/src/bin/migrate-auth-users.rs:117-120 | so any two counted rows whose emails differ only in case or white space make it larger |
| AuthImport.PagesCoverTable | rust/src/bin/migrate-auth-users.rs:223-248 | pages by `--after-id` and `--limit` cover every row once, in order |
| Markdown.EscapeIsOneMap | src/components/Markdown.tsx:11-17 | the four ordered replacements are one map over the characters |
| Markdown.EscapeRoundTrip | src/components/Markdown.tsx:11-17 | escaping is invertible and its result is escaped text |
| Markdown.EmphasisMarked | src/components/Markdown.tsx:29-32 | both emphasis passes leave escaped text and whole tags whole |
| Markdown.LinkIsSafe | src/components/Markdown.tsx:21-25 | a link is one whole tag with an http address, or plain text |
| Markdown.DoubleStarsAreStrong | src/components/Markdown.tsx:27-32 | two stars around text that hugs them make it strong |
| Markdown.SingleStarsAreEmphasis | src/components/Markdown.tsx:27-32 | one star around it emphasises it |
| Markdown.SpacedStarsStayLiteral | src/components/Markdown.tsx:27-32 | stars followed by white space, as in `2 * 3`, stay literal |
| Markdown.PlainTextStays | src/components/Markdown.tsx:38-53 | text without a star, backtick, opening bracket or colon is shown as it is, escaped and with its line breaks |
| Markdown.RenderInlineMd | src/components/Markdown.tsx:38-53 | the token loop writes every stretch of text and every token once, in order |
| MarkdownTokens.TokenExactly | src/components/Markdown.tsx:35 | a token is found at a place if and only if the pattern spells one there |
| MarkdownTokens.CodeRenders | src/components/Markdown.tsx:38-53 | what stands between two ticks is code, escaped and without markup of its own, between what comes before and behind |
| MarkdownTokens.LinkRenders | src/components/Markdown.tsx:21-53 | a caption in square brackets and an address in round ones are a link, or text if the address is no http one |
| MarkdownTokens.UrlRenders | src/components/Markdown.tsx:35-53 | a bare http address, up to the next white space, is a link to itself |
| MarkdownTokens.HttpUrlExactly | src/components/Markdown.tsx:19 | an http address is a scheme, in any case, with something behind it and no white space |
| MarkdownTokens.SpanExactly | src/components/Markdown.tsx:29-32 | the content of an emphasis reaches as far as the pattern allows, and there is one whenever the pattern has a match |
| Markdown.InlineIsSafe | src/components/Markdown.tsx:11-53 | for every text the inline output is escaped text between the module's own tags, and no `href` holds a quote, a bracket or white space |
| Markdown.RenderOne | src/components/Markdown.tsx:86-90 | the prose of a part, then its fence |
| Markdown.RenderMarkdown | src/components/Markdown.tsx:82-92 | all parts in order; what the parts are is `Markdown.PartsExactly` |
| Markdown.PartsExactly | src/components/Markdown.tsx:55-84 | the parts of a text are its one split: prose in which no fence opens, opening mark, word and newline, code in which no mark begins, and closing mark, joined in order, give the text back |
| Markdown.FenceRenders | src/components/Markdown.tsx:82-91 | a fence is rendered between the prose before it and everything behind it |
| Markdown.ProseRenders | src/components/Markdown.tsx:82-91 | text in which no fence opens is rendered as prose |
| Markdown.FenceAndProse | src/components/Markdown.tsx:82-91 | code between two marks is rendered as code, and the prose behind it as prose |
| Markdown.ProseConcat | src/components/Markdown.tsx:57-79 | prose on the two sides of empty lines is rendered on its own |
| Markdown.ParagraphRenders | src/components/Markdown.tsx:61-78 | prose without an empty line that begins with neither a space nor a mark is one paragraph |
| Markdown.ListRenders | src/components/Markdown.tsx:70-76 | a list renders every item, in order |
| Markdown.BlockIsSafe | src/components/Markdown.tsx:61-78 | headings, lists and paragraphs are safe |
| Markdown.HeadingsRender | src/components/Markdown.tsx:63-68 | one mark makes a title of a line and two make a subtitle |
| Markdown.HeadingWithText | src/components/Markdown.tsx:63-67 | with another line behind it a heading is a paragraph |
| Markdown.MarkdownIsSafe | src/components/Markdown.tsx:57-92 | so is all block output, wherever the fences are |
| MatchSocket.MatchSocketHook.constructor | src/hooks/useMatchSocket.ts:50-56 | no socket, no timers |
| MatchSocket.MatchSocketHook.StopHeartbeat | src/hooks/useMatchSocket.ts:58-63 | the named interval no longer runs |
| MatchSocket.MatchSocketHook.StopReconnect | src/hooks/useMatchSocket.ts:65-70 | the named timeout no longer runs |
| MatchSocket.MatchSocketHook.EnsureSocket | src/hooks/useMatchSocket.ts:86-90 | the current socket if it is live, otherwise a new one |
| MatchSocket.MatchSocketHook.OnOpen | src/hooks/useMatchSocket.ts:92-103 | one new heartbeat, unless the socket was replaced |
| MatchSocket.MatchSocketHook.OnClose | src/hooks/useMatchSocket.ts:105-112 | no socket, no heartbeat and one reconnect, unless the socket was replaced |
| MatchSocket.MatchSocketHook.OnMessage | src/hooks/useMatchSocket.ts:119-128 | the frame is dispatched, unless the socket was replaced |
| MatchSocket.MatchSocketHook.DisposeSocket | src/hooks/useMatchSocket.ts:256-272 | nothing runs, and the socket is detached and closing |
| MatchSocket.MatchSocketHook.ReconnectForAuthChange | src/hooks/useMatchSocket.ts:274-277 | another user gets another socket |
| MatchSocket.EventGood | src/hooks/useMatchSocket.ts:86-282 | every event keeps the lifecycle in order |
| MatchSocket.Lifecycle | src/hooks/useMatchSocket.ts:86-282 | over every run of events: one live connection at most, and it is the current one; at most one heartbeat and one reconnect, none after disposal; a mounted hook has a socket or a reconnect; an open socket beats |
| MatchSocket.MountAndUnmount | src/hooks/useMatchSocket.ts:279-282 | mounting brings a live socket for the identity held; unmounting leaves no live socket and no timer |
| MatchSocket.SameIdentityKeepsSocket | src/hooks/useMatchSocket.ts:450-456 | signing in as the identity already held changes nothing |
| MatchSocket.SignInReplaces | src/hooks/useMatchSocket.ts:256-277 | signing in as somebody else puts a new socket for that user in the place of the current one, which is heard no more |
| MatchSocket.ShownExactly | src/hooks/useMatchSocket.ts:86-112 | `connected` holds while the current socket is open, and not while it connects or without one, after every event if and only if the event does not open a socket in place of one that was open and is closing |
| MatchSocket.ShownThroughout | src/hooks/useMatchSocket.ts:86-112 | the same for whole runs |
| MatchSocket.FramesBelongToIdentity | src/hooks/useMatchSocket.ts:119-128 | a frame is dispatched if and only if it came over the open current socket, and the hook's identity has not changed since that socket was made |
| MatchSocket.CookiesMatchExactly | src/hooks/useMatchSocket.ts:86-128 | a dispatched frame came with the cookies of the hook's identity if and only if the browser had that identity's cookies when the upgrade of its socket was sent |
| MatchSocket.AgreeingJarSuffices | src/hooks/useMatchSocket.ts:86-128 | so if the cookies agree with the hook at every upgrade, no frame of another user is dispatched |
| MatchSocket.OtherTabsFramesAreDispatched | src/hooks/useMatchSocket.ts:86-128 | a sign-in of another tab just before the upgrade of a new socket has that user's frames dispatched |
| MatchSocket.ReconnectBringsSocket | src/hooks/useMatchSocket.ts:111 | a reconnect that fires brings a socket |
| MatchSocket.CallAfterUnmountLeaks | src/hooks/useMatchSocket.ts:279-281 | a call after disposal opens a socket again |

## Left out

- MeshNetwork.MeshAgreement: one handshake per pair; a second `createMeshPeers`, `removePeer` during a handshake, ICE restart and two offerers in one pair (the "lower id keeps its offer" test compares a peer with its own key and never holds) are not part of the run of a whole mesh. What any number of further descriptions does to one connection is the subject of `MeshOverlap`.
- MeshPeer.CandidateConservation: a candidate that the browser rejects counts as handed over.
- The solo WebRTC path, statistics, quality tiers, media tracks and the peer connection's transport.
- Utf8Decoder.Decode: the undefined `length` of an ASCII byte, which works through NaN comparisons, is the number 0, and bytes are numbers with division in place of masks (five lemmas show that they agree); the default argument is left out.
- ActivityHistory.ExchangeExactly: about whole operations; `ActivityExchange` and `ActivityTokens` are about their statements.
- ActivityExchange.SingleUseExactly: launches, joins, leaves and ends are whole operations between the statements of the exchanges, codes are never drawn twice, and no statement fails.
- ActivityTokens.LateExactly: likewise, and tokens are never drawn twice.
- ActivitySeats.SeatLimit: a launch is one step, no statement fails, and the catalog is fixed and enabled; joining a disabled activity leaves its seat behind, in the code and in the model of the operation.
- Activities.ActivityStore.JoinInstance: time is a number here; how far the text comparison departs from it is the subject of `Timestamps`.
- Presence.Convergence: friendships do not change during a run, sending one announcement is one step (the source does not wait between its frames), and a client whose connection broke before the server noticed is not told apart from one that reads slowly.
- Friends.Consent: about whole requests, answers and removals; `Friends.ConsentExactly` is about their statements. Follows and the joins with user profiles are not part of this model.
- SpeakerFocus.Takeover: levels are real numbers; rounding, the rounded levels shown on screen and the measuring of audio are not modelled.
- Invitations.AnswersAgree: about whole calls; `Invitations.AnswersExactly` is about the statements of answers, while sending, which reads its row back only to return the id, stays whole. An invitation's expiry only filters the list of pending ones, which is not modelled.
- Timestamps.ExpiryExact: years 0 to 9999 and no leap seconds, as the `time` crate prints them; computing the expiry by adding days is not part of this model.
- Sessions.ResolvesExactly: tokens are never drawn twice, and the fallback query for schemas without a username column is the same query.
- SessionRefresh.RotationExactly: likewise, and no statement fails.
- AuthImport.Restart: reading and writing never fail, a user's import is one transaction, and the hooks that Better Auth allows around user creation are not configured here; the command line, the report and the exit code are not modelled.
- Markdown.InlineIsSafe: text is a sequence of Unicode scalar values, so lone surrogates are not covered; emphasis tags may be nested crosswise, which the browser repairs.
- MatchSocket.Lifecycle: calls come only while the hook is mounted; the contents of frames, the legacy token that is sent on opening, what `send` drops, and a join that waits for the socket to open are not modelled.
- The matchmaking engine, the economy, HTTP routes, OAuth, password hashing, e-mail, TURN, user interface and translations.
