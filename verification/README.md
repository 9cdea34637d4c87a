# Broadcaster model

A Dafny model of the stateful protocols of a Minecraft session broadcaster written in Go, with proofs of what they promise.
`dafny verify dfyconfig.toml` checks everything.

The broadcaster keeps one joinable Xbox session published, answers the join offers that reach it over a signaling connection by
relaying them to a server, and keeps the bot's friend list in order so that players can see the session. Four protocols carry
the difficulty, and each is modelled twice: as a machine over events, about which the theorems are stated, and as the source's own
objects, whose methods are proved to take exactly the machine's steps.

- **Join offers** (`OfferText`, `OfferRelay`, `HttpRelay`). Offers, trickled candidates, connect errors, two timers for each offer,
  relay calls that return, and closing, interleaved in any way. What an offer's fate should be is defined from the trace alone;
  the machine is proved to agree with it.
- **Sessions** (`Publication`, `NonceAnnouncer`, `SessionNonceAnnouncer`, `Lifecycle`, `Broadcaster`, `PublishedSystem`,
  `DialHandoff`, `Strikes`, `Activity`, `ActivityMonitor`, `Recovery`). The write-suppressing announcer of one session; the lifecycle that
  moves sessions between current, retired and stale; both together; the race in dialling; the two counters that decide on
  recovery, and the backoff of recovery itself. The two lists of sessions are Go slices: an array and a length, filtered in
  place.
- **Friend requests** (`BulkAccept`, `FriendClient`, `RunState`, `SyncState`, `FriendPass`, `PassAnswers`, `PassDelays`). Bulk accepting with
  halving, the players asked one by one afterwards, and what is remembered between passes. What a pass does is read from the answers that
  it and the earlier passes of the run were given.
- **Friend list and schedule** (`FriendLedger`, `PassTrace`, `PassSafety`, `ExpiryScan`, `PassSteps`, `FriendSyncer`, `SyncLoop`,
  `SyncScheduler`). The friend count and the last-seen file, one whole pass with the joins that the relay records in the middle of it, traces of any number of passes, and the
  loop that spaces passes. `SyncScheduler.Scheduler.Run` runs all of it: every input does what it does, the steps are a run
  of the abstract loop, the passes are those that the steps start and form a run of passes, and only the stale are removed.

How the model reads the program:

- Time is an integer count of nanoseconds and a clock never goes back. A trace is any finite sequence of events; each event is one
  region under the lock that the source holds.
- Sessions, offers and signaling connections are numbers, given in order of creation. Encoding a document is injective, so a document
  is the values it encodes.
- A remote call that fails has no effect, and nobody else writes a session's document or the friend list. How each call turns out
  is a parameter of the event.
- Every call of `time.Now` in the friend syncer is a step of the trace with a reading of its own, and any time may pass between two readings.
- Timers may fire late or not at all unless a lemma says that they fire on time (`OfferRelay.Punctual`, `SyncLoop.Punctual`).
- One session loop runs at a time, and it rotates only after it has seen a nearly full session (`rotateDue`).

Three things that the proofs brought out about the program:

- `updateNonces` decides whether to write by comparing with the nonces in memory, not with those last written. After a write that fails, the
  next update for the same members succeeds without writing and the session keeps its old document until it is announced
  again (`NonceUpdateSyncsIff`, `NonceUpdateCanStayBehind`).
- A join that is recorded between the moment a friend's entry is read and the removal that follows is not seen by
  that removal, and this is the only way in which somebody seen within the window is removed (`RemovalRespectsSightingsIff`,
  `SeenFriendsStay`, `JoinCanBeMissed`).
- When the first backoff is longer than the maximum, the first wait is not capped (`WaitsAreCappedDoublings`).

## Model

| member | source | states |
|---|---|---|
| OfferText.Complete | relay.go:271-287 | the loop over the candidates builds `CompleteOfferSDP`: the trimmed offer, a line break, one line for each candidate that is not blank |
| OfferText.CompleteInStages | relay.go:271-287 | completing an offer with some candidates and then with others equals completing it once with all of them, for all texts |
| OfferText.OneRecordPerCandidate | relay.go:269-287 | the completed offer has the offer's own records, ended by CRLF or a bare newline (section 5 of RFC 8866), followed by exactly one `a=` record for each candidate that is not blank, in order, if and only if no trimmed candidate contains a newline |
| OfferText.TrimSpaceTrims | relay.go:276 | trimming takes off both ends exactly the space that is there |
| OfferText.AttributePrefixes | relay.go:280-283 | `a=` is put before a candidate exactly where it is missing |
| HttpRelay.Relay.NotifySignal | relay.go:116-154 | takes the machine's step for an offer, candidate, error or other signal, and reports whether it was accepted |
| HttpRelay.Relay.ReceiveOffer | relay.go:124-133 | a new offer replaces the one waiting under its key, whose timers are stopped, and arms both of its own; `Valid` keeps throughout that no timer runs for an offer that does not wait |
| HttpRelay.Relay.ReceiveCandidate | relay.go:134-142 | a candidate is appended to the waiting offer and restarts its quiet timer, or is refused |
| HttpRelay.Relay.ReceiveError | relay.go:143-149 | a connect error drops the waiting offer and stops its timers |
| HttpRelay.Relay.Flush | relay.go:157-170 | a timer that fires takes its offer out and starts one relay call with the completed text, unless the relay is closed or the offer no longer waits |
| HttpRelay.Relay.RelayOffer | relay.go:172-214 | one relay call makes one reply attempt, with the answer or the right failure code, and counts the join only if the answer was delivered |
| HttpRelay.Relay.Fail | relay.go:217-227 | a failure is answered with its code, once |
| HttpRelay.Relay.Close | relay.go:101-113 | closing drops every waiting offer and stops its timers; nothing is in flight exactly when the relay has drained |
| OfferRelay.RelayMatchesTrace | relay.go:101-170 | in every interleaving, the offers waiting and the relay calls made, with their texts and the candidates in order, are exactly those that the trace calls for |
| OfferRelay.AcceptsIff | relay.go:116-154 | after every trace a signal is accepted if and only if the relay is not closed and it is an offer, a connect error, or a candidate for an offer that is still live |
| OfferRelay.RelayedIff | relay.go:115-170 | an offer is relayed if and only if one of its timers fires before it is replaced, abandoned, closed out or already relayed |
| OfferRelay.RelayedAtMostOnce | relay.go:156-170 | no offer is relayed twice |
| OfferRelay.EveryRelayAnswersOnce | relay.go:172-235 | every relay call is running or has made exactly one reply attempt to the client that sent the offer, and the join count is the number of answers delivered |
| OfferRelay.RepliesTellAttempts | relay.go:172-227 | every reply carries the answer that the target gave to that relay call, or the code of the step at which it failed |
| OfferRelay.NothingStartsAfterClose | relay.go:101-113 | once closed, no relay call ever starts, and once drained nothing changes any more |
| OfferRelay.RelayedWhenDue | relay.go:128-142 | with timers on time, an offer is relayed at exactly the earlier of its arrival plus the longest wait and its last candidate plus the quiet time |
| OfferRelay.ShippedWaits | relay.go:24-25 | with the shipped waits an offer is relayed within three seconds of arriving, and after exactly half a second if it trickles nothing |
| OfferRelay.RelayedOnceLeftAlone | relay.go:123-170 | with timers on time, an offer that is left alone for longer than the longest wait has been relayed, at exactly that instant |
| SessionNonceAnnouncer.SessionAnnouncer.Announce | announcer.go:204-262 | takes the step of `Announce`: skip, write, or close and publish again under other restrictions, with every failure in between |
| SessionNonceAnnouncer.SessionAnnouncer.Hide | announcer.go:185-202 | makes the remembered status invite-only and writes it, or fails |
| SessionNonceAnnouncer.SessionAnnouncer.ResetForRepublish | announcer.go:264-271 | forgets the session, the cache, the restrictions and the nonces, but not the last status |
| SessionNonceAnnouncer.SessionAnnouncer.HandleSession | announcer.go:297-303 | a published session is handled once |
| SessionNonceAnnouncer.SessionAnnouncer.SyncNoncesInPlace | announcer.go:364-394 | the two loops over the nonce map delete members that left and draw a nonce for new ones, up to the first failure |
| SessionNonceAnnouncer.SessionAnnouncer.UpdateNonces | announcer.go:311-334 | takes the step of `UpdateNonces` for the announcer's own session and ignores any other |
| NonceAnnouncer.CacheMatchesRemote | announcer.go:185-271 | after any mix of operations and failures from a fresh announcer, the cached document and restrictions are those of the remote session |
| NonceAnnouncer.AnnounceEstablishes | announcer.go:204-262 | an announcement that succeeds, whether or not it wrote, leaves the remote session with the encoding of its status and the current nonces under its restrictions |
| NonceAnnouncer.AnnounceIsAnnounced | announcer.go:204-262 | after any history, an announcement leaves the remote session, and fails, as an announcer would that keeps no cache and asks only the remote session |
| NonceAnnouncer.AnnounceLearnsRestrictions | announcer.go:208-219 | an announcer that does not know the restrictions of its session takes them from the session when it reports them, and keeps them even if the announcement fails |
| NonceAnnouncer.FailedAnnounceWritesNothing | announcer.go:204-262 | an announcement that fails leaves the remote session as it was, or closed |
| NonceAnnouncer.SuppressionIsInvisible | announcer.go:226-262 | an announcer that always writes goes through the same states, remote document included |
| NonceAnnouncer.StepIsInvisible | announcer.go:226-262 | and it never succeeds in a step where the suppressing one fails |
| NonceAnnouncer.SyncNamesActiveMembers | announcer.go:364-394 | a sync leaves nonces for exactly the active members if and only if no draw failed, keeps the nonce of everyone who stays, and reports a change exactly when there is one |
| NonceAnnouncer.ActiveMemberIff | announcer.go:364-394 | an active member is a name that some member trims to, not empty and not the bot's own |
| NonceAnnouncer.UpdateNamesTheMembers | announcer.go:311-334 | an update that succeeds for the announcer's own session leaves nonces for exactly those members |
| NonceAnnouncer.NonceUpdateSyncsIff | announcer.go:311-334 | an update that succeeds leaves the document in sync if and only if the nonces changed or it was in sync before |
| NonceAnnouncer.FailedNonceWriteStaysBehind | announcer.go:319-333 | after a nonce write that fails, the next update for the same members succeeds without writing |
| NonceAnnouncer.NonceUpdateCanStayBehind | announcer.go:311-334 | a concrete run in which this happens |
| NonceAnnouncer.NoFailureNoDrift | announcer.go:185-334 | without a failure the document never falls behind |
| NonceAnnouncer.HideIs | announcer.go:185-202 | hiding fails exactly without a session, an encoding or a write, and leaves the session then; otherwise the document is the last status made invite-only |
| NonceAnnouncer.HiddenStaysHidden | announcer.go:185-202 | once hidden, and unless announced again, every document that a session gets is invite-only |
| Broadcaster.Broadcaster.CloseStaleSessions | broadcaster.go:430-442 | the in-place filter tries to close every stale session exactly once, in order, keeps exactly those whose close failed, and overwrites none that it has still to read |
| Broadcaster.Broadcaster.CloseDrainedSessions | session_recovery.go:328-351 | the in-place filter: a retired session whose members are unknown, that has more than one, or that was retired less than 30 seconds ago stays untried; every other is tried exactly once, and is in neither list nor open if that succeeds |
| Broadcaster.Broadcaster.CleanupPublishedSessions | broadcaster.go:445-470 | tries to close the stale, retired and current sessions in that order, each exactly once, and keeps those that fail as stale, although the combined list may share the stale list's array |
| Broadcaster.Broadcaster.ReleaseSessions | broadcaster.go:473-481 | drops the relay, the sessions and the signaling connection |
| Broadcaster.Broadcaster.PublishOn | broadcaster.go:375-389 | publishes a session on a connection and starts the relay on the same one, or neither |
| Broadcaster.Broadcaster.PublishSession | broadcaster.go:393-399 | a session whose announcement fails is not kept |
| Broadcaster.Broadcaster.Start | broadcaster.go:90-133 | starts, or releases whatever it had made and cancels |
| Broadcaster.Broadcaster.Update | broadcaster.go:402-426 | announces the current session again and then retries the stale ones |
| Broadcaster.Broadcaster.Retire | session_recovery.go:300-301 | appends to the retired list in place or in a larger array |
| Broadcaster.Broadcaster.SessionHealthIssue | session_recovery.go:245-262 | the current session is lost, or has at least 28 members, which makes a rotation due, or is healthy |
| Broadcaster.Broadcaster.RotateSession | session_recovery.go:277-290 | publishes a new session on the same connection and retires the old one |
| Broadcaster.RotateWhenFull | session_recovery.go:52-62 | driven by its own methods, a started broadcaster whose session is nearly full retires it and announces another on the same connection |
| Broadcaster.Broadcaster.CancelByCaller | broadcaster.go:95-99 | the context given to `Start` may end at any time |
| Broadcaster.Broadcaster.RecreateSession | session_recovery.go:354-387 | releases everything, dials again and publishes, or leaves nothing |
| Broadcaster.Broadcaster.BeginRecovery | session_recovery.go:145-159 | recovery begins unless the context has ended or the issue is outdated |
| Broadcaster.Broadcaster.EndRecovery | session_recovery.go:169-175 | an exhausted recovery whose context still runs records its error and ends the context |
| Broadcaster.Broadcaster.Close | broadcaster.go:484-494 | cancels and releases everything |
| Lifecycle.EveryRunConserves | broadcaster.go:374-481 | in every run, whatever fails, the sessions announced and not closed are exactly the current, retired and stale ones, each held once; sessions, relay and signaling are on one connection |
| Lifecycle.OpenIsHeld | broadcaster.go:391-481 | the same conservation as an equation between multisets |
| Lifecycle.CloseLeavesOnlyFailures | broadcaster.go:484-494 | after closing, only sessions whose close failed just then are left open, and no connection is |
| Lifecycle.RotationFindsSession | session_recovery.go:277-290 | a rotation never finds the current session gone |
| Lifecycle.DemotedIsFinal | session_recovery.go:287-324 | a session that is no longer current never becomes current or is announced again |
| Lifecycle.RetiredIsDemoted | session_recovery.go:287-301 | no retired session is the current one |
| Lifecycle.DrainsExactly | session_recovery.go:328-351 | what clearing the drained sessions does to each retired one, from its members, its age and how its close turns out |
| Lifecycle.DrainedAfterGrace | session_recovery.go:277-351 | in every run, a session that this closes was retired by a rotation that found it current, at least 30 seconds before, and had at most one known member |
| Lifecycle.StartSucceeds | broadcaster.go:90-133 | a start is refused while started, and otherwise succeeds exactly if it dials, the session is valid and it is announced, with one new session on the dialled connection |
| Lifecycle.StartFails | broadcaster.go:90-133 | a start that fails ends its context and lets go of everything it made, but for what would not close |
| Lifecycle.UpdateIff | broadcaster.go:402-426 | an update closes what is stale exactly if it announced, and otherwise changes nothing |
| Lifecycle.RotationIff | session_recovery.go:265-301 | a rotation retires the current session for a new one on the same connection exactly if it was seen nearly full, nothing recovers and the new one is announced |
| Lifecycle.RecoveryIff | session_recovery.go:145-175 | a recovery begins exactly if the context runs and the issue applies, and reports its error exactly if the context has not ended |
| Lifecycle.RecreateIff | session_recovery.go:354-387 | recreating lets go of everything and has a new session exactly if it dials a live connection and publishes on it |
| Lifecycle.CloseIff | broadcaster.go:484-494 | closing a started broadcaster lets go of everything and ends its context, and does nothing to any other |
| Lifecycle.ExhaustedRecoveryIsReported | session_recovery.go:169-175 | after an exhausted recovery every `Wait` returns its error until a later start is accepted |
| Lifecycle.FailureStaysUntilStart | broadcaster.go:525-536 | what `Wait` returns never changes without a start |
| PublishedSystem.AdvertisesWhatTheRelayHears | announcer.go:53-104 | in every run with every announcer's own failures, the document of the current and of each retired session names exactly the signaling connection that the relay listens to |
| PublishedSystem.SystemStaysSound | broadcaster.go:374-426 | conservation and alignment hold when announcements are the announcers' own |
| PublishedSystem.HiddenForGood | announcer.go:185-202 | once `hide` has succeeded on a retired session, its document is invite-only after every later event of the whole system |
| DialHandoff.ReturnedOrClosedOnce | broadcaster.go:293-340 | in every race a dialled connection is returned and never closed, or closed exactly once and not returned |
| DialHandoff.UntimedDialIsReturned | broadcaster.go:321-339 | if the context does not end, what was dialled is returned and nothing is closed |
| DialHandoff.NoSideIsStuck | broadcaster.go:321-339 | once the context has ended the caller can go on, and once the dial has ended no side is stuck |
| DialHandoff.RacesAreShort | broadcaster.go:321-339 | every run of the race has at most five choices, and one with no choice left has finished on both sides |
| Strikes.FiresIff | session_recovery.go:225-235 | a count of three consecutive strikes fires exactly at a current strike that two unbroken earlier ones precede |
| ActivityMonitor.Monitor.ActivityHealthIssue | session_activity.go:80-130 | takes the step of the miss, grace and cooldown machine and records the check in the health record |
| ActivityMonitor.Monitor.RecordCheck | health.go:70-77 | every check moves the attempt time, only an answered one the answer |
| Activity.IssueIff | session_activity.go:80-130 | an issue is raised exactly at a third miss of one unbroken series, for a publication that is still current |
| Activity.SeriesIsOneSession | session_activity.go:85-92 | all misses of a series are of the same publication |
| Activity.IssuesAreSpaced | session_activity.go:80-130 | two issues are at least 10 minutes apart, and 12 when checks are a minute apart |
| ActivityMonitor.AdvertisedIff | health.go:39-44 | the gauge is up exactly when the last answer found the session open no more than 15 minutes ago and checks have not stopped for more than 5 |
| Backoff.RetryWithBackoff | session_recovery.go:192-223 | stops at the first success, the end of the context or the last attempt, and reports each failure that is retried with its wait |
| Backoff.WaitsAreCappedDoublings | session_recovery.go:192-221 | every wait is the doubled base capped at the maximum if and only if the base is within the maximum |
| Backoff.ShippedBackoff | session_recovery.go:12-16 | with the shipped constants an exhausted recovery has reported five retries and waited 155 seconds |
| SessionLoop.Loop.Iterate | session_recovery.go:20-103 | one turn of the session loop: what it does about a lost connection, an issue or a failed refresh |
| SessionLoop.ActionsIff | session_recovery.go:45-103 | from the wake, whether signaling can be recreated, and how the calls turn out: exactly when the loop rotates, refreshes, recovers, recovers for repeated failures, and reports a missing activity that it cannot recover |
| SessionLoop.ActionsAreOrdered | session_recovery.go:62-103 | a rotation comes first and a recovery last, each at most once |
| SessionLoop.EndsIff | session_recovery.go:45-103 | the loop ends exactly when a recovery gives up, or a rotation or refresh fails because the context ended |
| SessionLoop.FailuresAre | session_recovery.go:45-101 | the failure count starts again after every success and goes up by one with a failed refresh |
| SessionLoop.RecoversAtThirdFailure | session_recovery.go:83-101 | repeated failures lead to recovery exactly at the third failed refresh with no success in between |
| FriendClient.Client.AcceptPendingFriendRequests | friends.go:64-124 | selects, adds in batches and reports who was accepted and who failed, as `AcceptPending` |
| FriendClient.Client.AddFriends | friends.go:130-158 | the recursive halving, with the shared map of delays |
| FriendClient.Client.AddInBatches | friends.go:85-93 | the loop over batches of at most fifty |
| FriendClient.Client.SelectEligible | friends.go:69-77 | guests, unnamed players and those who are held are left out |
| BulkAccept.OnlyEligibleAreAsked | friends.go:64-124 | whatever the service answers, every request is of 1 to 50 eligible players, and only they are accepted or failed |
| BulkAccept.EligibleIff | friends.go:69-77 | exactly the named players who are neither guests nor held are asked for |
| BulkAccept.DecimalIsRead | friend_sync.go:607-613 | every number written in digits is read back, and is a guest's exactly from 2^52 up to 2^53 |
| BulkAccept.AcceptReadsAnswers | friends.go:64-124 | whatever the service answers, errors included: the accepted are the eligible among those that its answers updated, in order; the failure reported, if any, is the first that is not a bulk limit; each player waits as the last answer that holds them says; and the failed are, in order, the eligible who wait if a failure stopped the accept, and otherwise those whom no answer updated |
| BulkAccept.AddingReads | friends.go:130-158 | the same of one group: halving keeps what succeeded before a failure and adds nothing of its own |
| BulkAccept.HalvingServesAll | friends.go:130-158 | against a service with any bulk limit, halving a group of n serves it in order within 2n-1 requests |
| BulkAccept.BatchingRefinesOneByOne | friends.go:64-124 | against any bulk limit and any yes or no for each player, exactly those are accepted who would be one by one, exactly the rest fail, and the requests within the limit partition the eligible players in order |
| SyncState.RunMemory.Record | friend_sync.go:124-172 | the loops over the four maps leave the state that `RunState.Record` gives |
| SyncState.RunMemory.AddRefusals | friend_sync.go:149-158 | every refused player is stamped, and the ones never refused before count as new |
| SyncState.RunMemory.SkippedAt | friend_sync.go:107-120 | the players skipped are those whose hold or delay is not over |
| RunState.FullIff | friend_sync.go:78-95 | after every history of passes the list is reported full exactly when two different players were refused for the first time in the last hour, each after a pass that had read the pending list, with no accept since |
| RunState.RunReadsHistory | friend_sync.go:124-172 | what the folded state says of each player is what the history says |
| FriendPass.HeldIsUntouched | friend_sync.go:272-327 | a player who is held is in no request and no single add, and the result says nothing about them |
| FriendPass.PassKeepsHold | friend_sync.go:124-172 | no pass shortens a hold that outlasts it |
| FriendPass.PassRecordsItsAnswers | friend_sync.go:272-359 | with distinct pending players every full-list refusal and every delay is in the pass's result as it was given |
| FriendPass.HoldsAreHonoured | friend_sync.go:97-172 | in every run of passes over distinct pending players, a player whom an answer refuses for a full list or asks to wait, in a bulk request or a single add, is in no bulk and no single add of any pass that starts before the hour or the delay is over |
| FriendPass.FullInRun | friend_sync.go:587-605 | the full flag of a real run has its history definition |
| FriendPass.BulkToldIff | friends.go:103-124 | the players whom the accept reports with a delay are exactly those whom the bulk answers left waiting |
| PassAnswers.PassReadsAnswers | friend_sync.go:272-359 | the accepting half, from the answers alone: it asks one by one, in order, the eligible whom no bulk answer updated or told to wait, unless a failure stopped it, until an answer pauses the account or two first refusals come with nobody accepted; and every field of its result, the account-wide delays included |
| PassDelays.MayIff | friend_sync.go:97-129 | in every run, a pass may add exactly when no delay on adding that an earlier pass was asked for is unfinished, and the same of removing |
| PassDelays.SkippedIff | friend_sync.go:107-172 | in every run, a pass leaves a player alone exactly when some earlier pass was told an hour or a delay for them that is not over |
| PassDelays.AddsWhenDue | friend_sync.go:97-105 | in every run, a pass within such a delay makes no request and no single add, and any other one asks exactly if somebody eligible and not held is pending |
| PassDelays.PausesAreHonoured | friend_sync.go:323-359 | in every run, once a single add, or the failure that stopped a bulk accept, is answered with status 429 or at least 500 and a delay, exactly that delay is recorded and no pass that starts before it is over makes any request or single add |
| PassDelays.DelaysAre | friend_sync.go:216-268 | the delays on reading and removing that a pass of a run leaves are those of its listing half, or that of a failed read of the pending list alone |
| FriendSyncer.Syncer.AddFriend | friend_sync.go:331-359 | one single add and what its answer does to the result, the count and the file |
| FriendSyncer.Syncer.AddSingles | friend_sync.go:303-313 | the loop over the failed players, until adding is blocked |
| FriendSyncer.Syncer.IsAddBlocked | friend_sync.go:194-208 | adding stops on an account-wide delay, or after two first refusals with no accept |
| FriendSyncer.Syncer.AcceptRequests | friend_sync.go:272-327 | the accepting half of a pass |
| FriendSyncer.Syncer.Accepted | friend_sync.go:362-373 | an accepted player is counted and their clock started |
| FriendSyncer.Syncer.Expire | friend_sync.go:388-427 | one friend is looked up, and restarted, kept or removed |
| FriendSyncer.Syncer.ScanFriends | friend_sync.go:249-264 | the loop over the friends, until a removal asks for a delay |
| FriendSyncer.Syncer.PruneHistory | friend_sync.go:431-459 | only entries of people who are not listed are cleared, and if the file lists and obliges none of them is left but of those who joined meanwhile; the entry of a listed person changes only by a join |
| FriendSyncer.Syncer.RecordJoin | relay.go:239-254 | a join that is recorded is a sighting at the reading taken for it |
| FriendSyncer.Syncer.Weave | relay.go:239-254 | the joins that come while a pass runs are recorded between its steps |
| FriendSyncer.Syncer.SyncWithOptions | friend_sync.go:216-268 | one pass, as `PassTrace.IsPass` |
| FriendSyncer.Syncer.RunSync | friend_sync.go:587-605 | one pass between two readings of the clock, and one turn of the run of passes, on the state it finds and leaves |
| FriendSyncer.Syncer.ConfigurationCounts | friend_sync.go:221-231 | without automatic accepting nobody is asked for or accepted, and without expiry nobody is looked at or removed and no entry is cleared |
| FriendSyncer.FriendCount.NeedsList | health.go:124-134 | when a list is read for the count alone |
| FriendSyncer.FriendCount.Add | health.go:147-156 | an adjustment, clamped at zero, ignored before the first full list |
| FriendSyncer.FileHistoryStore.Seen | player_history.go:40-53 | an entry is the Unix second of the sighting |
| FriendSyncer.FileHistoryStore.LastSeen | player_history.go:22-38 | the entry, none, or no answer |
| FriendSyncer.FileHistoryStore.Clear | player_history.go:74-87 | removes one entry and no other |
| FriendLedger.CountIsListSize | health.go:113-156 | if the service tells the truth, the count is the size of the true list after every step from the first full list on |
| FriendLedger.ClampNeverActs | health.go:147-156 | and then the clamp at zero never acts |
| FriendLedger.NeedsListIff | health.go:124-142 | a list is read for the count exactly if none failed within five minutes, and there is no count yet or, without expiry, it is more than half an hour old |
| PassSafety.PassIsHonest | friend_sync.go:216-268 | if the accepted players were not friends yet and the listing is the true list, a pass removes only friends, each once, and the count follows the list through it |
| FriendLedger.RemovedOnlyWhenStale | friend_sync.go:388-427 | a friend is removed only if the look that led to it came more than the window after every sighting recorded before it, to the second; a lost entry counts as a sighting |
| FriendLedger.RemovalRespectsSightingsIff | friend_sync.go:388-427 | a prompt removal respects every sighting recorded before it exactly when none was recorded between the look and the removal |
| PassSafety.JoinCanBeMissed | friend_sync.go:388-427 | the scan of a friend who joins between the look and the removal removes them although they were seen that day |
| PassSafety.CountFollowsList | health.go:113-156 | in every trace of passes, joins and losses in which the service tells each pass the truth, the count is the size of the true list after every one of them |
| PassSafety.PassIsSound | friend_sync.go:216-268 | whatever the services answer, a pass removes nobody whom it did not look up and find stale |
| PassSafety.TraceIsSound | friend_sync.go:216-268 | the same of every trace of passes, with joins between them and in the middle of them, and losses of the file |
| PassSafety.SeenFriendsStay | friend_sync.go:388-427 | in every such trace a removal comes more than the window after every sighting recorded before it, unless one was recorded between its look and itself; and with no exception when joins come between passes only |
| ExpiryScan.PassExpires | friend_sync.go:249-264 | an expiring pass looks at every friend on the list who is no guest, in order, until a removal asks for a delay; a look that finds no entry is followed by a sighting, one that finds an entry before the window by a request to remove, and a removal that succeeds by clearing the entry |
| ExpiryScan.EveryFriendIsLookedAt | friend_sync.go:249-264 | if no removal asks for a delay, every friend on the list is looked at exactly once |
| ExpiryScan.ExpiringPassDealsWith | friend_sync.go:388-427 | after such a pass with a file that obliges, every friend who did not join meanwhile: one without an entry has that reading's second, one whose entry was before the window was asked to be removed and on success has no entry, and any other entry is as it was |
| ExpiryScan.AskedAfterWindow | friend_sync.go:388-427 | in every trace of passes, joins and losses, a friend with an entry who stays listed and unseen is asked to be removed by any such pass that starts more than the window after that entry |
| ExpiryScan.OthersKeepTheirEntries | friend_sync.go:249-264 | the scan touches the entry of no guest and of nobody who is not on the list |
| ExpiryScan.PassForgetsOthers | friend_sync.go:431-459 | an expiring pass leaves no entry of anybody who is not on the list, if the file lists and obliges and they do not join meanwhile |
| ExpiryScan.PassLeavesFriends | friend_sync.go:229-264 | a pass that may not remove, or is not to expire, looks at and removes nobody |
| ExpiryScan.PassClears | friend_sync.go:416-459 | every entry that a pass clears is that of a friend it removed or of a player whom the list it counted does not name |
| PassDelays.RemovalsWait | friend_sync.go:241-264 | in every run, a pass within a delay on removing looks at no friend and removes none |
| PassDelays.RemovalsResume | friend_sync.go:241-264 | and once no such delay is unfinished, an expiring pass that is given the list deals with every friend on it |
| PassDelays.RemovalDelayIs | friend_sync.go:408-418 | a delay on removing that a pass leaves is the one that a refused removal of it asked for |
| PassDelays.RemovalDelayIsLeft | friend_sync.go:408-418 | and every removal that is refused with a delay leaves exactly that delay |
| PassSteps.AcceptingDoes | friend_sync.go:272-373 | what the accepting half adds to the trace: for each player whom the bulk answers updated and then for each single add, in order, one more friend and the start of their clock, or a declined request |
| PassSteps.CountsWhenWanted | friend_sync.go:229-247 | a pass that is not to expire reads the clock after accepting and lists friends then exactly if the count wants it, and leaves the delay that a failed list asks for |
| PassSteps.UnlistedExpiry | friend_sync.go:232-244 | an expiring pass that cannot get the list does nothing but accept, and leaves its delay |
| PassSteps.UnreadPass | friend_sync.go:221-226 | a pass that could not read the pending list and is asked for a delay does nothing else |
| SyncScheduler.Trigger.Signal | social_subscription.go:84-89 | an event leaves the slot full, whether or not it was |
| SyncScheduler.Scheduler.Iterate | friend_sync.go:541-583 | one iteration of the loop takes the abstract step, and makes a pass exactly when that step does |
| SyncScheduler.Scheduler.Arm | friend_sync.go:575-582 | the timer is reset to the next wake |
| SyncScheduler.Scheduler.WakeUp | friend_sync.go:540-583 | a wake that can happen at the next reading of the clock is one iteration, recorded as one step of the abstract loop |
| SyncScheduler.Scheduler.Run | friend_sync.go:532-584 | every input before the first cancellation does what it does: an event fills the slot, a wake that can happen is an iteration, a join is recorded; the steps are a run of the abstract loop, the passes are one for one those that the steps start and form a run of passes, and only the stale are removed |
| SyncScheduler.TwoPasses | friend_sync.go:540-583 | a loop that the timer wakes twice makes two passes, the second at least 20 seconds after the end of the first |
| SyncLoop.TimerIsExact | friend_sync.go:575-582 | the timer is armed for exactly the first instant at which a pass is due and permitted, later than the clock reading used |
| SyncLoop.TimerWakePasses | friend_sync.go:545-562 | every time the timer fires, a pass starts |
| SyncLoop.LoopGoesOn | friend_sync.go:545-562 | no run of the loop is stuck: its timer may fire at any moment from the armed one on, and then a pass starts |
| SyncLoop.PassIff | friend_sync.go:540-583 | which wakes start a pass, from the trace: the first, and then exactly those at least 20 seconds, or the read delay, after the last pass ended at which something is owed: an event, an expiry, the poll, or the retry that the last pass was asked for |
| SyncLoop.ExpiresIff | friend_sync.go:557-573 | which passes expire friends: all until one has done so without being asked to come back, and then exactly those that begin when expiry is on and due |
| SyncLoop.PassesAreSpaced | friend_sync.go:561-566 | a pass starts no sooner than 20 seconds, or the read delay, after the end of every earlier pass |
| SyncLoop.EventStaysOwed | social_subscription.go:84-89 | an event, even when coalesced, stays owed until a pass starts after it |
| SyncLoop.TokenWakeHasEvent | social_subscription.go:84-89 | every wake by a token has an event of its own since the token before |
| SyncLoop.ClosedForGood | friend_sync.go:546-553 | once the channel was found closed, only the timer wakes the loop |
| SyncLoop.EventIsServed | friend_sync.go:546-562 | the next wake by the timer answers an event, and a wake by a token does if passes are permitted, or else leaves the timer armed for when they are |
| SyncLoop.PendingStaysArmed | friend_sync.go:575-582 | a pending pass keeps its moment until it starts |
| SyncLoop.NeverQuietForLong | friend_sync.go:563-582 | after a pass the timer is never armed for later than the polling interval, or the delay asked for |
| SyncLoop.EventIsAnswered | friend_sync.go:540-583 | with the timer on time, every event is followed by a pass decided no later than the last pass's end plus the polling interval, or plus the delay asked for |
| SyncLoop.EventIsAnsweredSoon | friend_sync.go:546-582 | with the timer on time, a pass is decided at the first wake after an event if passes are permitted then, and otherwise at the very moment from which they are |
| SyncLoop.ExpiryStaysOwed | friend_sync.go:557-573 | an owed expiry is dropped only by a pass without a read delay |
| SyncLoop.ExpiriesAreSpaced | friend_sync.go:567-572 | completed expiry scans are at least the expiry interval apart |

## Left out

- HTTP, JSON, YAML and TOML, and the Xbox, PlayFab and OAuth clients: every call is an outcome given to the step that makes it.
- `verifyOfferIdentity` and the token verifier: a join is recorded, or not, as an event.
- The gallery, presence, notifications, token caching, the command and its metrics: request plumbing with no protocol of its own.
- `status.go` and `config_file.go`: single-pass field rules and migrations.
- `Sync` called directly passes no holds, so what is proved of holds is about `runSync` and the loop.
- Cancellation in the middle of a friend pass: a pass runs to its end, and the loop is cancelled between passes.
- A friend syncer without a history store: nothing is recorded and expiry is off.
- `ExpiryDays` so large that the window overflows 64-bit nanoseconds.
- Signals that reach the trigger after it was closed: the program never closes it.
- A background `hide`'s own timer, and worker wait groups with `closeWorkersTimeout`: hides happen at any time or never.
- A start that another goroutine makes while a close still waits for the social handlers.
- Lifecycle.EveryRunConserves: an announcer that fails to republish after closing its own session still counts as open until it is closed, because the broadcaster goes on holding it.
- FriendLedger.CountIsListSize: says nothing when other people change the list, because then the source promises only that the next full list corrects the count.
- HttpRelay.Relay.RelayOffer: the target's status and answer and the delivery of the reply are given as one attempt, because the call holds no lock in between.
