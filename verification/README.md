# Verified model of the realtime backend

A Dafny 4.11 model of the parts of the backend in which several actors share state, with proofs of what holds
over whole runs. `dafny verify dfyconfig.toml` checks everything.

| file | what it models |
|---|---|
| LeaseProtocol, RedisRepository | the presence store in Redis: lease sets, the deadline index, the online/version hash, and the four atomic scripts, once as functions from store to store with the steps of the running system, once as methods updating the three maps in place |
| LeaseInvariants, LeaseHistory, VersionAccounting, Draining, StaleClaims | what all interleavings of resumes, leaves, bumps, claims, sweeps and failed sweeps keep and reach |
| PresenceService, LastSeen, PresenceSubscriber, Visibility, Governance | what a transition causes: publication, the outbox record with its idempotency key, the durable last-seen time, the subscriber that drops stale versions, and who gets to see what |
| HubState, Hub, Admission | the WebSocket hub with its two-way index, gauges, bounded buffers and broadcast loops, and the gate in front of its rooms |
| Outbox, RealtimeWorker | the consumer of realtime outbox events: one transaction per event, with faults, retries and any number of workers |
| PromotionCpm | promotion charges in 64-bit integers |
| Projections, ContentProjection, AggregateResolver | batched resolution of resources shared into chat |
| Common | shared types |

Each atomic script, SQL statement or locked section is one step. Clocks are arbitrary numbers brought along by
the caller, also running backward; answers of the database and of the network are parameters; UUIDs are numbers,
whose order is the order of their text. Where the Go code updates an object in place, a class does, and its
methods are proved against functions on values, about which the lemmas speak. Lemmas carry `{:induction false}` where
Dafny would add an induction hypothesis of its own: every induction is written out.

## Where the code and its documentation disagree

The model follows the code.

- `backend/internal/presence/service.go:122` says that a transition is always published, online or offline. The
  callers of `ResumeLease` discard its result (`backend/internal/realtime/websocket_handler.go:118`,
  `backend/internal/realtime/connection.go:335`), and only a resume turns a user online, so what is published is
  exactly the offline transitions (VersionAccounting.PublishedAreOffline).
- `backend/internal/finance/promotion_cpm.go:40` and `:98-100` say that the estimate is the largest N with
  S(N) <= budget. It is the largest N whose unrounded price is within budget; the two differ exactly when
  (1000 budget) mod CPM + 999 >= CPM (PromotionCpm.EstimateGap, DocumentedEstimateIff).
- `backend/internal/presence/sweeper.go:133-138` goes on after a failed sweep, with the claim already taken off
  the index. The user then stays online until its own next resume or leave (LeaseInvariants.StrandedStaysOnline).
- A sweep with a claim taken before the user renewed reports the old due time as last seen
  (StaleClaims.StaleLastSeenIff says exactly when).
- `backend/internal/realtime/presence_subscriber.go:15` speaks of watcher connections; the loop only ever reaches
  the connections of the subject itself (PresenceSubscriber.Subscriber.HandleMessage).
- `Subscribe` does not look whether its connection is registered, and `Unregister` does nothing for one that is
  not. A connection that left the registry, as a slow client or by a close, while its read pump waits for the gate
  becomes a member that nothing removes (Admission.UnregisteredMembersIff). If its channel is closed, the next room
  message for it panics in `backend/internal/realtime/hub.go:232-233`, which no caller recovers from; a broadcast is
  therefore a step that may crash, and Admission.CrashesExactly says exactly when. The hub invariant has two
  levels: what holds in every run, and what holds if only registered connections subscribe.
- `backend/internal/presence/redis_repository.go:382-400` reads the hash by other rules than the scripts that write
  it; on what they write the two agree (Visibility.ReadsAgree, ReadsDiffer).
- `backend/internal/presence/delivery/http/presence_handler.go:122` calls a snapshot viewer-scoped and fail-closed
  for blocks, lifecycle and privacy. The restricted branch in `backend/internal/presence/service.go:280-286` clears
  the online flag and the time but returns the version, and the handler passes it on. Versions count transitions,
  and `BumpVisibilityVersion`, which alone would change that, has no caller; so the version's parity is the online
  flag (Visibility.BarredParityIsPresence), and being barred hides the last-seen time only
  (Visibility.SnapshotsEqualIff says exactly what two snapshots have in common).
- `backend/internal/realtime/presence_subscriber.go:157-190` remembers a version before it reads what it needs to
  serve the message; a message whose reads fail is lost, and its redelivery is dropped as stale
  (PresenceSubscriber.RedeliveryNeverHelps).
- `backend/internal/presence/service.go:87-89` calls the enqueue the durable producer of last-seen times. A failed
  insert is only logged, so the durable time can stay behind (LastSeen.DurableTimeIsLatestIff says exactly when).
- `backend/internal/platform/outbox/infrastructure/repository/outbox_repository.go:284-286` says that workers can
  process batches concurrently without races. The fetch is a transaction of its own, so its row locks are gone
  when the events are processed, and the retry count can fall behind (Outbox.UndercountReachable).
- `withRetry` also retries a commit that the driver reports as a rollback, which the comment of `WithTx`
  (`backend/pkg/db/db.go:87-89`) does not list.

## Model

| member | source | states |
|---|---|---|
| RedisRepository.RedisStore.Load | backend/internal/presence/redis_repository.go:42-59 | Reading the hash: an absent key is offline at version 0; a missing field, a non-number or an online flag other than 0 and 1 is the malformed-state error. |
| RedisRepository.RedisStore.MaxDeadline | backend/internal/presence/redis_repository.go:61-67 | The loop over the lease set finds its greatest expiry, and nothing for an empty set. |
| RedisRepository.RedisStore.Reconcile | backend/internal/presence/redis_repository.go:79-111 | The common tail of both lease scripts, updating hash and deadline index in place, takes the store exactly to what the specification of the tail says, with that reply; an error leaves the lease writes already made. |
| RedisRepository.RedisStore.EvalLeaseMutation | backend/internal/presence/redis_repository.go:32-112 | The whole new store and reply of the lease mutation script for every action, clock and stored state, including the invalid action after the prune. |
| RedisRepository.RedisStore.EvalBumpVersion | backend/internal/presence/redis_repository.go:114-134 | The version bump changes the version of the one hash by one, or nothing if the hash is malformed. |
| RedisRepository.RedisStore.RangeByScore | backend/internal/presence/redis_repository.go:140 | The loop returns the first entries that are due, at most limit of them, in the order of score and then member. |
| RedisRepository.RedisStore.EvalClaimDueUsers | backend/internal/presence/redis_repository.go:136-148 | Claiming returns those rows and takes exactly their users off the index; a limit that is not positive claims nothing. |
| RedisRepository.RedisStore.EvalSweepUser | backend/internal/presence/redis_repository.go:150-219 | The whole new store and reply of the sweep script. |
| RedisRepository.RedisStore.ResumeLease | backend/internal/presence/redis_repository.go:221-223 | A resume is a lease mutation with an expiry 90 000 ms after its clock. |
| RedisRepository.RedisStore.LeaveLease | backend/internal/presence/redis_repository.go:225-227 | A leave passes an expiry that the script never reads. |
| LeaseInvariants.LoadIff | backend/internal/presence/redis_repository.go:42-59 | For every hash: it reads as a row iff its online field holds 0 or 1 and its version field a number; absent it is offline at version 0; else it is the malformed-state error. |
| LeaseInvariants.InvalidActionPrunes | backend/internal/presence/redis_repository.go:69-78 | An action other than resume and leave drops exactly the expired leases of its user and is then refused. |
| LeaseInvariants.MalformedStops | backend/internal/presence/redis_repository.go:69-83 | On a malformed hash resume, leave and sweep stop with that error; hashes and deadlines stay, and the lease set is left pruned, with the connection added or removed. |
| LeaseInvariants.BumpExact | backend/internal/presence/redis_repository.go:114-134 | A bump adds one to the version of its user, keeps the online flag and touches nothing else; on a malformed hash it touches nothing. |
| LeaseHistory.ResumeKeepsLive | backend/internal/presence/redis_repository.go:69-73 | After a resume at now the connection's lease runs until now + 90 000 ms, and every other lease of the user stays, unchanged, iff it expires after now. |
| LeaseHistory.LeaveKeepsLive | backend/internal/presence/redis_repository.go:69-75 | After a leave the connection has no lease, and every other lease of the user stays, unchanged, iff it expires after now. |
| LeaseHistory.SweepKeepsLive | backend/internal/presence/redis_repository.go:185-187 | A sweep keeps, unchanged, exactly the leases that expire after its clock. |
| LeaseHistory.LeasesIff | backend/internal/presence/redis_repository.go:32-219 | After every run the leases of a user are exactly those of the resumes that no later resume or leave of the same connection, and no later act on the user's leases at their expiry or after, has ended; each runs until 90 000 ms after its resume. |
| LeaseHistory.OnlineIffHeld | backend/internal/presence/redis_repository.go:32-219 | After every run a user is online iff some resume of it has not been ended so. |
| LeaseHistory.OnlineAfterLeave | backend/internal/presence/redis_repository.go:69-105 | After any run a user that leaves is online iff it holds a lease on another connection that expires after the leave's clock. |
| LeaseHistory.StepEvents | backend/internal/presence/redis_repository.go:89-219 | What each step reports: a resume that its offline user is online; a leave or sweep that its online user is offline, if no other lease of it is live, as last seen at the leave's clock or the claim's due time if that is positive; a bump always; each with the next version; nothing else anything. |
| LeaseInvariants.MutateSettles | backend/internal/presence/redis_repository.go:69-111 | A resume or a leave touches no key of another user, settles on the lease set that the two lemmas above describe, puts the deadline at its maximum, and reports a transition exactly if online changed. |
| LeaseInvariants.SweepSettles | backend/internal/presence/redis_repository.go:185-218 | The same for a sweep, which settles on the pruned lease set and reports the claim's due time as last seen. |
| LeaseInvariants.NextKeepsIndexed | backend/internal/presence/redis_repository.go:32-219 | Every step under every clock keeps the index invariant. |
| LeaseInvariants.AlwaysIndexed | backend/internal/presence/redis_repository.go:32-219 | In every state of every interleaving of resume, leave, bump, claim, sweep and failed sweep, under arbitrary clocks: a user is online iff its stored lease set is non-empty, a deadline entry is the maximum expiry of that user's leases, and the hash has both fields. |
| LeaseInvariants.MalformedUnreachable | backend/internal/presence/redis_repository.go:80-83 | After any run no script call by anybody can reach a malformed-state reply, so the lease writes before that reply never need undoing. |
| LeaseInvariants.StrandsIff | backend/internal/presence/sweeper.go:128-138 | A step leaves an unstranded user with leases but neither deadline entry nor claim iff it drops that user's only claim, held once, while the user has leases and no deadline entry; a drop after a renewal strands nobody. |
| LeaseInvariants.StrandedIff | backend/internal/presence/sweeper.go:128-138 | In every run a user is stranded at the end iff some drop stranded it and it has neither resumed nor left since. |
| LeaseInvariants.AlwaysCovered | backend/internal/presence/sweeper.go:117-153 | If no sweep call fails, every user with leases has a deadline entry or an unswept claim, at every moment of every run. |
| LeaseInvariants.StrandedStaysOnline | backend/internal/presence/sweeper.go:133-138 | A user whose claim was dropped stays online with the same leases through every run in which it neither resumes nor leaves. |
| StaleClaims.FailedSweepStrands | backend/internal/presence/sweeper.go:133-138 | Such a state is reachable in three steps. |
| VersionAccounting.StepReports | backend/internal/presence/redis_repository.go:89-111 | Each step reports at most one event, carrying the user's next version; a leave or a sweep never turns a user online, so those script branches are dead. |
| VersionAccounting.AlwaysAccounted | backend/internal/presence/redis_repository.go:89-216 | Over every run a user's version is its number of transitions plus its number of bumps, transitions alternate starting with online, and only resumes turn a user online. |
| VersionAccounting.VersionsStrictlyIncrease | backend/internal/presence/redis_repository.go:89-133 | The versions reported for one user strictly increase along a run, so none is reported twice. |
| VersionAccounting.PublishedAreOffline | backend/internal/presence/service.go:115-137 | Of all transitions of a run, those that reach the publisher are exactly the offline ones. |
| VersionAccounting.DecimalReads | backend/internal/presence/service.go:100 | A version is written in decimal digits without leading zeros, and reads back as itself. |
| VersionAccounting.KeyInjective | backend/internal/presence/service.go:100 | Keys of the form user, dot, decimal version are equal only for equal users and versions. |
| VersionAccounting.KeysDistinct | backend/internal/presence/service.go:90-113 | The idempotency keys of all events of a run are pairwise distinct. |
| Draining.FirstDueExact | backend/internal/presence/redis_repository.go:136-148 | A claim returns the first min(limit, due) of the due entries, in the order of scores and, where these are equal, of members: each row before the next and before every due entry left behind. |
| Draining.ClaimTakesBacklog | backend/internal/presence/redis_repository.go:136-148 | A claim at or after t takes exactly min(limit, backlog) of the users due at t, whatever else has fallen due since. |
| Draining.StepDrains | backend/internal/presence/redis_repository.go:136-219 | No step with a clock of at least t adds to the backlog of t, and each claim takes its share of it. |
| Draining.BacklogShrinks | backend/internal/presence/sweeper.go:117-153 | With steps of every kind interleaved at clocks from t on, m claims of at least k users shrink the backlog of t by m times k, down to empty. |
| Draining.DrainIsComplete | backend/internal/presence/sweeper.go:117-153 | Once enough claims have run and all are swept, every online user holds a lease that expires after t. |
| Draining.LeasesExpireWithinGrace | backend/internal/presence/redis_repository.go:221-223 | A user whose resumes all carried clocks of at most t has no lease beyond t + 90 000 ms. |
| Draining.OfflineAfterGrace | backend/internal/presence/redis_repository.go:185-223 | A user without a resume since t is offline after any complete drain at t + 90 000 ms or later. |
| Draining.RoundRemovesExactly | backend/internal/presence/sweeper.go:117-168 | With no claim outstanding, one claim of at most k and the sweeps of its rows take exactly min(k, due) users off the index, turn exactly those offline, and touch no other lease set. |
| Draining.RoundsDrain | backend/internal/presence/sweeper.go:117-168 | After j rounds, each claiming and sweeping at its own clock readings from t on, the number of users due at t is the initial number less j times k, or zero. |
| Draining.DrainedIff | backend/internal/presence/sweeper.go:117-168 | No entry due at t is left after j such rounds iff j is at least the ceiling of n over k. |
| Draining.EveryoneLiveIff | backend/internal/presence/sweeper.go:117-168 | After j such rounds every online user holds a lease that expires after t, iff j is at least the ceiling of n over k. |
| StaleClaims.StaleClaimsAreHarmless | backend/internal/presence/redis_repository.go:150-219 | However old the claim and whatever ran since, a sweep leaves its user online iff some lease expires after the sweep's clock, then restoring the deadline to the latest expiry; otherwise the user goes offline and off the index; nobody else is touched. |
| StaleClaims.StaleLastSeenIff | backend/internal/presence/redis_repository.go:136-219 | With clocks no earlier than the claim's due time, that due time never exceeds the user's latest expiry, and equals it iff no resume, leave or sweep of the user took effect in between. |
| StaleClaims.UndisturbedLastSeenIsExact | backend/internal/presence/sweeper.go:128-152 | If nothing took effect on the user between claim and sweep, a sweep that turns it offline reports exactly its latest lease expiry. |
| StaleClaims.StaleClaimUnderreports | backend/internal/presence/redis_repository.go:206-212 | A concrete run in which a stale claim reports a last-seen time before the user's last lease expired. |
| PresenceService.Service.EnqueueLastSeen | backend/internal/presence/service.go:90-113 | A record goes in under its idempotency key unless the key is taken or the insert has no effect; the caller sees success iff the commit was acknowledged, so an insert may take effect and still be reported as failed. |
| PresenceService.Service.HandleOfflineTransition | backend/internal/presence/service.go:118-137 | The messages grow by exactly the result's state iff it is a transition and the publish succeeds; the outbox by the record of an offline transition with a time iff the insert takes effect, whatever the publish did; the error reported is that of the insert. |
| PresenceService.Service.Resume | backend/internal/realtime/websocket_handler.go:116-132 | Opening or renewing takes one resume step, or none if the call never ran, and sends nothing. |
| PresenceService.Service.Leave | backend/internal/realtime/connection.go:376-397 | Closing takes one leave step, or none if the call never ran; a reply that arrives is handled as the transition it reports, a lost one sends nothing. |
| PresenceService.Sweeper.SweepRow | backend/internal/presence/sweeper.go:128-152 | One row takes one sweep step, or drops its claim if the call never ran, and adds the effects of exactly the event this step reports. |
| PresenceService.Sweeper.SweepOnce | backend/internal/presence/sweeper.go:117-168 | One cycle, whatever other claims are held, is a run of one claim and then one sweep or drop per row, uses up exactly its own claims, and if every sweep runs it is one of the draining rounds; a claim whose reply is lost drops all its rows and sends nothing; what has been sent equals the effects of the whole log. |
| PresenceService.PublishedAreTheOffline | backend/internal/presence/service.go:115-137 | Over a whole run, whatever fails, the messages sent are, in the order of the log, the user, offline flag, time and version of exactly the offline transitions whose publish succeeded. |
| PresenceService.OutboxHoldsTheInserted | backend/internal/presence/service.go:90-137 | Over a whole run, whatever fails, the outbox holds the right record of an offline transition with a time iff its insert took effect, acknowledged or not, and nothing else. |
| LastSeen.UserPresenceTable.UpsertLastSeen | backend/internal/presence/db_repository.go:84-103 | The stored time becomes the greater of old and new, with NULL below everything; updated_at moves exactly when the stored time does; other rows stay. |
| LastSeen.ReplayKeepsMaximum | backend/internal/presence/db_repository.go:84-103 | After any deliveries in any order, with repetitions, the row holds the maximum of its old value and all records. |
| LastSeen.ReplayOrderIrrelevant | backend/internal/presence/db_repository.go:84-103 | Two replays of the same records, however ordered and repeated, leave the same time. |
| LastSeen.ReplayIdempotent | backend/internal/presence/db_repository.go:84-103 | A repeated record changes neither column. |
| LastSeen.WholeSecondsOfMax | backend/internal/presence/service.go:95-99 | Times are rounded down to the whole second, and rounding commutes with the maximum. |
| LastSeen.DurableTimeIsLatestIff | backend/internal/presence/service.go:90-113 | Once all records that reached the outbox are delivered, in any order, the durable time is the latest last-seen time the run reported, to the whole second, iff some event of that second was inserted; it is none iff no event of the user was; otherwise it is an earlier inserted one. |
| Governance.GateDecides | backend/internal/governance/evaluator/ws_evaluator.go:36-58 | Who is denied and why: an unreadable status, a removed or deleted account, a suspended or banned one, and only then a missing membership; everybody else is let in. |
| Visibility.DedupeAndSort | backend/internal/presence/service.go:320-338 | The result is strictly ascending and holds exactly the non-nil ids of the input. |
| Visibility.BlockedSet | backend/internal/presence/service.go:252-283 | The result holds exactly those of the others with a block in either direction, and is empty for a nil user. |
| Visibility.ReadsAgree | backend/internal/presence/redis_repository.go:382-400 | In every reachable store Go reads of a user's hash what the scripts read, and refuses iff the version exceeds 64 bits. |
| Visibility.GetStatesBatch | backend/internal/presence/redis_repository.go:298-326 | The state of every id by the Go reading, or an error iff there is an id and the read fails or a hash is malformed. |
| Visibility.BuildSnapshot | backend/internal/presence/service.go:139-168 | Exactly the non-nil targets, each once and in order, each with the entry the visibility rule gives; an error iff there is such a target and one of the reads this request makes fails or a stored hash is malformed. |
| Visibility.ResolveVisibleStatesForTarget | backend/internal/presence/service.go:170-194 | An entry for exactly the non-nil viewers, each by the visibility rule; an error iff there is such a viewer and a read fails. |
| Visibility.BarredIff | backend/internal/presence/service.go:294-301 | A viewer other than the target is barred iff the target's row says deleted, hidden activity or one of the four bad statuses, or there is a block in either direction between two known users; a target without a row is not barred by its account. |
| Visibility.SnapshotShows | backend/internal/presence/service.go:284-318 | A snapshot shows of each user the stored version; to a barred viewer offline without a time; to everybody else, the user itself included, the stored online flag and the durable time. |
| Visibility.FanOutShows | backend/internal/presence/service.go:170-194 | The fan-out of a state shows its version; to a barred viewer offline without a time; to everybody else its online flag and its own time, or the durable one if it has none. |
| Visibility.SnapshotMatchesFanOut | backend/internal/presence/service.go:139-194 | For non-nil viewer and target with the same stored state, the snapshot holds exactly one state of the target, and it is the one the fan-out gives that viewer, although the block is looked up from opposite ends. |
| Visibility.SnapshotsEqualIff | backend/internal/presence/service.go:270-304 | In two worlds that agree on everything but the target's presence, a viewer's whole snapshots are equal iff the target was not asked for, or has the same version in both and, unless the viewer is barred from it, the same online flag and durable time: being barred hides the time, not the version. |
| Visibility.FanOutsEqualIff | backend/internal/presence/service.go:170-194 | What the fan-out of two states of the target shows a viewer is equal iff the states have the same version and, unless the viewer is barred, the same online flag and time. |
| Visibility.BarredVersionTellsPresence | backend/internal/presence/service.go:280-286 | After any run, a barred viewer's entry says offline without a time, but its version, less the target's bumps, is odd iff the target is online. |
| Visibility.BarredParityIsPresence | backend/internal/presence/service.go:280-286 | After a run that never bumps the target, the version shown to a barred viewer is odd iff the target is online. |
| Visibility.EqualSnapshotsEqualPresence | backend/internal/presence/service.go:139-168 | For two reachable stores with equally many bumps and agreement elsewhere, a barred viewer's snapshots are equal iff the versions are, and no viewer's are equal when the target is online in one of them only. |
| Visibility.SnapshotsBetweenEvents | backend/internal/presence/service.go:139-168 | A barred viewer who asks twice in one run gets equal snapshots, everything else being unchanged, iff no transition and no bump of the target was reported in between. |
| Visibility.FanOutsOfTransitionsDiffer | backend/internal/presence/service.go:170-194 | The fan-outs of two different transitions of one user in a run show no viewer the same. |
| Visibility.ResumeShows | backend/internal/presence/service.go:280-286 | One resume takes a barred viewer's entry from version 0 to version 1. |
| PresenceSubscriber.Subscriber.ShouldDeliver | backend/internal/realtime/presence_subscriber.go:229-239 | A version is accepted iff none at least as great is remembered for the user, and then remembered. |
| PresenceSubscriber.Subscriber.HandleMessage | backend/internal/realtime/presence_subscriber.go:147-213 | An accepted message whose reads succeed is offered, unchanged, to the connections of its own subject in turn: one frame each, or a close for a full one; everything else is dropped without a trace. |
| PresenceSubscriber.ServedExactly | backend/internal/realtime/presence_subscriber.go:191-212 | Of the subject's connections exactly those with space get a frame and exactly the full ones are closed, each once. |
| PresenceSubscriber.FanOutIsPresenceStep | backend/internal/realtime/presence_subscriber.go:162-212 | For any list of the hub's live connections, the frames and closes of a served message are, connection by connection, what the presence step of the hub does to every buffer, to the registry and to every connection. |
| PresenceSubscriber.RemembersMaximum | backend/internal/realtime/presence_subscriber.go:229-239 | What is remembered for a user is the greatest version received about it since the last restart. |
| PresenceSubscriber.AcceptedAreStrictMaxima | backend/internal/realtime/presence_subscriber.go:147-161 | For any arrival order and duplicates, the messages accepted are exactly those of the right type about a known user that are strict left-to-right maxima by version among those about their user. |
| PresenceSubscriber.RedeliveryNeverHelps | backend/internal/realtime/presence_subscriber.go:157-190 | The version is remembered before the reads: a version of a user is ever served iff the first message that carries it is a strict left-to-right maximum and its own reads succeed, so a message lost to a failed read is never made up for. |
| PresenceSubscriber.ConvergesToLatestTransition | backend/internal/realtime/presence_subscriber.go:147-161 | The last accepted message about a user carries the greatest version received and the state of that version's own transition in the run. |
| Hub.Hub.Register | backend/internal/realtime/hub.go:72-87 | The connection is entered, the gauge goes up by one, and nothing else changes. |
| Hub.Hub.Subscribe | backend/internal/realtime/hub.go:121-150 | Both directions of the index gain exactly this pair, and the room gauge follows a new room, whether or not the connection is registered. |
| Hub.Hub.UnsubscribeUnsafe | backend/internal/realtime/hub.go:162-191 | Both directions lose exactly this pair, an emptied room goes, and the room gauge is exact although it is set only when the room had one member. |
| Hub.Hub.Unsubscribe | backend/internal/realtime/hub.go:153-158 | The same under the lock. |
| Hub.Hub.LeaveRooms | backend/internal/realtime/hub.go:100-103 | The loop that changes the index it walks leaves every room the connection was in. |
| Hub.Hub.Unregister | backend/internal/realtime/hub.go:91-118 | The connection leaves the registry and every room, with both gauges exact; an unregistered one changes nothing. |
| Hub.Hub.Close | backend/internal/realtime/connection.go:370-412 | Closing unregisters and then closes the channel, once. |
| Hub.Hub.Offer | backend/internal/realtime/hub.go:232-242 | The payload is appended if the buffer has space; otherwise the connection is unregistered. |
| Hub.Hub.OfferEach | backend/internal/realtime/hub.go:225-243 | The loop over a snapshot, which unregisters slow clients as it goes, crashes iff the snapshot holds a closed connection, and otherwise comes to offering to all at once, in whatever order, and keeps the hub invariant. |
| Hub.Hub.BroadcastToRoomFiltered | backend/internal/realtime/hub.go:204-264 | The broadcast, with and without a filter, crashes iff a closed member passes, and otherwise equals its specification on the whole hub. |
| Hub.Hub.BroadcastToUserFiltered | backend/internal/realtime/hub.go:280-339 | The broadcast to one user, whose filter is asked once, equals its specification and never crashes. |
| HubState.UnregisterExact | backend/internal/realtime/hub.go:91-118 | Unregistering removes the connection from every room, touches no other connection or membership, keeps the index and gauges, and is idempotent. |
| HubState.SubscribeMembers | backend/internal/realtime/hub.go:121-150 | A subscription adds exactly one membership. |
| HubState.DetachMembers | backend/internal/realtime/hub.go:162-191 | Leaving rooms removes exactly those memberships. |
| HubState.OfferOneMore | backend/internal/realtime/hub.go:225-243 | Offering to one connection after another comes to offering to the set of them: the order does not matter. |
| HubState.BroadcastExact | backend/internal/realtime/hub.go:204-264 | A room broadcast that does not crash appends the payload once to exactly the members that pass the filter and have space, unregisters from everything exactly the registered members that pass and are full, and changes no other buffer, registration or membership. |
| HubState.BroadcastUserExact | backend/internal/realtime/hub.go:280-339 | A broadcast to one user does this to all registered connections of that user, if its filter passes. |
| HubState.PresenceExact | backend/internal/realtime/presence_subscriber.go:191-212 | A presence fan-out does the same and closes exactly those it unregisters. |
| HubState.CloseExact | backend/internal/realtime/connection.go:370-412 | Closing takes the connection out of the registry and, if it was registered, out of every room, marks it closed, and changes nothing else. |
| HubState.CrashesIff | backend/internal/realtime/hub.go:232-233 | A step crashes iff it is a room broadcast with a closed member that passes the filter. |
| HubState.SoundNeverCrashes | backend/internal/realtime/hub.go:204-264 | A hub whose members are all registered crashes at no step. |
| HubState.RegisteredSubscribersNeverCrash | backend/internal/realtime/hub.go:121-138 | If only registered connections subscribe, no step of the whole run crashes. |
| HubState.RunsStayLinked | backend/internal/realtime/hub.go:72-339 | In every run with fresh ids the two indexes agree, no room is empty, and the gauges are the numbers of connections and rooms; if only registered connections subscribe, every member is registered. |
| HubState.SubscribeSoundIff | backend/internal/realtime/hub.go:121-138 | A subscription keeps every member registered iff its connection is registered. |
| Admission.MembersWereAdmitted | backend/internal/realtime/connection.go:185-226 | At every moment of every run a connection is in a room iff the gate let its user into that room at an earlier request on that connection and it has since neither left the room nor been unregistered. |
| Admission.AdmissionIff | backend/internal/realtime/connection.go:185-213 | A connection is let into a room iff it asks within its rate, its user is authorized for the room under the type asked for, or as a chat room if that is absent or unknown, and its status is readable and none of the four bad ones. |
| Admission.GoesBuffers | backend/internal/realtime/dispatcher.go:92-203 | Routing: user events reach the registered connections of a live user, room messages the live members, unknown or unparsable events nobody. |
| Admission.GoesRegistry | backend/internal/realtime/hub.go:91-118 | A connection leaves the registry iff it disconnects or is offered a payload for which its buffer has no space, and is closed iff it disconnects or a presence change takes it off the registry. |
| Admission.RoomMessagesAreAdmitted | backend/internal/realtime/dispatcher.go:171-194 | In every run without a crash buffers grow by one event's payload at a time; a room message goes to exactly those connections with space whose user the gate let in earlier on that connection, who have not left since, and whose status read for this broadcast is live. |
| Admission.SlowClientComesBack | backend/internal/realtime/connection.go:150-213 | A connection unregistered as slow can be admitted again by its read pump, and then its own close does not remove it. |
| Admission.UnregisteredMembersIff | backend/internal/realtime/connection.go:206-213 | A connection that is not registered is in a room iff the gate let it in after it had left the registry and it has not asked to leave since. |
| Admission.ClosedMembersIff | backend/internal/realtime/connection.go:370-412 | A closed connection is in a room iff the gate let it in after it had left the registry and it has not asked to leave since. |
| Admission.CrashesExactly | backend/internal/realtime/hub.go:232-233 | After any run a step brings the process down iff it is a room message for a room with such a closed member whose user is found live at this broadcast. |
| Admission.CrashReachable | backend/internal/realtime/connection.go:206-213 | Connect, close, and a request that was waiting for the gate: the connection is then a closed member, and the next room message crashes. |
| RealtimeWorker.Tx.MarkProcessing | backend/internal/platform/outbox/infrastructure/repository/outbox_repository.go:357-379 | Claims exactly a pending or failed row inside the transaction; an I/O error aborts it. |
| RealtimeWorker.Tx.ProcessEvent | backend/internal/realtime/realtime_worker.go:296-327 | Statement by statement, through the intermediate status, the transaction ends with its row settled as the dispatch went, with an error of the last update, or, when the claim failed, without a change and without an error. |
| RealtimeWorker.Worker.Attempt | backend/pkg/db/retry.go:15-66 | Begin, process, commit or roll back: the committed table changes as a whole or not at all, and another attempt follows iff this one ended without effect in a retryable error. |
| RealtimeWorker.Worker.ProcessSingleEvent | backend/internal/realtime/realtime_worker.go:278-293 | At most three attempts: a claimable row is settled as the first attempt that is not tried again went, if that commits, and else stays; success is reported iff its commit is acknowledged. |
| RealtimeWorker.Worker.ProcessBatch | backend/internal/realtime/realtime_worker.go:227-274 | Every fetched row is settled by its own event's faults alone, the count of successes is the number of acknowledged events, the protocol invariant holds under every fault pattern, and exact retry counts stay exact. |
| Outbox.RowsReflectTheLog | backend/internal/realtime/realtime_worker.go:227-327 | With any number of workers and any faults: an owned row is never left processing; it is succeeded iff its last committed transaction dispatched without error; a failed row's next attempt is its retry count in seconds after that failure; the count never exceeds the committed failures; and nothing is settled again after a committed delivery. |
| Outbox.EventSettledIff | backend/pkg/db/retry.go:15-66 | An event's row is settled iff it can be claimed and, for some k < 3, all attempts before k end without effect in a retryable error and attempt k commits: succeeded or failed, with count and backoff, as dispatch k went; the result is success iff that commit, or the empty one of a row that cannot be claimed, is acknowledged. |
| Outbox.FetchedAgainIff | backend/internal/platform/outbox/infrastructure/repository/outbox_repository.go:287-346 | An owned event can be fetched again after its handling iff its committed dispatch failed and its backoff has passed; if nothing committed, whenever it could before. |
| Outbox.BatchSettles | backend/internal/realtime/realtime_worker.go:227-274 | In a batch of distinct events each row is settled as by its own event's handling alone. |
| Outbox.ResetSparesOwned | backend/internal/platform/outbox/infrastructure/repository/outbox_repository.go:483-510 | The table-wide repair of events stuck in processing never touches a row of the realtime consumer, after any run. |
| Outbox.BatchSparesOthers | backend/internal/realtime/ownership.go:19-25 | Under any faults a batch changes no row but those of its own events, and rows of types outside the owned set never change. |
| Outbox.CountExactIff | backend/internal/realtime/realtime_worker.go:308-314 | An attempt keeps retry counts equal to committed failures iff it does not commit a failure from an out-of-date copy of the row. |
| Outbox.BatchKeepsCounts | backend/internal/realtime/realtime_worker.go:227-274 | One worker alone keeps these counts equal through any batch, under every fault, lost acknowledgements included. |
| Outbox.SoloRunsCountExactly | backend/internal/realtime/realtime_worker.go:227-274 | Over every run of one worker's polls, attempts and restarts in mid-batch, interleaved with inserts, the other consumer and its repair of stuck events, each owned row counts exactly its committed failures. |
| Outbox.UndercountReachable | backend/internal/platform/outbox/infrastructure/repository/outbox_repository.go:287-346 | From the empty table five steps of two workers that fetch the same row give a row that counts one of its two committed failures. |
| PromotionCpm.Product | backend/internal/finance/promotion_cpm.go:52-66 | The product is refused iff an argument is negative or the true product exceeds the 64-bit maximum, and else exact. |
| PromotionCpm.CumulativeSpend | backend/internal/finance/promotion_cpm.go:71-77 | Fails under exactly the same condition, and else is the floor over unbounded integers. |
| PromotionCpm.Charge | backend/internal/finance/promotion_cpm.go:79-96 | The charge can be computed iff n is not positive, where it is zero, or the spend after n impressions can; then it is S(n) - S(n - 1). |
| PromotionCpm.SuccessIsMonotone | backend/internal/finance/promotion_cpm.go:71-96 | If the spend after n impressions can be computed, so can every earlier spend and charge, and the charge is the difference. |
| PromotionCpm.ChargesAddUp | backend/internal/finance/promotion_cpm.go:25-26 | The charges of any window add up to the difference of the cumulative spends. |
| PromotionCpm.WindowCost | backend/internal/finance/promotion_cpm.go:83-96 | A window of w impressions costs the floor or the ceiling of w times CPM over 1000, exactly so if 1000 divides it. |
| PromotionCpm.ThousandCostsCpm | backend/internal/finance/promotion_cpm.go:11-12 | Any 1000 consecutive impressions cost exactly the CPM. |
| PromotionCpm.WindowsAreBalanced | backend/internal/finance/promotion_cpm.go:81-82 | Two windows of equal length differ by at most one Rupiah. |
| PromotionCpm.ChargeIsFloorOrCeiling | backend/internal/finance/promotion_cpm.go:79-96 | Every charge is the floor or the ceiling of CPM over 1000. |
| PromotionCpm.EstimatedImpressions | backend/internal/finance/promotion_cpm.go:98-115 | There is an estimate iff neither argument is negative and the CPM is zero, where it is zero, or 1000 times the budget fits 64 bits. |
| PromotionCpm.EstimateIsLargestFullPrice | backend/internal/finance/promotion_cpm.go:98-115 | For a positive CPM and a budget of which 1000 times fits 64 bits there is an estimate, it is the largest n with n times CPM at most 1000 times the budget, and its spend is within budget. |
| PromotionCpm.TrueMaximumIsLargest | backend/internal/finance/promotion_cpm.go:98-100 | The largest n with S(n) at most the budget is (1000 budget + 999) div CPM. |
| PromotionCpm.EstimateGap | backend/internal/finance/promotion_cpm.go:98-115 | The estimate falls short of it by at most the ceiling of 999 over CPM, and is it iff (1000 budget) mod CPM + 999 < CPM. |
| PromotionCpm.EstimateGapSmall | backend/internal/finance/promotion_cpm.go:98-115 | At most one short from a CPM of 1000 on, exact for multiples of 1000. |
| PromotionCpm.EstimateIsNotLargestSpend | backend/internal/finance/promotion_cpm.go:40 | The documented claim fails at CPM 7500 and budget 7. |
| PromotionCpm.DocumentedEstimateIff | backend/internal/finance/promotion_cpm.go:40 | S(est) <= budget < S(est + 1) holds iff the remainder condition does. |
| PromotionCpm.BudgetIsConserved | backend/internal/finance/promotion_cpm.go:33-36 | While at most est impressions are charged the budget left is never negative, and charges plus the released remainder are the budget. |
| Projections.IdentityOf | backend/internal/interaction/chat/entity/chat_message_resource_occurrence.go:88-118 | The first source that is set, in the order profile, content, sale, auction, decides type and id; none set is no type. |
| ContentProjection.AudienceIs | backend/internal/serverboot/chat_content_projection_resolver.go:402-439 | Of a shown content the author sees all three visibilities, an anonymous reader the public one, anybody else what is public or, as a follower, for followers, if no block stands between; shown means active, neither deleted nor hidden, author in good standing. |
| ContentProjection.OwnTargetIff | backend/internal/serverboot/chat_content_projection_resolver.go:788-836 | The own target of a well-formed row is the one column that is set, under that column's type, and none iff no column is. |
| ContentProjection.TargetAudienceIs | backend/internal/serverboot/chat_content_projection_resolver.go:838-1127 | Who sees a nested target, for each type, by the tables: profile, content, sale, auction. |
| ContentProjection.ProjectionShows | backend/internal/serverboot/chat_content_projection_resolver.go:339-394 | A projection of a content shows author, caption and own visible target iff the viewer may see the content, and else only that there is one. |
| ContentProjection.RestrictedSetsSuffice | backend/internal/serverboot/chat_content_projection_resolver.go:402-439 | With block and follow sets that are right for the row's author, the check gives the answer of the whole relations. |
| ContentProjection.CollectAuthors | backend/internal/serverboot/chat_content_projection_resolver.go:145-167 | Every non-nil author exactly once, and word of a nil one. |
| ContentProjection.CollectFollowTargets | backend/internal/serverboot/chat_content_projection_resolver.go:232-247 | Exactly the authors of followers-only rows whose follower the viewer could be, each once. |
| ContentProjection.LoadRelations | backend/internal/serverboot/chat_content_projection_resolver.go:223-272 | The two sets collected for a batch are right for every row of it. |
| ContentProjection.NestedTarget | backend/internal/serverboot/chat_content_projection_resolver.go:788-836 | Succeeds iff every id is well formed and at most one column is set, and then finds that column's target, or none. |
| ContentProjection.GroupTargets | backend/internal/serverboot/chat_content_projection_resolver.go:496-513 | The four groups invert the target map by type: each source once, under its own target only. |
| ContentProjection.FanOut | backend/internal/serverboot/chat_content_projection_resolver.go:716-738 | An indicator for exactly the sources of visible targets, naming the target. |
| ContentProjection.ResolveNestedContents | backend/internal/serverboot/chat_content_projection_resolver.go:559-741 | Visibility of each distinct target content, by restricted sets, fanned out to its sources; a content without author row is invisible. |
| ContentProjection.ResolveNestedProfiles | backend/internal/serverboot/chat_content_projection_resolver.go:838-918 | The same for profiles: active, with a profile row, not blocked either way. |
| ContentProjection.ResolveNestedForSales | backend/internal/serverboot/chat_content_projection_resolver.go:920-1026 | The same for sales, under any access rule. |
| ContentProjection.ResolveNestedAuctions | backend/internal/serverboot/chat_content_projection_resolver.go:1028-1127 | The same for auctions, under any access rule. |
| ContentProjection.ResolveNested | backend/internal/serverboot/chat_content_projection_resolver.go:486-557 | Grouping, inverting, resolving and fanning out gives a content an indicator iff its own target is visible, naming that target. |
| ContentProjection.CollectTargets | backend/internal/serverboot/chat_content_projection_resolver.go:309-332 | The first pass finds the own target of exactly the visible contents, and fails iff one of those is malformed. |
| ContentProjection.BuildProjections | backend/internal/serverboot/chat_content_projection_resolver.go:339-394 | The second pass gives each message its own projection, and fails iff a content id is nil. |
| ContentProjection.ResolveContents | backend/internal/serverboot/chat_content_projection_resolver.go:76-400 | The batch succeeds iff every message is resolvable by itself, and then gives every message exactly the projection it would have by itself. |
| AggregateResolver.Partition | backend/internal/serverboot/chat_resource_projection_aggregate_resolver.go:82-121 | Fails iff an occurrence is nil or of no type; else each type gets exactly its own messages. |
| AggregateResolver.Merge | backend/internal/serverboot/chat_resource_projection_aggregate_resolver.go:179-231 | Succeeds iff the resolver answered for exactly the expected messages, each with a valid projection of the occurrence's type and source id; then the destination gains exactly those. |
| AggregateResolver.Resolve | backend/internal/serverboot/chat_resource_projection_aggregate_resolver.go:69-177 | For arbitrary resolvers: succeeds iff the input is well formed and every type that occurs has a resolver that succeeds and answers faithfully. |
| AggregateResolver.SucceedsIff | backend/internal/serverboot/chat_resource_projection_aggregate_resolver.go:69-231 | The condition of success spelled out: every occurrence is there and has a type, and each type that occurs has a resolver that, asked about exactly its messages, answers for exactly these, each validly with its own type and source id. |
| AggregateResolver.SuccessIsFaithful | backend/internal/serverboot/chat_resource_projection_aggregate_resolver.go:69-177 | On success the result has exactly the input's messages, each with a valid projection of its own type and source id, as that type's resolver gave it. |
| AggregateResolver.PartsAreIndependent | backend/internal/serverboot/chat_resource_projection_aggregate_resolver.go:82-175 | A message's projection does not depend on the messages of other types in the batch. |
| AggregateResolver.ContentResolverIsFaithful | backend/internal/serverboot/chat_content_projection_resolver.go:76-400 | The content resolver, as modelled, keeps the contract the aggregate checks. |

## Left out

- Redis, PostgreSQL, WebSocket and JSON themselves: scripts and statements are atomic updates of maps and relations, frames are opaque strings, parsed payloads are parameters.
- Redis scores and versions as doubles: they are unbounded integers; text that Lua reads as a fraction is not distinguished.
- RequeueDeadline: nothing calls it.
- Lua type errors on a key of the wrong kind: the keys are only ever written by these scripts.
- Goroutines, tickers, timeouts, start and stop, logging, and how soon a sweeper runs: the drain measure counts claims instead.
- Close and EvictUser running at the same time as a broadcast: each is one step. What a crashed process served before it went down, and its restart.
- Hub.Hub.Subscribe: the two maps from connection ids to objects are sets of ids beside one table of objects; that two objects carry the same id is not modelled.
- The room authorizer and the account status lookup: arbitrary answers, read afresh at each use.
- Event types and payload parsing of the dispatcher: a parsed route or none.
- Admission.RoomMessagesAreAdmitted: a broadcast is one step; in the code a member that leaves after the snapshot was taken still gets that one message.
- PresenceSubscriber.FanOutIsPresenceStep: the connections are looked up and served at one moment; one that closes in between is not modelled.
- The text comparison behind show_activity.
- Visibility.SnapshotMatchesFanOut: the state handed to the fan-out is the stored one; an event that is older than the store is not compared.
- The outbox worker of the other event types: any change it makes to its own rows; of its effect on others only the repair of stuck events is a step.
- Outbox.RowsReflectTheLog: a dispatch is not undone when its transaction rolls back, so an event may be delivered more than once; the model counts committed deliveries only.
- The order in which FetchPendingBatch returns rows, and rows locked by others: any distinct claimable rows within the limit.
- The access rules for sales and auctions, the seller data they read, captions and media beyond the caption, avatars, public cards and timestamps of a projection.
- The profile, sale and auction resolvers beyond what the aggregate checks of them.
- Validation of a projection beyond its identity: an arbitrary predicate in the aggregate.
- SQL errors inside content resolution: any of them fails the whole batch without a result.
- Routes, middleware, configuration, health probes, migrations, monitoring, ledger posting and the projection repository: thin wrappers or SQL only.
