# relay-go, modelled and proved in Dafny

relay-go is a chat server: clients speak a length-prefixed protocol over TCP to a gateway, which asks an
auth service, a messaging service and a presence service. This project models the parts of it whose
behaviour depends on history or on interleaving, and proves what they promise for every input, every
request trace and every run.

| file | what it models |
|---|---|
| `Schedules.dfy`, `KeyedRegistries.dfy` | request traces, sub-schedules, and one-limiter-per-key registries |
| `TokenBuckets.dfy`, `SlidingWindows.dfy` | the two rate limiters and their registries |
| `Framing.dfy` | the wire format over a connection that delivers bytes in arbitrary chunks |
| `Histories.dfy` | what it means that something begun in a history has not been undone since |
| `Rooms.dfy` | what the message router and the room store do to their maps, as functions |
| `Repositories.dfy`, `MessageRouters.dfy`, `RoomStores.dfy`, `Listings.dfy` | the same as classes, proved against those functions |
| `Delivery.dfy`, `Memberships.dfy` | which frames a run of router calls puts on each connection, and to whom, read off the calls |
| `Transcripts.dfy` | what a member reads back from those frames |
| `RoomIds.dfy` | any number of processes caching room ids found or created in one table |
| `Auth.dfy`, `TokenChains.dfy`, `AuthRuns.dfy` | the auth service, and every interleaving of its calls |
| `Registries.dfy` | the connection registry, the presence store and the online store |
| `Gateways.dfy` | handlers accepting, authenticating, joining and cleaning up, interleaved over the shared maps |
| `Destinations.dfy` | where the commands take a session, and what each leaves behind |
| `Sessions.dfy`, `PresenceEvents.dfy`, `DuplicateSessions.dfy` | what a session, the presence service and a second session of the same user see |
| `Prompts.dfy`, `Strings.dfy` | the texts of the authentication dialogue, and the string functions that tell them apart |
| `Handshake.dfy`, `Reconnects.dfy`, `AuthLoops.dfy`, `Requests.dfy` | the dialogue, the silent re-authentication, the loops that run them, and what each request is answered |

Object-like parts are classes whose methods are proved against functions on values; the theorems are
about those functions. Anything concurrent is a state machine: one step per critical section, any
interleaving of steps. Time, randomness, the database, bcrypt, token signing, gRPC and NATS enter as
parameters: a clock reading per read of the clock, a flag per call that may fail, a value per random draw.

What the proofs turned up about the code:

- A user can have two sessions. `/register` and `/refresh` never look at the presence store and `/login`
  looks before it adds. When one of them ends, `router.Disconnect` takes the other out of its rooms and the
  presence service shows the user offline (`DuplicateSessions.TheOtherSessionIsEvicted`). When there is
  only one session, when every session is in its room, and when every announced user is shown, is
  characterised for every run by `DuplicateSessions.OneSessionExactly`, `InRoomsExactly` and `ShownExactly`.
- The gateway never calls the router's `LeaveRoom`, so a session stays in every room it has joined
  (`Sessions.InEveryRoomVisited`), and never leaves the messaging service's room on disconnect, so the
  user stays listed there (`Sessions.HangUpForgetsTheRoomStore`, `Sessions.ListedInTheCurrentRoom`).
- After `/login` and `/register` the client is sent the access token in the frame it takes for its refresh
  token, and lower-cases it. A lost session is restored silently if and only if it began with a refresh or
  was itself restored, and the token it was then sent still fetches a successor (`Reconnects.RestoredExactly`,
  `Reconnects.RestoredAgainExactly`); a login followed by a reconnect that is refused exists for every
  account (`Reconnects.LoginThenReconnectGivesUp`).
- Retrying a refresh helps when a try did not get to the auth service. When a try got there and its answer was
  lost, the token is gone, every further try is refused, and a live successor is left that nobody holds
  (`Reconnects.OnlyTheFirstReachedCounts`).
- A token containing "successful" or "already logged in", capitals aside, is swallowed: the client waits for
  ever for a server that has moved on (`Handshake.LoginIsSwallowed`). In no other case do the two wait for
  each other (`Handshake.BothWaitingExactly`).
- A message body the server accepts at the size cap is relayed in a frame no member can read
  (`Delivery.FullSizeBodyIsUnreadable`), which also ends the reading of everything after it
  (`Framing.OversizeStopsTheReader`).
- The repository's own `README.md:27` promises "10 burst, 2/sec" for messages; `cmd/server/main.go:145` sets
  5 and 0.5. The limiters are proved for every rate that is not negative and every capacity, the two-read bounds for
  capacities that are not negative.

Check with `dafny verify dfyconfig.toml`.

## Model

| member | source | states |
|---|---|---|
| TokenBuckets.TokenBucket.constructor | internal/ratelimit/token_bucket.go:22-29 | A new bucket is full and dated now |
| TokenBuckets.TokenBucket.Allow | internal/ratelimit/token_bucket.go:34-51 | The answer and the whole new state for any balance and any two clock reads |
| TokenBuckets.BalanceIsReadOffTheHistory | internal/ratelimit/token_bucket.go:38-48 | After refill the balance is the least of the capacity and, over accepted requests i, capacity plus what accrued since i minus the acceptances since i; denials and the creation time leave no trace |
| TokenBuckets.AllowIsExact | internal/ratelimit/token_bucket.go:45-50 | Allow answers true exactly when the request keeps every interval of the accepted history within burst plus rate times time |
| TokenBuckets.BalanceDecides | internal/ratelimit/token_bucket.go:45-50 | The same for a bucket charged along any conforming schedule, not only its own |
| TokenBuckets.AcceptedConforms | internal/ratelimit/token_bucket.go:34-51 | What Allow accepts conforms, on every trace |
| TokenBuckets.AnswersAreGreedy | internal/ratelimit/token_bucket.go:34-51 | Allow refines a limiter with no balance and no clock state that admits a request whenever the accepted history stays conforming |
| TokenBuckets.AllowIsOptimal | internal/ratelimit/token_bucket.go:34-51 | Against every conforming sub-schedule of a sorted trace, the k-th acceptance comes no later and there are at least as many |
| TokenBuckets.LazyDecidesLikeEager | internal/ratelimit/token_bucket.go:79-83 | A bucket made at first use decides like one made full at startup |
| TokenBuckets.DenialsAreFree | internal/ratelimit/token_bucket.go:38-50 | Removing denied requests from a trace changes no other answer |
| TokenBuckets.BalanceInRange | internal/ratelimit/token_bucket.go:38-48 | With two clock reads per call the balance stays between zero and the capacity |
| TokenBuckets.BurstBound | internal/ratelimit/token_bucket.go:38-48 | With two clock reads per call, requests i to j have at most capacity plus rate times the time between their first reads accepted |
| TokenBuckets.SecondReadOnlyTightens | internal/ratelimit/token_bucket.go:43-43 | Charged alike, a bucket that reads the clock twice never holds more than one that reads it once |
| TokenBuckets.TwoReadBalance | internal/ratelimit/token_bucket.go:38-48 | With any two clock reads per call and any charging, the balance is the least of the capacity and, over requests i, capacity plus rate times the time since the second read of i, less the time lost between the two reads of every later call, less the tokens taken from i on |
| TokenBuckets.AllowIsExactWithTwoReads | internal/ratelimit/token_bucket.go:38-50 | Allow answers true exactly when the capacity is at least a token and, from every earlier request on, the tokens taken and this one are within the capacity and that time's accrual |
| TokenBuckets.BucketRegistry.constructor | internal/ratelimit/token_bucket.go:65-71 | Empty, with the limits every bucket will share |
| TokenBuckets.BucketRegistry.Allow | internal/ratelimit/token_bucket.go:75-86 | The answer and every key's bucket afterwards; the bucket is made on first use and no two keys share one |
| TokenBuckets.RegistryKeyDecidesLikeABucket | internal/ratelimit/token_bucket.go:75-86 | Whatever the other keys do and whatever the clock does, a key is answered as one bucket made full at its first request and shown only its own |
| TokenBuckets.RegistryKeyDecidesLikeItsOwnBucket | internal/ratelimit/token_bucket.go:75-86 | In any interleaving over keys, one key is answered as a bucket of its own, full at startup, would answer it |
| KeyedRegistries.KeysAreIsolated | internal/ratelimit/sliding_window.go:71-82 | For any kind of limiter behind a lazy registry, a key's answers and stored limiter are those of one limiter run alone on that key's requests |
| SlidingWindows.SlidingWindow.constructor | internal/ratelimit/sliding_window.go:21-27 | An empty queue |
| SlidingWindows.SlidingWindow.Allow | internal/ratelimit/sliding_window.go:33-47 | The eviction loop, the answer and the new queue |
| SlidingWindows.EvictIsFilter | internal/ratelimit/sliding_window.go:38-40 | On a sorted queue, evicting a prefix keeps exactly the entries no older than the cutoff |
| SlidingWindows.QueueIsFaithful | internal/ratelimit/sliding_window.go:37-46 | Along every trace the queue is sorted and, from the last cutoff on, reads like everything ever accepted |
| SlidingWindows.EvictionLeavesTheRecentHistory | internal/ratelimit/sliding_window.go:38-40 | After eviction the queue is the recent part of the whole accepted history |
| SlidingWindows.AnswerCountsTheHistory | internal/ratelimit/sliding_window.go:41-46 | A request is recorded exactly when fewer than limit of all acceptances are no older than its cutoff |
| SlidingWindows.AllowCountsTheWholeHistory | internal/ratelimit/sliding_window.go:33-47 | Every answer is that of a limiter that evicts nothing and counts all history |
| SlidingWindows.WindowBound | internal/ratelimit/sliding_window.go:37-46 | With two clock reads per call, every closed interval of the window's length holds at most limit recorded acceptances |
| SlidingWindows.AllowIsOptimal | internal/ratelimit/sliding_window.go:33-47 | Unless both the window is negative and the limit not positive: against every sub-schedule with at most limit acceptances per closed window, the k-th acceptance comes no later and there are at least as many |
| SlidingWindows.NoWindowNoLimit | internal/ratelimit/sliding_window.go:37-43 | In that case, on every trace, nothing is accepted although every schedule would do |
| SlidingWindows.DenialsAreFree | internal/ratelimit/sliding_window.go:41-43 | Removing denied requests from a trace changes no other answer |
| SlidingWindows.Registry.constructor | internal/ratelimit/sliding_window.go:61-67 | Empty, with the limit and window every key will share |
| SlidingWindows.Registry.Allow | internal/ratelimit/sliding_window.go:71-82 | The answer and every key's queue afterwards |
| SlidingWindows.RegistryKeyDecidesLikeItsOwnWindow | internal/ratelimit/sliding_window.go:71-82 | In any interleaving over keys, one key is answered as a window of its own would answer it |
| Framing.ReadFull | internal/protocol/protocol.go:22-25 | However the bytes are chunked, the buffer is filled with the next bytes of the stream, or the stream has ended |
| Framing.ReadMessage | internal/protocol/protocol.go:21-40 | The frame or the error, and what is left unread, as a function of the concatenated bytes |
| Framing.WriteMessage | internal/protocol/protocol.go:45-57 | Header and payload are appended; the length wraps at 32 bits |
| Framing.HeaderIsBigEndian | internal/protocol/protocol.go:46-47 | One byte more at the low end of the length moves the other header bytes up by one place |
| Framing.DecodeExactly | internal/protocol/protocol.go:21-57 | A read accepts exactly the encodings of data within the cap, and consumes exactly the encoding |
| Framing.RoundTripExactly | internal/protocol/protocol.go:29-57 | What was written reads back if and only if it is within the cap |
| Framing.StreamRoundTrip | internal/protocol/protocol.go:21-57 | A list of messages within the cap is read back as that list with nothing left over |
| Framing.StreamRoundTripExactly | internal/protocol/protocol.go:21-57 | And no other list is |
| Framing.OversizeStopsTheReader | internal/protocol/protocol.go:29-32 | A message over the cap ends the reading: what came before it is read, and nothing after |
| Framing.CutFramesFail | internal/protocol/protocol.go:23-37 | Every strict prefix of a frame is an error, and which one |
| Framing.EncodingPrefixExactly | internal/protocol/protocol.go:45-57 | When one encoding is a prefix of another, wrapped lengths included |
| Framing.PrefixFree | internal/protocol/protocol.go:45-57 | Below 2^32 bytes no encoding is a proper prefix of another |
| Framing.RunMessageLoop | cmd/client/main.go:188-200 | What the client shows depends only on the concatenation of the bytes, not on the chunks |
| Rooms.RouterRefinesStore | internal/messaging/room_store.go:56-115 | The same joins and leaves, repository failures included, leave router and room store with the same rooms, members, ids and results, and the router sound |
| Rooms.ListingsAgree | internal/messaging/messaging.go:211-240 | So the two list the same rooms and members and give the same ids |
| Rooms.JoinKeepsSound | internal/messaging/messaging.go:90-112 | Keys stay room names, no room is empty, members stay known users |
| Rooms.LeaveKeepsSound | internal/messaging/messaging.go:124-133 | The same after a leave |
| Rooms.DisconnectKeepsSound | internal/messaging/messaging.go:197-206 | The same after a disconnect |
| Rooms.SweepStep | internal/messaging/messaging.go:197-203 | Whichever room the map iteration yields next, visiting it takes the loop from one determined state to the next |
| Rooms.DisconnectIsLeavingEach | internal/messaging/messaging.go:192-207 | In every order, leaving the rooms that hold the user and dropping the user is Disconnect |
| Rooms.DisconnectTouchesOnlyTheUser | internal/messaging/messaging.go:192-207 | Exactly the rooms whose only member was the user go; nobody else's membership or connection changes |
| Rooms.JoinHolds | internal/messaging/messaging.go:111-112 | A join changes one entry of the router and no other |
| Rooms.LeaveHolds | internal/messaging/messaging.go:124-133 | A leave removes one entry and no other |
| Rooms.DisconnectHolds | internal/messaging/messaging.go:196-206 | A disconnect removes the user's entries and no other |
| MessageRouters.InMemoryMessageRouter.constructor | internal/messaging/messaging.go:53-59 | Empty maps |
| MessageRouters.InMemoryMessageRouter.JoinRoom | internal/messaging/messaging.go:82-115 | The new maps, the new table and the error, nil connection and repository failures included; one step of a run of calls |
| MessageRouters.InMemoryMessageRouter.LeaveRoom | internal/messaging/messaging.go:120-136 | The new maps; fails exactly when the room does not exist |
| MessageRouters.InMemoryMessageRouter.Disconnect | internal/messaging/messaging.go:192-207 | The delete-while-ranging loop ends in one state whatever order the rooms come in |
| MessageRouters.InMemoryMessageRouter.BroadcastRoom | internal/messaging/messaging.go:142-163 | Each working connection gets one formatted frame per username of the room mapped to it; broken ones are skipped |
| MessageRouters.InMemoryMessageRouter.SendTo | internal/messaging/messaging.go:166-176 | One frame to the user's connection, or an error if unknown or broken |
| MessageRouters.InMemoryMessageRouter.GetRoomID | internal/messaging/messaging.go:179-188 | The cached id, empty when the room is not there |
| MessageRouters.InMemoryMessageRouter.ListRooms | internal/messaging/messaging.go:211-221 | One stored name per room; each room exactly once when the router is sound |
| MessageRouters.InMemoryMessageRouter.ListRoomMembers | internal/messaging/messaging.go:225-240 | Each member once, or an error if the room does not exist |
| MessageRouters.InMemoryMessageRouter.PrintRooms | internal/messaging/messaging.go:244-269 | One line per room, in the order the maps are ranged over |
| RoomStores.InMemoryRoomStore.constructor | internal/messaging/room_store.go:37-42 | No rooms |
| RoomStores.InMemoryRoomStore.JoinRoom | internal/messaging/room_store.go:56-85 | The new map, the new table and the error |
| RoomStores.InMemoryRoomStore.LeaveRoom | internal/messaging/room_store.go:87-103 | The new map; fails exactly when the room does not exist |
| RoomStores.InMemoryRoomStore.ListRooms | internal/messaging/room_store.go:105-115 | Each room once |
| RoomStores.InMemoryRoomStore.ListRoomMembers | internal/messaging/room_store.go:117-132 | Each member once, or an error if the room does not exist |
| RoomStores.InMemoryRoomStore.GetRoomID | internal/messaging/room_store.go:134-143 | The cached id, empty when the room is not there |
| Repositories.RoomRepository.FindByRoomName | internal/repository/room.go:41-74 | The row of that name, none, or a query error |
| Repositories.RoomRepository.Create | internal/repository/room.go:23-38 | Inserts unless the query fails or the name is taken |
| Delivery.DeliveredInLockOrder | internal/messaging/messaging.go:142-176 | The reader of a connection decodes exactly the messages addressed to it by a run of router calls, in lock order, nothing left over |
| Delivery.DeliveredExactlyWithinTheCap | internal/messaging/messaging.go:142-176 | It does so if and only if all of them are within the cap |
| Delivery.LogFollowsTheLock | internal/messaging/messaging.go:142-176 | Messages are addressed in the order the lock was taken |
| Delivery.SameOrderEverywhere | internal/messaging/messaging.go:142-176 | No two connections see two calls' messages in opposite orders |
| Delivery.OneCallOneText | internal/messaging/messaging.go:151-153 | Messages of one call on two connections are the same text |
| Delivery.EveryRunIsSound | internal/messaging/messaging.go:82-207 | The router stays sound along every run of joins, leaves, disconnects and sends |
| Memberships.MembershipExactly | internal/messaging/messaging.go:82-207 | After any run of calls a user is in a room with a connection exactly when some successful join put them there and no later leave of theirs there, join of theirs there or disconnect followed |
| Memberships.ConnectionExactly | internal/messaging/messaging.go:166-207 | And a direct message goes to the connection of the user's last successful join of any room, unless a disconnect followed it |
| Memberships.AddressedFromTheCalls | internal/messaging/messaging.go:142-176 | So whom a broadcast or a direct message is addressed to, how often and with what text, is read off the calls before it |
| Transcripts.LineIsReadBack | internal/messaging/messaging.go:151-153 | Room, sender and body are read back from a broadcast, whatever the body, if the room has no closing bracket and the sender no colon |
| Transcripts.LinesAreDistinct | internal/domain/room.go:32-43 | So for valid room names two broadcasts look alike only if they are the same |
| Transcripts.RosterIsReadBack | internal/messaging/messaging.go:257-262 | A room and its members, in order, are read back from its line of `/rooms` |
| Delivery.BroadcastReadableExactly | internal/messaging/messaging.go:151-153 | A broadcast is readable if and only if room, sender, body and the five bytes of format fit the cap |
| Delivery.FullSizeBodyIsUnreadable | internal/messaging/messaging.go:151-153 | A body at the cap is accepted on the way in and relayed in a frame that no member can read |
| RoomIds.AnswersAgree | internal/messaging/messaging.go:91-110 | In any interleaving of find, create and cache steps of any number of processes, non-empty answers to GetRoomID agree exactly when the names do, across processes, times, re-creation and restarts |
| RoomIds.AnswersExactly | internal/messaging/messaging.go:179-203 | In any interleaving GetRoomID answers exactly when the process has completed caching the room and has since neither seen its last member leave nor restarted |
| RoomIds.RunningExactly | internal/messaging/room_store.go:37-42 | A process is running exactly when it has been started |
| RoomIds.JoinIsItsSteps | internal/messaging/room_store.go:56-85 | A process idle with a store's ids cached is so again after the steps of a join, with the store and the table that the join leaves |
| RoomIds.LeaveIsItsStep | internal/messaging/room_store.go:95-100 | And after a leave, which is the room emptying exactly when the user was its last member |
| RoomIds.DisconnectIsItsSteps | internal/messaging/messaging.go:197-206 | And after a disconnect, which is the emptying, in any order, of the rooms whose only member was the user |
| RoomIds.RunKeepsInv | internal/repository/room.go:23-38 | Every cached id is the table's, ids are distinct and non-empty |
| RoomIds.TableOnlyGrows | db/migrations/000002_create_rooms.up.sql:1-7 | No step changes or removes a row |
| RoomIds.AnswerIsFinal | internal/messaging/room_store.go:61-80 | An answer once given is the table's id for ever |
| RoomIds.LoserKeepsItsCache | internal/messaging/messaging.go:99-103 | Losing the race between find and create costs an error and leaves the cache; the next attempt takes the winner's id |
| RoomIds.UninterruptedIsFindOrCreate | internal/messaging/messaging.go:91-110 | The four steps with nobody in between are the join's find-or-create |
| Auth.AuthService.constructor | internal/auth/service.go:27-33 | No tokens |
| Auth.AuthService.Register | internal/auth/service.go:35-65 | Succeeds exactly when nothing fails and the name is valid and free, and then adds one row; otherwise changes nothing; which error each refusal by the checks is |
| Auth.AuthService.Login | internal/auth/service.go:67-104 | Both tokens or neither; the access token names the stored user, the refresh token is live for them |
| Auth.AuthService.IssueRefreshToken | internal/auth/service.go:179-195 | The minted token is live for the user, or nothing changed |
| Auth.AuthService.Refresh | internal/auth/service.go:138-177 | The token goes before anything can fail; a successor for the same user exists only if nothing did |
| TokenChains.TokensAreSpentOnce | internal/auth/service.go:146-151 | In any interleaving no token is redeemed twice, and a redeemed one is refused from then on |
| TokenChains.LiveIsIssuedMinusBurned | internal/auth/service.go:151-175 | Live tokens are as many as issued less those burned by a refresh that failed after the delete, and each issued token's chain ends in exactly one token, live or burned |
| TokenChains.ChainsKeepTheirUser | internal/auth/service.go:146-175 | However often rotated, a token redeems to the user its chain was issued for |
| TokenChains.SameSubSameUid | internal/auth/service.go:46-62 | Access tokens with one sub carry one uid, racing registrations included |
| TokenChains.EveryRunIsOrdered | internal/auth/service.go:138-195 | The invariants of the token history, on every run |
| TokenChains.EveryRunKnowsItsUids | internal/auth/service.go:87-103 | Every signed access token carries the id of the stored user |
| AuthRuns.TasksExactly | internal/auth/service.go:46-104 | In every interleaving a registration or login is under way exactly when its lookup went ahead and nothing has concluded it since |
| AuthRuns.AccountsExactly | internal/auth/service.go:46-62 | A name has an account exactly when it had one at the start or some registration of it has inserted one |
| AuthRuns.IdsExactly | internal/auth/service.go:59-62 | Its id is the one it had, or else that of the first such insert |
| AuthRuns.LiveExactly | internal/auth/service.go:138-195 | A refresh token is live for a user exactly when a login or a refresh of theirs minted it and it has neither been presented since, whatever came of that, nor been minted again |
| AuthRuns.SignedExactly | internal/auth/service.go:87-170 | An access token has been signed exactly when a login of that user and id finished, or a refresh got as far as signing it |
| AuthRuns.RegisterIsItsEvents | internal/auth/service.go:35-65 | With nothing in between, the two events of a registration insert exactly when Register does |
| AuthRuns.LoginIsItsEvents | internal/auth/service.go:67-104 | And those of a login mint what Login mints |
| Registries.Registry.constructor | internal/server/registry.go:17-21 | No connections |
| Registries.Registry.Add | internal/server/registry.go:25-40 | Adds unless nil or full; never more than a hundred |
| Registries.Registry.Remove | internal/server/registry.go:44-54 | Removes exactly that connection |
| Registries.Registry.Count | internal/server/registry.go:57-62 | The number of registered connections |
| Registries.InMemoryPresenceStore.constructor | internal/presence/presence.go:29-33 | Nobody present |
| Registries.InMemoryPresenceStore.Add | internal/presence/presence.go:37-48 | The user now maps to this connection |
| Registries.InMemoryPresenceStore.Remove | internal/presence/presence.go:53-70 | In whatever order the map is ranged over, exactly the users mapped to this connection go |
| Registries.InMemoryPresenceStore.List | internal/presence/presence.go:74-84 | Each user once |
| Registries.InMemoryOnlineStore.constructor | internal/presence/online_store.go:20-22 | Nobody online |
| Registries.InMemoryOnlineStore.SetOnline | internal/presence/online_store.go:24-33 | The user joins or leaves the set |
| Registries.InMemoryOnlineStore.ListOnline | internal/presence/online_store.go:35-45 | Each user once |
| Gateways.EveryRunIsSafe | cmd/server/main.go:196-213 | The lifecycle invariants on every interleaving of any number of handlers, duplicate sessions included |
| Gateways.OnlineWithinRegistered | internal/presence/presence.go:37-70 | Every present connection is registered, no two users share one, so users present are at most connections registered, at most a hundred |
| Gateways.MessagesReachOnlyLiveHandlers | internal/messaging/messaging.go:192-207 | Every connection the router would write to belongs to a handler of that user that has not run Disconnect and is still registered |
| Gateways.AdvanceKeepsRoutes | cmd/server/main.go:213-213 | Each handler's next action keeps the router's connections live |
| Gateways.AdvanceKeepsPresence | cmd/server/main.go:198-212 | Each handler's next action keeps the presence store to authenticated, registered handlers |
| Gateways.EveryRunKeepsIds | cmd/server/main.go:387-393 | Along every run the ids that the router and the room store have cached are the table's, and no row changes |
| Gateways.RouterAndStoreAgreeOnIds | internal/messaging/room_store.go:134-143 | So a room that both have has one id |
| Destinations.WhereOrdersLead | cmd/server/main.go:449-516 | In every run a session in its loop, or telling a room that it has come, is in the room that the last `/join` or `/leave` to find it in its loop sent it to, or in the default room if there was none |
| Destinations.TheOrderIsCarriedOut | cmd/server/main.go:459-468 | Undisturbed, the router has the user there with this connection and the room store lists the user there |
| Destinations.JoinRoomTakesItThere | cmd/server/main.go:449-493 | `/join` carried out: session in the room named, added there in the router, moved there in the store; nobody else's rooms, nor registry, presence, queue or online store, changed |
| Destinations.LeaveRoomTakesItHome | cmd/server/main.go:495-526 | `/leave` carried out: the same with the default room |
| Destinations.EntersTheDefaultRoom | cmd/server/main.go:212-405 | A session let in: present under its connection, in the default room of router and store, online event queued, everybody else as they were |
| Destinations.HangUpLeavesNothingBehind | cmd/server/main.go:196-213 | A hang-up with its deferred calls: closed, unregistered, not present under this connection, in no room of the router, offline event queued, everybody else and the room store as they were |
| Destinations.FailureLeavesNothingBehind | cmd/server/main.go:196-210 | A connection lost before it was let in: the same, with router and queue as they were |
| Destinations.AcceptedExactly | cmd/server/main.go:153-163 | In every run a connection has a handler exactly when some accept of it found fewer than a hundred registered, and is registered from then until its handler deregisters it |
| Destinations.QueueDrains | cmd/presence-service/main.go:59-67 | Left to itself the presence service ends with an empty queue, showing what the queued events say |
| Sessions.InEveryRoomVisited | cmd/server/main.go:387-393 | With one session at a time and the user's own calls succeeding, from entering on the router has the user, with this connection, in the current room and in exactly the rooms the session has joined |
| Sessions.ListedInTheCurrentRoom | cmd/server/main.go:449-468 | At the head of the loop the room store lists the user in the current room and in the stale rooms not yet visited; in exactly the current room if and only if every stale room has been visited |
| Sessions.HangUpForgetsTheRoomStore | cmd/server/main.go:574-580 | Hanging up and disconnecting clears the router and leaves the room store's listing behind |
| Sessions.EveryRunTracks | cmd/server/main.go:495-516 | The tracking invariant at every step, whatever other users do |
| Sessions.RouterRoomsAfter | cmd/server/main.go:467-467 | How one handler's action changes the rooms of any user in the router |
| Sessions.StoreRoomsAfter | cmd/server/main.go:459-466 | How one handler's action changes the rooms of any user in the room store |
| PresenceEvents.PresenceConverges | cmd/server/main.go:400-405 | The online store with the queued events applied lists exactly the users between their online and their offline publish; so does ListOnline when the queue is empty |
| PresenceEvents.NobodyIsInvented | cmd/server/main.go:574-580 | With any number of sessions, nobody is shown online without an announced handler |
| PresenceEvents.NobodyIsMissed | cmd/presence-service/main.go:59-67 | With one session at a time, no announced user is missing |
| PresenceEvents.TakingOneChangesNothing | cmd/presence-service/main.go:59-67 | Taking one event off the queue leaves the eventual set as it was |
| DuplicateSessions.TheOtherSessionIsEvicted | cmd/server/main.go:322-327 | For every user: two logins both pass the check; when one hangs up the other is in its loop but out of its room, and about to be shown offline |
| DuplicateSessions.OneSessionExactly | cmd/server/main.go:322-327 | In every run, never two sessions of a user if and only if registrations and refreshes let them in only while none is live and logins never while another session has not yet added itself to the presence store; and then the presence store records the live session |
| DuplicateSessions.EntryStaysExactly | internal/messaging/messaging.go:111-206 | A user's entry in a room survives a step if and only if the step neither disconnects the user nor has another of their sessions join that room |
| DuplicateSessions.InRoomsExactly | cmd/server/main.go:212-213 | In every run, with any number of sessions and whatever fails, all of a user's sessions are in their current rooms at every moment if and only if no join of theirs fails and none disconnects, or joins another's room, while that other is there |
| DuplicateSessions.StepKeepsRoomsExactly | cmd/server/main.go:467-468 | The same for one step |
| DuplicateSessions.ShownExactly | cmd/server/main.go:574-580 | In every run whose events are published, all announced sessions are shown at every moment if and only if none announces its departure while another of the user's is announced; nobody else is ever shown |
| DuplicateSessions.StepKeepsNoneMissingExactly | cmd/server/main.go:574-580 | The same for one step |
| Prompts.ReadsFinalExactly | cmd/client/main.go:67-81 | Exactly when the client takes the last frame for what it is, and the token it keeps |
| Prompts.HexIsPresentable | internal/auth/service.go:173-173 | A refresh token passes the client's earlier tests and survives its lower-casing |
| Strings.TrimSpaceCutsOnlySpace | cmd/server/main.go:247-247 | `strings.TrimSpace` cuts only white-space characters, from the two ends, and leaves none at either end |
| Strings.KeptLetterByLetter | cmd/client/main.go:67-79 | The token a client keeps is the one sent with each capital replaced by the small letter of its place in the alphabet and nothing else changed |
| Handshake.EveryRunIsInLockstep | cmd/server/main.go:230-372 | The lockstep invariant of the composed client and server, on every interleaving and for every token |
| Handshake.OneThingOutstanding | cmd/client/main.go:59-107 | While the server waits, prompts on their way, the user typing and answers on their way back add up to exactly one; afterwards to none |
| Handshake.OnlyTheServersPromptIsAnswered | cmd/client/main.go:68-103 | The client answers only a prompt, and only the one for the read the server is blocked on |
| Handshake.BothWaitingExactly | cmd/client/main.go:61-76 | With the user not typing, client and server both wait on empty queues if and only if the server has admitted the user with a token the client takes for a notice |
| Handshake.BothLeaveOnTheSameFrame | cmd/client/main.go:78-81 | When the client leaves, the server has left on that frame, both queues are empty, the token is that frame's in lower case, and the name is the one typed |
| Handshake.LeavesExactlyWhenPresentable | cmd/client/main.go:68-81 | In every run that has admitted the user and delivered everything, the client has left if and only if the token is presentable |
| Handshake.LoginFinishes | cmd/server/main.go:293-334 | For every name, password and account not present with a presentable token, a run in which the user logs in and both sides leave |
| Handshake.LoginIsSwallowed | cmd/client/main.go:68-81 | For every name, password and account not present with any other token, the run in which the user is admitted and the client waits with nothing to come |
| Handshake.PromptsAreAsked | cmd/server/main.go:204-366 | Each of the server's six prompts, and so whichever read it is blocked on, is taken for a prompt |
| Handshake.NoticesAreIgnored | cmd/server/main.go:254-361 | None of the server's five notices is answered |
| Handshake.AdmittedExactly | cmd/server/main.go:248-369 | When one read of the server completes the authentication, and when it starts a registration |
| Handshake.ServeSends | cmd/server/main.go:236-239 | Every read is followed by at most one notice and then by the prompt for the next read, or by the last frame |
| Requests.EveryRequestIsAnswered | cmd/server/main.go:236-369 | In every run, read off the lines and replies alone: what the server has sent is one answer per line read, with the notice for each cause of refusal; what it waits for is the line that the request under way lacks; whom it lets in, and when, is decided by the last request |
| Requests.TheFirstLineDecides | cmd/server/main.go:288-332 | Everyone let in who was asked for a name began, three lines before, with `/register` or `/login`; that line decides the notice before the last frame, and the name is the line after it |
| Requests.OnlyLoginsAskWhoIsPresent | cmd/server/main.go:322-327 | A registration that is granted is let in whoever is present, a login exactly when its user is not |
| Requests.LoopAnswersEveryRequest | cmd/server/main.go:230-372 | RunAuthLoop on any byte stream sends the answers to the requests in the frames it decodes, and returns the account that the first granted one brings |
| Reconnects.EveryAttemptIsOnCourse | cmd/client/main.go:239-275 | A silent attempt goes through ten shapes and no others, whatever the interleaving |
| Reconnects.OneRedemptionDecides | cmd/client/main.go:264-268 | The server asks for at most one redemption, of the stored token; the client is restored only if it is granted, gives up only if it is not, and stalls exactly when the last frame is taken for a notice |
| Reconnects.OnlyTheFirstReachedCounts | cmd/server/main.go:346-352 | Over any number of tries, each lost before or after the service or answered, the first to reach the service decides: the service's tokens afterwards, and whether the caller holds the successor |
| Reconnects.AttemptExactly | cmd/client/main.go:239-275 | A silent attempt that has ended succeeded if and only if redeeming the stored token got a successor back |
| Reconnects.RestoredExactly | cmd/auth-service/server.go:31-81 | Given the service's replies, a silent attempt that has ended has restored a session begun with the dialogue if and only if the session began with a refresh and the token it was then sent is live, its user is known, and the first try to reach the service neither failed nor lost its answer |
| Reconnects.RestoredAgainExactly | cmd/client/main.go:219-233 | The same for a session that a silent attempt restored, of the token sent in that attempt |
| Reconnects.LoginThenReconnectGivesUp | cmd/auth-service/server.go:38-54 | For every account, and whatever the service holds, a login and a refused reconnect after it that meet those premises |
| Reconnects.KeptExactlyInLowerCase | cmd/client/main.go:67-81 | The client keeps the token it was sent exactly when it has no capital letter |
| Reconnects.RestoredSessionKeepsItsToken | cmd/client/main.go:255-274 | And so after each successful silent attempt |
| AuthLoops.RunAuthLoop | cmd/server/main.go:230-372 | The loop over a real byte stream: what it sends, where it stops, what it leaves unread, as the step function says |
| AuthLoops.TakeCredentials | cmd/server/main.go:258-334 | The part of the loop common to /register and /login, after the username prompt |
| AuthLoops.TakePassword | cmd/server/main.go:266-334 | And after the password prompt |
| AuthLoops.TakeToken | cmd/server/main.go:338-363 | The rest of /refresh |
| AuthLoops.RunAuthHandshake | cmd/client/main.go:55-113 | The client's loop over a real byte stream and typed lines, failed reads and writes included; lines waiting when it starts answer nothing |
| AuthLoops.DrainInput | cmd/client/main.go:115-123 | No waiting line is left |
| AuthLoops.RunSilentAuth | cmd/client/main.go:239-275 | The silent loop over a real byte stream |
| AuthLoops.LoopIsTheServer | cmd/server/main.go:230-372 | Fed with the bytes of what the dialogue's server read in any run, the server's loop sends what that server sent and ends where it is |
| AuthLoops.LoopIsTheClient | cmd/client/main.go:55-113 | Fed with the bytes of what the dialogue's client read and the lines typed, the client's loop sends those lines and ends where that client is |
| AuthLoops.LoopRetriesTheAttempt | cmd/client/main.go:239-275 | Fed with the bytes of what the silent client of an attempt read, whatever follows, the silent loop has sent what that client answered and is where it is |

## Left out

- Gateways.Do: `handleConn` and `runCommandLoop` are a state machine on values, one step per critical section, because what is proved is about their interleavings; the classes they call are in the other files.
- Gateways.Order: `/help`, `/rooms`, `/who`, usage and validation errors, message history and persistence change none of the modelled state and are not steps; a command rejected by `ValidateRoomName` is likewise no step.
- Gateways.Next: nil responses after failed gRPC calls, which crash the process, are not modelled; a failed call leaves its store unchanged.
- TokenBuckets.TokenBucket.Allow: `float64` is `real` and the clock is monotone, so rounding and clock steps are not modelled; exactness holds with one and with two clock reads per call, optimality takes one.
- MessageRouters.InMemoryMessageRouter.JoinRoom: sessions are values inside the router's map, not shared heap objects, so aliasing of a `*RoomSession` outside the router is not modelled; connections are heap objects.
- MessageRouters.InMemoryMessageRouter.BroadcastRoom: a write succeeds or fails whole; a connection that takes part of a frame is not modelled.
- Delivery.DeliveredInLockOrder: covers writes made under the router's lock; the command loop's own unlocked writes, whose header and body may interleave with them, are not modelled.
- Auth.AuthService.Login: bcrypt, token signing and random bytes are flags and values; an access token is its claims, its expiry left out.
- TokenChains.TokensAreSpentOnce: assumes that a random token is never drawn twice; the gRPC wrapper's `Validate` after a rotation, whose failure loses the successor on the way back, is not modelled.
- RoomIds.AnswersAgree: assumes generated ids are not empty, names and ids are unique in the table, and no row is deleted, as nothing shown sets `rooms.deleted_at`.
- Sessions.InEveryRoomVisited: assumes at most one live session of that user and that the user's own calls and queries succeed; nothing about other users.
- PresenceEvents.PresenceConverges: assumes a reliable first-in-first-out queue and successful publishes; NATS itself is not modelled.
- Prompts.Lower: lowers ASCII letters only; every frame of the dialogue is ASCII.
- Reconnects.RestoredExactly: assumes that the text of a signed access token has a dot in it, that refresh tokens are hex and that a random token is never the one being redeemed; takes the users and live tokens at the time of the reconnect as given, and tries as not interleaved with other calls.
- Handshake.EveryRunIsInLockstep: connections are not lost and deadlines do not expire during the dialogue; `AuthLoops` covers lost connections for each side on its own.
- AuthLoops.RunAuthHandshake: the input channel is open while it is drained; draining a closed one would never end.
- AuthLoops.RunAuthLoop: `callWithRetry` is one call that succeeds or fails; only a refresh's tries are told apart, in `Reconnects.Tries`.
- The in-memory auth service, the SQL repositories for messages, users and members, migrations, the cleanup worker, `reconnect`'s back-off and terminal output: no further state worth proving about.
