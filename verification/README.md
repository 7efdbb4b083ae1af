# A model of the game-session backend and its pod scene

The project models the stateful parts of a small game. A master service gives one session slot to
websocket clients, keeps the session's records in Redis and ends it after a grace period. A controller
registers slaves, forwards events to them and tells a slave to shut down once it is gone. Each slave
simulates the life of one pod. A WebXR front end shows the pods, lets hands grab, crush and blow them
away, and reports the ones that were hit or fell. A key cache checks the tokens of the clients.

## How the files fit together

| files | what they hold |
|---|---|
| `Domain.dfy` | the values that the services exchange |
| `MasterServer.dfy`, `SessionMachine.dfy`, `SessionLifecycle.dfy`, `SessionTheorems.dfy` | the session slot. The class has one method per mutex section; the machine interleaves handlers, grace timers and finalizers section by section; an automaton of one lifetime is the reference that every run is shown to refine; the theorems are about every run |
| `MetricsMachine.dfy`, `MetricsTheorems.dfy`, `MetricsClient.dfy` | the optimistic metrics update: concurrent WATCH, GET and EXEC on a versioned key, and the retry loop as the source runs it |
| `RedisKeys.dfy`, `RedisStore.dfy` | the key names, the `KEYS` pattern, and the store operations over one flat key space |
| `SlaveAccounting.dfy`, `SlaveHandlers.dfy` | live and gone counts against the slave records, and the handlers that write both |
| `PodLife.dfy`, `PodLifeTheorems.dfy`, `SlaveService.dfy` | the pod simulation as functions over a seeded stream of draws, what holds of every run, and the slave's classes |
| `GoneObserver.dfy` | the controller's observed states and the shutdowns it sends |
| `JwksCache.dfy`, `JwksMachine.dfy` | the signing key cache, as a class and under interleaved calls |
| `SceneState.dfy`, `SceneEntries.dfy`, `SceneUpdate.dfy`, `SceneHands.dfy`, `ScenePalms.dfy`, `PodScene.dfy` | the pod scene: its bookkeeping and invariant, what each operation does to it, and the class whose methods are the source's |

Code that updates fields is a class. Each method is proved against a function of the old state, and
the theorems are about those functions. Where calls overlap, a step machine applies the same functions,
one lock section or one Redis round trip at a time.

Assumptions, each visible in a signature: the clock, random draws, replies of other services, tracked
hands, colliders touched and bodies below the table are arguments. `Stop` on a timer whose callback has
already been started does nothing, as in the Go library. Redis executes one command at a time, and a
transaction fails exactly when a watched key was written. KEYS matches as Redis documents it: `*`, `?`,
classes in brackets, and a backslash that quotes. A shutdown request reaches whatever process has the pod
address of the message that caused it. The physics engine never gives a new collider the handle of one in
use.

## What was found

- A metrics update gives up after eight failed attempts. With at most eight one-shot updaters and no
  other writer none ever gives up (`MetricsTheorems.EightUpdatersSucceed`), and with nine some schedule makes
  one give up (`MetricsTheorems.RetryBoundIsExact`). `libs/infra/redis/redis_test.go:240-292` expects twenty
  concurrent updaters all to succeed; the code does not guarantee that.
- An event result does not always leave live and gone counts exact; `SlaveAccounting.EventBalanceExact`
  says exactly when it does. It does not when the reply is live but overwrites a terminal record, as for a
  pod already reported gone (`SlaveAccounting.RevivalUnbalances`); when it has a slave id without a record,
  such as the empty one that a slave answers with until `SetRegistration` has run
  (`SlaveAccounting.UnnamedReplyUnbalances`, `libs/app/slave/service.go:82-86`); and when it is terminal and
  names another slave, whose record disagrees with the resolved one about being terminal. A pod address that
  is used again brings such replies about (`SlaveAccounting.MisnamedReplyUnbalances`).
- Two sessions have a Redis key in common if and only if one id, with a colon after it, begins with the
  other id followed by `:slave:` (`RedisKeys.SessionsShareKey`). For ids without characters that KEYS gives a
  meaning to, that is also exactly when deleting the one session can delete a key of the other
  (`RedisStore.DeletionReaches`): deleting the shorter id deletes all keys of the longer one, and deleting
  the longer one deletes slave keys of the shorter one (`RedisStore.DeletionTakes`). An id with `*`, `?` or a
  class reaches further: deleting `*` deletes the slave keys of every session (`RedisKeys.StarFindsAll`). The
  master draws its ids as UUIDs, which are never like that (`RedisKeys.PlainIsNotNested`), so only another
  caller of the client can bring this about.
- A client that comes back within its grace stops the end timer, which then never fires
  (`SessionTheorems.DroppedNeverFires`). It is left without any armed timer if and only if no timer other than
  that one was armed (`SessionTheorems.NoTimerLeft`). There can be another: a handler that is still between the
  two sections of `handleConnectionClosed` when its client has come back and gone again arms a timer that the
  slot then forgets (`SessionTheorems.ResumedWithTimer`, `apps/master-service/cmd/server/main.go:249-266`), and
  which can end the session early in its next absence.
- The cached key lookup equals a fresh one unless the call looks for a key of the set when the cache has
  expired again, after it has itself forced a refresh (`JwksMachine.CacheIsTransparent`). For every
  time-to-live there is such a call, which rejects a key that the issuer serves throughout
  (`JwksMachine.SlowCallMisses`); the clock must pass the time-to-live between two steps of the call.

## Model

| member | source | states |
|---|---|---|
| SessionTheorems.NoOrphan | apps/master-service/cmd/server/main.go:222-283 | in every interleaving a committed session that is neither connected nor closing has an armed or fired timer for it, or a handler in the gap about to arm one |
| SessionTheorems.OneHolder | apps/master-service/cmd/server/main.go:115-141 | in every interleaving at most one handler holds the slot, and `clientConnected` is true exactly when one does |
| SessionTheorems.SlotGivenBack | apps/master-service/cmd/server/main.go:201-266 | the holder's close or abort is never ignored: afterwards the slot is free, or its session is being ended |
| SessionTheorems.LifetimesNeverOverlap | apps/master-service/cmd/server/main.go:132-140 | between a commit and the end of that session's finalization nothing is reserved, created or committed, every accepted connection resumes it with the committed meta, and nothing is accepted once its finalization began |
| SessionTheorems.EndedOnce | apps/master-service/cmd/server/main.go:268-304 | a session whose finalization is over is never finalized, resumed, created or current again |
| SessionTheorems.KeysTrackSession | apps/master-service/cmd/server/main.go:143-209 | with no fault and no session step in flight the active, meta and metrics keys are exactly those of the committed session, and none when the master is idle |
| SessionTheorems.DroppedNeverFires | apps/master-service/cmd/server/main.go:126-129 | in every run an armed end timer that an accepted connection, a close, an expiry or the last section drops is stopped, and stays so |
| SessionTheorems.NoTimerLeft | apps/master-service/cmd/server/main.go:126-129 | an accepted connection leaves no timer armed if and only if none but the end timer was |
| SessionTheorems.ResumedWithTimer | apps/master-service/cmd/server/main.go:249-266 | a run in which two handlers of one session arm a timer each, and the session is resumed with the first still armed |
| SessionTheorems.RunRefines | apps/master-service/cmd/server/main.go:363-401 | every run of handlers, timers and finalizers is a run of the one-lifetime-at-a-time automaton |
| SessionTheorems.DuringSession | apps/master-service/cmd/server/main.go:201-209 | what the automaton allows while a session is current |
| SessionTheorems.AfterSession | apps/master-service/cmd/server/main.go:285-304 | the automaton never mentions an ended session again |
| SessionLifecycle.StepFollows | apps/master-service/cmd/server/main.go:115-304 | every enabled step of the machine is a move of the automaton and keeps the simulation relation |
| SessionLifecycle.ReserveFollows | apps/master-service/cmd/server/main.go:115-141 | a reservation leads from idle to held |
| SessionLifecycle.ResumeFollows | apps/master-service/cmd/server/main.go:132-140 | a resumption happens only while its session waits, and drops the timer |
| SessionLifecycle.CommitFollows | apps/master-service/cmd/server/main.go:201-209 | only the holder of the reservation commits, with the session it created |
| SessionLifecycle.EndNowFollows | apps/master-service/cmd/server/main.go:222-247 | an explicit close, or one without grace, starts the only finalization of the session |
| SessionLifecycle.DropFollows | apps/master-service/cmd/server/main.go:222-251 | a close with grace leaves the session waiting, guarded by the handler in the gap |
| SessionLifecycle.ArmFollows | apps/master-service/cmd/server/main.go:253-266 | a handler that comes out of the gap while its session waits arms a timer for it |
| SessionLifecycle.LeaveGapFollows | apps/master-service/cmd/server/main.go:253-266 | a handler that comes out of the gap in any other state changes nothing that the session depends on |
| SessionLifecycle.ExpiryFollows | apps/master-service/cmd/server/main.go:268-283 | a timer callback that finds its session waiting starts its finalization |
| SessionLifecycle.StaleTimerFollows | apps/master-service/cmd/server/main.go:268-283 | a callback that comes too late changes nothing |
| SessionLifecycle.LastFollows | apps/master-service/cmd/server/main.go:285-304 | the last section of a finalization frees the slot of that session and no other |
| MasterServer.Server.TryBeginSessionConnection | apps/master-service/cmd/server/main.go:115-141 | refused while connected or closing, with no effect; resumes a waiting session with its meta or reserves the slot, and in both cases stops the end timer if it was armed and no other |
| MasterServer.Server.CommitSession | apps/master-service/cmd/server/main.go:201-209 | the created session becomes current and connected |
| MasterServer.Server.AbortPendingSession | apps/master-service/cmd/server/main.go:211-220 | a reservation is undone, a committed session is left alone |
| MasterServer.Server.CloseFirstSection | apps/master-service/cmd/server/main.go:222-251 | ignores a foreign id, otherwise stops the end timer and releases the slot or starts the end of the session |
| MasterServer.Server.CloseSecondSection | apps/master-service/cmd/server/main.go:253-266 | arms the grace timer only if the session still waits |
| MasterServer.Server.FinishFirstSection | apps/master-service/cmd/server/main.go:268-283 | claims the finalization only for the session that still waits, and stops the end timer if it is armed |
| MasterServer.Server.FinalizeLastSection | apps/master-service/cmd/server/main.go:285-304 | clears the slot only if it still holds the finalized session, and stops the end timer if it is armed |
| MetricsTheorems.Linearizable | libs/infra/redis/redis.go:294-354 | with WATCH, GET and EXEC of any calls interleaved, the stored metrics are the replay of the write log; the updates in it are exactly the successful calls, each once, within its span, and each stores and returns what its change makes of the metrics before it, with the session id filled in and the time set |
| MetricsTheorems.NoUpdateLost | libs/infra/redis/redis.go:294-354 | however registrations interleave, the stored live count is the first one plus the number of calls that succeeded |
| MetricsTheorems.ExhaustedSawEightWrites | libs/infra/redis/redis.go:295-353 | a call that ran out of retries saw at least eight writes by others while it ran |
| MetricsTheorems.ExhaustedMetEightOthers | libs/infra/redis/redis.go:295-353 | among updaters alone those are eight distinct other calls |
| MetricsTheorems.EightUpdatersSucceed | libs/infra/redis/redis.go:295-353 | of at most eight one-shot updaters none runs out of retries, and each that has ended without a failing command has succeeded |
| MetricsTheorems.RetryBoundIsExact | libs/infra/redis/redis.go:295-353 | `n` one-shot updaters have a schedule in which one runs out of retries if and only if `n` is at least nine |
| MetricsTheorems.NoResurrection | libs/infra/redis/redis.go:300-333 | after a deletion no in-flight and no later update brings the metrics key back before it is created again |
| MetricsMachine.RunKeepsInv | libs/infra/redis/redis.go:294-354 | what every interleaving keeps: stored value, version, log and each call's view of them agree |
| MetricsMachine.GetKeepsInv | libs/infra/redis/redis.go:300-316 | what a call has read is what the key still holds, unless the key has been written since its WATCH |
| MetricsMachine.CommitKeepsInv | libs/infra/redis/redis.go:318-333 | an EXEC that succeeds writes the change of the value it was computed from |
| MetricsMachine.StoresItsChange | libs/infra/redis/redis.go:313-333 | the counts that a successful call stores are those of its change applied to the metrics before it |
| MetricsClient.MetricsKey.UpdateSessionMetrics | libs/infra/redis/redis.go:294-354 | the retry loop is one call of the machine and returns what its attempts come to: on success the counts of its change applied to the metrics just before its write, on a failed command of an attempt it reached an error at once, not found for a missing value, and it gives up only after eight writes by others |
| MetricsClient.MetricsKey.Try | libs/infra/redis/redis.go:297-347 | what one attempt comes to, from the version at its WATCH, the value at its GET and the writes of others before and between its commands; a failed command is its error |
| MetricsClient.MetricsKey.Transact | libs/infra/redis/redis.go:298-333 | the commands of one attempt after its WATCH |
| MetricsClient.OthersLeaveCall | libs/infra/redis/redis.go:294-354 | steps of others never touch a call's own state |
| MetricsClient.StoreErrorIsMet | libs/infra/redis/redis.go:295-353 | the loop reports a store error only when the WATCH, the GET or the EXEC of one of its eight attempts failed |
| MetricsClient.FailureEnds | libs/infra/redis/redis.go:295-353 | an attempt whose WATCH, GET or EXEC fails, or that finds no metrics, ends the call with that error and is not repeated |
| RedisKeys.KeysDistinct | libs/infra/redis/redis.go:450-464 | keys of different kinds, sessions or slaves never coincide, for ids as the master draws them |
| RedisKeys.KeyInjective | libs/infra/redis/redis.go:450-464 | such a key determines its session and kind |
| RedisKeys.KeyReads | libs/infra/redis/redis.go:450-460 | read at its colons a key names `session`, the session, the kind of value and, for a record, the slave |
| RedisKeys.PatternFindsSlaves | libs/infra/redis/redis.go:462-464 | the glob pattern matches exactly the slave keys of its session |
| RedisKeys.StarStandsForAny | libs/infra/redis/redis.go:462-464 | a star in a pattern stands for any text, even none |
| RedisKeys.RangeMatches | libs/infra/redis/redis.go:462-464 | a range in brackets matches one character between its ends, in either order |
| RedisKeys.ClassMatches | libs/infra/redis/redis.go:462-464 | a class in brackets matches one of its members or, after a caret, any other character |
| RedisKeys.StarFindsAll | libs/infra/redis/redis.go:462-464 | the pattern of the id `*` matches the slave keys of every session |
| RedisKeys.ColonIDsCollide | libs/infra/redis/redis.go:458-460 | two session ids of that kind and two slaves of theirs that share a key |
| RedisKeys.SlaveKeysMeet | libs/infra/redis/redis.go:458-460 | two slaves of two sessions can share a key if and only if one slave prefix extends the other |
| RedisKeys.SessionsShareKey | libs/infra/redis/redis.go:450-464 | two sessions have a key of any kind in common if and only if one id, with a colon after it, begins with the other followed by `:slave:` |
| RedisKeys.PlainIsNotNested | libs/infra/redis/redis.go:450-464 | an id without colon, with one after it, never begins with another one followed by `:slave:` |
| RedisStore.Client.CreateSession | libs/infra/redis/redis.go:81-122 | fails exactly for a blank id; otherwise writes meta, zero metrics and the active key, for any id; for ids as the master draws them that is the new session, and every other one is left alone |
| RedisStore.Client.DeleteSession | libs/infra/redis/redis.go:181-212 | deletes the keys of the session and those that its pattern matches, and the active key only if it names it, for any id; for ids as the master draws them nothing of the session is left and every other one is as before |
| RedisStore.Client.PublishSlaveState | libs/infra/redis/redis.go:214-242 | writes one record under its key and publishes it, or fails for a blank session id with no effect |
| RedisStore.Client.GetSlaveState | libs/infra/redis/redis.go:252-269 | what is stored under the key of the slave, decoded, or not found |
| RedisStore.Client.ListSlaveStates | libs/infra/redis/redis.go:271-292 | the decoded values of the keys that the pattern matches, in key order, or a decoding error, for any id; for ids as the master draws them each record of the session once |
| RedisStore.StrLeqMeans | libs/infra/redis/redis.go:271-292 | keys are listed in lexicographic order: one begins the other, or is smaller at their first difference |
| RedisStore.Client.UpdateSessionMetrics | libs/infra/redis/redis.go:294-354 | run alone: stores the counts of the change, the session id where the change left none, and the time, or fails when there are no metrics or they do not decode |
| RedisStore.SetSlave | libs/infra/redis/redis.go:214-242 | writing a slave key changes that record of that session and no other session |
| RedisStore.SetMetrics | libs/infra/redis/redis.go:327-333 | writing a metrics key changes nothing else |
| RedisStore.SetMeta | libs/infra/redis/redis.go:103-111 | writing a meta key changes nothing else |
| RedisStore.SetActive | libs/infra/redis/redis.go:103-111 | writing the active key changes no session |
| RedisStore.DropSession | libs/infra/redis/redis.go:181-212 | deleting a session's keys leaves nothing of it and touches no other session |
| RedisStore.CreatedSession | libs/infra/redis/redis.go:81-111 | the transaction that creates a session makes it active with zero counts and touches no other session |
| RedisStore.DeletionReaches | libs/infra/redis/redis.go:181-202 | deleting a session can delete a key of another one if and only if one id, with a colon after it, begins with the other followed by `:slave:`, for an id without characters that KEYS gives a meaning to |
| RedisStore.DeletionTakes | libs/infra/redis/redis.go:181-202 | deleting the shorter of two such ids deletes all keys of the longer one; deleting the longer one deletes only slave keys of the shorter one, apart from the active key |
| SlaveAccounting.SessionBalances | libs/app/controller/service.go:44-73 | over every run of operations, live plus gone equals the registrations, live the non-terminal and gone the terminal records |
| SlaveAccounting.BalancedMeans | apps/controller-service/cmd/server/main.go:217-219 | live counts the records that are neither terminating nor gone, gone counts the others |
| SlaveAccounting.RunBalances | apps/controller-service/cmd/server/main.go:217-238 | the same from any balanced state |
| SlaveAccounting.EventBalanceExact | apps/controller-service/cmd/server/main.go:118-141 | an event result keeps the balance if and only if it overwrites a record that agrees with the resolved one about being terminal, or is not terminal and overwrites one that is not |
| SlaveAccounting.NamedReplyExact | apps/controller-service/cmd/server/main.go:118-141 | a reply that names the resolved slave keeps the balance if and only if it does not bring a terminal record back |
| SlaveAccounting.RevivalUnbalances | apps/controller-service/cmd/server/main.go:225-238 | a live reply for a pod already reported gone leaves wrong counts |
| SlaveAccounting.UnnamedReplyUnbalances | apps/controller-service/cmd/server/main.go:123-136 | a reply without a slave id, from a slave that has not learnt its own, leaves wrong counts |
| SlaveAccounting.MisnamedReplyUnbalances | apps/controller-service/cmd/server/main.go:100-136 | any reply that names another slave, already reported gone, leaves wrong counts when the resolved one is live |
| SlaveAccounting.ClampNeverFires | apps/controller-service/cmd/server/main.go:230-236 | when a record is counted out there is a live slave to subtract |
| SlaveAccounting.RegisterBalances | libs/app/controller/service.go:44-73 | registering a new live slave keeps the balance |
| SlaveAccounting.ReportBalances | apps/master-service/cmd/server/main.go:507-551 | a frontend report keeps the balance, whether or not the pod was terminal |
| SlaveAccounting.SweepBalances | apps/master-service/cmd/server/main.go:171-199 | the final sweep balances whatever came before |
| SlaveHandlers.RegisterSlave | libs/app/controller/service.go:21-98 | publishes the record and adds one live slave; fails exactly without an active session, with no effect, or without metrics, and then the record stays although it is not counted |
| SlaveHandlers.ApplySessionMetricsForStateChange | apps/controller-service/cmd/server/main.go:217-238 | counts only the change from non-terminal to terminal |
| SlaveHandlers.ResolveTargetSlaveState | apps/controller-service/cmd/server/main.go:169-194 | finds the first record that answers to the target, in key order, or says exactly why there is none |
| SlaveHandlers.ProcessEvent | apps/controller-service/cmd/server/main.go:77-144 | resolves, calls, stores, publishes and counts one event; each error return exactly when its step fails, nothing changed or published before the publishing, and the record kept when only the counting fails |
| SlaveHandlers.HandlePodStateUpdate | apps/master-service/cmd/server/main.go:493-533 | accepts a report only for the session's own known slave, makes it gone and publishes that; each rejection exactly when it applies, with no effect, and when only the counting fails the record stays gone |
| SlaveHandlers.MarkAllSlavesGone | apps/master-service/cmd/server/main.go:171-199 | every record of the session becomes gone with the process as the reason and is published so once, and the counts say so, or there are no metrics and only the records are changed |
| SlaveHandlers.EndSession | apps/master-service/cmd/server/main.go:155-169 | sweeps, then deletes; a blank id is ignored; a session without metrics is swept but not deleted; other sessions are untouched |
| SlaveHandlers.SweptByAll | apps/master-service/cmd/server/main.go:177-190 | the sweep over the listing reaches every record |
| SlaveHandlers.ListingSize | apps/master-service/cmd/server/main.go:191-198 | the listing has as many entries as there are records |
| SlaveHandlers.ListingAnnounced | apps/master-service/cmd/server/main.go:177-190 | what the sweep publishes is each record of the session, gone, once |
| SlaveHandlers.BooksAreFiled | libs/infra/redis/redis.go:214-242 | every record of a session is stored under its own slave id |
| SlaveHandlers.Handle | apps/master-service/cmd/server/main.go:507-551 | one call of a handler on the store keeps counters and records of an active session in agreement |
| SlaveHandlers.Serve | apps/controller-service/cmd/server/main.go:77-144 | over any serial run of registrations, event results, reports and sweeps on the store, counters and records agree and live plus gone grows by one for each registration |
| SlaveHandlers.ServeNewSession | libs/app/controller/service.go:44-73 | from the creation of the session on, live plus gone is the number of registrations |
| PodLifeTheorems.RunCouples | libs/app/slave/service.go:110-133 | for two pods with equal turns and firewall, the first no worse off, any common events and seeds leave the first no further along to gone |
| PodLifeTheorems.RunCouples32 | libs/app/slave/service.go:110-133 | the same of two pods as the service runs them, with int32 counters, each with its own turns and past, up to 89478485 processed events |
| PodLifeTheorems.AffectCouples | libs/app/slave/service.go:207-243 | one event's effect keeps that order |
| PodLifeTheorems.MutateCouples | libs/app/slave/service.go:245-266 | the life step keeps that order although the two pods may draw differently |
| PodLifeTheorems.RunForward | libs/app/slave/service.go:110-133 | status never moves backwards and gone is absorbing |
| PodLifeTheorems.RunKeepsLife | libs/app/slave/service.go:194-266 | after `k` processed events the turns, the end of life, the death reason and the bounds of stress and fear are as promised |
| PodLifeTheorems.LastStress | libs/app/slave/service.go:245-266 | the event that ends a pod's life leaves its stress at 108 at most |
| PodLifeTheorems.RunAgrees | libs/app/slave/service.go:194-261 | the int32 counters equal the unbounded ones for up to 89478485 processed events |
| PodLifeTheorems.EventDoes | libs/app/slave/service.go:100-133 | what each event adds, takes or toggles, drawn by drawn word of the seed, and then which of turns, stress and illness ends the life, why, and whether at once |
| PodLifeTheorems.EventRanges | libs/app/slave/service.go:207-243 | the same as ranges: 10 to 25 stress for a hit, 14 to 25 fear for a scare, less behind a firewall, and so on |
| PodLife.RoundTenthsIsNearest | libs/app/slave/service.go:207-222 | the integer rounding used for the firewall's factors is rounding to the nearest, ties away from zero |
| SlaveService.Service.SetupPod | libs/app/slave/service.go:49-63 | the pod starts live with the configured turns |
| SlaveService.Service.SetRegistration | libs/app/slave/service.go:82-86 | the slave takes the id it was registered under; nothing else of the pod changes |
| SlaveService.Service.ExecuteEvent | libs/app/slave/service.go:100-141 | one event on the configured target, with the effect of its number and the fate that follows, answered with the resulting state under the slave id known by then, or the two error replies with no effect |
| SlaveService.Service.Shutdown | libs/app/slave/service.go:143-151 | the callback runs at most once, with the first request's reason |
| SlaveService.PodState.Tick | libs/app/slave/service.go:194-205 | one more turn lived; turns left, stress and fear each fall by one unless zero |
| SlaveService.PodState.ApplyHit | libs/app/slave/service.go:207-214 | the drawn stress, halved and rounded behind a firewall, and the drawn fear |
| SlaveService.PodState.ApplyScare | libs/app/slave/service.go:216-222 | the drawn fear, seven tenths of it rounded behind a firewall |
| SlaveService.PodState.ApplyInfection | libs/app/slave/service.go:224-228 | the pod is infected and gains the drawn stress and fear, firewall or not |
| SlaveService.PodState.ApplyFirewall | libs/app/slave/service.go:230-238 | the firewall toggles: on lowers stress and fear, not below zero, off adds drawn stress |
| SlaveService.PodState.Recover | libs/app/slave/service.go:240-243 | stress and fear fall, not below zero |
| SlaveService.PodState.MutateLife | libs/app/slave/service.go:245-266 | the life step, draw by draw |
| GoneObserver.DispatchedAreEntries | apps/controller-service/cmd/server/main.go:221-243 | the shutdowns sent for a slave are exactly the entries into gone of its own messages that carry a pod address, however the messages of others are interleaved |
| GoneObserver.RequestsArePicked | apps/controller-service/cmd/server/main.go:221-243 | the requests for a slave are, in order, its own messages at exactly the positions where the status is gone, an address is there, and the message before was not gone |
| GoneObserver.SubscribeStateUpdates | apps/controller-service/cmd/server/main.go:273-312 | the subscription loop dials exactly those, each to the address in its message, and the callback of the process at an address runs once with the reason of the first request sent there |
| GoneObserver.SentAreEntries | apps/controller-service/cmd/server/main.go:240-259 | while an address is one slave's alone, what is sent there are that slave's entries into gone |
| GoneObserver.ObservedStateStore.Remember | apps/controller-service/cmd/server/main.go:159-167 | returns the state remembered before and remembers the new one |
| GoneObserver.KeyNamesSlave | apps/controller-service/cmd/server/main.go:159-167 | the store never confuses two slaves, for session ids without colon |
| JwksCache.ByKidIsLast | apps/master-service/cmd/server/cloudflare_access_auth.go:232-252 | a fetched set maps each id to the last usable key that carries it |
| JwksCache.FetchedIff | apps/master-service/cmd/server/cloudflare_access_auth.go:211-253 | a fetch is accepted if and only if the reply has an RSA key with an id and all such keys parse |
| JwksCache.FoldsToRSA | apps/master-service/cmd/server/cloudflare_access_auth.go:234-236 | a key type counts exactly if it folds to RSA |
| JwksCache.Verifier.FetchSigningKeys | apps/master-service/cmd/server/cloudflare_access_auth.go:211-253 | the loop collects that set, or fails on no reply, on a key that does not parse, or on an empty set |
| JwksCache.Verifier.RefreshSigningKeys | apps/master-service/cmd/server/cloudflare_access_auth.go:193-209 | fetches only when forced, empty or expired, and replaces set and expiry together |
| JwksCache.Verifier.CachedSigningKey | apps/master-service/cmd/server/cloudflare_access_auth.go:178-191 | answers from the cache only up to its expiry |
| JwksCache.Verifier.SigningKey | apps/master-service/cmd/server/cloudflare_access_auth.go:156-176 | look, refresh, look, forced refresh, look; at most two fetches, and the key returned is the one that the cache held unexpired at the look that found it |
| JwksMachine.ReturnedKeyIsRecent | apps/master-service/cmd/server/cloudflare_access_auth.go:156-209 | for any issuer and any interleaving a returned key is from the last successful fetch, stored no more than the time-to-live earlier |
| JwksMachine.AtMostTwoFetches | apps/master-service/cmd/server/cloudflare_access_auth.go:156-176 | no call fetches more than twice |
| JwksMachine.CacheIsTransparent | apps/master-service/cmd/server/cloudflare_access_auth.go:156-209 | with an unchanging issuer a call answers as a fresh fetch and lookup would, if and only if it did not look for a key of the set after the cache had expired |
| JwksMachine.SlowCallMisses | apps/master-service/cmd/server/cloudflare_access_auth.go:156-209 | for every time-to-live, issuer and key a run in which a call rejects a key that the issuer serves throughout |
| SceneState.ReleaseGrabKeeps | apps/frontend-webxr/src/scene.ts:3476-3500 | letting go keeps owner map and hands exact inverses and makes the body dynamic again |
| SceneState.GrabKeeps | apps/frontend-webxr/src/scene.ts:3425-3474 | grabbing a pod that nobody else owns and that is not being crushed keeps the grip in order |
| SceneState.UpdateGrabKeeps | apps/frontend-webxr/src/scene.ts:3350-3474 | every branch of the grab interaction keeps the grip in order, for a hand whose candidate is not being crushed |
| SceneState.OtherCandidateKept | apps/frontend-webxr/src/scene.ts:2871-2884 | one hand's grab does not make the other hand's candidate unfit |
| SceneState.StartCrushKeeps | apps/frontend-webxr/src/scene.ts:3307-3330 | a crush that begins takes the pod from its owner and makes the body kinematic |
| SceneState.LaterTransitive | apps/frontend-webxr/src/scene.ts:2259-2287 | begun crushes advance by the sum of the frame times of two stretches |
| SceneEntries.ShowMeshKeeps | apps/frontend-webxr/src/scene.ts:1195-1211 | a mesh from the cache, or a new one, is then shown under one id and nowhere else |
| SceneEntries.HideMeshKeeps | apps/frontend-webxr/src/scene.ts:1493-1507 | a recycled mesh is in the cache once and shown nowhere |
| SceneEntries.CreatePhysicsKeeps | apps/frontend-webxr/src/scene.ts:1421-1462 | a new entry keeps the collider index the exact inverse of the physics map |
| SceneEntries.RemovePhysicsKeeps | apps/frontend-webxr/src/scene.ts:1529-1543 | the removal of an entry keeps the collider index the exact inverse of the physics map |
| SceneEntries.AddPodKeeps | apps/frontend-webxr/src/scene.ts:594-600 | a new pod keeps the whole invariant |
| SceneEntries.RemovePodKeeps | apps/frontend-webxr/src/scene.ts:1509-1527 | the removal of a pod keeps the whole invariant, whoever holds it |
| SceneEntries.RemovePodOthers | apps/frontend-webxr/src/scene.ts:1509-1527 | the removal of a pod changes no other pod's mesh, entry or owner |
| SceneEntries.LaunchGustKeeps | apps/frontend-webxr/src/scene.ts:2581-2635 | every gust ever built is in exactly one of the active list and the pool after a launch |
| SceneEntries.RemoveGustKeeps | apps/frontend-webxr/src/scene.ts:2734-2754 | every gust ever built is in exactly one of the active list and the pool after a removal |
| SceneEntries.DropOneMore | apps/frontend-webxr/src/scene.ts:2734-2739 | splicing a gust out is dropping it and keeping the order of the rest |
| SceneEntries.AdvanceOneKeeps | apps/frontend-webxr/src/scene.ts:2278-2287 | an advancing crush keeps the invariant, and a completed one is reported once |
| SceneEntries.CrushFires | apps/frontend-webxr/src/scene.ts:2259-2287 | a begun crush never goes back and never passes 1, and its hit has been reported exactly if the frame time since was enough |
| SceneEntries.CrushTakes | apps/frontend-webxr/src/scene.ts:3307-3330 | 0.22 seconds are enough to complete a crush |
| SceneEntries.CrushTime | apps/frontend-webxr/src/scene.ts:2278-2287 | a crush that has only begun is not reported within 0.21 seconds of frame time and is by 0.22 |
| SceneEntries.ReportedOnce | apps/frontend-webxr/src/scene.ts:2358-2366 | no entry's hit and no entry's fall is ever reported twice |
| SceneEntries.FallReported | apps/frontend-webxr/src/scene.ts:2358-2361 | a first fall is reported and keeps the invariant |
| SceneEntries.StillNamesPod | apps/frontend-webxr/src/scene.ts:2330-2362 | an entry that a later state still has is the one that the earlier state had under the same pod |
| SceneUpdate.OneMoreShown | apps/frontend-webxr/src/scene.ts:584-618 | after each round of `update` exactly the pods whose last mention so far is not gone are shown, with that mention's status |
| SceneUpdate.WantedAre | apps/frontend-webxr/src/scene.ts:563-604 | a pod is to be shown with a status exactly if it is not eliminated and its last mention has that status and is not gone |
| SceneHands.TouchedAre | apps/frontend-webxr/src/scene.ts:3583-3597 | a pod counts as touched exactly if one of the colliders met is its own |
| SceneHands.TouchedInOrder | apps/frontend-webxr/src/scene.ts:3583-3597 | touched pods are listed in the order in which their colliders were first met |
| SceneHands.TouchedOnce | apps/frontend-webxr/src/scene.ts:3583-3597 | a touched pod is listed once |
| SceneHands.GrabsTake | apps/frontend-webxr/src/scene.ts:2881-2884 | the grabs of a frame take only pods that the taking hand pinches |
| SceneHands.SampledLast | apps/frontend-webxr/src/scene.ts:2817-2864 | a hand is as its last sample says: idle without all joints, otherwise with that pinch, palm and pose |
| SceneHands.SliderHandIs | apps/frontend-webxr/src/scene.ts:3226-3278 | who may have the slider, who keeps it, and who takes it when it is free |
| SceneHands.TableMoveIs | apps/frontend-webxr/src/scene.ts:1940-1980 | when the right hand moves the table and when the move ends |
| SceneHands.StartCrushOnly | apps/frontend-webxr/src/scene.ts:3307-3330 | a crush that begins changes no other pod's crush |
| SceneHands.ResetKeeps | apps/frontend-webxr/src/scene.ts:734-767 | what `reset` leaves is in order |
| PodScene.PodScene.Play | apps/frontend-webxr/src/scene.ts:260-272 | over any sequence of updates, frames with any number of updates in each of their callbacks, resets, clicks and session ends the invariant holds and begun crushes advance by the frame time |
| PodScene.PodScene.Update | apps/frontend-webxr/src/scene.ts:563-618 | exactly the pods that are not eliminated and whose last mention is not gone are shown, each with that mention's status, and a pod never called gone keeps mesh, entry and owner |
| PodScene.PodScene.Reset | apps/frontend-webxr/src/scene.ts:734-767 | nothing is shown or simulated, no gust is active, no hand holds anything |
| PodScene.PodScene.InitializePhysics | apps/frontend-webxr/src/scene.ts:1145-1193 | every pod already shown gets its entry |
| PodScene.PodScene.CreatePodPhysics | apps/frontend-webxr/src/scene.ts:1421-1462 | one new entry under a handle not in use, unless there is one already |
| PodScene.PodScene.RemovePodPhysics | apps/frontend-webxr/src/scene.ts:1529-1543 | entry and handle go together |
| PodScene.PodScene.RemovePodEntry | apps/frontend-webxr/src/scene.ts:1509-1527 | hand, owner, candidates, entry, handle and mesh are all released |
| PodScene.PodScene.UpdateSimulation | apps/frontend-webxr/src/scene.ts:2259-2367 | a frame calls the hit callback for exactly the pods whose crushes its time completes, once each, and the fall callback exactly for pods below the table, each with its own id, even when each callback runs several updates on the way |
| PodScene.PodScene.AdvanceCrushes | apps/frontend-webxr/src/scene.ts:2268-2287 | every entry advances once, and the ids of the pods whose crushes are now complete are listed, each once |
| PodScene.PodScene.ReportFalls | apps/frontend-webxr/src/scene.ts:2330-2362 | afterwards every entry below the table has been reported, under the id of its pod, including those added by the updates that callbacks run |
| PodScene.PodScene.ReportHits | apps/frontend-webxr/src/scene.ts:2364-2366 | every completed crush is reported, in order and with the id of its pod, whatever updates the callbacks run |
| PodScene.PodScene.UpdateAll | apps/frontend-webxr/src/main.ts:572-597 | the updates that one callback runs: the last one says what is shown, and a pod that none of them calls gone keeps mesh, entry and owner |
| PodScene.PodScene.AdvanceGusts | apps/frontend-webxr/src/scene.ts:2369-2418 | exactly the gusts whose time is up return to the pool, the others keep their order and have less time left |
| PodScene.PodScene.LaunchGust | apps/frontend-webxr/src/scene.ts:2581-2625 | a pooled or new gust becomes active with 0.28 seconds, if physics runs |
| PodScene.PodScene.RemoveGust | apps/frontend-webxr/src/scene.ts:2734-2754 | one active gust moves to the pool |
| PodScene.PodScene.StartPodCrush | apps/frontend-webxr/src/scene.ts:3307-3330 | begins a crush, with a kinematic body, unless the pod is not interactable |
| PodScene.PodScene.ReleaseGrab | apps/frontend-webxr/src/scene.ts:3476-3500 | owner, hand and body are released together |
| PodScene.PodScene.ClearHandState | apps/frontend-webxr/src/scene.ts:3502-3550 | the hand lets go and is idle |
| PodScene.PodScene.UpdateGrabInteraction | apps/frontend-webxr/src/scene.ts:3350-3474 | a free pinching hand takes its candidate unless the other hand owns it; one that pinches on keeps its pod and renews the time, one that does not keeps it for 180 ms and then lets go, as does the slider's hand |
| PodScene.PodScene.CollectPodIntersections | apps/frontend-webxr/src/scene.ts:3583-3597 | the pods touched, each once, in order |
| PodScene.PodScene.FindPinchCandidate | apps/frontend-webxr/src/scene.ts:3599-3633 | a pod that thumb and index finger touch and that is interactable, the middle finger's touch preferred; none only if there is none |
| PodScene.PodScene.ProcessOpenPalmContacts | apps/frontend-webxr/src/scene.ts:3552-3581 | a shown pod newly touched by an open palm starts being crushed, no other crush changes, and the hand's contacts are then those touched |
| PodScene.PodScene.EvictStale | apps/frontend-webxr/src/scene.ts:571-581 | the pods without an active mention go, the others keep mesh, entry and owner |
| PodScene.PodScene.ShowPod | apps/frontend-webxr/src/scene.ts:583-604 | one mention shows its pod with its status or removes it, and changes no other pod |
| PodScene.PodScene.CreatePodMesh | apps/frontend-webxr/src/scene.ts:1195-1211 | takes the last cached mesh, or builds one |
| PodScene.PodScene.RecycleAll | apps/frontend-webxr/src/scene.ts:734-738 | every shown mesh goes back to the cache, once |
| PodScene.PodScene.RemoveAllPhysics | apps/frontend-webxr/src/scene.ts:740-742 | no entry is left, and no handle |
| PodScene.PodScene.EnsureHandPhysics | apps/frontend-webxr/src/scene.ts:3112-3211 | a hand not yet known becomes an idle one, if physics runs |
| PodScene.PodScene.AcquireGust | apps/frontend-webxr/src/scene.ts:2627-2667 | takes the last pooled gust, or builds one |
| PodScene.PodScene.ClearGusts | apps/frontend-webxr/src/scene.ts:2756-2760 | no gust is left active and none is lost |
| PodScene.PodScene.AgeGusts | apps/frontend-webxr/src/scene.ts:2374-2381 | every active gust ages, and those whose time is up are listed once |
| PodScene.PodScene.PodInteractable | apps/frontend-webxr/src/scene.ts:3332-3339 | shown, not gone and not being crushed |
| PodScene.PodScene.ChooseCandidate | apps/frontend-webxr/src/scene.ts:2871-2878 | a pinching hand gets its best candidate, any other hand none, and nothing else of either hand changes |
| PodScene.PodScene.MoveHands | apps/frontend-webxr/src/scene.ts:2871-2884 | candidates, slider, table move and grabs in that order, each exactly; the right hand does not grab while it moves the table |
| PodScene.PodScene.UpdateGrabs | apps/frontend-webxr/src/scene.ts:2881-2884 | the left hand's grab, then the right's on what that left |
| PodScene.PodScene.TryTriggerHandGust | apps/frontend-webxr/src/scene.ts:2504-2540 | a gust is launched exactly if physics runs and a free, unpinched hand in the gust pose sweeps |
| PodScene.PodScene.UpdatePinchLatch | apps/frontend-webxr/src/scene.ts:2898-2911 | a pinch that begins on the move button starts the table move, once per pinch, and then the right hand lets go |
| PodScene.PodScene.ClearPalmContacts | apps/frontend-webxr/src/scene.ts:3939-3948 | drops one hand's contacts apart from those to keep |
| PodScene.PodScene.UpdateTableHeightSliderInteraction | apps/frontend-webxr/src/scene.ts:3226-3278 | the slider stays with the hand that has it while that hand pinches it, otherwise goes to the right before the left hand that does, and to none while the table moves or without the left wrist; its hand has no candidate |
| PodScene.PodScene.UpdateTableMoveInteraction | apps/frontend-webxr/src/scene.ts:1940-1980 | a tracked right hand that moves the table loses its candidate; the move ends exactly when it pinches again after a release |
| PodScene.PodScene.StartTableMoveMode | apps/frontend-webxr/src/scene.ts:1925-1938 | the table move begins, the slider is free and the right hand lets go |
| PodScene.PodScene.UpdateHandPhysicsFromJoints | apps/frontend-webxr/src/scene.ts:2914-3110 | a hand with all joints is taken in, one without is emptied |
| PodScene.PodScene.SampleHands | apps/frontend-webxr/src/scene.ts:2817-2864 | each sample is taken in turn, an untracked hand is idle afterwards and has no palm contacts, and a pinch on a button is seen exactly if a complete sample has each |
| PodScene.PodScene.ActWithHands | apps/frontend-webxr/src/scene.ts:2885-2897 | exactly the gusts of the sweeping hands start, and exactly the shown pods that an open palm newly touches start being crushed; a right hand that moves the table does neither |
| SceneHands.BlowAdds | apps/frontend-webxr/src/scene.ts:2885-2888 | a frame keeps the active gusts and adds one for each hand that sweeps, the right one only if it does not move the table |
| PodScene.PodScene.ProcessPalms | apps/frontend-webxr/src/scene.ts:2892-2897 | the left palm, then the right on what that left: the pods crushed, the grips dropped and the contacts remembered |
| ScenePalms.CrushDrops | apps/frontend-webxr/src/scene.ts:3307-3330 | a crush that begins takes the pod out of the hand that holds it and no other pod out of any hand |
| ScenePalms.PalmTargetsAre | apps/frontend-webxr/src/scene.ts:3552-3581 | the pods that an open, free palm that is not in the gust pose starts to crush are the shown ones whose collider it touches and whom it did not touch before |
| ScenePalms.PalmContactsAre | apps/frontend-webxr/src/scene.ts:3552-3581 | afterwards a hand's contacts are exactly the shown pods that its open, free palm touches; those of the other hand are as before |
| ScenePalms.FrameTargetsAre | apps/frontend-webxr/src/scene.ts:2892-2897 | in a frame both palms crush what each alone would, whatever the other does, and a right palm that moves the table nothing |
| ScenePalms.HandsHold | apps/frontend-webxr/src/scene.ts:2881-2897 | after a frame a free pinching hand holds its candidate and one that pinches on its pod, as their owner, with a kinematic body; one that has not pinched for more than 180 ms, or has the slider, holds nothing |
| PodScene.PodScene.UseHands | apps/frontend-webxr/src/scene.ts:2870-2911 | from the samples on: slider, table move, candidates, grabs, gusts, palms and the pinch latch, each as the one before left it |
| PodScene.PodScene.UpdateWristHud | apps/frontend-webxr/src/scene.ts:2776-2912 | an XR frame as a whole: what each hand takes, keeps and lets go, which gusts start, which pods begin to be crushed, what becomes of slider, table move, contacts and pinch latch, all told from the state before; a pod changes hands only by being pinched by its new owner |
| PodScene.PodScene.RenderFrame | apps/frontend-webxr/src/scene.ts:2116-2145 | one frame; outside XR nothing is owned afterwards |
| PodScene.PodScene.HandleXREnd | apps/frontend-webxr/src/scene.ts:2081-2101 | nothing is owned and every hand is idle |
| PodScene.PodScene.HandleDesktopPointerDown | apps/frontend-webxr/src/scene.ts:991-1029 | a click on an interactable pod runs the selection's updates and then begins the crush of the pod, unless those removed it; any other click changes nothing |

## Left out

- Websocket upgrade, ping and pong, deadlines, JSON and gRPC coding, HTTP handlers: plumbing; only the order of the calls they make is kept.
- Wall-clock length of the grace period: a callback already started, or one armed across the gap in `handleConnectionClosed`, can end a disconnected session early, so no full period is promised.
- Lost replies: a Redis command that took effect but whose reply was lost counts as failed in `MetricsMachine`; the session machine does have a creation that fails after it was applied.
- Concurrent handlers of slave records: the read of the old record and the metrics update are two steps in the code, so the counts are exact only for handlers run one at a time.
- Registration that overlaps the end of its session: slave records written by it are not modelled.
- SlaveHandlers.RegisterSlave: the int32 width of the live and gone counters is not modelled; a count above two thousand million is out of reach.
- Fields of a slave record other than its ids, address, status and death reason, which nothing modelled here depends on.
- SlaveService.PodState.MutateLife: draws are a fixed stream for each seed and their floats are reals; Go's generator itself is not part of this model.
- JWT parsing, RSA checks, URL and base64 handling: library code.
- PodScene.PodScene.UpdateSimulation: body velocities, impulses, rotations and visuals are not modelled, and frame times are exact reals.
- PodScene.PodScene.UpdateWristHud: hand geometry is reduced to what each joint sample amounts to; the disconnect button only matters for the pinch latch; pointing highlights and the debug display are omitted.
- PodScene.PodScene.AdvanceGusts: what a gust does to the pods it meets is only a push.
- PodScene.PodScene.UpdateTableMoveInteraction: the preview pose is omitted, and so are the spatial anchors, which are switched off.
- `dispose`, desktop camera control, and the front end's own store and page code; a store listener that runs `update` inside a callback is modelled as a given reaction.
