# A verified model of openwsman's protocol core

openwsman is a WS-Management server and client library.  This project models four parts of it in
Dafny and proves what they keep: enumeration contexts, subscriptions with their event pool,
endpoint references and filters, and the dispatcher together with the client's request builder.

Concurrent parts are state machines.  Every section the code runs under one lock is one step,
every choice of the environment (which thread runs next, what the clock says, whether a thread can
be created, what a plugin answers) is part of an action, and the theorems quantify over every list
of actions; an action that is not possible in a state leaves it as it is.  Beside each machine
stands the code itself as classes and methods with loops, proved to do exactly the machine's steps.
For eventing this is carried through to whole executions: under any calls in any order, the list,
the flags and the pool are what the machine makes of the same calls (`EventingRuns.Run`).  What
each step does is stated once more in the fields alone, without the functions that define it
(`SubscriptionSteps.dfy`, `EnumSteps.dfy`), so that the machine itself is pinned down from outside.
Sequential parts are functions on values, the in-place code proved against them, and theorems about
the functions.

| file | what it models |
|---|---|
| `Basics.dfy` | options, distinctness, subsequences |
| `EventPool.dfy` | the list of per-subscription event queues, and the map of queues it stands for |
| `Fates.dfy` | labels for what becomes of an event, marks of the heartbeat clock |
| `Subscriptions.dfy`, `SubscriptionSafety.dfy` | the eventing machine and its theorems over all runs |
| `SubscriptionSteps.dfy` | what each step does to a subscription, and that queues are delivered |
| `NotificationThreads.dfy` | manager, heartbeat and sender threads, Subscribe, Unsubscribe, Renew, Pull, the producer, in place |
| `EventingCalls.dfy`, `EventingRuns.dfy` | calls of that code as steps of the machine, and the code under any sequence of calls |
| `EnumContexts.dfy`, `EnumSafety.dfy` | the enumeration machine (stubs and timeout sweeper) and what every run of it keeps |
| `EnumSteps.dfy` | what sweeps, the quota check and whole requests do |
| `EnumDelivery.dfy`, `EnumQuota.dfy` | what the Pulls of a run deliver, and when the quota is kept |
| `EnumTable.dfy`, `PullLoop.dfy` | the table of contexts, the stubs and the client's pull loop, in place |
| `Xml.dfy` | XML as a tree with "the i-th child of this name" |
| `Epr.dfy`, `EprCompare.dfy`, `EprString.dfy` | endpoint references: XML, comparison, printing |
| `Separators.dfy` | taking strings of the form `uri?k=v&k=v` apart and putting them together |
| `EprEdits.dfy`, `EprHeap.dfy` | adding and deleting selectors, deep copies |
| `Filters.dfy`, `FilterHeap.dfy` | filters as XML, deep copies of filters |
| `Dispatch.dfy`, `Replay.dfy` | registration, choice of an endpoint, the window of message ids |
| `ClientSelectors.dfy` | selectors from the client's options to the server's check |

## Findings

Where the code does not do what its shape or comments promise, the model follows the code and says
exactly when the promise holds.

- `epr_cmp` walks the selectors of its first argument with both cursors (src/lib/wsman-epr.c:350).
  It agrees with the comparison that was meant, whatever the second argument, exactly when the first
  has no selectors (`EprCompare.ReliableExactly`; two references it confuses:
  `EprCompare.WrittenConfuses`).
- `epr_to_string` counts no `=` for a NULL nested reference and writes one
  (src/lib/wsman-epr.c:391-397 and 413).  The buffer fits at every depth exactly when there is no
  such reference (`EprString.FitsExactly`; one that does not fit: `EprString.NullNestedOverflows`).
- The string of `epr_to_string` does not escape anything (src/lib/wsman-epr.c:402-427).  Taken apart at
  `?`, `&` and `=` it gives back the URI and all selectors exactly when the URI holds no `?`, no key `&`
  or `=` and no value `&` (`EprString.ReadsBack`).  So a nested reference with two selectors reads as an
  outer one (`EprString.NestedConfused`: two different references with the same string).
- `filter_deserialize` takes every child of the instances element but four for a property
  (src/lib/wsman-filter.c:411).  An association filter comes back whole exactly when it has at least
  three of the four optional names, no NULL in its reference, and type 0 or 1
  (`Filters.AssocRoundTrip`; one that loses a property: `Filters.PropertyLost`).
- `filter_serialize` writes a selector that holds a reference without a Selector element
  (src/lib/wsman-filter.c:341-343).  A selector filter comes back whole exactly when all its
  selectors hold texts and nothing in it is NULL (`Filters.SelectorRoundTrip`; one that comes back
  without its selector: `Filters.SelectorLost`).
- The enumeration quota is checked and used in separate critical sections
  (src/lib/wsman-soap.c:1069 and 1135).  N handlers can reach Q - 1 + N contexts and never more
  (`EnumSafety.QuotaRespected`, `EnumQuota.QuotaBoundReached`); the quota itself is kept exactly when
  it is 0 or there is at most one handler (`EnumQuota.QuotaKeptExactly`).
- Serialising a reference with NULLs gives one with empty strings (src/lib/wsman-epr.c:542 and 560);
  it round-trips exactly when it has no NULL at any depth (`Epr.RoundTrip`; one that does not:
  `Epr.NullComesBackEmpty`).
- `epr_copy` leaves the address of the copy undefined if the original has none
  (src/lib/wsman-epr.c:312-313).  The copy is sure to be equal exactly when there is an address at
  every depth (`EprHeap.CopyExactly`; one whose copy may differ: `EprHeap.AddressNotCopied`).
- `filter_copy` does not copy the role (src/lib/wsman-filter.c:193-244).  The copy is sure to be equal
  exactly when there is no role and every reference, at every depth, has an address
  (`FilterHeap.FilterCopyExactly`; one whose copy has lost its role: `FilterHeap.RoleLost`).
- `ws_create_runtime` writes a header into the block whose size it computes from the interfaces
  (src/lib/wsman-soap.c:577-585).  For an empty list that block has 0 bytes; it holds the header and
  all endpoints exactly when there is at least one interface (`Dispatch.BlockSuffices`,
  `Dispatch.CreateRuntime`).

## Assumptions

- Memory allocation does not fail, except where a negative count makes the requested size enormous
  (`ProperNum` in `Filters.dfy`).
- Times and sizes do not wrap around.  Strings hold no NUL character.
- `generate_uuid` does not repeat itself.
- Finding a subscription and setting its flag or expiry is one step in Unsubscribe and Renew, as is
  finding it and pulling from it in Pull; the code takes two locks there.  Finding a subscription and
  adding to its queue is one step of the producer, which takes no lock in the code.
- A plugin's Pull endpoint delivers between one and the requested number of the remaining items and
  leaves the cursor on the last of them; with no items at all it delivers none.  It may fail at any
  call, and then leaves the cursor alone.
- The client's transport returns one of the response codes 200, 400 and 500.
- Data structures of kazlib are sequences and maps; a hash is scanned in an arbitrary order.
- A `const char *` that is only ever copied is a value.

## Model

| member | source | states |
|---|---|---|
| `EventPool.QueueEffects` | src/lib/wsman-event-pool.c:87-187 | every pool operation changes the queue of its own id only: add appends, remove takes the front, clear empties |
| `EventPool.FoldExactly` | src/lib/wsman-event-pool.c:75-81 | ids have the same fold exactly when strcasecmp finds them equal: as many characters, each the same or the same letter in the other case |
| `EventPool.PullQueueBounded` | src/lib/wsman-event-pool.c:110-133 | a queue fed only by the pull-mode add never holds more than max_pull_event_number + 1 events, in any run of operations on all queues |
| `EventPool.PullBoundReached` | src/lib/wsman-event-pool.c:128-131 | that bound is reached, for every limit |
| `EventPool.ViewUpdated` | src/lib/wsman-event-pool.c:87-108 | writing one entry's queue writes the map at its folded id and keeps ids distinct ignoring case |
| `EventPool.ViewRemoved` | src/lib/wsman-event-pool.c:157-187 | deleting an entry deletes exactly its folded id from the map |
| `EventPool.MemEventPool.constructor` | src/lib/wsman-event-pool.c:61-66 | the pool starts empty, with limit 16 unless one is given |
| `EventPool.MemEventPool.Find` | src/lib/wsman-event-pool.c:75-81 | finds the only entry whose id is equal ignoring case, or shows that the map has none |
| `EventPool.MemEventPool.Count` | src/lib/wsman-event-pool.c:72-85 | the length of the queue of the folded id, 0 without an entry |
| `EventPool.MemEventPool.AddEvent` | src/lib/wsman-event-pool.c:87-108 | refines appending to the queue of the folded id; NULL is ignored; ids stay distinct |
| `EventPool.MemEventPool.AddPullEvent` | src/lib/wsman-event-pool.c:110-133 | the same below the limit; above it the event is refused with -1 but the entry is made |
| `EventPool.MemEventPool.GetAndDeleteEvent` | src/lib/wsman-event-pool.c:135-155 | hands out and removes the oldest event, or answers -1 and changes nothing |
| `EventPool.MemEventPool.ClearEvent` | src/lib/wsman-event-pool.c:157-187 | removes the entry and hands every queued event to the callback, in order |
| `SubscriptionSafety.StepKeeps` | src/lib/wsman-soap.c:2134-2452 | each step of any thread keeps the invariant of every subscription |
| `SubscriptionSafety.AlwaysInv` | src/lib/wsman-soap.c:2134-2452 | the invariant (one sender, conservation, truthful labels, clock) holds after any sequence of steps |
| `SubscriptionSafety.EventsConserved` | src/lib/wsman-soap.c:2383-2444 | events added are the events removed followed by those still pooled; after destruction, by those cleared |
| `SubscriptionSafety.TransmittedInOrder` | src/lib/wsman-soap.c:2276-2316 | what senders transmit, flattened, is an in-order subsequence of the removed events with none twice; what is in flight belongs to the one outstanding thread |
| `SubscriptionSafety.EventsAccounted` | src/lib/wsman-soap.c:2383-2444 | every removed event is transmitted, in flight, suppressed, dropped, lost to a failed thread or pulled, exactly one of these |
| `SubscriptionSafety.ManagerHandsOver` | src/lib/wsman-soap.c:2391-2443 | what the manager removes goes to exactly one new sender if none is pending and the thread is created; while one is pending it is dropped |
| `SubscriptionSafety.HistoryOnlyGrows` | src/lib/wsman-soap.c:2276-2444 | along any run nothing removed comes back, nothing transmitted is withdrawn, and a final label never changes |
| `SubscriptionSafety.PendingMeansOneSender` | src/lib/wsman-soap.c:2178-2182 | PENDING is set exactly when one sender thread is outstanding, never two, and none outlives its subscription |
| `SubscriptionSafety.DestroyedOnlyWhenDead` | src/lib/wsman-soap.c:2362-2382 | a subscription is destroyed only by the manager, with no sender outstanding, and only if unsubscribed, cancelled or expired |
| `SubscriptionSafety.TransmitsOnlyWhenLive` | src/lib/wsman-soap.c:2291-2310 | no step transmits once the unsubscribe flag is set or the current expiry has passed |
| `SubscriptionSafety.UnsubscribedStaysSilent` | src/lib/wsman-soap.c:2012-2014 | from the moment the flag is set nothing more is transmitted, in any continuation |
| `SubscriptionSafety.ExpiredStaysSilent` | src/lib/wsman-soap.c:2291-2310 | from the moment the expiry has passed nothing more is transmitted, in any continuation without a Renew of that subscription |
| `SubscriptionSafety.HeartbeatsSpaced` | src/lib/wsman-soap.c:2162-2188 | with an interval of t seconds the countdown stays a multiple of 1000 in (0, interval], resets come every exactly t counted ticks, and a heartbeat starts only at a reset with no notification sender run since the one before |
| `SubscriptionSteps.SenderActs` | src/lib/wsman-soap.c:2276-2316 | in any reachable state a sender's turn transmits its document exactly if the subscription is neither unsubscribed nor expired, labels the events in flight Transmitted or Suppressed accordingly, cancels exactly for a missing acknowledgement, and changes nothing else |
| `SubscriptionSteps.ManagerActs` | src/lib/wsman-soap.c:2362-2443 | in any reachable state a manager visit destroys exactly a subscription that is over and has no sender; else, with no poll pending, no pull mode and events queued, it takes the oldest event, in Events mode all, for a new sender, or drops or loses them; else it changes nothing |
| `SubscriptionSteps.HeartbeatActs` | src/lib/wsman-soap.c:2156-2188 | in any reachable state a heartbeat visit counts one tick; at the t-th it starts the countdown anew and starts a heartbeat exactly if no notification sender has run since, none is outstanding and the thread can be created |
| `SubscriptionSteps.ProducerActs` | src/lib/wsman-event-pool.c:87-133 | an event is appended, unless a pull-mode queue is above its limit |
| `SubscriptionSteps.PullActs` | src/lib/wsman-soap.c:1384-1428 | a Pull takes as many of the oldest events as asked for and available |
| `SubscriptionSteps.SubscribeActs` | src/lib/wsman-soap.c:1676-1900 | Subscribe makes a subscription with the mode, expiry and interval asked for, unless its id is taken or its expiry has passed |
| `SubscriptionSteps.RequestsAct` | src/lib/wsman-soap.c:2012-2096 | Unsubscribe sets the flag and Renew the expiry, and nothing else |
| `SubscriptionSteps.OthersUntouched` | src/lib/wsman-soap.c:2351-2451 | a step changes one subscription only, and one that has been destroyed only by its sender |
| `SubscriptionSteps.QueueDelivered` | src/lib/wsman-soap.c:2276-2443 | from any reachable state, manager and sender in turn transmit the whole queue of a live subscription in order, one document for each event or one for all in Events mode |
| `Fates.TicksPerReset` | src/lib/wsman-soap.c:2168-2187 | ticks are t times resets plus the ticks since; so at most one heartbeat per t ticks |
| `NotificationThreads.SubscribeInfo.constructor` | src/lib/wsman-soap.c:1723-1737 | a new subscription is the machine's, its countdown equal to its interval |
| `NotificationThreads.SubscribeInfo.EventSender` | src/lib/wsman-soap.c:2276-2316 | a sender thread does the machine's sender step: it transmits iff live, cancels iff an acknowledgement is missing, and clears PENDING |
| `NotificationThreads.SubscribeInfo.Deliver` | src/lib/wsman-soap.c:2434-2445 | starts a sender for the batch and sets PENDING, or drops the batch |
| `NotificationThreads.SubscribeInfo.HeartbeatVisit` | src/lib/wsman-soap.c:2156-2188 | one heartbeat visit does the machine's heartbeat step |
| `NotificationThreads.TakeBatch` | src/lib/wsman-soap.c:2391-2421 | takes the oldest event, in Events mode the whole queue, in order, and leaves the other queues alone |
| `NotificationThreads.ManagerVisit` | src/lib/wsman-soap.c:2355-2450 | one turn of the manager loop does the machine's manager step; it destroys iff the subscription is dead and nothing is pending |
| `NotificationThreads.EventingContext.NotificationManager` | src/lib/wsman-soap.c:2328-2452 | every subscription gets exactly one manager visit, and exactly the destroyed ones leave the list, although the loop deletes under its own cursor |
| `NotificationThreads.EventingContext.HeartbeatGenerator` | src/lib/wsman-soap.c:2134-2194 | every subscription gets exactly one heartbeat visit |
| `NotificationThreads.EventingContext.Subscribe` | src/lib/wsman-soap.c:1676-1900 | appends a new subscription under its new id, unless the request fails or its expiry has passed already |
| `NotificationThreads.EventingContext.Unsubscribe` | src/lib/wsman-soap.c:1986-2015 | sets the flag of the subscription with that id, ignoring case, and of no other; nothing is set if there is no such id or the endpoint fails |
| `NotificationThreads.EventingContext.Renew` | src/lib/wsman-soap.c:2073-2096 | sets the expiry of the subscription with that id, ignoring case, and of no other, if the new one parses; an endpoint that fails then no longer undoes it |
| `NotificationThreads.CreateIndicationEvent` | src/lib/wsman-cimindication-processor.c:197-226 | adds every indication that could be built, in order, with the mode's own add; other queues are kept |
| `NotificationThreads.PullNotifications` | src/lib/wsman-soap.c:1384-1428 | returns and removes the oldest events, as many as asked for and available |
| `EventingCalls.ServedIsRun` | src/lib/wsman-soap.c:1986-2452 | whatever the calls, the machine they drive is at the end of one of its runs, so every theorem about runs holds of it |
| `EventingCalls.EachOnce` | src/lib/wsman-soap.c:2351-2451 | steps for pairwise different subscriptions change each of these as its own step alone would, and no other |
| `EventingRuns.ServeManager` | src/lib/wsman-soap.c:2328-2452 | the manager loop leaves list, flags and pool as one manager step for each listed subscription leaves the machine |
| `EventingRuns.ServeHeartbeat` | src/lib/wsman-soap.c:2134-2194 | the heartbeat loop, as one heartbeat step for each listed subscription |
| `EventingRuns.ServeSender` | src/lib/wsman-soap.c:2276-2316 | a sender thread's turn, as the machine's sender step; nothing without a thread |
| `EventingRuns.ServePull` | src/lib/wsman-soap.c:187-219 | a Pull on the subscription with exactly that id, as the machine's pull step; nothing without one |
| `EventingRuns.ServeIndications` | src/lib/wsman-cimindication-processor.c:312-327 | indications for the subscription with exactly that id, as one adding step each; nothing without one |
| `EventingRuns.Run` | src/lib/wsman-soap.c:1986-2452 | under any calls, indications and turns of the threads, in any order, the list, the flags and the pool are what the machine makes of them, and every listed subscription keeps the machine's invariant |
| `EnumSafety.StepKeeps` | src/lib/wsman-soap.c:367-452 | each step of any stub or of the sweeper keeps the lock discipline, the tracking of contexts and the clocks |
| `EnumSafety.AlwaysInv` | src/lib/wsman-soap.c:367-452 | they hold after any interleaving of any number of handlers and the sweeper |
| `EnumSafety.InWorkMeansHeldOnce` | src/lib/wsman-soap.c:386-452 | a context is IN-WORK exactly when a stub holds it, and at most one does |
| `EnumSafety.ContextsTracked` | src/lib/wsman-soap.c:1139-1203 | a context is destroyed at most once, never while in the table, and never forgotten: it is in the table, in one stub's hands, on the sweeper's list or destroyed |
| `EnumSafety.SweeperSparesHeld` | src/lib/wsman-soap.c:1467-1477 | the sweeper never takes a held context, and takes only those idle for the timeout or past Expires |
| `EnumSafety.FailedEndpointLeavesContext` | src/lib/wsman-soap.c:1184-1190 | a stub that holds a context and then does nothing but read the clock and unlock, as after a failed Pull or Release endpoint, leaves the context in the table exactly as it found it, unlocked and with the new time, whatever all others do meanwhile |
| `EnumSafety.CursorMovedByHolder` | src/lib/wsman-soap.c:1339-1349 | only the stub that holds a context moves its cursor |
| `EnumSafety.NotSweptEarly` | src/lib/wsman-soap.c:438-452 | a context stamped at time u is not swept before u plus the timeout unless its Expires passes, in any continuation |
| `EnumSafety.QuotaRespected` | src/lib/wsman-soap.c:1068-1078 | with N handlers and quota Q the table never holds more than Q - 1 + N contexts, and none with quota 0 |
| `EnumSteps.SweepTakes` | src/lib/wsman-soap.c:1465-1496 | a sweep leaves exactly the contexts in work or within both idle timeout and Expires, and takes all others |
| `EnumSteps.SweepRefused` | src/lib/wsman-soap.c:1465-1496 | no other list of contexts can be taken by it |
| `EnumSteps.SweepDestroysDue` | src/lib/wsman-soap.c:1501-1533 | a sweep that nobody disturbs destroys every context that is due, once each and in order, and no other |
| `EnumSteps.QuotaCheck` | src/lib/wsman-soap.c:1068-1078 | an Enumerate is admitted exactly if there is no quota or the table is below it |
| `EnumSteps.LockRefused` | src/lib/wsman-soap.c:386-436 | a context that is not in the table, not verified or in work is not handed out, and nothing changes |
| `EnumSteps.EnumerateRequest` | src/lib/wsman-soap.c:1068-1137 | an undisturbed Enumerate inserts its context with the current time |
| `EnumSteps.PullRequest` | src/lib/wsman-soap.c:1339-1434 | an undisturbed Pull delivers the next items, moves the cursor behind them and leaves the context unlocked with the current time |
| `EnumSteps.LastPullRequest` | src/lib/wsman-soap.c:1366-1374 | one that delivers all that is left removes and destroys the context |
| `EnumSteps.ReleaseRequest` | src/lib/wsman-soap.c:1153-1203 | an undisturbed Release removes and destroys the context |
| `EnumQuota.QuotaBoundReached` | src/lib/wsman-soap.c:1068-1137 | for every set of N handlers and every Q some interleaving reaches Q - 1 + N |
| `EnumQuota.QuotaKeptExactly` | src/lib/wsman-soap.c:1068-1137 | every run keeps to the quota Q exactly when Q is 0 or there is at most one handler |
| `EnumDelivery.AlwaysDelivering` | src/lib/wsman-soap.c:1339-1382 | after any interleaving every cursor is behind what has been delivered, and what has been delivered of each context is its first items, each once and in order |
| `EnumDelivery.DeliveredInOrder` | src/lib/wsman-soap.c:1339-1382 | what has been delivered from a context, over all interleavings of Enumerate, Pull, Release and sweeps, is a prefix of its results |
| `EnumDelivery.EndMeansAll` | src/lib/wsman-soap.c:1366-1374 | a Pull takes its context out of the table only when all results have been delivered |
| `EnumTable.Context.GetTotal` | src/lib/wsman-soap.c:989-997 | the number of contexts in the table |
| `EnumTable.Context.InsertEnumInfo` | src/lib/wsman-soap.c:367-382 | the machine's insertion, stamped with the current time |
| `EnumTable.Context.GetLockedEnumInfo` | src/lib/wsman-soap.c:386-436 | hands out a context and locks it exactly if it is in the table, verified and not in work; otherwise a fault and no change |
| `EnumTable.Context.UnlockEnumInfo` | src/lib/wsman-soap.c:438-452 | the machine's unlock: flag cleared and time stamped, if it was locked |
| `EnumTable.Context.RemoveLockedEnumInfo` | src/lib/wsman-soap.c:146-159 | removes the context from the table exactly if it is locked |
| `EnumTable.Context.IsExpired` | src/lib/wsman-soap.c:1469-1477 | true exactly for a context that is not in work and whose idle timeout or Expires has passed |
| `EnumTable.Context.ScanExpired` | src/lib/wsman-soap.c:1465-1496 | the scan moves exactly the stale contexts to the list, in scan order |
| `EnumTable.Context.GetExpiredEnumInfos` | src/lib/wsman-soap.c:1444-1499 | a sweep splits the table in two: what stays is in work or within both its idle timeout and its Expires, what is listed, once each, is neither; nothing happens with timeout 0 |
| `EnumTable.Context.TimeoutsManager` | src/lib/wsman-soap.c:1501-1533 | every context taken by the sweep, and no other, is released if it has a release procedure and then destroyed, once each and in order |
| `EnumTable.DisposalsExactly` | src/lib/wsman-soap.c:1512-1531 | the expired contexts are destroyed in order, each right behind its release exactly if it has a release procedure |
| `PullLoop.PullEndpoint` | src/lib/wsman-soap.c:1339-1349 | the contract of a plugin's Pull endpoint: a batch of any admissible size, the cursor on its last item, or a failure |
| `PullLoop.EnumerateStub` | src/lib/wsman-soap.c:1068-1137 | a fault exactly if over quota or the endpoint fails, and then nothing is inserted; otherwise the context is inserted, its cursor behind what was delivered, unless the Enumerate was optimized and everything has been delivered |
| `PullLoop.PullDirectStub` | src/lib/wsman-soap.c:1301-1434 | a fault exactly if the context cannot be locked or the endpoint fails, and then the context is still in the table, unlocked, its cursor unchanged; otherwise the next batch, the context removed at the end and else left unlocked behind the batch |
| `PullLoop.ReleaseStub` | src/lib/wsman-soap.c:1153-1203 | the context is removed exactly if it could be locked and the endpoint does not fail; with a failed endpoint it stays, unlocked |
| `PullLoop.EnumerateAndPull` | src/lib/wsman-client.c:1729-1772 | the client loop ends after at most two more requests than there are items; if no request is refused or fails, the callback gets every item once and in order, for every length, batch choice and kind of Enumerate, and the server keeps nothing; the first request that is refused or fails ends it with a prefix delivered |
| `Xml.GetChild` | src/lib/wsman-xml.c:762-785 | the i-th child with the given name, if there is one |
| `Epr.RoundTrip` | src/lib/wsman-epr.c:456-601 | reading undoes writing, selector order included, at any nesting depth, embedded or not, below any parent without such children: NULLs come back as empty, so it is exact if and only if there is no NULL at any depth |
| `Epr.NullComesBackEmpty` | src/lib/wsman-epr.c:475-542 | a reference without an address that comes back with an empty one |
| `Epr.FilledSame` | src/lib/wsman-epr.c:539-563 | reading NULLs as empty changes nothing exactly when there is no NULL at any depth |
| `Epr.EmbeddedRead` | src/lib/wsman-epr.c:511-601 | the embedded form is read back from behind any children that are not its own |
| `Epr.SelectorsRead` | src/lib/wsman-epr.c:566-586 | the n-th selector written is the n-th read, nested references included |
| `Epr.ParamsOnTheWire` | src/lib/wsman-epr.c:488-507 | the URI is in ResourceURI, and the SelectorSet holds a Selector for each selector, in order, with its key as Name and its text or nested reference as content |
| `Epr.EmbeddedOnTheWire` | src/lib/wsman-epr.c:476-481 | embedded, the address is in Address and the parameters in ReferenceParameters |
| `Epr.OpenOnTheWire` | src/lib/wsman-epr.c:478-483 | otherwise the address is in To and the parameters follow |
| `Epr.EprSerialize` | src/lib/wsman-epr.c:456-509 | the loop writes the tree that `RoundTrip` is about |
| `Epr.EprDeserialize` | src/lib/wsman-epr.c:511-601 | the loops read what `RoundTrip` is about, NULL for a missing node, address, parameters or URI |
| `EprCompare.SecondIgnored` | src/lib/wsman-epr.c:345-372 | as written, the second reference enters the result only through its URI and its number of selectors |
| `EprCompare.AsWritten` | src/lib/wsman-epr.c:335-373 | as written, on recursively distinct keys, 0 exactly when URI and number agree |
| `EprCompare.AsIntended` | src/lib/wsman-epr.c:335-373 | walking the second reference, on recursively distinct keys, 0 exactly when the URIs agree and the selectors are equal up to order at every depth |
| `EprCompare.ReliableExactly` | src/lib/wsman-epr.c:335-373 | the code agrees with the intention for every second reference exactly when the first has no selectors |
| `EprCompare.MatchesCount` | src/lib/wsman-epr.c:347-367 | there are as many matches as selectors exactly when each selector has a match |
| `EprCompare.WrittenConfuses` | src/lib/wsman-epr.c:350-350 | two references with different selector values that the code calls equal |
| `EprCompare.RepeatedKeysConfuse` | src/lib/wsman-epr.c:363-372 | with repeated keys even the intended comparison calls different references equal |
| `EprCompare.EprCmp` | src/lib/wsman-epr.c:335-373 | the double loop computes the comparison the theorems are about |
| `EprString.FitsExactly` | src/lib/wsman-epr.c:384-400 | the second pass writes what the first counted, at every depth, exactly when no nested reference is NULL at any depth |
| `EprString.WrittenExcess` | src/lib/wsman-epr.c:387-426 | it writes one character too many for each NULL nested reference |
| `EprString.NullNestedOverflows` | src/lib/wsman-epr.c:391-397 | a reference given a selector with neither text nor reference is rendered in one character more than counted |
| `EprString.RenderSpelled` | src/lib/wsman-epr.c:402-427 | the string is the URI, then '?', then key=value for each selector with '&' between them, a nested reference's own string as value |
| `EprString.ReadsBack` | src/lib/wsman-epr.c:402-427 | taken apart at the first '?', each '&' and each first '=', the string gives back the URI and all keys and values in order exactly when the URI holds no '?', no key '&' or '=' and no value '&' |
| `EprString.NestedConfused` | src/lib/wsman-epr.c:418-424 | two different references with the same string: the second selector of a nested one and one of the outer |
| `Separators.PiecesOfJoin` | src/lib/wsman-epr.c:404-411 | cutting at a separator undoes joining with it exactly when no piece holds it |
| `EprString.Measure` | src/lib/wsman-epr.c:383-400 | the first pass computes the counted length, also when nested references are NULL |
| `EprString.Fill` | src/lib/wsman-epr.c:402-427 | the second pass fills the buffer to its last byte with the recursive uri?k=v&k=v rendering and a terminator |
| `EprString.EprToString` | src/lib/wsman-epr.c:375-430 | the result is the rendering, terminated, in a buffer of exactly that size; taken apart it gives back the URI and the selectors exactly under the condition of `ReadsBack` |
| `EprEdits.KeysStayDistinct` | src/lib/wsman-epr.c:213-279 | any run of adds and deletes keeps keys distinct |
| `EprEdits.OrderKept` | src/lib/wsman-epr.c:213-279 | after any run on distinct keys the list is the selectors never deleted, followed, in the order of the calls, by those an add brought in when its name was not there and that no later call deletes |
| `EprEdits.SurvivorMember` | src/lib/wsman-epr.c:252-279 | the selectors never deleted are exactly those no delete names |
| `EprEdits.SurvivorsInOrder` | src/lib/wsman-epr.c:252-279 | and they keep their old order |
| `EprEdits.PresentExactly` | src/lib/wsman-epr.c:213-279 | after any run a name is there exactly if the last call about it adds it, or there is none and it was there before |
| `EprEdits.DeletedIsGone` | src/lib/wsman-epr.c:252-279 | on distinct keys a deleted name is gone |
| `EprEdits.DeleteUndoesAdd` | src/lib/wsman-epr.c:213-279 | deleting undoes adding a new name |
| `EprHeap.EprCopy` | src/lib/wsman-epr.c:299-333 | a copy whose whole footprint, at every depth, is newly allocated, of equal value but for addresses that are NULL in the original |
| `EprHeap.CopySame` | src/lib/wsman-epr.c:312-313 | with an address at every depth the copy has exactly the same value |
| `EprHeap.CopyExactly` | src/lib/wsman-epr.c:299-333 | a copy is sure to be equal exactly when there is an address at every depth |
| `EprHeap.AddressNotCopied` | src/lib/wsman-epr.c:312-313 | a reference whose copy may have any address |
| `EprHeap.CopySlot` | src/lib/wsman-key-value.c:75-87 | a copied selector owns only new memory and has the same value, NULL addresses aside |
| `EprHeap.CreateSlot` | src/lib/wsman-key-value.c:51-73 | a created selector owns a copy of the reference it is given |
| `EprHeap.EprAddSelector` | src/lib/wsman-epr.c:213-236 | appends a selector, or answers -1 and changes nothing if the name is there; also when adding a reference to itself |
| `EprHeap.ShiftDown` | src/lib/wsman-epr.c:268-270 | the shift in place closes the gap and keeps the order |
| `EprHeap.EprDeleteSelector` | src/lib/wsman-epr.c:252-279 | removes the selector of that name and gives up what it owned, or answers -1 and changes nothing |
| `EprHeap.CopyThenEdit` | src/lib/wsman-epr.c:213-333 | after a copy, any interleaving of adds and deletes on both, also adding the one, or a reference nested in it, to the other or to itself, leaves each as its own edits alone would have, with disjoint footprints |
| `Filters.QueryRoundTrip` | src/lib/wsman-filter.c:285-468 | below any parent without a filter, a query filter comes back exactly when it names a dialect that is not a structured one; without a dialect it comes back as XPath, with a structured one not at all |
| `Filters.SelectorComesBack` | src/lib/wsman-filter.c:285-468 | of a selector filter the texts come back in order; every reference is lost and leaves two selector slots that are counted and never written |
| `Filters.SelectorRoundTrip` | src/lib/wsman-filter.c:285-468 | a selector filter comes back unchanged exactly when all its selectors hold texts and nothing in it is NULL |
| `Filters.SelectorLost` | src/lib/wsman-filter.c:341-343 | a filter with one selector, which holds a reference, comes back with none and two unwritten slots |
| `Filters.AssocComesBack` | src/lib/wsman-filter.c:384-423 | with o optional names and k properties the first min(k, o + k - 3) properties come back; nothing does if o + k < 3 |
| `Filters.AssocRoundTrip` | src/lib/wsman-filter.c:292-423 | an association filter comes back unchanged exactly when it has at least three optional names, no NULL in its reference and type 0 or 1 |
| `Filters.InstancesByType` | src/lib/wsman-filter.c:296-299 | type 0 is written as AssociatedInstances, any other as AssociationInstances |
| `Filters.TypeByInstances` | src/lib/wsman-filter.c:384-395 | AssociatedInstances are read as type 0, AssociationInstances as type 1 |
| `Filters.PropertyLost` | src/lib/wsman-filter.c:411-423 | a filter with two names and two properties that comes back with one property |
| `Filters.FilterSerialize` | src/lib/wsman-filter.c:285-354 | writes the element the round trips are about; -1 and nothing written for an empty filter |
| `Filters.FilterDeserialize` | src/lib/wsman-filter.c:356-468 | reads what the round trips are about; NULL without a Filter element |
| `FilterHeap.FilterCopyExactly` | src/lib/wsman-filter.c:193-244 | a copy of a filter is sure to be equal exactly when it has no role and its references, at every depth, have an address |
| `FilterHeap.RoleLost` | src/lib/wsman-filter.c:225-230 | an association filter whose copy has lost its role and nothing else |
| `FilterHeap.FilterCopy` | src/lib/wsman-filter.c:193-244 | a copy whose whole footprint is newly allocated, of equal value but for the role and for addresses that are NULL in the original |
| `Dispatch.BlockSuffices` | src/lib/wsman-soap.c:69-86 | the block holds the header and every endpoint exactly when there is at least one interface |
| `Dispatch.CalculateMapCount` | src/lib/wsman-soap.c:69-86 | the size computed from the number of interfaces and of all their endpoints |
| `Dispatch.DispInfo.RegisterEndpoint` | src/lib/wsman-soap.c:637-757 | appends an endpoint of a known type to the map; an unknown one is refused |
| `Dispatch.DispInfo.RegisterInterface` | src/lib/wsman-soap.c:612-628 | appends all endpoints in order, or fails exactly if one is of an unknown type |
| `Dispatch.CreateRuntime` | src/lib/wsman-soap.c:562-600 | the map never outgrows its block and ends up holding every endpoint in order; registration fails exactly if some endpoint is of an unknown type; the header lies in the block exactly if there is an interface |
| `Dispatch.BelongsOnce` | src/lib/wsman-dispatcher.c:994-1056 | a request belongs to at most one endpoint |
| `Dispatch.BelongsMeant` | src/lib/wsman-dispatcher.c:994-1056 | the choice is the one meant: the first interface that has the URI, or no URI and a namespace occurring in it, and there the endpoint for the action without the namespace and '/' if it begins with these |
| `Dispatch.CustomAction` | src/lib/wsman-dispatcher.c:1038-1043 | through namespace ns, the action ns/a goes to the endpoint chosen for a, an action outside ns to the one for its full name |
| `Dispatch.OwnUriAction` | src/lib/wsman-dispatcher.c:1013-1017 | an interface with its own URI is asked by the full name of the action |
| `Dispatch.StubsByType` | src/lib/wsman-soap.c:637-757 | each dispatch type goes to its own stub, whatever the bits above the type |
| `Dispatch.MatchNs` | src/lib/wsman-dispatcher.c:838-861 | the first supported namespace that occurs in the URI |
| `Dispatch.FindInterface` | src/lib/wsman-dispatcher.c:994-1024 | the first interface that serves the request |
| `Dispatch.FindEndPoint` | src/lib/wsman-dispatcher.c:1044-1056 | the first endpoint for the action, else the last one without an action, else none |
| `Dispatch.WsmanDispatcher` | src/lib/wsman-dispatcher.c:989-1082 | a dispatch comes back exactly for requests for which an endpoint is meant, in the sense of `BelongsMeant`, and its service data is that endpoint |
| `Replay.ListIsWindow` | src/lib/wsman-dispatcher.c:484-512 | after any run of requests the list is the last 200 recorded ids, at most 200 and pairwise distinct |
| `Replay.RefusedWithinWindow` | src/lib/wsman-dispatcher.c:484-512 | an id is refused exactly while it is among the last 200 recorded |
| `Replay.RefusedExactly` | src/lib/wsman-dispatcher.c:456-671 | after any requests, one is refused exactly if a filter or a later check rejects it, if it has no id and is no Identify, or if its id is empty or among the last 200 |
| `Replay.RecordedIsRefused` | src/lib/wsman-dispatcher.c:645-669 | a recorded id is refused until 200 further ids have been recorded, also if a later check rejected the request that recorded it |
| `Replay.ForgottenAfterWindow` | src/lib/wsman-dispatcher.c:499-504 | after 200 further ids it is accepted again, unless it is one of them |
| `Replay.Soap.IsDuplicateMessageId` | src/lib/wsman-dispatcher.c:456-524 | answers 1 exactly for a missing (but for Identify), empty or listed id, and records any other in a list trimmed to 200 |
| `Replay.Soap.ProcessFilters` | src/lib/wsman-dispatcher.c:621-671 | refuses exactly what a filter, the id or a later check refuses; the id is recorded before the later checks |
| `ClientSelectors.AlwaysProper` | src/lib/wsman-client.c:407-448 | after any run of client calls the option list has a key everywhere and no key twice |
| `ClientSelectors.BuiltNeverRejected` | src/lib/wsman-client.c:207-222 | whatever calls were made, with or without a CIM namespace, the server's check never rejects the envelope |
| `ClientSelectors.SelectorsArrive` | src/lib/wsman-client.c:207-222 | after any calls, what is read from the envelope's selector set is what the options hold, in order, followed by the CIM namespace if the options do not name it |
| `ClientSelectors.AddCallActs` | src/lib/wsman-client.c:523-537 | adding a selector, with a text or a reference, appends it unless the key is NULL or there |
| `ClientSelectors.QueryCallActs` | src/lib/wsman-client.c:539-618 | a parsed query string replaces the list by the first pair of each key; one that cannot be parsed leaves the list, or empties it if it came with a URI |
| `ClientSelectors.PairsPut` | src/lib/wsman-client.c:539-563 | of the pairs of a query string the first with each key becomes a selector, with its value |
| `ClientSelectors.WrittenFound` | src/lib/wsman-dispatcher.c:158-172 | the server rejects a header with a selector set exactly if two of its selectors have the same name |
| `ClientSelectors.ClientOptions.AddKeyValue` | src/lib/wsman-client.c:407-448 | appends unless the key is NULL or there already |
| `ClientSelectors.ClientOptions.AddUriToList` | src/lib/wsman-client.c:539-563 | a parsed query replaces the list; an unparsed one leaves it |
| `ClientSelectors.ClientOptions.Perform` | src/lib/wsman-client.c:523-618 | each public call has the effect that `AlwaysProper` is about |
| `ClientSelectors.AddToSet` | src/lib/wsman-soap-envelope.c:1334-1371 | in any header, the selector goes to the end of the first selector set, or to a new one if there is none |
| `ClientSelectors.PutBehind` | src/lib/wsman-soap-envelope.c:1334-1371 | selectors put one after the other into a header without any end up together and in order |
| `ClientSelectors.BuildSelectors` | src/lib/wsman-client.c:207-222 | writes the options' selectors in order and the CIM namespace if no selector has its name; nothing for reference instances |
| `ClientSelectors.CheckForDuplicateSelectors` | src/lib/wsman-dispatcher.c:152-198 | answers 1 exactly if two selectors that have a name have the same |

## Left out

- Epr.EprDeserialize: a selector without a Name attribute gets a NULL key, where the code leaves the key uninitialised.
- Epr.EprSerialize: returns the written tree as a value; that the code appends to the caller's document in place is not captured.
- Filters.FilterSerialize: returns the written tree as a value, as above.
- ClientSelectors.SelectorsArrive: texts that are themselves read as an EndpointReference are written as such, and are not covered.
- PullLoop.EnumerateAndPull: one client without other requests in between; what is delivered under interleavings is `EnumDelivery.DeliveredInOrder`.
- `wsenum_pull_stub`, which returns no continuation context; its use of the table is that of the direct stub.
- FilterHeap.FilterCopy: filters whose selector slots have all been written; `filter_copy` would also read slots that have not been.
- EventingRuns.Run: a turn of the manager or heartbeat loop is one call; that senders and stubs run between its visits is covered by the machine's theorems, which are about single visits.
- `_filter_add_selector`, which repeats `epr_add_selector` on a filter's own list.
- NULL arguments for which a function returns at once (`epr_add_selector` on NULL and the like).
- The resource URI of event-related requests, which the dispatcher looks up among the subscriptions: the dispatcher starts from the URI.
- Parsing of XML, query strings, durations and dates; namespace prefixes, escaping and encodings.
- HTTP transport, authentication, plugin loading, configuration and logging.
- Saving and reloading subscriptions.
- Failures of memory allocation and of thread attributes; texts of faults.
