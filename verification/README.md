# SPIRE caches, sync and credentials, verified

A Dafny model of the parts of SPIRE that keep a copy of the truth somewhere else: the server's event-driven cache of authorized
entries, the agent's incremental entry sync and its shared connection, and a handful of smaller components with an invariant of
their own. Each component is a module that follows its Go file: state that Go updates in place is a class whose methods are proved
against functions on values, comparison and parsing code is functions, and what may interleave is a transition system.

| files | component |
|---|---|
| `Types`, `Collections`, `Lex`, `OrderedTree` | shared values, map lookups, string order, the B-tree as an ordered sequence |
| `Records`, `Indexes`, `Authorization`, `Crawl`, `Cache` | `authorizedentries.Cache`: its indexes, its two crawls, and reachability as the reference |
| `EventFeed`, `FetcherProtocol`, `FetcherTiming`, `FetcherTicks`, `FetcherLosses` | the event-driven fetchers: following the log, every run, the clock, the ticker, exactly when an event can be lost |
| `Listings`, `Fetchers`, `Serving` | listing and loading page by page, page updates and reloads, what agents are served |
| `EntrySync`, `SyncBooks`, `SyncServer`, `SyncRefinement`, `SyncStats`, `EndToEnd` | the agent's sync, the server's side of it, the full fetch it refines, what its counts mean, and the way from datastore to agent |
| `NodeConn` | the reference-counted connection and every interleaving of its callers |
| `PerKeyLimiter`, `Observer` | the two-generation limiter, the linked-list observer |
| `Credentials` | certificate templates and the validator |
| `ContainerInfo`, `ProcParse` | cgroup paths, `/proc` stat and mountinfo lines |
| `EntryOrder`, `Rotation` | entry order and deduplication, jittered rotation |

## What is assumed of the environment

- The datastore: an entry change and its event commit together; listings of events ascend; a transaction that would commit an ID
  below one committed a transaction timeout ago fails (`FetcherTiming.TimedEnabled`). An answer to a poll or to a search below the
  first event is current; a scan may lag. The page listing is that of `listRegistrationEntriesOnce`: rows by row ID behind the token,
  and an empty token only with an empty page; rows may change between pages.
- Polls may fail or be cancelled, and come at any time. Where a result needs more, `FetcherTiming.Pace` says what: how far apart the
  polls of an ID come and how many of them go unanswered. `FetcherTicks` says what Go's ticker gives.
- One task at a time works on the fetcher, as `RunUpdateCacheTask` does.
- Clocks, random draws, dial results, composers' replies, server answers and the outcome of every RPC are parameters, quantified over.

## Where the code does not keep what is expected of it

Each has a lemma with the failing family and the exact condition.

- The tracker counts a poll whether it is answered or not, and has none to spare: with the configured number of polls, one failed
  or cancelled poll, or an update that overruns its tick, lets some run lose an ID above the first event
  (`UncoveredPollsLose`, `TrackingSufficesExactly`, `ConfiguredTrackingExactly`, `UnansweredPollsLose`).
- Polls closer together than a second are counted as if a second apart. When so many of them do not reach the timeout, as with every
  timeout of whole seconds, some run loses an ID even though all are answered (`SubSecondPollsLose`).
- An event below the first one seen can be missed for good when the last search of that range comes before the transaction timeout has
  passed, or when there is none (`EarlySearchLoses`, `UnsearchedLoses`, `SearchSufficesExactly`); with updates every period, unless the
  period divides the timeout (`PeriodicSearchSufficesExactly`). A full reload repairs all of these (`UndisturbedReloadRepairs`).
- A cached entry that moves to another trust domain is not refreshed (`RefreshMatchesLoad`).
- Incremental sync and full fetch disagree on a cached entry that turned malformed or changed without a staleness sign, and on
  negative revisions (`SyncRefinesFetch`).
- Idle limiters are not reclaimed after two intervals; only collections reclaim them (`IdleKeyIsKept`, `SameLimiterExactly`).
- A 32-bit reference count is safe exactly below 2^32 callers (`SafeExactlyBelowWrap`).
- Whether a set of cgroup paths extracts can depend on their order (`NothingConflictsAfter`, `EveryOrderMergesExactly`); the answer cannot.
- `parseTaskStat` panics on some lines (`PanicsExactly`), and rotation panics for lifetimes below 20 ns (`ShortLifetimePanics`).

## Model

| member | source | states |
|---|---|---|
| `Records.AliasOrders` | pkg/server/authorizedentries/aliases.go:21-49 | both alias record orders are strict and total: transitive, and two records neither of which is below the other have the same key |
| `Records.AgentOrder` | pkg/server/authorizedentries/agent.go:17-26 | the expiry order is strict and total, with ties broken by ID |
| `Records.EntryRange` | pkg/server/authorizedentries/cache.go:277-306 | the records of an entry are one contiguous range that begins at the pivot with empty selector |
| `Records.SelectorRange` | pkg/server/authorizedentries/cache.go:227-251 | the records of a selector are one contiguous range that begins at its pivot |
| `Authorization.ReachableStep` | pkg/server/authorizedentries/cache.go:190-202 | a child of a reachable path is reachable: reachability is by parent-to-SPIFFE-path edges over finite walks |
| `Authorization.ClosureIsReachability` | pkg/server/authorizedentries/cache.go:190-202 | a set of reachable paths that holds the roots and is closed under edges is exactly what is reachable, cycles or not |
| `Authorization.RootsExactly` | pkg/server/authorizedentries/cache.go:91-116 | on the records themselves: a path is a root if and only if it is the agent's own, or the agent has a record and a node alias for that path has selectors, all of them among the record's |
| `Authorization.AuthorizedByChain` | pkg/server/authorizedentries/cache.go:190-202 | an entry is authorized if and only if it ends a chain of workload entries, the first parented to a root and each other to the SPIFFE path of the one before |
| `Indexes.SelectorSetFromProto` | pkg/server/authorizedentries/selectorset.go:9-15 | the loop builds exactly the set of the listed selectors |
| `Indexes.IsSubset` | pkg/server/authorizedentries/selectorset.go:18-28 | true if and only if every selector is in the whole; the size shortcut never changes the answer |
| `Indexes.AddKeepsParentIndex` | pkg/server/authorizedentries/cache.go:253-275 | adding an entry to its parent's bucket keeps the parent index the inverse of the ID index, without empty buckets |
| `Indexes.DropKeepsParentIndex` | pkg/server/authorizedentries/cache.go:277-306 | so does removing one; a bucket that empties goes |
| `Indexes.AddAlias` | pkg/server/authorizedentries/cache.go:253-275 | after a node alias is added, both alias trees hold one record per selector of every alias and nothing else |
| `Indexes.DropAlias` | pkg/server/authorizedentries/cache.go:277-306 | after it is removed, the records of all other aliases and no others are left in both trees |
| `Indexes.ReplaceAgent` | pkg/server/authorizedentries/cache.go:142-160 | an agent is replaced or added in both agent indexes at once, which keep holding the same records |
| `Indexes.MinAgentLeaves` | pkg/server/authorizedentries/cache.go:173-188 | dropping an expired least record removes one agent and no unexpired one |
| `Indexes.PruneTree` | pkg/server/authorizedentries/cache.go:173-188 | taking off the least record while it has expired leaves exactly the unexpired agents, and counts the others |
| `Indexes.ListsEachOnce` | pkg/server/authorizedentries/cache.go:91-116 | a listing has as many records as there are IDs, and exactly those IDs |
| `Crawl.AppendDescendents` | pkg/server/authorizedentries/cache.go:190-202 | ends on cyclic graphs; appends each child of every newly seen path once, and nothing else; all it has seen is reachable and explored |
| `Crawl.AddDescendants` | pkg/server/authorizedentries/cache.go:204-225 | finds only requested authorized entries; unless it has found all requested, it has explored every path it has seen |
| `Crawl.FullIsAll` | pkg/server/authorizedentries/cache.go:204-225 | when the two sizes match, every requested entry has been found and is authorized, so stopping early loses nothing |
| `Crawl.GetAgentAliases` | pkg/server/authorizedentries/cache.go:227-251 | an alias is returned if and only if its selectors are non-empty and a subset of the agent's, and then once |
| `Crawl.AliasesAreStarts` | pkg/server/authorizedentries/cache.go:91-116 | the agent's path and the alias paths are exactly the roots of the reachability definition |
| `Crawl.CollectAll` | pkg/server/authorizedentries/cache.go:91-116 | crawling from all starts lists each authorized entry exactly once |
| `Crawl.LookedIsExact` | pkg/server/authorizedentries/cache.go:63-89 | with or without the early exit, what was found is exactly the requested authorized entries |
| `Crawl.LookupAll` | pkg/server/authorizedentries/cache.go:63-89 | looking from all starts gives the requested authorized entries and no others |
| `AuthorizedEntries.Cache.constructor` | pkg/server/authorizedentries/cache.go:50-61 | an empty cache has coherent indexes |
| `AuthorizedEntries.Cache.UpdateEntry` | pkg/server/authorizedentries/cache.go:118-133 | sets the entry in the plain map, or nothing when a trust domain differs, and keeps the six indexes coherent with that map |
| `AuthorizedEntries.Cache.InsertEntry` | pkg/server/authorizedentries/cache.go:253-275 | an entry that was absent comes in, as alias or as workload, never both |
| `AuthorizedEntries.Cache.RemoveEntry` | pkg/server/authorizedentries/cache.go:135-140 | removes the ID from the plain map whichever kind it was, and nothing else |
| `AuthorizedEntries.Cache.UpdateAgent` | pkg/server/authorizedentries/cache.go:142-160 | sets the agent in the plain map, leaves entries alone, and keeps both agent indexes equal |
| `AuthorizedEntries.Cache.RemoveAgent` | pkg/server/authorizedentries/cache.go:162-171 | removes exactly that agent |
| `AuthorizedEntries.Cache.PruneExpiredAgents` | pkg/server/authorizedentries/cache.go:173-188 | removes and counts exactly the agents that expire at or before now |
| `AuthorizedEntries.Cache.GetAuthorizedEntries` | pkg/server/authorizedentries/cache.go:91-116 | lists exactly the entries reachable from the agent's path and alias paths, each once |
| `AuthorizedEntries.Cache.LookupAuthorizedEntries` | pkg/server/authorizedentries/cache.go:63-89 | is exactly the authorized entries among the requested ones |
| `AuthorizedEntries.ServeUpdatedAgent` | pkg/server/authorizedentries/cache.go:91-160 | once an agent's record is updated, it is served every workload entry under a node alias whose selectors, of which there are some, are among those given |
| `EventFeed.PollPeriodsCover` | pkg/server/endpoints/eventTracker.go:18-26 | the number of polls is the least that covers the time, for intervals and times of at least a second |
| `EventFeed.PollsReachExactly` | pkg/server/endpoints/eventTracker.go:18-26 | for all others too: the polls reach the time if and only if the interval is at least a second, or as many intervals as the time has seconds, rounded up, reach it |
| `EventFeed.EventTracker.StartTracking` | pkg/server/endpoints/eventTracker.go:53-55 | the ID is tracked with no polls yet, the others as before |
| `EventFeed.EventTracker.StopTracking` | pkg/server/endpoints/eventTracker.go:57-59 | the ID is no longer tracked, the others as before |
| `EventFeed.EventTracker.SelectEvents` | pkg/server/endpoints/eventTracker.go:61-72 | selects each tracked ID that has polls left once, counts it, and drops the others |
| `EventFeed.Follower.SearchBeforeFirstEvent` | pkg/server/endpoints/authorized_entryfetcher_registration_entries.go:54-79 | inside the window queues the keys of unseen events below the first; after it forgets them; on an error changes nothing |
| `EventFeed.SearchExactly` | pkg/server/endpoints/authorized_entryfetcher_registration_entries.go:54-79 | field by field: until the timeout after the first event was noticed, the keys of listed events not seen before are queued; later what was seen is forgotten |
| `EventFeed.Follower.SelectPolledEvents` | pkg/server/endpoints/authorized_entryfetcher_registration_entries.go:81-106 | an ID stops being tracked exactly when it was found, and its key is queued; unless cancelled, every ID that is there is found |
| `EventFeed.SelectExactly` | pkg/server/endpoints/authorized_entryfetcher_registration_entries.go:81-106 | field by field: what stays tracked, with one poll more, and whose keys are queued |
| `EventFeed.Follower.TrackSkipped` | pkg/server/endpoints/authorized_entryfetcher_registration_entries.go:108-137 | every ID strictly between the last event and the next one is tracked |
| `EventFeed.Follower.ScanForNewEvents` | pkg/server/endpoints/authorized_entryfetcher_attested_nodes.go:110-139 | the whole listing is scanned in order: each key queued, each gap tracked, first and last moved |
| `EventFeed.ScanExactly` | pkg/server/endpoints/authorized_entryfetcher_registration_entries.go:108-137 | field by field, for any ascending listing: its last event is the last, its keys are queued, exactly the IDs it leaves out are tracked, the first event and its time are set once |
| `FetcherProtocol.ScanInv` | pkg/server/endpoints/authorized_entryfetcher_registration_entries.go:108-137 | after a scan every ID from the first event to the last is queued, tracked or polled out |
| `FetcherProtocol.SearchInv` | pkg/server/endpoints/authorized_entryfetcher_registration_entries.go:54-79 | so after a search below the first event |
| `FetcherProtocol.SelectInv` | pkg/server/endpoints/authorized_entryfetcher_registration_entries.go:81-106 | so after a poll: what leaves the tracker was queued or used up its polls |
| `FetcherProtocol.StepKeepsInv` | pkg/server/endpoints/authorized_entryfetcher.go:138-187 | every commit, capture, page update, prune and reload step keeps the invariant that ties cached copies to queued keys and uncaptured events |
| `FetcherProtocol.RunKeepsInv` | pkg/server/endpoints/authorized_entryfetcher.go:82-113 | so does every run |
| `FetcherProtocol.StaleHasWitness` | pkg/server/endpoints/authorized_entryfetcher_registration_entries.go:46-169 | over every run, a key whose cached copy differs from the datastore is queued, or has an event above the last, tracked, or below the first, or one that was given up |
| `FetcherProtocol.QuietIsCurrent` | pkg/server/endpoints/authorized_entryfetcher_registration_entries.go:225-267 | with nothing queued and no such event, the cache equals a fresh load |
| `FetcherProtocol.FeedMovesForward` | pkg/server/endpoints/authorized_entryfetcher_attested_nodes.go:84-139 | the first event never changes, the last never goes back, and tracking ends only when the key is queued or the polls are used up |
| `FetcherProtocol.CaptureLeavesNoWitness` | pkg/server/endpoints/authorized_entryfetcher_registration_entries.go:46-52 | after search, poll and scan on complete listings, no event is left that the fetcher would still come across |
| `FetcherProtocol.UndisturbedUpdateConverges` | pkg/server/endpoints/authorized_entryfetcher_registration_entries.go:212-222 | one undisturbed update makes every cached copy current, except for keys whose event was given up |
| `FetcherProtocol.UndisturbedReloadRepairs` | pkg/server/endpoints/authorized_entryfetcher.go:145-164 | one undisturbed reload, which ends when no row lies behind its last page, makes every cached copy current, those included |
| `FetcherTiming.PolledOutIsDead` | pkg/server/endpoints/eventTracker.go:61-72 | an ID that was or is about to be dropped after polls whose answers cover the timeout was never committed |
| `FetcherTiming.TimedRunKeepsInv` | pkg/server/endpoints/authorized_entryfetcher.go:82-113 | every timed run, with polls failing and coming as they may, keeps what is known of each skipped ID: when it was skipped, how many polls went unanswered, when the last answer came |
| `FetcherTiming.LostAboveExactly` | pkg/server/endpoints/authorized_entryfetcher_registration_entries.go:81-106 | over every timed run an ID from the first event on is lost if and only if it was dropped and committed after its last answered poll, or none was answered |
| `FetcherTiming.TrackerLosesNothing` | pkg/server/endpoints/authorized_entryfetcher_registration_entries.go:81-106 | over every timed run whose answered polls cover the timeout, what is lost lies below the first event |
| `FetcherTiming.SearchedLateLosesNothing` | pkg/server/endpoints/authorized_entryfetcher_registration_entries.go:54-79 | however the polls come, nothing below the first event is lost if that range was searched a timeout after that event was committed |
| `FetcherTiming.TimedUpdateConverges` | pkg/server/endpoints/authorized_entryfetcher_registration_entries.go:212-222 | after every timed run with covering polls and such a search, or before any event, one undisturbed update makes every cached copy current, without exception |
| `FetcherLosses.UncoveredPollsLose` | pkg/server/endpoints/authorized_entryfetcher_registration_entries.go:81-106 | wherever the answered polls do not cover the timeout, a run loses an ID above the first event and leaves a stale copy with nothing queued |
| `FetcherLosses.TrackingSufficesExactly` | pkg/server/endpoints/eventTracker.go:61-72 | no run loses an ID from the first event on if and only if the polls less those unanswered, times the period, reach the timeout plus the slack |
| `FetcherLosses.ConfiguredTrackingExactly` | pkg/server/endpoints/authorized_entryfetcher_registration_entries.go:172-208 | as configured, for intervals and timeouts of at least a second: if and only if every poll is answered and the polls keep to their interval up to what rounding leaves |
| `FetcherLosses.SubSecondPollsLose` | pkg/server/endpoints/eventTracker.go:18-26 | with all polls answered and on time, for every interval and timeout: no run loses an ID above the first event if and only if the configured number of intervals reaches the timeout; for timeouts of whole seconds, if and only if the interval is at least a second |
| `FetcherLosses.UnansweredPollsLose` | pkg/server/endpoints/authorized_entryfetcher_registration_entries.go:90-101 | if polls may fail without limit, no number of them suffices |
| `FetcherTicks.TicksArePaced` | pkg/server/endpoints/authorized_entryfetcher.go:82-113 | the n-th tick received after a scan comes at least n intervals after it, less the scan's delay after its own tick if that did not wait, and less two intervals in any case |
| `FetcherTicks.TickedRunIsPaced` | pkg/server/endpoints/authorized_entryfetcher.go:82-113 | every run whose updates are driven by those ticks is a paced run, with that slack |
| `FetcherTicks.TickedTrackingSuffices` | pkg/server/endpoints/authorized_entryfetcher_registration_entries.go:81-106 | over every such run, if the polls less those unanswered, times the interval, reach the timeout plus the slack, what is lost lies below the first event |
| `FetcherTicks.ConfiguredTicksSuffice` | pkg/server/endpoints/authorized_entryfetcher_registration_entries.go:172-208 | so as configured if every poll is answered, no tick waits and each scan follows its tick within what rounding leaves; and with two polls more, and one for each that may fail, however long the updates take |
| `FetcherLosses.EarlySearchLoses` | pkg/server/endpoints/authorized_entryfetcher_registration_entries.go:54-79 | for every last search before that there is a run that leaves a stale copy with nothing queued |
| `FetcherLosses.UnsearchedLoses` | pkg/server/endpoints/authorized_entryfetcher_registration_entries.go:46-79 | with no search before the window closes there is such a run too, however late the first event was noticed |
| `FetcherLosses.SearchSufficesExactly` | pkg/server/endpoints/authorized_entryfetcher_registration_entries.go:54-79 | however the polls come, no run with that last search, or with none, loses anything below the first event if and only if there is a search no earlier than a timeout after the first event's commit |
| `FetcherLosses.LastSearchIsLast` | pkg/server/endpoints/authorized_entryfetcher_registration_entries.go:46-79 | which of the updates every period after the one that noticed the first event is the last to search; none if the period exceeds the timeout |
| `FetcherLosses.PeriodicSearchSufficesExactly` | pkg/server/endpoints/authorized_entryfetcher_registration_entries.go:54-79 | with updates every period, whatever the period: that search suffices if and only if there is one and the first event was noticed late by at least the timeout modulo the period; for every first event if and only if the period divides the timeout |
| `Fetchers.RefreshMatchesLoad` | pkg/server/endpoints/authorized_entryfetcher_registration_entries.go:225-256 | refreshing an ID touches no other, and gives what a fresh load gives if and only if it is not a cached entry that left the trust domain |
| `Listings.PageExactly` | pkg/server/datastore/sqlstore/sqlstore.go:3067-3098 | a page holds exactly the rows from its token on to the next; without a next token there are none behind; it is no larger than the page size, and smaller only if it has the last row |
| `Listings.PagesAreComplete` | pkg/server/datastore/sqlstore/sqlstore.go:3067-3098 | the pages of an unchanging table, put together, are its rows in order; all are within the page size; only the last has no token, and it is empty |
| `Listings.PagesAreListed` | pkg/server/endpoints/authorized_entryfetcher_registration_entries.go:139-169 | those are the pages a load requests one after the other |
| `Listings.UntouchedRowsAreRead` | pkg/server/endpoints/authorized_entryfetcher_registration_entries.go:139-169 | whatever changes between the pages, a load that finishes has read every row that stays as it is |
| `Listings.LoadRowsIsImage` | pkg/server/endpoints/authorized_entryfetcher_registration_entries.go:139-169 | a load of distinct rows caches each row of the trust domain, and leaves alone the IDs of rows outside it and of rows that are not there |
| `Listings.MalformedFails` | pkg/server/endpoints/authorized_entryfetcher_registration_entries.go:139-169 | a load with a malformed row fails |
| `Listings.LoadPagesIsLoadRows` | pkg/server/endpoints/authorized_entryfetcher_registration_entries.go:139-169 | a load is one of the rows of all pages before the first without a token |
| `Listings.LoadsExactly` | pkg/server/endpoints/authorized_entryfetcher_registration_entries.go:139-169 | it succeeds if and only if every page up to such a one was answered and those before it hold no malformed row |
| `Fetchers.RegistrationEntries.UpdatePage` | pkg/server/endpoints/authorized_entryfetcher_registration_entries.go:225-256 | one page: each of its IDs is refreshed from the fetched rows and leaves the queue, the others stay as they were |
| `Fetchers.RegistrationEntries.UpdateCachedEntries` | pkg/server/endpoints/authorized_entryfetcher_registration_entries.go:225-256 | success empties the queue; an error is that of the next request, for a page of what is still queued; exactly the IDs of the answered requests have been refreshed, each from the answer to the request that held it, and left the queue; no request is empty or too large |
| `Fetchers.RegistrationEntries.LoadCache` | pkg/server/endpoints/authorized_entryfetcher_registration_entries.go:139-169 | fills the new cache with the rows of all pages up to the one without a token; fails on an error or a malformed row |
| `Fetchers.LoadKeepsUnexpired` | pkg/server/endpoints/authorized_entryfetcher_attested_nodes.go:141-160 | of distinct listed nodes exactly those that have not expired are cached, with their own ID, certificate end and selectors |
| `Fetchers.AttestedNodes.UpdatePage` | pkg/server/endpoints/authorized_entryfetcher_attested_nodes.go:221-247 | present nodes are cached with their own ID, certificate end and selectors, absent ones removed, all leave the queue, the others stay as they were |
| `Fetchers.AttestedNodes.LoadCache` | pkg/server/endpoints/authorized_entryfetcher_attested_nodes.go:141-160 | fills the new cache with the unexpired nodes, each with its own ID, certificate end and selectors, and touches no entry |
| `Fetchers.PruneHeldNode` | pkg/server/authorizedentries/cache.go:173-188 | a cached node outlives a prune if and only if its certificate ends later |
| `Fetchers.AuthorizedEntryFetcher.ReloadCache` | pkg/server/endpoints/authorized_entryfetcher.go:145-164 | both loads succeed and all three holders get the same new cache with empty queues, or nothing changes |
| `Serving.PageIsRefreshStep` | pkg/server/endpoints/authorized_entryfetcher_registration_entries.go:225-256 | what a page update does to the cached entries is the protocol's refresh step |
| `Serving.NodePageIsRefreshStep` | pkg/server/endpoints/authorized_entryfetcher_attested_nodes.go:221-247 | so is what it does to the cached nodes |
| `Serving.PruneIsPruneStep` | pkg/server/authorizedentries/cache.go:173-188 | pruning is the protocol's prune step |
| `Serving.PageIsLoadStep` | pkg/server/endpoints/authorized_entryfetcher_registration_entries.go:139-169 | what a load makes of a page with a token is the protocol's load step |
| `Serving.LastPageEndsLoad` | pkg/server/endpoints/authorized_entryfetcher_registration_entries.go:139-169 | a page without a token is when the protocol's load is done |
| `Serving.ReloadIsLoadRun` | pkg/server/endpoints/authorized_entryfetcher.go:145-164 | a reload that succeeds, with any commits between its pages and between the last page and the swap, is a load of the protocol, leaves the same entries and empties the queue |
| `Serving.AtRestServesDatastore` | pkg/server/endpoints/authorized_entryfetcher.go:65-79 | when both fetchers are at rest, agents are authorized from the cache for exactly what the datastore authorizes them for |
| `EntrySync.SliceExactly` | pkg/agent/client/util.go:40-96 | an entry is kept if and only if it has an ID, parses and has selectors, each with a type without a colon and a value; and it is kept with its own SPIFFE ID, selectors, revision, creation time and the rest |
| `EntrySync.StaleExactly` | pkg/agent/client/client.go:581-600 | a copy is up to date if and only if it has the revision and, unless the server leaves it out, the creation time |
| `EntrySync.EntrySyncer.ProcessEntryRevisions` | pkg/agent/client/client.go:602-760 | revisions that are missing or stale are asked for, all well-formed ones stop being removed, in any order and number |
| `EntrySync.EntrySyncer.ProcessServerEntries` | pkg/agent/client/client.go:602-760 | well-formed entries come in and stop being removed; missing and stale are counted; malformed ones are skipped |
| `EntrySync.EntrySyncer.ReceiveRevisions` | pkg/agent/client/client.go:602-760 | the revision pages up to the one without more; fails on entries among them or a broken stream |
| `EntrySync.EntrySyncer.ReceiveEntries` | pkg/agent/client/client.go:745-757 | the entry pages of one answer, likewise |
| `EntrySync.EntrySyncer.RequestEntries` | pkg/agent/client/client.go:602-760 | the paging loop ends; each request is a full page but the last, which is not empty; together, in order, they are what was needed |
| `EntrySync.EntrySyncer.StreamAndSyncEntries` | pkg/agent/client/client.go:602-760 | the outcome, cache and counts are those of the specification, for every server |
| `SyncBooks.ExchangeKeepsBooks` | pkg/agent/client/client.go:602-760 | for every server behaviour, new keys are what is counted missing, and what changed was among the entries received in answer to the requests made |
| `SyncBooks.CountsAddUp` | pkg/agent/client/client.go:602-760 | for every server, a successful sync has Total = size before + Missing - Dropped |
| `SyncBooks.FailureRemovesNothing` | pkg/agent/client/client.go:602-760 | for every server, a failed sync removes no key and changes only keys for which it received an entry |
| `SyncServer.SendRevisions` | pkg/server/api/entry/v1/service.go:451-488 | one full response for a list within a page; otherwise revision pages that are the list in order, all but the last with more |
| `SyncServer.RevisionPagesAreFull` | pkg/server/api/entry/v1/service.go:459-488 | those pages are full but for the last, and only the last announces no more |
| `SyncServer.NarrowedFind` | pkg/server/api/entry/v1/service.go:521-551 | searching only from the last hit on finds what searching the whole sorted list finds |
| `SyncServer.AnswerRequest` | pkg/server/api/entry/v1/service.go:517-557 | from entries sorted by ID, the answer is the entries with the requested IDs, in pages of the page size, only the last without more |
| `SyncServer.PagesAreFull` | pkg/server/api/entry/v1/service.go:517-557 | so are the pages of an answer |
| `SyncRefinement.FetchUpdates` | pkg/agent/client/client.go:185-204 | the full fetch is every well-formed entry of the list, by ID |
| `SyncRefinement.FetchedExactly` | pkg/agent/client/client.go:185-204 | and each of them with its own fields |
| `SyncRefinement.RevisionPagesArrive` | pkg/agent/client/client.go:707-723 | however the server cuts the revisions into pages, the client has processed them all, in order |
| `SyncRefinement.EntryPagesArrive` | pkg/agent/client/client.go:741-757 | so with the entries of one answer, in any number of pages |
| `SyncRefinement.MatchesExactly` | pkg/server/api/entry/v1/service.go:496-557 | an answer holds an entry if and only if it was asked for and exists |
| `SyncRefinement.RequestsBring` | pkg/agent/client/client.go:602-760 | against every server whose answers, however cut and ordered, hold exactly the requested entries, the paging loop succeeds, brings in every usable entry asked for, and changes nothing else |
| `SyncRefinement.PagedSync` | pkg/agent/client/client.go:602-760 | what the sync leaves under each ID, for every earlier cache, list order and way of paging revisions and answers |
| `SyncRefinement.SyncRefinesFetch` | pkg/agent/client/client.go:581-760 | against every server that tells of one set of entries, however it pages, the sync succeeds, and leaves what the full fetch gives if and only if the list was sent in full or every entry is seen to be stale or unchanged |
| `SyncRefinement.VersionsFixContent` | pkg/agent/client/client.go:581-600 | when ID, revision and non-zero creation time fix the content of well-formed entries, sync and full fetch agree from every earlier cache and however the server pages |
| `SyncRefinement.SyncHoldsEntries` | pkg/agent/client/client.go:602-760 | in the entry's own fields: what is cached after a sync for a well-formed entry that was seen to be outdated, absent or unchanged agrees with it in every field; an ID the server does not have is not cached |
| `SyncRefinement.RequestedExactly` | pkg/agent/client/client.go:626-651 | an entry is requested if and only if it has an ID and a revision that is not negative and no copy is cached, or one with another revision or, if the server gives one, another creation time |
| `SyncStats.CountsAreExact` | pkg/agent/client/client.go:602-760 | against every such server: Missing counts the well-formed entries of which no copy was cached, Stale those of which an outdated one was, Dropped the copies that are gone |
| `SyncRefinement.ServerForServes` | pkg/server/api/entry/v1/service.go:451-557 | SPIRE's own server is such a server, and sends the list in full if and only if it fits a page |
| `EndToEnd.AgentGetsDatastore` | pkg/agent/client/client.go:581-760 | once both fetchers are at rest, a sync leaves the agent exactly the well-formed entries the datastore authorizes it for, if and only if the list fits a page or the agent can tell which copies are out of date |
| `NodeConn.NodeConn.AddRef` | pkg/agent/client/nodeconn.go:22-26 | one more reference, 32 bits wide; the connection stays |
| `NodeConn.WrapExactly` | pkg/agent/client/nodeconn.go:9-14 | a count is a signed 32-bit number that differs from the true one by a multiple of 2^32 |
| `NodeConn.NodeConn.Release` | pkg/agent/client/nodeconn.go:28-36 | one fewer; at zero an open connection is closed, once, and forgotten |
| `NodeConn.Client.GetOrOpenConn` | pkg/agent/client/client.go:962-975 | the current connection with one more reference; a new one has two, the client's and the caller's; no connection on a dial error |
| `NodeConn.Client.Release` | pkg/agent/client/client.go:513-520 | the client gives up the current connection if it is the one named or none is; otherwise nothing changes |
| `ConnProtocol.CountMoves` | pkg/agent/client/client.go:962-975 | how each step moves the number of holders and client references of each connection |
| `ConnProtocol.StepKeepsCounts` | pkg/agent/client/nodeconn.go:22-36 | the stored count is the true count up to wrap-around, whatever the number of callers |
| `ConnProtocol.EveryRunIsSafe` | pkg/agent/client/client.go:513-520 | in every interleaving the count is the holders plus one for the client, Close is called once, exactly at zero, and a holder finds the connection open |
| `ConnProtocol.SafeExactlyBelowWrap` | pkg/agent/client/nodeconn.go:9-36 | that holds in all runs if and only if there are fewer than 2^32 callers |
| `PerKeyLimiter.PerKeyLimiter.GetLimiter` | pkg/common/ratelimit/perkeylimiter.go:68-106 | a known key gets its limiter, an unknown one a new limiter; the key is then in the current generation |
| `PerKeyLimiter.PerKeyLimiter.LockedGet` | pkg/common/ratelimit/perkeylimiter.go:78-105 | so under the write lock, with promotion and collection |
| `PerKeyLimiter.LookedExactly` | pkg/common/ratelimit/perkeylimiter.go:68-106 | what a lookup does to both generations; a collection comes when an unknown key is looked up a minute or more after the last |
| `PerKeyLimiter.StepKeepsInv` | pkg/common/ratelimit/perkeylimiter.go:68-106 | no key is in both generations, no limiter serves two keys, in every interleaving of read and write sections |
| `PerKeyLimiter.SameLimiterExactly` | pkg/common/ratelimit/perkeylimiter.go:94-105 | two lookups of a key with none between get the same limiter if and only if there was at most one collection between them |
| `PerKeyLimiter.CloseLookupsAgree` | pkg/common/ratelimit/perkeylimiter.go:68-106 | with a monotone clock all lookups of a key within less than an interval get the same limiter |
| `PerKeyLimiter.IdleKeyIsKept` | pkg/common/ratelimit/perkeylimiter.go:16-18 | however long a key was idle and whatever other keys were looked up, without a collection its limiter is still there |
| `Observer.Property.Update` | pkg/common/observer/observer.go:52-60 | appends one value to the history; the channel it closes was open |
| `Observer.Property.Observe` | pkg/common/observer/observer.go:62-70 | a stream that stands at the newest value |
| `Observer.Stream.Changes` | pkg/common/observer/observer.go:79-84 | the channel is closed if and only if the stream is behind the head |
| `Observer.Stream.Next` | pkg/common/observer/observer.go:86-94 | one step along the history, or none at the head |
| `Observer.Stream.WaitNext` | pkg/common/observer/observer.go:96-99 | once the channel is closed, always a new value |
| `Observer.Stream.HasNext` | pkg/common/observer/observer.go:101-106 | true if and only if the stream is behind the head, if and only if its channel is closed |
| `Observer.Stream.Clone` | pkg/common/observer/observer.go:108-116 | a second stream at the same place |
| `Observer.UpdateKeepsStream` | pkg/common/observer/observer.go:52-60 | an update leaves every stream where it was, now behind the head |
| `Observer.EveryRunIsContiguous` | pkg/common/observer/observer.go:52-116 | for any streams and updates, what a stream stepped through is the history from where it began to where it stands, none skipped or repeated |
| `Observer.CatchingUpSeesAll` | pkg/common/observer/observer.go:86-106 | stepping while behind ends with everything since the stream began |
| `CredTemplate.ComposeX509CA` | pkg/server/credtemplate/builder.go:250-256 | the composers' replies chain; only subject, policies and extensions can change; any error ends the build |
| `CredTemplate.ComposeX509SVID` | pkg/server/credtemplate/builder.go:315-321 | so for SVIDs, with DNS names in place of policies |
| `CredTemplate.ComposedInOrder` | pkg/server/credtemplate/builder.go:199-206 | each composer is given what those before it left, and the first error ends the build |
| `CredTemplate.BuilderDefaults` | pkg/server/credtemplate/builder.go:143-188 | unset TTLs become a day for CAs, an hour for SVIDs and that of SVIDs for agents; set ones are kept |
| `CredTemplate.DecimalRoundTrip` | pkg/server/credtemplate/builder.go:244-248 | a printed number reads back and has no leading zero |
| `CredTemplate.BuildSelfSignedX509CATemplate` | pkg/server/credtemplate/builder.go:194-209 | whatever the composers do: SPIFFE ID, key usage, CA flag and keys are those of this server, and the window is from ten seconds before now to the configured TTL after it; without composers the subject and when there is a template at all |
| `CredTemplate.BuildDownstreamX509CATemplate` | pkg/server/credtemplate/builder.go:238-259 | so under a parent, whose key ID it names, until the requested TTL if there is one, but not beyond the parent's end; without composers its subject is the parent's, marked with the depth |
| `CredTemplate.BuildServerX509SVIDTemplate` | pkg/server/credtemplate/builder.go:261-276 | the server's own SVID, likewise |
| `CredTemplate.BuildAgentX509SVIDTemplate` | pkg/server/credtemplate/builder.go:278-293 | an agent's SVID with the agent TTL, an error for an ID outside the trust domain |
| `CredTemplate.BuildWorkloadX509SVIDTemplate` | pkg/server/credtemplate/builder.go:295-324 | a workload's SVID with the requested TTL if there is one; without composers its subject is the one asked for or the configured one, with the first DNS name as common name |
| `CredTemplate.CAPassesExactly` | pkg/server/credvalidator/validator.go:47-67 | a built CA template passes validation at build time if and only if the effective TTL is not negative and the parent has not expired (or the end is the zero time) |
| `CredTemplate.SVIDPassesExactly` | pkg/server/credvalidator/validator.go:73-107 | so for SVID templates |
| `CredTemplate.UnexpiredParentSuffices` | pkg/server/credtemplate/builder.go:143-188 | without negative configured TTLs, an unexpired parent is all it takes |
| `CredTemplate.WindowsNest` | pkg/server/credtemplate/builder.go:499-557 | along downstream chains of any depth with a non-decreasing clock, each window lies inside every ancestor's |
| `CredTemplate.SVIDNests` | pkg/server/credtemplate/builder.go:506-557 | and so does that of an SVID at the end |
| `CredTemplate.DropEmptyValues` | pkg/server/credtemplate/builder.go:559-569 | the array's front is the non-empty strings in order |
| `CredTemplate.NonEmptyKeeps` | pkg/server/credtemplate/builder.go:559-569 | no empty string is left, and every other is there as often as before |
| `CredTemplate.NonEmptyInOrder` | pkg/server/credtemplate/builder.go:559-569 | and in the same order |
| `CredValidator.CAPassesWhen` | pkg/server/credvalidator/validator.go:47-67 | a CA passes if and only if it meets the rules of RFC 5280 sections 4.2.1.3 and 4.2.1.9 for signing certificates, has no URI or the trust domain's, and is in its window |
| `CredValidator.SVIDPassesWhen` | pkg/server/credvalidator/validator.go:73-107 | an SVID passes if and only if it is not a CA, has an allowed usage with digitalSignature, both authentication usages or none, the one URI, and is in its window |
| `CredValidator.ProblemIsThere` | pkg/server/credvalidator/validator.go:47-150 | a problem that is reported is there |
| `ContainerInfo.Extracted` | pkg/common/containerinfo/extract.go:263-266 | a pod UID never comes without a container ID, nor unless asked for |
| `ContainerInfo.Extractor.ExtractOne` | pkg/common/containerinfo/extract.go:230-291 | the two backward walks find what the scan of the path's segments finds |
| `ContainerInfo.Extractor.WalkForContainer` | pkg/common/containerinfo/extract.go:248-261 | the container ID of the scan, and where the search for the pod UID goes on |
| `ContainerInfo.Extractor.WalkForPodUID` | pkg/common/containerinfo/extract.go:279-288 | the pod UID of the scan |
| `ContainerInfo.Extractor.Extract` | pkg/common/containerinfo/extract.go:180-228 | one path merged into what was found so far, or a conflict |
| `ContainerInfo.ExtractAll` | pkg/common/containerinfo/extract.go:156-163 | the merge of what all paths yield |
| `ContainerInfo.WalkIsReversed` | pkg/common/containerinfo/extract.go:242-261 | the walk visits the segments of a path last to first, and then those of the path they are under |
| `ContainerInfo.WalkStopsAtEmpty` | pkg/common/containerinfo/extract.go:254-261 | and goes no further back than an empty segment |
| `ContainerInfo.ContainerIsFirst` | pkg/common/containerinfo/extract.go:250-261 | the container ID is the leftmost one in the first segment walked that has any; nothing is found if and only if none has |
| `ContainerInfo.PodIsFirst` | pkg/common/containerinfo/extract.go:279-288 | the pod UID is that of the first segment left that has one; none is found if and only if none has |
| `ContainerInfo.CharacterClasses` | pkg/common/containerinfo/extract.go:22-30 | the hex digits and word characters of the two patterns, in codes |
| `ContainerInfo.ContainerExactly` | pkg/common/containerinfo/extract.go:27-28 | a container ID is 64 hex digits with no word character on either side |
| `ContainerInfo.PodExactly` | pkg/common/containerinfo/extract.go:22-25 | a pod UID is, after "pod", 36 hex digits and dashes or underscores in the places of a UUID's, likewise on its own |
| `ContainerInfo.FindsExactly` | pkg/common/containerinfo/extract.go:248-288 | what is found in a segment is the leftmost match, and nothing if and only if there is none |
| `ContainerInfo.PodUIDIs` | pkg/common/containerinfo/extract.go:30-34 | such a UID is found, with dashes for underscores |
| `ContainerInfo.PodPathYields` | pkg/common/containerinfo/extract.go:248-291 | a path with a pod yields its container ID and the pod UID of the last segment before it that has one, whatever comes before and after |
| `ContainerInfo.OneSegmentYields` | pkg/common/containerinfo/extract.go:248-291 | so does a path with both in one segment |
| `ContainerInfo.PodlessPathYields` | pkg/common/containerinfo/extract.go:263-273 | without a pod a path yields its container ID alone, without that nothing |
| `ContainerInfo.KubernetesPathYields` | pkg/common/containerinfo/extract.go:230-291 | any path that ends in pod<uid>/<container ID> yields that UID and that container ID |
| `ContainerInfo.MergesExactly` | pkg/common/containerinfo/extract.go:195-227 | paths merge if and only if all that name a pod agree and, before the first of these, no path lacks or changes an earlier container ID; and what they merge to |
| `ContainerInfo.PodIsUnanimous` | pkg/common/containerinfo/extract.go:183-204 | if any path names a pod, every such path is the result |
| `ContainerInfo.OrderDoesNotMatter` | pkg/common/containerinfo/extract.go:180-228 | two lists of the same findings that both merge give the same answer |
| `ContainerInfo.PathOrderDoesNotMatter` | pkg/common/containerinfo/extract.go:180-291 | two orders of the same paths that both extract give the same pod UID and container ID |
| `ContainerInfo.EveryOrderMergesExactly` | pkg/common/containerinfo/extract.go:206-227 | every order merges if and only if those with a pod agree and those without agree |
| `ContainerInfo.NothingConflictsAfter` | pkg/common/containerinfo/extract.go:217-223 | the root path conflicts after a path that ends in a container ID, but not before it |
| `ProcParse.JoinOfSplit` | pkg/common/containerinfo/mountinfo.go:78-80 | splitting on single spaces loses nothing |
| `ProcParse.SplitOfJoin` | pkg/common/containerinfo/mountinfo.go:78-80 | space-free fields, empty ones included, are split as they were joined |
| `ProcParse.TaskStatRoundTrip` | pkg/common/peertracker/tracker_linux.go:175-187 | printing then parsing is the identity for any task name |
| `ProcParse.ParsedPrintsBack` | pkg/common/peertracker/tracker_linux.go:183-186 | parsing then printing is the identity if and only if the name is set off by spaces |
| `ProcParse.PanicsExactly` | pkg/common/peertracker/tracker_linux.go:176-185 | the lines on which the slices are out of bounds |
| `ProcParse.ParsesExactly` | pkg/common/peertracker/tracker_linux.go:175-187 | every other line with both parentheses is split before the first that opens and behind the last that closes, with the name between them |
| `ProcParse.RefusedExactly` | pkg/common/peertracker/tracker_linux.go:175-182 | a line is refused if and only if it lacks one of the parentheses |
| `ProcParse.MountInfoRoundTrip` | pkg/common/containerinfo/mountinfo.go:77-107 | root and type are recovered whatever follows the type, an empty source included; each missing part has its error |
| `ProcParse.SeparatorIsNeeded` | pkg/common/containerinfo/mountinfo.go:84-87 | a line is refused for its separator if and only if it has none |
| `EntryOrder.FirstDifference` | pkg/common/util/sort.go:77-91 | the loop compares by length, then by the first selectors that differ |
| `EntryOrder.SelectorOrder` | pkg/common/util/sort.go:93-99 | selector comparison is a total order |
| `EntryOrder.OrderedByFields` | pkg/common/util/sort.go:51-99 | which of two entries comes first: SPIFFE ID, parent ID, X.509 TTL, JWT TTL, number of selectors, first selectors that differ, in this order |
| `Lex.LessExactly` | pkg/common/util/sort.go:51-99 | strings are compared by the first character that differs, a proper prefix coming first |
| `EntryOrder.RegistrationOrder` | pkg/common/util/sort.go:51-75 | entry comparison is a total preorder on all entries |
| `EntryOrder.EqualMeansSame` | pkg/common/util/sort.go:31-75 | once selectors are sorted, entries compare equal if and only if IDs, TTLs and selectors, as multisets, are the same |
| `EntryOrder.NormalizedExactly` | pkg/common/util/sort.go:31-37 | sorting an entry sorts its selectors and federated trust domains, loses none, and changes nothing else |
| `EntryOrder.DedupIsExact` | pkg/common/util/sort.go:20-28 | for every sorted permutation, deduplication is strictly increasing with exactly one of each registration |
| `EntryOrder.CloneRegistrationEntries` | pkg/common/util/sort.go:180-190 | new entries with the old contents |
| `EntryOrder.SortRegistrationEntries` | pkg/common/util/sort.go:31-43 | each entry's lists are sorted in place, also when an entry is in the list twice, and the entries are in order, none lost |
| `EntryOrder.DedupRegistrationEntries` | pkg/common/util/sort.go:12-29 | exactly one of each registration in strictly increasing order, each a given one with its lists sorted, in new entries; the given ones are left as they are |
| `Rotation.RangeIsPositive` | pkg/common/rotationutil/rotationutil.go:90-107 | the random range is positive if and only if the lifetime is at least 20 ns |
| `Rotation.RotationIsCertain` | pkg/common/rotationutil/rotationutil.go:63-77 | all draws rotate if and only if the time left is at most half-life less a tenth, or at most an applicable target |
| `Rotation.RotationIsImpossible` | pkg/common/rotationutil/rotationutil.go:63-77 | no draw rotates if and only if the time left is at least half-life plus a tenth and, if the target applies, target plus ten minutes |
| `Rotation.ShortLifetimePanics` | pkg/common/rotationutil/rotationutil.go:102-107 | when the draw panics |
| `Rotation.RotatesInTime` | pkg/common/rotationutil/rotationutil.go:63-88 | with fixed draws rotation is monotone in time, and due before expiry |
| `Rotation.TargetOnlyBringsForward` | pkg/common/rotationutil/rotationutil.go:115-126 | the availability target never puts rotation off |

## Left out

- Serving.AtRestServesDatastore: is about agents whose own record has not expired, because the cache prunes expired agents and the datastore does not.
- EntryOrder.SortRegistrationEntries: gives the sorted entries back as a new sequence instead of reordering the slice; sort.Slice is one insertion sort here, and DedupIsExact covers every other sorted permutation.
- Rotation.RotationIsCertain: durations are unbounded; saturation of time differences at 292 years is not modelled.
- CredTemplate.CAPassesExactly: the clock is after the zero time (year 1).
- FetcherProtocol.UndisturbedUpdateConverges: is about one update without commits in between; that updates eventually run is not stated.
- Event-table pruning and out-of-order replicas: events are pruned only after capture, replicas only lag.
- nodecache, metrics, logging, tickers and contexts of the fetchers: no part in what is cached.
- Federated bundles in SyncUpdates and FetchUpdates, entry masks, feature flags, size backoff: they would add only easy members.
- Subject names beyond what composers are shown; DER encoding, signatures, JWT and WIT claims: the template is what is validated here.
- Upstream-signed CSRs: they carry a subset of the CA template.
- The mountinfo fallback of extractInfo and reading files under /proc: plumbing around the extractor and the line parsers.
- SortTypesEntries: the same comparison on another type.
- Peer trackers, start-up, CLI, plugins and everything else in the repository.
