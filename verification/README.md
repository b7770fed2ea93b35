# BypassCore verification

A Dafny model of the stateful protocols and fast paths of BypassCore, a routing and DNS daemon, with
proofs of what they keep over every run. `dafny verify dfyconfig.toml` checks the whole project.

| file | models |
|---|---|
| `Snapshot.dfy`, `Service.dfy` | leases, reload, retirement, forced drain and shutdown of runtime snapshots, as a step system over goroutines |
| `EarlyClose.dfy`, `Settling.dfy` | exactly which leases can be closed under, and why every snapshot settles |
| `Eviction.dfy`, `Progress.dfy` | which retired snapshot makes room, and that no call is ever stuck |
| `Reload.dfy` | the configuration reload transaction with its rollbacks |
| `IpSet.dfy`, `IpMatcher.dfy`, `IpMulti.dfy`, `IpMultiFilter.dfy` | bucketed IP matching against per-address membership |
| `DnsCache.dfy`, `CacheQuery.dfy` | the record cache with online migration, two-phase cleanup and the hit, stale or fetch decision |
| `QueryRace.dfy`, `ClientOrder.dfy` | serial and parallel upstream queries, and which upstreams a domain is asked at |
| `RawCache.dfy`, `RawTable.dfy` | the LRU of raw responses with TTL ageing |
| `RateLimit.dfy`, `RateOverrun.dfy` | token buckets per source and for all queries |
| `NftFlush.dfy`, `NftWriter.dfy` | the batching, deduplicating nftables writer |
| `CnameChase.dfy` | reading an address response through its CNAME chain |
| `TlsRecords.dfy`, `Sniffer.dfy` | sniffing a TCP stream that arrives in segments, and replaying it |

Code that works on locals or fields is a method or a class; its contract ties it to a function or
predicate on values, and the lemmas are about those. Where goroutines interleave, each event or
method is one atomic operation, one mutex region or one batch, and runs are arbitrary sequences of them.

Some properties hold only under a condition. The condition is proved exact:

- A snapshot can be closed under a lease that was handed out while a releaser stalled between its
  decrement of `refs` and its load of `retired`. After every run such a lease can be closed
  under, and every other lease is safe for as long as it is held
  (`EarlyClose.StalledLeaseCanBeClosedUnder`, `EarlyClose.LeaseIsSafeIffCalm`).
  With the two operations as one step there is none (`Service.AtomicRunIsCalm`). No close is lost either way.
- A failed reload that was undone leaves listeners and metrics as before exactly if those it moved ran
  what the current snapshot says, which an earlier rollback error can break (`Reload.UnchangedIff`,
  `Reload.UndoIsExactIff`, `Reload.FailedReloadMovesAListener`).
- `HeuristicMultiIPMatcher.FilterIPs` can return an address on both sides when sub-matchers lie on
  different sides of the /24 or /64 threshold (`IpMultiFilter.ComplementIff`, `IpMultiFilter.MixedSidesOverlap`).
- Cleanup is invisible to lookups exactly for options that ask for a family and, with stale answers,
  for windows of 1 to 2^31 seconds (`CacheQuery.InvisibleIff`, `CacheQuery.ConfiguredWindow`). A window of 0
  switches cleanup off.
- Parallel and serial queries agree exactly when no two adjacent clients share a policy, as long as
  none is skipped (`QueryRace.ParallelIsSerial`, `QueryRace.PeersCanOvertake`, `QueryRace.SkippingShowsInErrors`).
- Forgetting idle sources keeps the rate bound exactly for burst <= 300 * rate (`RateLimit.RunBounded`,
  `RateOverrun.Overrun`); the code accepts larger bursts.
- For HTTP the sniffed host is independent of segmentation exactly when the bytes start like one of
  the listed methods, or no host is found at all (`Sniffer.EveryHttpSegmentationIff`). The header parser
  itself splits the request line at any white space. For TLS it is always independent.
- The rule table of the DNS clients keeps a client's index in 16 bits, which is right exactly if no
  client from the 65537th on has rules (`ClientOrder.RuleTableTrueIff`).

## Model

| member | source | states |
|---|---|---|
| Snapshot.StepKeepsInv | cmd/bypasscore/runtime.go:379-512 | Every atomic operation of release, retire, forceClose, closeResources, track and connection Close keeps: refs is the number of outstanding leases, the registry holds exactly the tracked connections, one goroutine wins closeOnce, a forced drain still lists every open connection, a retired snapshot has somebody left to close it; retired, closed and torn never go back and refs never grows. |
| Snapshot.AcquireKeepsInv | cmd/bypasscore/runtime.go:369-377 | Handing out a lease on the current snapshot keeps the invariant. |
| Snapshot.DetachKeepsInv | cmd/bypasscore/runtime.go:946-948 | Taking a snapshot out of the current slot keeps the invariant. |
| Snapshot.StartRetireKeepsInv | cmd/bypasscore/runtime.go:385-398 | A new retire call on a detached snapshot keeps the invariant. |
| Snapshot.StartForceKeepsInv | cmd/bypasscore/runtime.go:400-412 | A new forceClose call on a detached snapshot keeps the invariant. |
| Snapshot.StepKeepsNoEarlyClose | cmd/bypasscore/runtime.go:379-447 | No step inside a snapshot makes an unforced close meet a lease. |
| Snapshot.AcquireKeepsNoEarlyClose | cmd/bypasscore/runtime.go:369-383 | A lease is safe to hand out while no releaser sits between its decrement and its load of retired. |
| Snapshot.RetireReturned | cmd/bypasscore/runtime.go:385-398 | A retire call that has returned has retired the snapshot, whoever won the compare-and-swap. |
| Snapshot.ForcedDrainClosesEveryConnection | cmd/bypasscore/runtime.go:400-412 | Once forced and with no drain or rejection under way, every connection dialed under a lease has its socket closed: registered before forced and drained, or rejected by track. |
| Snapshot.RetiredWithoutLeasesIsClosing | cmd/bypasscore/runtime.go:379-398 | No lost close, with release split in two: retired, no lease, nobody mid-release or mid-retire implies the close has been issued. |
| Snapshot.SettledIsTornDown | cmd/bypasscore/runtime.go:414-438 | With all goroutines settled a retired, closed or force-closed snapshot has been torn down exactly once. |
| Service.StepKeepsSvcInv | cmd/bypasscore/runtime.go:677-738 | Every mutex region and call of acquire, Reload, retireSnapshot and Close keeps the service invariant, in particular that each snapshot ever built is current, closed, being force-closed, listed, or in the hands of a running call. |
| Service.RegisterKeeps | cmd/bypasscore/runtime.go:704-738 | Registering a retired snapshot keeps list, snapshots and tasks consistent and at most 8 listed. |
| Service.RegisterCovers | cmd/bypasscore/runtime.go:718-736 | Compaction drops only closed snapshots from the list and the evicted one is force-closed, so none is forgotten. |
| Service.RegisterLateCovers | cmd/bypasscore/runtime.go:714-719 | A reload that finds the service closed force-closes the snapshot itself, so Close cannot miss it. |
| Eviction.ListIsInOrder | cmd/bypasscore/runtime.go:718-731 | After every run the retired list holds snapshots in the order in which the run registered them, the latest last, none twice. |
| Eviction.OldestIsEvicted | cmd/bypasscore/runtime.go:718-736 | Whenever a reload registers a snapshot, the closed ones leave the list and it joins at the end; a forceClose starts exactly if eight open ones were listed already, and of the one registered before all that stay listed. |
| Service.CollectCovers | cmd/bypasscore/runtime.go:690-696 | Close takes over the whole retired list and the snapshot it detached. |
| Service.RunInv | cmd/bypasscore/runtime.go:677-738 | The invariant holds after every interleaving from a fresh service. |
| Service.EveryRunIsSafe | cmd/bypasscore/runtime.go:369-438 | After every interleaving: refs counts the leases, a retired snapshot is not current, resources close at most once, at most 8 snapshots are listed, no close is lost. |
| Service.RetiredStaysRetired | cmd/bypasscore/runtime.go:385-398 | Retirement is final: no step leases the snapshot or makes it current again. |
| Service.RetiredForGood | cmd/bypasscore/runtime.go:385-398 | Over every run: from its retirement on a snapshot stays retired, is never current again, and its leases only become fewer. |
| Service.CalmRunNeverClosesEarly | cmd/bypasscore/runtime.go:379-383 | If no lease is handed out while a releaser stalls between decrement and check, an unforced close finds no lease. |
| Service.AtomicRunIsCalm | cmd/bypasscore/runtime.go:379-383 | With release as one atomic step every interleaving is such a run. |
| EarlyClose.StalledLeaseCanBeClosedUnder | cmd/bypasscore/runtime.go:369-398 | With release split, after every run: a lease handed out while a releaser stalls on the current snapshot can be closed under without force, by finishing a running reload, a further reload with a lease of its own, its retire, and the releaser going on. |
| EarlyClose.LeaseIsSafeIffCalm | cmd/bypasscore/runtime.go:369-398 | After every run, calm or not: whatever happens afterwards, the snapshot is not closed unforced as long as the lease handed out now is held, exactly if no releaser stalls on it at that moment. |
| EarlyClose.StalledReleaseClosesEarly | cmd/bypasscore/runtime.go:379-383 | From a fresh service such a run exists. |
| Service.NoConnectionEscapes | cmd/bypasscore/runtime.go:400-412 | In every interleaving, a forced drain that is over has closed every connection dialed under a lease. |
| Service.ShutdownClosesEverySnapshot | cmd/bypasscore/runtime.go:677-702 | Whenever the service is closed and no Close or Reload is running, every snapshot ever built whose goroutines have settled, also one detached by a racing reload, is torn down exactly once. |
| Settling.UnsettledMoves | cmd/bypasscore/runtime.go:379-447 | No deadlock: a snapshot that has not settled has an enabled step that is no lease holder's choice. |
| Settling.BoundStepsEnd | cmd/bypasscore/runtime.go:379-447 | Each such step lowers a measure, so they cannot go on forever. |
| Settling.Settles | cmd/bypasscore/runtime.go:379-447 | From every reachable state a snapshot settles by such steps alone, in no more of them than the measure says. |
| Settling.QuietIsShort | cmd/bypasscore/runtime.go:379-447 | However such steps are chosen, there are no more of them than the measure says. |
| Settling.QuietEndsSettled | cmd/bypasscore/runtime.go:379-447 | Where none is left, the snapshot has settled. |
| Settling.SweptIsTornDown | cmd/bypasscore/runtime.go:697-701 | When a forceClose called by Close returns, its snapshot is torn down exactly once, settled or not. |
| Settling.ShutdownTearsDown | cmd/bypasscore/runtime.go:677-702 | After Close and the reloads in flight have returned, every snapshot ever built gets torn down exactly once by finitely many steps of its own goroutines, whatever lease holders leave undone. |
| Progress.CallGoesOn | cmd/bypasscore/runtime.go:677-738 | No Reload or Close is ever stuck: its next step is enabled, unless it waits for a retire or forceClose that has not returned. |
| Progress.WaitMovesOn | cmd/bypasscore/runtime.go:385-447 | And what it waits for has a step that is no lease holder's choice. |
| Progress.OpenServiceServes | cmd/bypasscore/runtime.go:369-377 | After every run an open service hands out leases and can be closed, takes a reload unless one is running, and lets a built one swap. |
| Progress.TornDownAtMostOnce | cmd/bypasscore/runtime.go:414-438 | Over every run the resources of a snapshot are torn down at most once, counted by the steps that do it. |
| Reload.Runtime.ReloadListener | app/inbound/listener.go:87-93 | Prepare and commit of one listener: the new config or the old one, and exactly when. |
| Reload.Runtime.ReloadMetrics | app/metrics/server.go:44-64 | A metrics reload installs the config or leaves the old one, and never moves the listen address. |
| Reload.Runtime.PrepareAll | cmd/bypasscore/runtime.go:1613-1631 | Every listener is prepared before any is committed. |
| Reload.Runtime.CommitAll | cmd/bypasscore/runtime.go:1632-1633 | Commits run in order up to the first that fails. |
| Reload.Runtime.RollBack | cmd/bypasscore/runtime.go:1634-1639 | Every committed listener is put back even after a failure among them; what each runs afterwards, and whether all are back. |
| Reload.Runtime.ReloadInbounds | cmd/bypasscore/runtime.go:1613-1644 | The loops compute the stated outcome for every pattern of failures. |
| Reload.InboundsUndone | cmd/bypasscore/runtime.go:1613-1644 | An error without a rollback error leaves the listeners reached at previous and the others as they were; so all are as before exactly if those reached already ran previous. |
| Reload.InboundsUndoneIff | cmd/bypasscore/runtime.go:1632-1640 | A failed commit is the first faulty one, and it is undone exactly if every listener before it can be put back. |
| Reload.InboundsBounded | cmd/bypasscore/runtime.go:1613-1644 | Even after a rollback error a listener runs what it ran, previous or next. |
| Reload.Runtime.Compensate | cmd/bypasscore/runtime.go:916-924 | Listeners and metrics are both put back as far as that goes, and a failure of either is reported. |
| Reload.Runtime.Build | cmd/bypasscore/runtime.go:857-885 | The order of refusals: If-Match conflict, unchanged hash, incompatible change, failed build. |
| Reload.Runtime.InstallAll | cmd/bypasscore/runtime.go:889-929 | Probe, inbounds, metrics, activation, each failure undoing the steps before it. |
| Reload.Runtime.AttemptBuilt | cmd/bypasscore/runtime.go:889-950 | From the built candidate on: swapped in, or retired with the steps undone; a service closed meanwhile stays closed. |
| Reload.Runtime.Reload | cmd/bypasscore/runtime.go:843-957 | One reload at a time, the lease given back on every path, and the stated outcome for every environment. |
| Reload.SuccessMovesAll | cmd/bypasscore/runtime.go:843-957 | Success needs a fitting If-Match, a compatible change, build, probe and activation; then current snapshot, every listener and the metrics move together, with revision + 1. |
| Reload.SuccessIff | cmd/bypasscore/runtime.go:843-957 | A reload succeeds exactly if all eleven needs are met: a valid config, an open service, a fitting If-Match, another hash, a compatible change, a build, reachable sets, every listener accepting without a fault, metrics that take the config, activation, and no Close before the swap. |
| Reload.ResultIsFirstUnmet | cmd/bypasscore/runtime.go:843-957 | Otherwise the result names the first of these that is not met. |
| Reload.UndoneIff | cmd/bypasscore/runtime.go:889-950 | And it reports the undo as done exactly if every listener, and the metrics where they had moved, could be put back. |
| Reload.FailurePutsBack | cmd/bypasscore/runtime.go:857-957 | After any failure whose undo worked, in whatever state the listeners were: those it moved run what the current snapshot says, the others what they ran, the current snapshot stays and an unused candidate is retired. |
| Reload.UnchangedIff | cmd/bypasscore/runtime.go:889-957 | Listeners and metrics are then as before exactly if the ones that were moved already ran what the current snapshot says. |
| Reload.UndoIsExactIff | cmd/bypasscore/runtime.go:889-957 | For a request that could succeed, every undone failure leaves them as before exactly if the runtime runs what its current snapshot says. |
| Reload.FailedReloadMovesAListener | cmd/bypasscore/runtime.go:889-957 | From a runtime in sync: a reload that is not activated and cannot be put back, then one whose second commit fails and is fully undone, and the first listener does not run what it ran before. |
| Reload.StaysInSync | cmd/bypasscore/runtime.go:843-957 | From a runtime in sync, a reload whose undo worked leaves it in sync and moves everything or nothing. |
| Reload.NothingElseRuns | cmd/bypasscore/runtime.go:889-957 | Also after a failed undo, each listener and the metrics run what they ran, what the current snapshot says or what was asked for. |
| Reload.NeverRebinds | cmd/bypasscore/runtime.go:1613-1644 | Whatever a reload does, also one that could not be undone, no listener changes its tag or binding. |
| Reload.CompatibleIff | cmd/bypasscore/runtime.go:868-874 | A change is compatible exactly if it leaves everything but the policies, the nftables sets, the observer and the routes as it is. |
| Reload.StaleRequestFails | cmd/bypasscore/runtime.go:857-867 | A stale If-Match cannot succeed and builds nothing. |
| Reload.Runtime.ReloadAll | cmd/bypasscore/runtime.go:843-957 | Over any sequence of requests, until Close, the revision grows by exactly the number of successes; leases balance, and a runtime in sync stays so unless an undo failed. |
| IpSet.KeyIsBucket | common/geodata/ip_matcher.go:201-222 | A slice has a bucket key exactly when it is an address, and the key is the address's /24 or /64. |
| IpSet.FromStdIff | common/geodata/ip_matcher.go:62-68 | Four bytes, alone or behind the mapping prefix, are an IPv4 address, any other sixteen an IPv6 one, and nothing else is an address. |
| IpSet.PrefixCannotSplit | common/geodata/ip_matcher.go:201-222 | A prefix of at most 8n bits cannot tell apart addresses that share their first n bytes. |
| IpSet.CoversIs | common/geodata/ip_matcher.go:75-75 | A prefix covers an address exactly if the lengths agree and both, as big-endian numbers, are equal when the bits after the prefix are divided away. |
| IpSet.CoversIsInterval | common/geodata/ip_matcher.go:75-75 | So a prefix is an interval of addresses. |
| IpSet.MaxBits | common/geodata/ip_matcher.go:933-960 | The longest prefix length, with the marks for an empty set and for a lone /0. |
| IpSet.MatchAddrIsMembership | common/geodata/ip_matcher.go:70-84 | The short cuts on the recorded maxima agree with membership in the union of prefixes, under reverse. |
| IpSet.BucketIsUniform | common/geodata/ip_matcher.go:933-960 | One address decides its whole bucket when the matcher's prefixes are at most /24 or /64. |
| IpMatcher.Match | common/geodata/ip_matcher.go:62-68 | Match is per-address membership; an invalid slice never matches. |
| IpMatcher.AnyMatch | common/geodata/ip_matcher.go:87-134 | Skipping seen buckets, AnyMatch is: some valid address is accepted. |
| IpMatcher.Represent | common/geodata/ip_matcher.go:161-186 | Buckets and precise list represent the whole list, or an invalid slice was met. |
| IpMatcher.RepresentativesDecide | common/geodata/ip_matcher.go:137-198 | The representatives are all accepted exactly if every address is. |
| IpMatcher.Matches | common/geodata/ip_matcher.go:137-198 | Matches is: non-empty, all valid, all accepted. |
| IpMatcher.BucketContents | common/geodata/ip_matcher.go:225-312 | A bucket holds every occurrence of its slices and its representative answers for each. |
| IpMatcher.FilterIPs | common/geodata/ip_matcher.go:225-312 | The valid slices are split by membership, each as often as it occurs; invalid ones are dropped. |
| IpMulti.Match | common/geodata/ip_matcher.go:399-411 | Some sub-matcher accepts the address. |
| IpMulti.AnyMatch | common/geodata/ip_matcher.go:414-461 | With one bucket set shared by all sub-matchers: some address is accepted by some sub-matcher. |
| IpMulti.Views.EnsureForMatcher | common/geodata/ip_matcher.go:527-603 | The lazy views this sub-matcher reads exist afterwards and describe the list, unless a slice is invalid. |
| IpMulti.FamilyMatches | common/geodata/ip_matcher.go:480-516 | One family read off the suitable view is the per-address answer. |
| IpMulti.Matches | common/geodata/ip_matcher.go:464-524 | Non-empty, and one sub-matcher accepts every element, all of them valid. |
| IpMultiFilter.Ensure | common/geodata/ip_matcher.go:718-804 | A view first needed now has been struck by no earlier sub-matcher, so building it late loses nothing. |
| IpMultiFilter.StrikeBuckets | common/geodata/ip_matcher.go:631-640 | Exactly the live buckets whose representative is accepted are emitted and struck. |
| IpMultiFilter.StrikePrecise | common/geodata/ip_matcher.go:641-651 | Exactly the live addresses that are accepted are emitted and struck. |
| IpMultiFilter.FilterIPs | common/geodata/ip_matcher.go:606-715 | Matched is, as a set, what some sub-matcher accepts; unmatched is exactly what is left over in some view. |
| IpMultiFilter.ComplementIff | common/geodata/ip_matcher.go:676-708 | Unmatched is the exact complement if and only if every accepted address of the list is accepted by a sub-matcher of each kind present for its family. |
| IpMultiFilter.SameSideSplits | common/geodata/ip_matcher.go:606-715 | Sub-matchers on the same side of both thresholds split the list exactly. |
| IpMultiFilter.MixedSidesOverlap | common/geodata/ip_matcher.go:676-708 | With 10.0.0.0/8 and 1.1.1.1/32 the address 10.0.0.1 comes back on both sides. |
| DnsCache.CacheController.constructor | app/dns/cache_controller.go:59-76 | A new controller has an empty table and no migration. |
| DnsCache.CacheController.CollectExpiredKeys | app/dns/cache_controller.go:90-118 | Exactly the domains with an expired family, none during a migration. |
| DnsCache.CacheController.WriteAndShrink | app/dns/cache_controller.go:120-187 | The second phase as one function of the table, with the shrink that starts a migration. |
| DnsCache.CleanDropsExactly | app/dns/cache_controller.go:138-153 | Exactly the listed records that are expired at write time are dropped, and emptied domains with them. |
| DnsCache.WriteDropsExactly | app/dns/cache_controller.go:120-187 | Starting a migration changes no record: cleanup and shrink together drop exactly the listed expired ones. |
| DnsCache.CacheController.FlushBatch | app/dns/cache_controller.go:238-260 | One batch of the migration under the write lock. |
| DnsCache.FlushRefines | app/dns/cache_controller.go:238-260 | Any batch, in any order, leaves every record as it was and carries its keys over. |
| DnsCache.DropRefines | app/dns/cache_controller.go:228-231 | Dropping the old table is invisible once every key is carried over. |
| DnsCache.CacheController.Migrate | app/dns/cache_controller.go:206-231 | The whole migration leaves every record as it was. |
| DnsCache.CacheController.UpdateRecord | app/dns/cache_controller.go:262-337 | A reply is stored and the other family's record found in either table. |
| DnsCache.UpdateChangesOnlyItsFamily | app/dns/cache_controller.go:289-320 | An update changes the written family of its domain and nothing else, also during a migration. |
| DnsCache.CacheController.FindRecords | app/dns/cache_controller.go:339-353 | A lookup returns only abstract records and is exact outside a migration. |
| DnsCache.FindIsSoundAndAlmostExact | app/dns/cache_controller.go:339-353 | During a migration a record is missed exactly when the new table has the domain without that family and the old one still has it. |
| DnsCache.StepRefines | app/dns/cache_controller.go:182-260 | Each update, cleanup, batch or drop is the corresponding step on one map, where only updates and cleanups do anything. |
| DnsCache.EveryRunRefines | app/dns/cache_controller.go:182-260 | Updates, cleanups, batches and the final drop, in any order, refine a single map from domain and family to record. |
| DnsCache.NewControllerRefines | app/dns/cache_controller.go:182-260 | So from a new controller every run's records are those of one map that started empty. |
| DnsCache.MigrationCanEnd | app/dns/cache_controller.go:238-260 | Whenever a migration is under way, flushing what is left lets the old table be dropped. |
| DnsCache.WriteRebuildsIff | app/dns/cache_controller.go:120-187 | A cleanup starts a migration exactly if something is left, more than 10240 entries and more than 65 % below the peak; an emptied table forgets its peak from 512 on. |
| CacheQuery.QueryIPIs | app/dns/nameserver_cached.go:23-56 | The whole decision from the record's fields: fetch exactly for want of a record of an enabled family, or when the smallest time left, in seconds rounded up and at most 300 if both are asked for, has run out and may not be served stale; otherwise the addresses of the enabled families with code 0, A before AAAA, and without any the common reason or both. |
| CacheQuery.MergeIs | app/dns/nameserver_cached.go:164-213 | Merging the records of the enabled families gives all their addresses in order, the smallest time left, and no error as long as there is an address. |
| CacheQuery.DroppedIff | app/dns/cache_controller.go:97-153 | Cleanup drops a record exactly if it could not have been served any more just before. |
| CacheQuery.CleanupIsInvisible | app/dns/nameserver_cached.go:32-56 | For every time, option with a family and stale window, queryIP decides hit, stale or fetch with the same addresses before and after a cleanup. |
| CacheQuery.InvisibleIff | app/dns/nameserver_cached.go:32-56 | Exactly when that holds: some family is asked for and, when stale answers are served, the window is stored as a negative number. |
| CacheQuery.ConfiguredWindow | app/dns/cache_controller.go:64-64 | A configured window of x seconds is stored so exactly for 1 <= x <= 2^31; beyond that the int32 sign wraps. |
| CacheQuery.StoredTtlCancels | app/dns/cache_controller.go:64-64 | The stored window is the signed 32-bit number that cancels the configured one. |
| CacheQuery.OnlyEnabledFamiliesMatter | app/dns/nameserver_cached.go:164-213 | Merge looks only at the enabled families. |
| CacheQuery.RefreshedRecordSurvives | app/dns/cache_controller.go:138-153 | A record refreshed between collection and write is kept. |
| CacheQuery.CleanupIsComplete | app/dns/cache_controller.go:90-153 | Undisturbed, the two phases leave no record that was expired when keys were collected. |
| QueryRace.MergeQueryErrors | app/dns/dns.go:575-597 | Not-found errors are set aside; one common other error is reported, differing ones together, none as not found or empty. |
| QueryRace.MergedEmptyIff | app/dns/dns.go:575-597 | Errors merge to the empty response exactly if there are none, or an empty response and no third kind. |
| QueryRace.MergedOneIff | app/dns/dns.go:575-597 | An upstream's own error is reported exactly if it occurs and all others are it or record not found. |
| QueryRace.MergedNotFoundIff | app/dns/dns.go:575-597 | Record not found is reported exactly if nothing else occurred; an empty response is never wrapped. |
| QueryRace.MergedAllIff | app/dns/dns.go:575-597 | All errors are reported, in order, exactly if two of them differ and neither is record not found. |
| QueryRace.MakeGroups | app/dns/dns.go:738-792 | The groups tile the clients and two clients share one exactly if their whole stretch has one policy. |
| QueryRace.Settle | app/dns/dns.go:652-680 | The scan after an arrival reports the first arrived success of the current group or moves past groups that have replied in full and failed. |
| QueryRace.OnArrival | app/dns/dns.go:647-650 | Recording an arrival keeps the results table and the pending counters exact. |
| QueryRace.ParallelQuery | app/dns/dns.go:626-684 | For every arrival order: the answer is that of the client the race is first decided for, with every earlier group in and failed and no arrived peer before it; without a success the errors are merged in client order; a cancelled context is seen only while the race is open. |
| QueryRace.WinnerDecides | app/dns/dns.go:655-662 | A winner of the current group decides the race. |
| QueryRace.WaitingIsUndecided | app/dns/dns.go:664-667 | While the current group is open and without success nothing is decided, so no answer is late. |
| QueryRace.SerialQuery | app/dns/dns.go:599-624 | The first asked client with addresses answers, or the errors of those asked are merged. |
| QueryRace.ParallelSucceedsLikeSerial | app/dns/dns.go:599-684 | Parallel mode answers exactly if serial mode does, from a policy peer of the serial winner. |
| QueryRace.ParallelIsSerial | app/dns/dns.go:575-684 | With no two adjacent clients of one policy and none skipped, parallel mode returns the addresses, TTL and error of serial mode for every arrival order. |
| QueryRace.PeersCanOvertake | app/dns/dns.go:655-662 | Where two adjacent clients share a policy, some replies in some order make the modes differ. |
| QueryRace.SkippingShowsInErrors | app/dns/dns.go:702-706 | With a skipped FakeDNS client the modes report one failure exactly if the serial one is the empty response. |
| ClientOrder.MatcherInfos | app/dns/dns.go:118-139 | The rule table lists each client's rules in configuration order under its 16-bit index; up to 65536 clients it is ascending and names each client as often as it has rules. |
| ClientOrder.RuleTableTrueIff | app/dns/dns.go:118-139 | The table names the true owner of every rule exactly if no client from the 65537th on has rules. |
| ClientOrder.TakeMatched | app/dns/dns.go:504-532 | The owners of the matched rules, once each, in configuration order, up to a final client. |
| ClientOrder.TakeFallback | app/dns/dns.go:534-550 | The remaining fallback clients in configuration order, up to a final client. |
| ClientOrder.SortClientsForDomain | app/dns/dns.go:483-564 | The loops compute: matched clients, then fallback clients, cut after the first final one; failing all, the first client. |
| ClientOrder.OrderIsTwoRuns | app/dns/dns.go:504-550 | Matched clients lead, fallback clients follow, each part strictly ascending in configuration order. |
| ClientOrder.NoClientTwice | app/dns/dns.go:518-541 | No client is listed twice. |
| ClientOrder.FinalEndsOrder | app/dns/dns.go:527-563 | The list is empty only without clients, and only its last client can be final. |
| ClientOrder.NothingLeftOut | app/dns/dns.go:504-550 | A list that does not end in a final client leaves out no matched client, and no fallback client unless fallback is off. |
| ClientOrder.CandidateIff | app/dns/dns.go:504-550 | Who may be asked: a matched client, or with fallback on, neither switched off nor overruled by a match, one that does not refuse it. |
| ClientOrder.OnlyCandidatesAreAsked | app/dns/dns.go:504-550 | Only those are asked, except the first client when nobody may be. |
| ClientOrder.Sorter.Cached | app/dns/dns.go:460-465 | A memoized order is the order computed afresh. |
| ClientOrder.Sorter.Remember | app/dns/dns.go:469-477 | The memo stays within 4096 entries, all of them right, across overflow clears. |
| ClientOrder.Sorter.SortClients | app/dns/dns.go:456-479 | Whatever the memo holds, the answer is the order computed afresh for the lower-cased domain. |
| RawCache.RawResponseTTL | app/inbound/dns_raw_cache.go:183-205 | The shortest lifetime over all sections, SOA minimum included and OPT excluded; nothing if there are only OPT records. |
| RawCache.AdjustResourceTTLs | app/inbound/dns_raw_cache.go:119-133 | Every TTL but an OPT record's is aged and capped, in place. |
| RawCache.ServedInTime | app/inbound/dns_raw_cache.go:110-133 | A served TTL never reaches past the entry's expiry, sub-second truncation included. |
| RawCache.StoredSurvives | app/inbound/dns_raw_cache.go:168-180 | A stored entry is in front afterwards, whatever had to go. |
| RawCache.OthersUnchanged | app/inbound/dns_raw_cache.go:168-180 | Storing changes no other key's entry; it can only be evicted. |
| RawCache.FrontSurvives | app/inbound/dns_raw_cache.go:178-180 | Eviction takes only what no longer fits, from the least recently used end. |
| RawCache.TouchIs | app/inbound/dns_raw_cache.go:82-97 | A read moves a live entry to the front and takes an expired one out; all others keep their order. |
| RawCache.PushIs | app/inbound/dns_raw_cache.go:167-180 | A stored entry is followed by the others in their order, as many as both limits allow and no fewer. |
| RawCache.LifetimeIs | app/inbound/dns_raw_cache.go:183-205 | A record's lifetime is the smaller of its TTL and, for an SOA, its minimum. |
| RawCache.SecondsIs | app/inbound/dns_raw_cache.go:108-109 | Elapsed and remaining time are whole seconds toward zero, and below zero their 32-bit residue. |
| RawTable.Removed | app/inbound/dns_raw_cache.go:207-215 | Taking an element out of index and list deletes its key from the recency list and keeps the bijection. |
| RawTable.MovedToFront | app/inbound/dns_raw_cache.go:168-172 | Replacing an element's entry and moving it to the front. |
| RawTable.PushedFront | app/inbound/dns_raw_cache.go:173-177 | A new element at the front. |
| RawTable.Cache.constructor | app/inbound/dns_raw_cache.go:65-65 | A new cache is empty. |
| RawTable.Cache.RemoveElement | app/inbound/dns_raw_cache.go:207-215 | The list loses exactly that key; the byte count stays the sum of sizes. |
| RawTable.Cache.Evict | app/inbound/dns_raw_cache.go:178-180 | The loop ends, always finds a last element, and leaves the longest front part within both limits. |
| RawTable.Cache.Put | app/inbound/dns_raw_cache.go:135-181 | A cacheable response with a positive lifetime becomes the most recent entry, which query, response and time determine, of a list within both limits; anything else changes nothing. |
| RawTable.Cache.Get | app/inbound/dns_raw_cache.go:77-117 | A lookup is that of the recency list: an unexpired entry is served and moves to the front, an expired one is dropped. What is served is a fresh copy of the response stored last for the question; nothing is served exactly if there is no unexpired entry or query or stored bytes do not parse. |
| RawTable.Cache.Serve | app/inbound/dns_raw_cache.go:102-117 | The stored message under the query's ID, flags and questions, aged section by section. |
| RawTable.ServedIs | app/inbound/dns_raw_cache.go:98-116 | A hit repeats the stored message record by record under the query's ID, flags and questions, only the TTLs aged. |
| RawTable.HitIsFresh | app/inbound/dns_raw_cache.go:110-165 | So no record of the stored response is served beyond its own lifetime or the maximum TTL, counted from when it was stored. |
| RawTable.ServedIsFresh | app/inbound/dns_raw_cache.go:77-165 | Served from an entry that a put stored: now plus any TTL never passes the entry's expiry, which is the put's time plus the smaller of the shortest lifetime in its response and the maximum; a TTL is the largest that this and the original less the whole seconds elapsed allow; and the records are those of that response unless a name in it points at the transaction ID. |
| RateLimit.AskSpends | app/inbound/dns_access.go:132-147 | An admitted query spends one token of its own source, any other none. |
| RateLimit.RunSound | app/inbound/dns_access.go:132-147 | Over every run with nondecreasing time the buckets of the limiter that never forgets stay between 0 and burst. |
| RateLimit.TableSound | app/inbound/dns_access.go:115-147 | So do the buckets that are kept, for every positive rate and burst from 1 on, however often idle sources are forgotten. |
| RateLimit.WindowBound | app/inbound/dns_access.go:115-148 | In any stretch of queries no source is admitted more often than burst + rate * elapsed, for any decisions that follow the limiter that never forgets. |
| RateLimit.ForgettingIsInvisibleIff | app/inbound/dns_access.go:14-14 | Forgetting a source after 300 s gives it nothing, whatever its bucket held, exactly if burst <= 300 * rate. |
| RateLimit.CheckRefines | app/inbound/dns_access.go:115-148 | With burst <= 300 * rate a check decides as the limiter that never forgets, unless a new source finds no room. |
| RateLimit.NoRoomIff | app/inbound/dns_access.go:126-131 | A source finds no room exactly if it is not kept and maxClients sources seen within the retention time are. |
| RateLimit.SourceLimiter.RemoveIdle | app/inbound/dns_access.go:173-180 | Exactly the sources not seen for 300 s go. |
| RateLimit.SourceLimiter.Allow | app/inbound/dns_access.go:115-148 | The method is the check: sweeps at every 256th check and at the cap, at most maxClients sources. |
| RateLimit.GlobalLimiter.Allow | app/inbound/dns_access.go:150-170 | The global bucket is the limiter that never forgets with one source. |
| RateLimit.RunRefines | app/inbound/dns_access.go:115-148 | Along every run what is kept is kept exactly and what is forgotten would be full again. |
| RateLimit.RunBounded | app/inbound/dns_access.go:115-180 | With burst <= 300 * rate every run of a new limiter keeps the window bound for every source and stretch. |
| RateLimit.AllowAll | app/inbound/dns_access.go:115-148 | Queries put to the limiter object get the decisions of the run. |
| RateLimit.AllowAllGlobally | app/inbound/dns_access.go:150-170 | Putting queries to the limiter on all queries gives the decisions of a limiter that never forgets one source. |
| RateLimit.GlobalBounded | app/inbound/dns_access.go:150-170 | In any stretch of queries no more are admitted by it than burst plus what the rate refills meanwhile, for every valid limit. |
| RateOverrun.Overrun | app/inbound/dns_access.go:119-131 | With an integral burst > 300 * rate and room for two sources, some run of a new limiter breaks the window bound. |
| NftFlush.Coalesce | app/dnsnftset/writer.go:333-354 | One update per element, with the longest timeout of the batch and only if its element is not known to be live; the rest are counted as duplicates. |
| NftFlush.Record | app/dnsnftset/writer.go:365-402 | Results are counted by kind, confirmed elements remembered until their timeout, and each failure text listed once. |
| NftFlush.FailuresInOrder | app/dnsnftset/writer.go:387-396 | The failure texts are listed in the order in which they first occur. |
| NftFlush.CountIs | app/dnsnftset/writer.go:365-402 | Of the results without an error, those that say applied are counted as applied and the other existing ones as existing. |
| NftFlush.RememberedIs | app/dnsnftset/writer.go:367-386 | After a batch an element is remembered as the kernel confirmed it, otherwise as before. |
| NftFlush.Trim | app/dnsnftset/writer.go:403-417 | At most 65536 elements are remembered; expired ones go first and live ones only as far as needed. |
| NftWriter.BuildUpdates | app/dnsnftset/writer.go:148-173 | The updates of an answer, address by address and set by set, and how many addresses were filtered. |
| NftWriter.ForIpsIs | app/dnsnftset/writer.go:153-171 | Exactly the safe addresses of the answer are written, each under its bytes to the sets of its family, for the TTL in seconds and at least one. |
| NftWriter.UnsafeIs | app/dnsnftset/writer.go:153-171 | Unsafe are 0.0.0.0/8, 127.0.0.0/8, :: and ::1. |
| NftWriter.Writer.constructor | app/dnsnftset/writer.go:87-131 | A new writer is empty and not ready before its first probe. |
| NftWriter.Writer.Emit | app/dnsnftset/writer.go:143-188 | An answer's updates are accepted whole, or dropped whole when the queue is full, or ignored after Close; unsafe addresses are counted either way. |
| NftWriter.Writer.Enqueue | app/dnsnftset/writer.go:176-188 | The locked part of Emit. |
| NftWriter.Writer.Probe | app/dnsnftset/writer.go:202-212 | A successful probe starts a new generation; ready means probe and write are healthy. |
| NftWriter.Writer.Shut | app/dnsnftset/writer.go:423-426 | After the locked part of Close nothing is accepted. |
| NftWriter.Writer.Close | app/dnsnftset/writer.go:421-430 | Close returns, whichever ready case the worker picks and whatever producers and probes do meanwhile; then the worker is gone and everything ever accepted has been flushed, in order, and counted once. |
| NftWriter.Write | app/dnsnftset/writer.go:333-418 | A batch is coalesced, submitted and recorded, whatever the kernel replies: the tally counts the results by kind, and a wrong number of results makes every submitted element an error. |
| NftWriter.Writer.Flush | app/dnsnftset/writer.go:333-418 | Applied, existing and failed grow by the results of their kind and duplicates by what was not submitted, together by the batch length; an update is redundant only if another of the batch stands for it or the kernel confirmed its element beyond now. |
| NftWriter.Writer.Forget | app/dnsnftset/writer.go:270-273 | Before each batch the worker forgets what it knew before the latest successful probe. |
| NftWriter.Writer.Work | app/dnsnftset/writer.go:299-330 | After Close every step of the worker brings its end nearer. |
| NftWriter.Writer.FlushBatch | app/dnsnftset/writer.go:268-277 | One pass of the flush loop: the next 1 to BatchSize updates in order; producers, probes and Close may come before the next pass. |
| NftWriter.Writer.FlushEnd | app/dnsnftset/writer.go:278-284 | The loop ends with less than a batch pending and the timer running for it, or, after the timer and at the end, with nothing pending; a worker that leaves has flushed everything accepted, in order, and counted it once. |
| NftWriter.Writer.OnItem | app/dnsnftset/writer.go:302-313 | A dequeued result keeps: batches + pending + queue is everything accepted, in order, and the timer runs whenever something waits for it. |
| NftWriter.Writer.OnTimer | app/dnsnftset/writer.go:314-316 | The timer makes the worker flush everything. |
| NftWriter.Writer.Drain | app/dnsnftset/writer.go:317-330 | After Close the worker takes every queued result before its last flush. |
| CnameChase.CheckQuestion | app/dns/dnscommon.go:186-211 | A response passes exactly if it is one, with the request's ID, opcode and only question. |
| CnameChase.BuildAliases | app/dns/dnscommon.go:235-246 | A conflict is reported exactly if two records of the class name different targets for one owner, up to letter case; otherwise the table holds each owner's last record. |
| CnameChase.Follow | app/dns/dnscommon.go:247-260 | The chase ends on every table; it fails exactly if whatever the chain reaches is an alias again. |
| CnameChase.ClosedIsEndless | app/dns/dnscommon.go:249-252 | A set of aliases whose targets lie in the set makes the chain endless. |
| CnameChase.EndlessIffRepeats | app/dns/dnscommon.go:247-260 | The chain comes to no end exactly if it reaches some name twice. |
| CnameChase.IncludeTracks | app/dns/dnscommon.go:220-234 | The running TTL is the smallest of those seen, each clamped to 1 .. 2^31 - 1. |
| CnameChase.ClampIsNearest | app/dns/dnscommon.go:220-234 | A clamped TTL is the nearest value from 1 to 2^31 - 1. |
| CnameChase.Collect | app/dns/dnscommon.go:261-275 | The addresses are, in order, those of the records of the class and type at the end of the chain. |
| CnameChase.SelectedIs | app/dns/dnscommon.go:261-265 | Exactly those records are used, each as often as it occurs. |
| CnameChase.ParseResponse | app/dns/dnscommon.go:182-278 | Success exactly for a matching response without conflict and with an ending chain; then those addresses with the smallest TTL of chain and used records, 300 if there are none. |
| TlsRecords.CompleteTLSRecordBytes | app/dispatcher/sniffer.go:179-190 | The loop counts the bytes of whole TLS records at the front. |
| TlsRecords.CompleteIsLongest | app/dispatcher/sniffer.go:179-190 | That is the longest prefix made of whole records. |
| TlsRecords.ScanOn | app/dispatcher/sniffer.go:124-126 | Scanning on from the records already counted gives the count of the whole. |
| TlsRecords.SniffSNIWithStatus | common/protocol/tls/tls.go:37-93 | Shortcut and reassembly loop say what record-by-record reassembly says. |
| TlsRecords.ShortcutAgrees | common/protocol/tls/tls.go:44-57 | The single-record shortcut agrees with reassembly. |
| TlsRecords.ReassembleSettles | common/protocol/tls/tls.go:59-92 | Once no more bytes are needed, more bytes change nothing. |
| TlsRecords.HostIsFinal | common/protocol/tls/tls.go:59-92 | A host name is given only when no more bytes are needed. |
| TlsRecords.FramedIsRead | common/protocol/tls/tls.go:37-93 | However a ClientHello of 34 to 2^20 bytes is cut into records of 1 to 18432 bytes, it is read back whole, and a part of it asks for more. |
| TlsRecords.Refused | common/protocol/tls/tls.go:37-93 | Another content type, an empty or longer record, another message and any other length are refused. |
| Sniffer.ContainsHeaderEnd | app/dispatcher/sniffer.go:192-199 | True exactly if there is an empty line. |
| Sniffer.EndAtIs | app/dispatcher/sniffer.go:192-199 | An empty line is CR LF CR LF. |
| Sniffer.HttpVerdict | app/dispatcher/sniffer.go:134-143 | A header block is judged by its host alone; without one more is read within the limit exactly while the bytes may become a request. |
| Sniffer.MethodPrefixIff | app/dispatcher/sniffer.go:159-190 | They may exactly if they agree, as far as they go and up to letter case, with one of the eight methods. |
| Sniffer.TlsVerdict | app/dispatcher/sniffer.go:121-133 | A whole ClientHello, however cut into records and whatever follows, gives its host; a part of one asks for more. |
| Sniffer.SniffNeedsMore | app/dispatcher/sniffer.go:159-177 | More bytes are wanted below the limit for TLS, and for an unfinished header that starts like a method. |
| Sniffer.CountOn | app/dispatcher/sniffer.go:123-133 | Counting only the new bytes, and parsing only when a record was completed, misses nothing. |
| Sniffer.Consider | app/dispatcher/sniffer.go:121-144 | One round of the loop gives the verdict on all bytes so far. |
| Sniffer.SniffMetadata | app/dispatcher/sniffer.go:103-157 | For every sequence of reads: how many bytes are consumed, a prefix of the stream within maxBytes; the answer is the verdict on them, and only a read error cuts it short. |
| Sniffer.TlsSegmentsDoNotMatter | app/dispatcher/sniffer.go:115-133 | For TLS the verdict at any point where a run can end gives the answer for all the bytes. |
| Sniffer.HttpSegmentsDoNotMatterIff | app/dispatcher/sniffer.go:134-143 | Otherwise that holds at every such point exactly if the answer for all the bytes is none or they start like one of the methods. |
| Sniffer.EveryTlsSegmentation | app/dispatcher/sniffer.go:103-157 | For TLS, every sequence of reads that no error cuts short gets the answer for all readable bytes at once. |
| Sniffer.TlsRunsAgree | app/dispatcher/sniffer.go:103-157 | Two runs over one TLS stream agree. |
| Sniffer.EveryHttpSegmentationIff | app/dispatcher/sniffer.go:103-157 | Otherwise all sequences of reads get that answer exactly if it is none or the bytes start like one of the methods. |
| Sniffer.PrependConn.Read | app/dispatcher/sniffer.go:210-217 | Reads of any size continue the stream exactly where it stopped. |
| Sniffer.PrependConn.WriteTo | app/dispatcher/sniffer.go:222-237 | Whatever the writer takes, what it received and what is to come are together the stream; without an error all of it was written. |
| Sniffer.SniffAndReplay | app/dispatcher/sniffer.go:103-157 | Sniffing loses nothing: the returned connection delivers the stream from its first byte. |

## Left out

- Socket, TLS, HTTP, netlink, WireGuard and SOCKS5 input and output, process lookup, service installation, configuration decoding, metrics and logging are not modelled.
- Packing and parsing of DNS messages, of a ClientHello body and of an HTTP header block are functions given as parameters; packing is taken to succeed.
- Geosite and domain matching is a function from a lower-cased domain to rule indices, fixed for the life of the memo; sorting those indices is a parameter with the contract of a sort.
- Singleflight, publish and subscribe, and context plumbing around a fetch are not modelled; the query model starts from the clients' replies and an arrival order.
- Background query slots and client timeouts are not modelled: a client's reply is whatever arrives.
- Panic recovery in cache migration is not modelled.
- Lower-casing and case-insensitive comparison are those of ASCII; the Go functions also fold other letters.
- Service: the lease a reload holds on the current snapshot is an ordinary lease of some actor, which may also end before the reload does.
- Service: the drain timer may fire at any time after it is armed; the 30-second bound is not modelled.
- Reload: concurrent requests appear only as leases that come and go; a concurrent Close can come right before the swap, which is where the code looks for it.
- Reload: which listener fails to validate, to commit or to be put back, and whether build, probe and activation work, are parameters; the rules of validation are not modelled.
- IpSet: an address set is a finite list of prefixes, not the canonical ranges of the library; `reverse` is fixed during a call.
- IpMulti: one pass per family fills a view; the source fills both families in one pass over the list with the same result.
- DnsCache: records are values, so that a table and its predecessor share record objects during a migration is not captured; the code writes into shared records only when no migration is running.
- DnsCache: republication of the other family's record is the returned value; the subscribers are not modelled.
- QueryRace: errors are compared by identity; wrapped errors that `errors.Is` would see through are not modelled.
- RawTable: a stored response whose names point at its transaction ID is served as its stored bytes read, with that ID cleared.
- RawTable: list elements are numbers instead of pointers; a disabled cache and the validation of its limits are not modelled.
- RateLimit: time is nondecreasing over a run and arithmetic is exact; rounding of floating-point tokens is not modelled.
- RateLimit.SourceLimiter.Allow: the check counter is unbounded; its 64-bit wrap-around does not matter to a test modulo 256.
- RateOverrun.Overrun: only for an integral burst, which is what the configuration holds.
- NftFlush: an element is named by its set and key, not by the concatenated string the code uses.
- NftWriter: one batch, with its look at the probe generation before and its counters and health after, is one step.
- NftWriter: the queue counter is updated together with the queue; between the two operations the code's counter can be off by one.
- CnameChase: parsing errors of the message itself are not modelled.
- Sniffer: the QUIC sniffer and read deadlines are not modelled; a deadline shows as a failed read.
- Sniffer.EveryHttpSegmentationIff: takes from the header parser only that a header block with a host has at least five bytes.
