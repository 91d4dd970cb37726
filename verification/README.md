# A verified model of enrscout's protocols and algorithms

enrscout crawls Ethereum's discovery networks, keeps a bounded set of nodes, publishes snapshots of it, answers
queries about fork readiness over the snapshots, and publishes EIP-1459 DNS trees from them. This project models the
parts whose correctness spans several steps or several functions, and proves what they promise.

| area | files |
|---|---|
| snapshot commit protocol: any number of writers, ambiguous calls, crash and restart | `Publish.dfy`, `PublishProofs.dfy`, `Admission.dfy`, `Pruning.dfy`, `CleanRuns.dfy` |
| fork readiness, in Go and as a rendered SQL predicate | `Readiness.dfy`, `Sql.dfy`, `ReadinessSql.dfy`, `Targets.dfy`, `Lagging.dfy` |
| fork schedules: epochs, digests, fork ids, memo keys, cancellations, the cache token | `ClSchedule.dfy`, `ElSchedule.dfy`, `ElMembership.dfy`, `EraToken.dfy`, `Cancel.dfy`, `BpoNames.dfy`, `CancelRules.dfy`, `CancelDigests.dfy`, `CanonicalSchedule.dfy` |
| node set: rows, probe claims, eviction, the exact counter | `Nodes.dfy`, `RowRules.dfy`, `Probes.dfy`, `ClaimOwners.dfy`, `ClaimPool.dfy`, `TopK.dfy`, `Eviction.dfy`, `NodeSet.dfy`, `SetRules.dfy` |
| DNS zone: plans, interrupted writes, TXT values, change batches | `Zone.dfy`, `LiveZone.dfy`, `Txt.dfy`, `Batches.dfy` |
| tree selection: IPv6 reservation and largest-remainder shares | `Apportion.dfy`, `Select.dfy` |
| expiring map over a lazy heap | `Heap.dfy`, `ExpiringMap.dfy` |
| coalescing LRU cache under concurrent requests | `Lru.dfy`, `LruRuns.dfy` |
| HyperLogLog slots and hourly windows | `Hll.dfy`, `HllWindow.dfy`, `HllState.dfy` |
| shared lemmas | `Text.dfy`, `Collections.dfy`, `Arithmetic.dfy`, `Sorting.dfy`, `Sums.dfy`, `Folding.dfy` |

`dafny verify dfyconfig.toml` checks everything.

## How the code is represented

- What runs under a lock or in one store call is one step; concurrency is every interleaving of steps. The commit
  protocol, the live zone, the probes of one row, the probe pool and the cache are state machines, and their theorems
  are about every reachable state.
- Stateful objects are classes (`ExpiringMap`, `Best`, `Set`, `Store`, `Counters`, `ForkMemo`) whose methods are proved
  against functions of the old state; loops stay loops with invariants.
- A node set row is a value: rows never leave the set's lock, so nothing aliases them.
- Go map iteration is an arbitrary order. Time is an integer. Go's truncating division is written out.
- Hashes, digests and signatures are named by what goes into them, that is, taken as injective.
- The float64 quotients of the selection are exact rationals, compared by their numerators over a common divisor.
- An object store or DNS call may fail before or after it takes effect.

## Findings

Seven properties hold only under a condition, which is proved exact:

- The SQL readiness filters compare `lower(fork_hash)` with plain hex, while the Go rule strips spaces and a `0x` prefix
  (`internal/netconf/netconf.go:231-239`). The two agree on a tracked row if and only if the row does not carry a decorated
  spelling of the current hash, or is counted as on a cancelled fork anyway (`SqlAgreesWithGo`; a concrete row in
  `PrefixedHashDisagrees`).
- The consensus digest is constant until the computed next epoch if and only if Fulu's epoch is itself a fork or live blob
  entry, is genesis, or never comes (`DigestConstantUntilNext`). Built-in schedules, and what accepted cancellations leave
  of them, always meet this (`BuiltCoversFulu`, `CancellationsKeepSturdy`). A devnet whose `FULU_FORK_VERSION` is a bare
  `0x` is registered without Fulu's fork but with its epoch and can break it (`BarePrefixUncoversFulu`; the exact
  condition on the files is in `LoadedIsConstantExactly`).
- With one writer the committed content matches its recorded hashes in every state if and only if no upload takes effect
  on an object that the stored manifest names with another content (`ContentMatchesExactly`). It suffices that an
  attempt's instant differs from the stored manifest's when it begins (`FreshAttemptsKeepContent`); a backward clock step
  can break it (`SharedInstantMismatch`).
- Pruning leaves all of the newest generations it is to keep if and only if the generation the manifest names is none of the
  older ones; otherwise the named one takes the place of the oldest of them (`NewestSurvive`).
- Restoring rows, what is added, dropped and evicted adds up to the rows if and only if no usable row repeats an id
  retained by then (`RestoringConserves`); the caller reports any other sum as an overfull set.
- `EpochAt` and `TimeAtEpoch` are a Galois pair except at the last representable second, for an epoch that begins after it
  (`EpochTimeGalois`).
- An estimate counts every sighting of its window if and only if no later call pruned the hour of one; nondecreasing hours
  suffice, and `GoingBackLosesSightings` shows what a clock going back does.

## Model

| member | source | states |
|---|---|---|
| PublishProofs.EveryCommitSupersedes | cmd/crawler/publisher.go:67-129 | in every run of any number of writers with stale but once-true reads, each committed manifest is strictly later than the one it replaced, which was absent, the writer's own previous one, or an earlier write of the same run |
| PublishProofs.CommitSupersedes | internal/snapshot/snapshot.go:318-364 | whatever happened between the version read and the conditional put, a put that takes effect supersedes what was stored |
| PublishProofs.StoredOnce | cmd/crawler/publisher.go:133-135 | two manifests that were ever stored and share an instant are the same manifest, so matching by run and instant identifies one |
| PublishProofs.GuardOverriddenOnce | cmd/crawler/publisher.go:249-265 | over every run each incarnation of a process commits at most one manifest that overrode the shrink guard, and once a forced write was issued no later admission of it is forced |
| Admission.QuarantinedExactly | cmd/crawler/publisher.go:249-391 | a publish is quarantined exactly when a network misses the floor, or some network's rows, or current rows with no fork to explain it, fell by more than the limit in percent and no override is left |
| Admission.AdmittedExactly | cmd/crawler/publisher.go:202-265 | otherwise it uploads a manifest that is later than the previous one, says of each configured network what was measured, and is forced exactly when the rows collapsed |
| Admission.NoLossIsAdmitted | cmd/crawler/publisher.go:341-391 | a manifest in which no network lost a row is never held back |
| CleanRuns.PublishCommits | cmd/crawler/publisher.go:67-129 | an admitted publish of a lone writer that nothing disturbs ends idle with the measured manifest stored, every generation it names in place with its content, and at most the configured number of generations of each network |
| CleanRuns.CommitReaches | internal/snapshot/snapshot.go:318-364 | over the manifest it knows, absence included, a process commits its own and settles its override |
| CleanRuns.PutsOverExactly | internal/snapshot/snapshot.go:318-364 | a put follows exactly a read of nothing when nothing is known, of the known manifest, or of an earlier one of the same run |
| CleanRuns.ConflictSettles | cmd/crawler/publisher.go:138-164 | after a conflict the process goes on exactly when its write landed, its run wrote later than what it knew, or that is still stored |
| CleanRuns.PruningReaches | cmd/crawler/publisher.go:439-487 | pruning visits every network, ends, and leaves at most the configured number of generations of each, never removing the one the manifest names |
| CleanRuns.CleanupReaches | cmd/crawler/publisher.go:488-514 | a cleanup ends and deletes exactly the given keys |
| Pruning.NewestSurvive | cmd/crawler/publisher.go:439-487 | of a listing longer than that the named generation and the newest ones are left; all of the newest exactly when the named one is none of the older ones |
| PublishProofs.ForcedMeansShrank | cmd/crawler/publisher.go:341-366 | an admitted manifest is forced exactly when it shrank too much, which needs the override configured and unspent; none below the floor is admitted |
| PublishProofs.CommittedIsServable | cmd/crawler/publisher.go:439-514 | with one writer, linearizable reads and crashes anywhere, every generation the committed manifest names is present; its content matches the recorded hash while no two attempts shared an instant |
| PublishProofs.ContentMatchesExactly | cmd/crawler/publisher.go:274-290 | with one writer the committed content matches the recorded hashes in every state if and only if no upload takes effect on an object the stored manifest names with another content |
| PublishProofs.UploadBreaksExactly | cmd/crawler/publisher.go:274-290 | one upload breaks a matching store exactly when it overwrites such an object |
| PublishProofs.FreshAttemptsKeepContent | cmd/crawler/publisher.go:67-136 | the content always matches when each attempt's instant differs from that of the manifest stored when it begins, whatever instants failed attempts used |
| PublishProofs.CleanupKeeps | cmd/crawler/publisher.go:488-514 | deleting the orphans of a failed attempt never deletes a generation the stored manifest names |
| PublishProofs.PruneKeeps | cmd/crawler/publisher.go:439-487 | pruning old generations never deletes one the stored manifest names |
| PublishProofs.SharedInstantMismatch | cmd/crawler/publisher.go:274-290 | a run in which two attempts share an instant and the stored manifest's hash no longer matches its object: no condition on the instants at all is not enough |
| PublishProofs.ChainStep | cmd/crawler/publisher.go:138-164 | one step of any process, conflicts and adoption included, keeps the chain of commits: each replaces exactly the one before it |
| Readiness.NextAcceptedExactly | internal/netconf/netconf.go:313-324 | a Next is accepted exactly when it is absent, a block number above the head, or a time still to come |
| Readiness.ELCurrentExactly | internal/netconf/netconf.go:332-356 | an execution row is current exactly on the current hash with such a Next, never once its fork time has passed |
| ReadinessSql.TrackedExactly | internal/netconf/readiness.go:286-334 | a row is tracked exactly when the rule gives it a state |
| ReadinessSql.SqlAgreesWithGo | internal/netconf/readiness.go:286-334 | the SQL reading and ReadinessAt give a tracked row the same state if and only if its hash is not a decorated spelling of the current one, or it is affected by the cancelled fork |
| ReadinessSql.ReadinessConditionAt | internal/query/readiness.go:222-322 | the rendered condition, under three-valued evaluation with its arguments bound by position, is TRUE on exactly the rows whose state is the wanted one, NULL columns read as zero values |
| ReadinessSql.ReadinessFilters | internal/query/readiness.go:76-207 | the six filters partition the rows of a tracked layer: each row satisfies exactly one |
| ReadinessSql.CurrentForkConditionAt | internal/query/query.go:723-766 | the rendered currency condition is TRUE on exactly the current rows of the listed networks, with as many arguments as placeholders |
| ReadinessSql.AddEL | internal/query/readiness.go:222-322 | the execution part selects exactly the execution rows whose state under the Go rule is the wanted one, in all three phases |
| ReadinessSql.AddCL | internal/query/readiness.go:222-322 | the same for the consensus part |
| ReadinessSql.InList | internal/query/readiness.go:385-394 | on a text value the IN list is TRUE on case-insensitive members and FALSE on everything else, an empty list included |
| ReadinessSql.NextTests | internal/netconf/netconf.go:313-324 | the rendered range tests accept exactly the Next values of the canonical ranges |
| ReadinessSql.CurrencyAgrees | internal/netconf/netconf.go:347-356 | the SQL notion of a current row is the Go one restricted to undecorated hashes |
| ReadinessSql.CurrencyDecides | internal/netconf/readiness.go:340-366 | the verdict on currency changes the state of every tracked row except an affected one |
| ReadinessSql.PrefixedHashDisagrees | internal/netconf/netconf.go:231-239 | a concrete row with a 0x-prefixed hash on which SQL and Go differ |
| Sql.KleeneLaws | internal/query/readiness.go:222-322 | the connectives of the rendered conditions obey Kleene's laws: duality, units, commutativity and associativity |
| Sql.BindBoth | internal/query/query.go:1004-1009 | joining two conditions joins their argument lists: each side reads its own |
| Text.ParsesToExactly | internal/netconf/netconf.go:231-239 | a text parses to a hash exactly when, stripped and lower-cased, it is the hash's hex |
| Targets.ELTargetAt | internal/netconf/readiness.go:185-217 | the execution target is the earliest upcoming fork, the last listed of a tie, or else the latest passed one within fourteen days |
| Targets.CLTargetAt | internal/netconf/readiness.go:219-265 | the same choice for the consensus layer over its sorted transitions |
| Targets.ELTargetAfterActivation | internal/netconf/readiness.go:185-217 | a fork scheduled before its activation stays tracked within grace, unless a later one is scheduled or has passed; whatever else is listed |
| Targets.CLTargetAfterActivation | internal/netconf/readiness.go:219-265 | the same for the consensus layer, by epoch |
| Targets.SoonestELIsTracked | internal/netconf/cancel.go:302-329 | once the cancelled forks are taken in, no upcoming fork, real or cancelled, is sooner than the execution target, and there is none only when there is nothing to track |
| Targets.SoonestCLIsTracked | internal/netconf/cancel.go:302-329 | the same for the consensus layer |
| Lagging.ELRowWhileScheduled | internal/netconf/readiness.go:185-217 | a row on the fork id of the second before the tracked fork that announces it is ready while the fork is scheduled, its time being no block number |
| Lagging.ELRowOnceActivated | internal/netconf/readiness.go:286-366 | once the fork has activated that row is pending, unless it is still current, and never stale |
| Lagging.ELRowBeforeCancelled | internal/netconf/cancel.go:339-350 | a row on the recorded id of the second before a cancelled fork that announces it is not ready, current or not |
| Lagging.CLRowWhileScheduled | internal/netconf/readiness.go:219-265 | a row on the digest of the epoch before the tracked fork that advertises it is ready while the fork is scheduled |
| Lagging.CLRowOnceActivated | internal/netconf/readiness.go:286-366 | once the fork has activated that row is pending, unless it is still current, and never stale |
| Lagging.CLRowBeforeCancelled | internal/netconf/cancel.go:252-283 | a row on the digest recorded before a cancelled fork that advertises it is not ready, current or not |
| Lagging.TransitionsListChanges | internal/netconf/consensus.go:141-164 | the transitions of a schedule that covers Fulu name every epoch at which it changes |
| Targets.ELChosenOnce | internal/netconf/readiness.go:185-217 | the execution choice is unique |
| Targets.CLChosenOnce | internal/netconf/readiness.go:219-265 | the consensus choice is unique |
| Targets.PickCancelled | internal/netconf/cancel.go:302-329 | a layer's cancelled fork is the next upcoming one, or else the latest within grace |
| Targets.OneUpgradePerView | internal/netconf/readiness.go:111-137 | the layers a view keeps share an instant, and one is dropped only for a better tracked one |
| Targets.ChosenTargetsAreValid | internal/netconf/readiness.go:158-176 | every chosen target, scheduled, activated or cancelled, meets what both readiness rules rely on |
| ClSchedule.EpochTimeGalois | internal/netconf/consensus.go:78-97 | an instant is in or past an epoch if and only if it is at or past the epoch's start, except at the last representable second when the epoch begins after it |
| ClSchedule.EpochContains | internal/netconf/consensus.go:78-104 | an epoch holds exactly the instants from its start to the next one's |
| ClSchedule.DigestExactly | internal/netconf/consensus.go:173-195 | a digest carries the version of the last listed fork that has begun, from Fulu on masked with the last live blob entry that has, and there is none exactly when Fulu was reached before any |
| ClSchedule.NewVersionChangesDigest | internal/netconf/consensus.go:173-195 | the digests on the two sides of a fork with a new version differ |
| ClSchedule.NewBlobChangesDigest | internal/netconf/consensus.go:173-195 | so do those on the two sides of Fulu, and from Fulu on of a live blob entry that differs from the one before |
| ClSchedule.StateExactly | internal/netconf/consensus.go:218-257 | the state names a next transition exactly when a fork or live blob entry lies ahead: the instant the first such epoch begins |
| ClSchedule.DigestConstantUntilNext | internal/netconf/consensus.go:173-257 | the digest is constant up to the computed next epoch if and only if Fulu is covered by a transition |
| ClSchedule.NextIsNext | internal/netconf/consensus.go:218-257 | the next epoch is that of a fork or live blob entry, and none lies strictly between |
| ClSchedule.EveryDigestIsMember | internal/netconf/consensus.go:259-279 | on a regular schedule the digest active at any epoch is in the membership cache |
| ClSchedule.ComputeDigests | internal/netconf/consensus.go:259-279 | the cache holds exactly the digests of the regular forks and of the live blob forks from Fulu on |
| ClSchedule.MembersExactly | internal/netconf/consensus.go:259-279 | the cache holds each fork's raw digest before Fulu, and from Fulu on the digest in force when a fork or a live blob entry begins, and nothing else |
| ClSchedule.ForkAtLoop | internal/netconf/consensus.go:106-118 | the loop is the fork scan that the digest lemmas are about |
| ClSchedule.BlobAtLoop | internal/netconf/consensus.go:120-136 | the loop is the blob scan that skips cancelled entries |
| ElSchedule.ForkIdFrom | internal/netconf/forkid.go:24-39 | the loops over blocks and times compute the id whose hash covers the forks passed and whose Next is the first one not passed |
| ElSchedule.IdStable | internal/netconf/forkid.go:24-39 | no fork in between means the same fork id |
| ElSchedule.EraDeterminesId | internal/netconf/netconf.go:124-133 | two instants of one era have the same fork id, so the era is a sound memo key |
| ElSchedule.ForkMemo.CurrentForkIdAt | internal/netconf/netconf.go:201-214 | the memoised fork id always equals recomputation |
| ElMembership.GatherHashes | internal/netconf/netconf.go:136-162 | the gathered hashes are exactly the fork hashes over every second of the window |
| ElMembership.IndexCancellations | internal/netconf/cancel.go:339-379 | every fork id of a schedule that kept one or all compiled cancelled forks is canonical or indexed |
| ElMembership.RecordHashes | internal/netconf/cancel.go:339-350 | the loop records, per cancelled fork, the canonical hash of the second before it and the hash it would have brought |
| ElMembership.CancelledPreHash | internal/netconf/cancel.go:339-350 | until then the schedule that kept the fork has passed the canonical activations, which `SameHash` says is to have the canonical hash |
| ElMembership.CancelledPostHash | internal/netconf/cancel.go:339-350 | from then on it has a hash no canonical instant has, the forks by block being behind |
| ElMembership.AddHash | internal/netconf/cancel.go:339-379 | afterwards the hash is canonical or indexed, and everything known before still is |
| EraToken.ForkEraTokenAt | internal/netconf/netconf.go:248-282 | the token of the networks and the earliest transition: one of theirs, before which no part of the token changes |
| EraToken.TokenConstantUntilNext | internal/netconf/netconf.go:248-282 | the token is the same at every instant from now up to the returned transition, forever if there is none |
| EraToken.TokenChanges | internal/netconf/netconf.go:248-282 | the token differs on the two sides of an execution fork, a new consensus version or a cancelled activation of any of the networks |
| EraToken.TokenSameExactly | internal/netconf/netconf.go:248-282 | tokens of two instants are equal if and only if every network's part is |
| EraToken.ReusedAsLongAsAllowed | cmd/api/main.go:457-471 | a response is fresh for the most whole seconds that the limit and the transition allow, and stale for a minute more exactly when that ends before it |
| EraToken.NetworkTransition | internal/netconf/cancel.go:441-452 | one network's next era, epoch transition or cancelled activation is not missed |
| EraToken.TokenAndReuse | cmd/api/main.go:457-471 | no instant within max-age plus stale-while-revalidate has another token |
| Cancel.ApplyCancellations | internal/netconf/cancel.go:93-124 | the loop applies the list as its specification says, and reports an error exactly when that does |
| CancelRules.AcceptedExactly | internal/netconf/cancel.go:133-179 | an entry is accepted exactly when it is named, names a layer, agrees with the compiled execution schedule, can be removed from the consensus one, and means one instant |
| CancelRules.NamedGoes | internal/netconf/cancel.go:199-226 | a scheduled fork goes only at its own epoch and version, never Electra or Fulu, and with it exactly the blob entries of its epoch |
| CancelRules.AbsentIsRecorded | internal/netconf/cancel.go:226-230 | a fork the schedule lacks is recorded as described, and nothing goes |
| CancelRules.BPOIsMarked | internal/netconf/cancel.go:231-243 | a blob-parameter fork is cancelled only with its own blob count and the version in force, and is only marked |
| CancelRules.AbsentBPOIsRecorded | internal/netconf/cancel.go:244-248 | one the compiled schedule lacks is recorded if the entry gives its blob count |
| CancelRules.RecordedByInstant | internal/netconf/cancel.go:93-124 | the cancellations of an accepted list are kept in the order of their instants, one for each entry |
| Cancel.OrderDoesNotMatter | internal/netconf/cancel.go:93-124 | for distinct forks at distinct instants every order of the list gives the same verdict, schedule and recorded cancellations |
| Cancel.CancelCommutes | internal/netconf/cancel.go:133-179 | two such cancellations commute, errors included |
| Cancel.RemoveCommutes | internal/netconf/cancel.go:199-248 | removals at different epochs of different names do not see each other |
| Cancel.PairwiseIsAllDistinct | internal/netconf/cancel.go:93-124 | entries pairwise distinct by position are distinct as the order theorem asks |
| Folding.FoldPermutes | internal/netconf/cancel.go:93-124 | a fold over pairwise commuting distinct entries depends only on which entries there are |
| BpoNames.SurvivorsKeepTheirNames | internal/netconf/consensus.go:141-164 | after any accepted list exactly the compiled blob-parameter forks that no entry calls off remain, each under its compiled number |
| BpoNames.BlobTransitions | internal/netconf/consensus.go:141-160 | the loop numbers every blob fork, skips the cancelled ones and keeps the version of their epoch |
| BpoNames.Transitions | internal/netconf/consensus.go:141-164 | exactly the regular forks and the live numbered blob forks, in epoch order |
| CancelDigests.AddedBackRestoresDigests | internal/netconf/cancel.go:252-283 | adding one compiled fork back at an unshared epoch restores, at every epoch, the digest of the schedule that lost only the others; of the compiled schedule when it was the only one; the digest recorded for its activation is one of these |
| CancelDigests.CancelledDigests | internal/netconf/cancel.go:252-283 | the loop records, per cancellation, the digests before and at the activation it called off |
| CancelDigests.DigestsInAnyOrder | internal/netconf/cancel.go:252-283 | whatever the order of the list, the recorded digests are the same, errors included |
| CancelDigests.RemovedAndAddedBack | internal/netconf/cancel.go:199-283 | removal followed by the shadow schedule's insertion and sorts is the identity |
| CanonicalSchedule.CancellationsKeepSturdy | internal/netconf/cancel.go:93-124 | an accepted list leaves a schedule that is in order from genesis on with Fulu's fork in it, so every digest of it is a member and constant up to the next epoch |
| CanonicalSchedule.CompiledCL | internal/netconf/consensus.go:319-341 | Fulu's epoch and the fallback blob entry come from the named forks |
| CanonicalSchedule.BuiltCoversFulu | internal/netconf/consensus.go:319-341 | every built-in schedule covers Fulu, whatever its table says |
| CanonicalSchedule.BuiltIsSturdy | internal/netconf/consensus.go:319-341 | a table in epoch order from genesis on gives a schedule the cancellation results apply to |
| CanonicalSchedule.RegisteredIsOrdered | internal/netconf/devnet.go:84-122 | a devnet that is registered has a ticking schedule in order |
| CanonicalSchedule.LoadedCoversFulu | internal/devnetconfig/devnetconfig.go:156-222 | a loaded devnet has Fulu's fork at Fulu's epoch unless its version is a bare prefix |
| CanonicalSchedule.LoadedIsConstantExactly | internal/devnetconfig/devnetconfig.go:156-222 | a loaded devnet's digest is constant up to the next epoch if and only if its files list a usable fork or a blob entry at Fulu's epoch, or Fulu is at genesis or never |
| CanonicalSchedule.BarePrefixUncoversFulu | internal/netconf/devnet.go:94-106 | a concrete devnet with a bare prefix for Fulu's version is registered, and its digest changes at no transition |
| Nodes.ObservationKeeps | internal/nodeset/nodeset.go:485-557 | applying a record never rolls the sequence back or takes a classification away, and a verified identity is kept and revalidated unless the layer changed |
| SetRules.RecordExactly | internal/nodeset/nodeset.go:485-557 | a record applied replaces the one held and classifies, leaving what it does not mention |
| SetRules.MembershipExactly | internal/nodeset/nodeset.go:485-557 | the membership claim falls back to the record only when the network is another |
| SetRules.ForkExactly | internal/nodeset/nodeset.go:485-557 | the fork claim is the record's, dated when it differs; a record without one, or the one a Status was taken over, leaves it |
| SetRules.IdentityExactly | internal/nodeset/nodeset.go:485-557 | a verified row keeps its identity unless the layer changes, and an unnamed one takes the record's client |
| SetRules.FreshExactly | internal/nodeset/nodeset.go:455-484 | a newcomer's row says what its record says and scores by how it was met |
| SetRules.FreshIsUntried | internal/nodeset/nodeset.go:872-895 | it is due for a probe whenever there is something to dial |
| SetRules.NewCandidateExactly | internal/nodeset/nodeset.go:410-424 | a new candidate is an execution row of no network without a record text, due at once |
| SetRules.CandidateSeenExactly | internal/nodeset/nodeset.go:365-400 | a repeated candidate sighting moves only the endpoint of an unsigned candidate, and then discards a probe under way |
| SetRules.CandidateOutcomeExactly | internal/nodeset/nodeset.go:365-400 | applied exactly on candidates; a changed unsigned row that is none is only reported |
| SetRules.StatusExactly | internal/nodeset/nodeset.go:954-975 | a Status sets network, fork, membership and resolution, and nothing else but the credit |
| SetRules.CreditExactly | internal/nodeset/nodeset.go:1008-1019 | it earns a point, up to ten, exactly when the last credit for the network is half an hour old |
| SetRules.BackToBackEarnNothing | internal/nodeset/nodeset.go:1003-1019 | any number of Statuses within half an hour of a first one earn nothing |
| SetRules.StampExactly | internal/nodeset/nodeset.go:304-357 | the stamp applies to a row of the layer and network with no later fork claim, and leaves any other row alone |
| SetRules.ForcedExactly | internal/nodeset/nodeset.go:426-455 | what forcing a network and layer on a record changes |
| SetRules.PrunedExactly | internal/nodeset/nodeset.go:1206-1221 | a row survives when pinned, unverified and seen since one cutoff, or verified and resolved since the other |
| SetRules.RestoredExactly | internal/nodeset/nodeset.go:1525-1579 | a restored row holds no claim or credit and is otherwise the stored one, but for an execution identity on a consensus row |
| RowRules.DelaysGrow | internal/nodeset/nodeset.go:1086-1100 | retry delays grow strictly for six failures and from then on are between five and seven hours |
| RowRules.DelayFollowsLadder | internal/nodeset/nodeset.go:48-55 | each delay is within a tenth of its rung, the attempt's byte of the identity deciding where |
| RowRules.BytesSpellTheId | internal/nodeset/nodeset.go:1086-1100 | those bytes are the identity's digits, most significant first |
| RowRules.RetriesFollowLadder | internal/nodeset/nodeset.go:1062-1084 | after k failures in a row a row is due exactly once the k-th delay has passed |
| RowRules.ThirdFailureTells | internal/nodeset/nodeset.go:1062-1084 | the third failure in a row, and no other, reports the row as failed |
| RowRules.SuccessReportsFailures | internal/nodeset/nodeset.go:1132-1164 | a success after k failures reports k and ends the retries |
| RowRules.UnclaimUndoes | internal/nodeset/nodeset.go:1044-1057 | taking a claim back undoes it |
| RowRules.DiscardRetriesAtOnce | internal/nodeset/nodeset.go:1132-1164 | a claim its row outgrew ends with the row due at once |
| RowRules.RefreshAfterADay | internal/nodeset/nodeset.go:685-693 | an unchanged verified row is due again exactly a day after its success |
| RowRules.ChangeIsProbedAtOnce | internal/nodeset/nodeset.go:485-515 | a changed endpoint or client has the row probed at once, its identity kept meanwhile |
| RowRules.FingerprintableExactly | internal/nodeset/nodeset.go:885-895 | a row can be probed exactly when it has an address and a port that serve its layer |
| RowRules.PenaltyExactly | internal/nodeset/nodeset.go:671-683 | a penalty halves the score and takes two; at five or less the row is deleted if never probed and else kept without a score |
| RowRules.TwoPenaltiesExhaust | internal/nodeset/nodeset.go:671-683 | two penalties in a row exhaust any score |
| RowRules.SightingExactly | internal/nodeset/nodeset.go:645-670 | what a sighting does to score, pin and times, and to nothing else |
| Probes.AtMostOneClaim | internal/nodeset/nodeset.go:712-722 | over every interleaving at most one claim on a retained row is outstanding, and a probe is granted only when none is |
| Probes.AppliedExactlyWhenUnmoved | internal/nodeset/nodeset.go:1132-1164 | a claimed result is applied if and only if nothing moved the row since the claim and the layer is the claimed one |
| Probes.AppliedResultFitsItsClaim | internal/nodeset/nodeset.go:365-424 | whatever happens between grant and completion, an applied result finds ip, ip6, tcp, tcp6, quic, quic6 and layer equal to those at the grant |
| Probes.RowKeepsProbe | internal/nodeset/nodeset.go:426-561 | events other than grants and endings leave a probe in flight, and arm its discard exactly when they move the row |
| Probes.EndingClears | internal/nodeset/nodeset.go:1044-1084 | every ending of a claim leaves the row free and disarmed |
| ClaimOwners.Enqueue | cmd/crawler/fingerprint.go:104-142 | a granted claim is released at once or handed to exactly one task, and exactly when it is which |
| ClaimOwners.Work | cmd/crawler/fingerprintpool.go:81-139 | a worker ends its task's claim exactly once, by release when it was drained or cut off |
| ClaimOwners.FinishCandidate | cmd/crawler/fingerprint.go:205-250 | a candidate's identity is completed only after its authenticated membership was applied |
| ClaimOwners.Finish | cmd/crawler/fingerprint.go:266-300 | every outcome of a probe ends the claim exactly once |
| ClaimOwners.DialOnlyHelps | cmd/crawler/fingerprint.go:205-250 | an authenticated dial never costs a row its place or score |
| ClaimOwners.DialClassifies | cmd/crawler/fingerprint.go:205-250 | an applied one leaves the row classified by its Status |
| ClaimPool.QueuesAreBounded | cmd/crawler/fingerprintpool.go:39-63 | no queue holds more than its depth, and a send is queued exactly while the pool is open and its layer's queue has room |
| ClaimPool.EndedAtMostOnce | cmd/crawler/fingerprintpool.go:39-139 | over every interleaving of grants, sends, workers and Close no claim is ended twice, none that was not granted, and one not ended yet is held in one place |
| ClaimPool.DrainedEndsAll | cmd/crawler/fingerprintpool.go:39-139 | once nothing is queued, worked on or being sent, every granted claim has been ended exactly once |
| ClaimPool.CloseDrains | cmd/crawler/fingerprintpool.go:39-79 | after Close every step that deals with a claim brings the drain nearer |
| ClaimPool.DrainGoesOn | cmd/crawler/fingerprintpool.go:81-139 | while anything is queued or worked on some worker can step |
| TopK.Best.Offer | internal/nodeset/nodeset.go:744-774 | what is kept is a best choice of limit values among everything offered since the last reset |
| Eviction.ChooseVictims | internal/nodeset/nodeset.go:207-231 | whatever the map order, exactly the first batch rows, in the eviction order, of the lowest class strictly below the newcomer; never a verified or pinned row |
| Eviction.VictimsComeFirst | internal/nodeset/nodeset.go:233-244 | every victim comes before every row of its class that stays, and no class is lower |
| Eviction.VictimsInFields | internal/nodeset/nodeset.go:192-244 | a victim gives way to the newcomer, no row gives way to it, and of the rows that stay beside it it has the lowest score, then the earliest resolution, then the earliest sighting, then the smallest id |
| Eviction.SomeoneGivesWay | internal/nodeset/nodeset.go:192-231 | there is a victim exactly when some row, neither verified nor pinned, has no score left, or no network where the newcomer has one |
| NodeSet.TurnedAwayExactly | internal/nodeset/nodeset.go:455-484 | a full set turns a newcomer away exactly when no row gives way to it |
| Eviction.VictimCount | internal/nodeset/nodeset.go:207-231 | a full batch is freed, or the whole class when it is smaller |
| NodeSet.Set.EvictFor | internal/nodeset/nodeset.go:207-231 | exactly the victims leave, and there is room when any did |
| NodeSet.Set.Replace | internal/nodeset/nodeset.go:173-187 | any change of one row keeps the counter equal to the number of unclassified execution rows |
| NodeSet.CandidatesReplaced | internal/nodeset/nodeset.go:173-180 | how one row's change moves the number of candidates |
| NodeSet.Set.ObserveRow | internal/nodeset/nodeset.go:426-561 | a sighting of a retained row touches it, deletes it, ignores a stale record or applies the record, leaving other rows, the exact counter and the limit alone |
| NodeSet.Set.ObserveNew | internal/nodeset/nodeset.go:455-484 | a new row is inserted after exactly the victims left, or rejected when a full set has none |
| NodeSet.Set.ObserveStale | internal/nodeset/nodeset.go:430-441 | a record older than the one held only touches the row |
| NodeSet.Set.ObserveCandidateEL | internal/nodeset/nodeset.go:365-424 | every branch of the unsigned candidate path; with a limit the number of candidates stays within it |
| NodeSet.Set.StampStatus | internal/nodeset/nodeset.go:304-357 | the authenticated stamp applies only to a row of the layer and network with no later fork observation |
| NodeSet.Set.SetExecutionCandidateLayer | internal/nodeset/nodeset.go:568-585 | exactly when a layerless row becomes a candidate, within the limit |
| NodeSet.Set.SetCandidateClient | internal/nodeset/nodeset.go:590-600 | a client is retained only on an unclassified candidate, which stays unverified |
| NodeSet.Set.SetExecutionStatusAt | internal/nodeset/nodeset.go:954-975 | a Status classifies an execution row and the counter follows |
| NodeSet.Set.SetConsensusStatus | internal/nodeset/nodeset.go:1022-1042 | a Status classifies a consensus row, keeping the fork hash it does not carry |
| NodeSet.Set.ClaimFingerprintInfo | internal/nodeset/nodeset.go:712-722 | granted exactly when the probe is due |
| NodeSet.Set.UnclaimFingerprint | internal/nodeset/nodeset.go:1044-1057 | the claim and its attempt are taken back |
| NodeSet.Set.FingerprintFailed | internal/nodeset/nodeset.go:1062-1084 | a failure schedules the next rung unless the row changed or succeeded meanwhile |
| NodeSet.Set.SetFingerprint | internal/nodeset/nodeset.go:1132-1164 | claimed and unclaimed results, with the exact failures reported |
| NodeSet.Set.Penalize | internal/nodeset/nodeset.go:1187-1201 | the decayed score or deletion, with the counter exact |
| NodeSet.Set.PruneStaleWithVerified | internal/nodeset/nodeset.go:1206-1221 | exactly the stale unpinned rows leave, in any map order, and their number is returned |
| NodeSet.Set.MakeRoom | internal/nodeset/nodeset.go:1525-1579 | the victims leave exactly when the set is full, and there is then room unless there were none |
| NodeSet.Set.Ingest | internal/nodeset/nodeset.go:1525-1579 | restored rows replace, evict or are dropped as specified, with the counter and the limit kept throughout |
| NodeSet.RestoringConserves | cmd/crawler/main.go:602-606 | added, dropped and evicted rows add up to the restored ones if and only if no usable row repeats an id retained by then |
| NodeSet.SightingIsEvents | internal/nodeset/nodeset.go:426-561 | a sighting moves its row by a touch and, when applied, by an observation of the probe state machine |
| Zone.PlanSync | cmd/dnspublisher/dns.go:105-140 | the plan writes exactly the missing or changed names, root last, and deletes exactly the unwanted, unretained names |
| Zone.RepeatPlansNothing | cmd/dnspublisher/dns.go:105-140 | a Sync repeated after success plans no change |
| Zone.Route53ReadsBack | cmd/dnspublisher/route53.go:123-176 | a value written to Route53 reads back as unchanged exactly when it is printable |
| Txt.SplitTXT | cmd/dnspublisher/route53.go:286-294 | the loop quotes the content in chunks as specified |
| Zone.KeysExactly | cmd/dnspublisher/dns.go:88-92 | names are compared in lower case and without a trailing dot |
| Txt.QuotedExactly | cmd/dnspublisher/route53.go:286-294 | printable bytes stay, quotes and backslashes are escaped, the rest becomes a letter or two hexadecimal digits |
| Txt.PiecesExactly | cmd/dnspublisher/route53.go:286-294 | content is quoted in pieces of 253 bytes, the last of which may be shorter |
| Txt.NormalizeTXT | cmd/dnspublisher/dns.go:65-86 | the loop scans quotes and escapes as specified |
| Txt.NormalInvertsSplit | cmd/dnspublisher/dns.go:65-86 | normalizing a split value gives the content back if and only if every character is printable |
| Batches.SplitChanges | cmd/dnspublisher/route53.go:230-248 | order and content kept, both limits respected when each change fits alone, and no order-preserving split uses fewer batches |
| Batches.FitsExactly | cmd/dnspublisher/route53.go:230-270 | a batch fits when what it is charged for, every UPSERT twice, is at most 1000 changes of at most 32000 bytes |
| LiveZone.ZoneAlwaysWalkable | cmd/dnspublisher/cloudflare.go:162-224 | over any run of Syncs cut off after any record, every entry of the served tree is present, and so is every entry of the last recorded tree |
| LiveZone.WalkableIsClosed | cmd/dnspublisher/cloudflare.go:162-224 | walkable content links only to live records, whose content is walkable again |
| LiveZone.ServedSequenceRises | cmd/dnspublisher/main.go:489-509 | the root served never goes back: its sequence strictly rises whenever it changes |
| LiveZone.HeldRootFinishes | cmd/dnspublisher/artifact.go:64-77 | a client that read a root finishes its walk through the next Sync |
| LiveZone.SyncCompletes | cmd/dnspublisher/cloudflare.go:162-224 | from any point of a Sync its remaining writes and prunes can be made, and it then ends with its tree recorded and exactly the planned zone |
| LiveZone.CycleCompletes | cmd/dnspublisher/main.go:489-509 | from any state between Syncs a later tree can be built, pushed, and ends up live and recorded |
| LiveZone.PlanIsCovered | cmd/dnspublisher/dns.go:105-140 | the reconcile plan is one the live zone's invariant covers |
| LiveZone.TreeSequence | cmd/dnspublisher/main.go:478-484 | the next sequence is above the previous one |
| Select.Pick | cmd/dnspublisher/select.go:232-269 | everything when it fits; otherwise exactly limit candidates, a subsequence in rank order, reserved and shared as specified |
| Select.WantIsNearest | cmd/dnspublisher/select.go:284-300 | the reservation is the number nearest to the dialable candidates' share of the limit among those allowed |
| Select.FloorExactly | cmd/dnspublisher/select.go:359-390 | a client has a slot of its own exactly when it is known, holds no reserved record and comes early enough |
| Select.KnownClientIsPicked | cmd/dnspublisher/select.go:359-441 | with as many slots as clients every such client has a record picked |
| Select.PoolExactly | cmd/dnspublisher/select.go:232-269 | with snap asked for exactly the candidates that serve it are considered |
| Select.EveryClientGetsItsShare | cmd/dnspublisher/select.go:359-441 | each client gets its floor plus its exact share rounded down or up, of its best ranked unreserved candidates |
| Select.BalanceClients | cmd/dnspublisher/select.go:359-441 | the allocation obeys the quota rule, fills every slot and takes prefixes of the pools |
| Select.ReserveIPv6 | cmd/dnspublisher/select.go:284-311 | exactly the rounded share of dialable candidates, own-port ones first, then by rank |
| Select.MergeByNode | cmd/dnspublisher/select.go:324-336 | merging by node identity is merging by position, so nothing is taken twice or lost |
| Select.ClientTakesPrefix | cmd/dnspublisher/select.go:431-440 | a client's marked candidate has all its better ranked ones marked |
| Apportion.ShareOut | cmd/dnspublisher/select.go:378-431 | slots add up to the limit, fit the pools and obey the quota rule: floors, exact shares rounded, larger remainders first |
| Apportion.RoundedUpExactly | cmd/dnspublisher/select.go:391-430 | a share counts as rounded up, which larger remainders are before smaller ones, exactly when it is above the exact quotient |
| Apportion.FullIsEveryone | cmd/dnspublisher/select.go:409-430 | slots are left over only when every record of every pool has one |
| Apportion.HandOut | cmd/dnspublisher/select.go:409-430 | the remainder loop terminates from any slots, with every slot given or every pool full |
| Apportion.FewerLeftThanRemainders | cmd/dnspublisher/select.go:391-430 | fewer slots are left over than pools have a remainder, so one round suffices |
| Apportion.Floors | cmd/dnspublisher/select.go:378-390 | one slot for each eligible pool in order, as far as the limit goes |
| Apportion.WithinOneOfExact | cmd/dnspublisher/select.go:391-408 | a rounded share is less than one slot from the exact quotient |
| Heap.RootIsLeast | cmd/crawler/pending_fingerprints.go:31-46 | the root of a heap is a least element |
| Heap.Pop | cmd/crawler/pending_fingerprints.go:41-46 | popping removes a least element and keeps the rest |
| ExpiringMap.ExpiringMap.Prune | cmd/crawler/pending_fingerprints.go:140-147 | exactly the expired entries go, and no re-put entry by its stale heap item |
| ExpiringMap.ExpiringMap.Put | cmd/crawler/pending_fingerprints.go:67-99 | the plain timestamped map with the value, less an entry of minimal time at capacity |
| ExpiringMap.ExpiringMap.Allow | cmd/crawler/pending_fingerprints.go:77-87 | granted exactly when no live entry holds the id |
| ExpiringMap.ExpiringMap.TakeIf | cmd/crawler/pending_fingerprints.go:112-123 | an accepted live entry is taken, nothing else changes |
| ExpiringMap.ExpiringMap.Drain | cmd/crawler/pending_fingerprints.go:125-138 | exactly the accepted live entries are taken, in any map order |
| ExpiringMap.ExpiringMap.EvictOldest | cmd/crawler/pending_fingerprints.go:149-157 | an entry of minimal time is removed |
| ExpiringMap.LivesItsTime | cmd/crawler/pending_fingerprints.go:140-147 | an entry is live for exactly the time to live after it was put |
| ExpiringMap.Compacted | cmd/crawler/pending_fingerprints.go:159-165 | the rebuilt heap holds one item per entry |
| ExpiringMap.Inserted | cmd/crawler/pending_fingerprints.go:89-99 | after an insertion the heap still covers every entry and is at most twice the positive maximum |
| Lru.Store.Look | cmd/api/main.go:565-588 | a hit moves its element to the front, a miss joins or becomes the key's load, and the bijection is kept |
| Lru.Store.Finish | cmd/api/main.go:593-606 | a failed load stores nothing; a value goes to the front and the back makes room |
| Lru.StoredKeeps | cmd/api/main.go:593-606 | map and list stay in bijection within capacity, disjoint from what is pending |
| LruRuns.OneLoaderPerKey | cmd/api/main.go:565-610 | in every interleaving at most one loader runs per key, no key is both pending and cached, and map and list are in bijection within capacity |
| LruRuns.AnswersWereLoaded | cmd/api/main.go:565-610 | every value answered was returned by a successful loader run of that key |
| LruRuns.NoLostWakeup | cmd/api/main.go:574-588 | every waiter's load has ended or will be ended by some request |
| LruRuns.EndedLoad | cmd/api/main.go:593-610 | a failure changes nothing but the pending entry; otherwise the key is cached and the key that left was used before every key that stays |
| Hll.Slot | internal/distinct/hll.go:196-212 | the index is the hash's first bits and the rank is the position of the leading one of the rest, at most 65 less the precision |
| Hll.IndexBits | internal/distinct/hll.go:196-199 | the index is in range and its block of hashes contains the hash |
| HllWindow.SightedWindow | internal/distinct/hll.go:155-193 | a sighting adds exactly itself to what pruning at its hour leaves of any window |
| HllWindow.SightingMatches | internal/distinct/hll.go:155-185 | for any hours at all, every window of the buckets equals one pass over the retained sightings |
| HllWindow.CountExactly | internal/distinct/hll.go:214-249 | the retained count is the full count if and only if no call pruned a sighting of the window |
| HllWindow.HighestExactly | internal/distinct/hll.go:214-249 | then the merged registers are the pointwise maximum of all sightings |
| HllWindow.ReachableIsRestorable | internal/distinct/hll.go:99-120 | with nondecreasing hours there are at most 169 strictly ordered buckets and every register is a possible rank |
| HllState.MonotoneEstimatesAreFull | internal/distinct/hll.go:214-249 | with nondecreasing times an estimate sees every sighting of its last 168 hours, and the state passes the structural checks of Restore |
| HllState.KeptForAWeek | internal/distinct/hll.go:187-193 | a call keeps the sightings of its hour and of the 168 before it, and no older ones |
| HllState.HourContains | internal/distinct/hll.go:152 | an hour holds the 3600 seconds from its start |
| HllState.Counters.Observe | internal/distinct/hll.go:155-185 | one sighting under every named key, none for an empty identity |
| HllState.Counters.Estimates | internal/distinct/hll.go:214-249 | every key's window holds exactly its retained sightings |
| HllState.Merge | internal/distinct/hll.go:228-240 | the loops compute the window's total and pointwise maximum |
| HllState.GoingBackLosesSightings | internal/distinct/hll.go:187-193 | a concrete sequence of calls whose hours go back and lose a sighting |

## Left out

- Nodes: a row is a value in the map, so updates through a pointer and aliasing of rows are not modelled; geo, head, CGC and ENR schedule fields are left out because no modelled property reads them.
- Probes.AtMostOneClaim: does not cover a result that arrives after its row was deleted and created again, which the owners do not distinguish.
- Probes: observe's touch and its record are separate events, which allows more interleavings than the lock does. The methods of `NodeSet.Set` state which event of its row each is, `ObserveRow` through `SightingIsEvents`, `EvictFor` and `PruneStaleWithVerified` state which rows leave, which is the event `Delete` of each; `Ingest` runs at startup, before any claim.
- Select.Pick: shares are exact rationals; float64 rounding of the quotients is not modelled. The branch for a remainder that fits the free slots is unreachable once the candidates exceed the limit.
- PublishProofs.CommittedIsServable: calls that failed are settled when they return; writes that land later are not modelled.
- LiveZone.ServedSequenceRises: the sequence floor of the build artifact survives a cut-off, so a durable artifact is assumed; and at the start the served sequence is taken to be at most that floor.
- ClaimPool.DrainedEndsAll: that every worker is scheduled, and every probe returns, is assumed; `DrainGoesOn` says only that a step exists.
- The non-atomic verified S3 mode: no compare-and-swap property is claimed for it.
- ReadinessSql.ReadinessConditionAt: DuckDB's evaluation of the rendered operators is taken as three-valued logic; values at or above 2^63, which database/sql does not bind, are treated as ordinary numbers.
- Cancel.OrderDoesNotMatter: one network's list; several networks share nothing. The list of absent forks returned for logging is not modelled.
- ExpiringMap: the entry sequence number is unbounded; its 64-bit wrap-around is not modelled. HLL counters likewise.
- Lru: a loader that panics, and the sharing of loaded maps between callers, are not modelled.
- The HyperLogLog float estimator, sync-state medians, Parquet, JSON, gzip and ENR decoding.
- mapCache: a per-key entry replaced by newer ones; simpler than the cache modelled here.
- FingerprintCandidates: read-only selection through the same bounded heap, followed by a sort.
- Network, storage and DNS provider clients beyond success, failure and ambiguity; flags, metrics, logging, geo tables and the web front end.
