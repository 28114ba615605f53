# Verified models of Blocklet Server

Dafny 4.11 models of the parts of Blocklet Server that compute something over unbounded trees, graphs, runs
and clocks, with proofs of what they promise. `dafny verify dfyconfig.toml` checks everything.

| file | models |
|---|---|
| `Layers.dfy` | the layers of required components: a bounded breadth-first expansion, then in-place de-duplication |
| `Resolver.dfy`, `ResolvedEntries.dfy`, `EnginePass.dfy`, `SemVer.dfy` | recursive component resolution, its concurrent branches as interleaved steps, and the choice of the minimum version per DID |
| `Navigation.dfy`, `FlattenOrder.dfy`, `CompactNavigation.dfy`, `CompactedContainers.dfy`, `LiftedItems.dfy` | menus flattened, compacted and nested back while the arrays are being walked |
| `ParsedNavigation.dfy`, `MenuOutline.dfy`, `MenuLinks.dfy`, `MenuDuplicates.dfy` | menus composed from child components, and the removal of duplicate entries |
| `Grants.dfy`, `GrantOutcomes.dfy`, `RateLimit.dfy`, `OutstayedLock.dfy`, `HitCounts.dfy`, `Cache.dfy` | one-time login grants and the rate-limit counter over a cache whose rows expire |
| `Lcov.dfy`, `LcovWriting.dfy`, `Text.dfy`, `OrderedMap.dfy` | reading, merging and writing coverage files |
| `WorkerPool.dfy` | the test runner's bounded, fail-fast worker pool |
| `Renewal.dfy` | the two tests that decide when a certificate is renewed, and the daily job |
| `ComponentStore.dfy` | the in-memory component list kept up to date by events |
| `Vault.dfy` | vault chains: each vault approved by its predecessor |
| `ComponentTree.dfy` | path ids over component trees and looking components up by them |

Code that changes things step by step is modelled by methods and classes whose contracts tie them to
specification functions; the theorems are about these functions. Concurrent code is modelled twice: as a state
machine whose events may come in any order, and as the method or class that runs it.

## What turned out differently than one might expect

- A layer list is not a topological order (`LayersAreNotTopological`). A DID lies in an earlier layer than another
  exactly when its farthest dependent is farther away (`LayerPlacement`). When all walks to a DID have one length, its
  dependencies come strictly first exactly when that length is below `deep` (`UniformDependencyComesFirst`).
- Nesting a flat menu list keeps every item exactly when each item's parent is listed before it or is a top-level
  item after it (`NestKeepsAllExactlyWhen`).
- Compacting removes an item exactly when one of its own children stays, so with four levels a container can stay
  (`ListedExactlyWhenSurviving`, `ContainerStays`); none stays exactly when every container has a leaf child
  (`NoContainerStaysExactlyWhen`).
- Composing menus throws exactly when a child declares a single menu for a section and that menu leaves no entry
  (`ParseFailsExactlyWhen`).
- Composing menus can lose links: those below a lone menu that leaves one entry which only gathers others; a link
  arrives exactly when nothing on its way drops it (`LinksArriveExactlyWhen`, `WrappedLinksAreLost`).
- A lifted item takes its section from the item just above it or else the header, never from further up, but its
  visibility and role from the nearest that has them (`LiftedItemsCarry`).
- Removing duplicates can remove the last entry of a link; it loses none exactly when no first occurrence lies below a
  repeat (`NothingIsLostExactlyWhen`).
- Removal of a component removes exactly what it names only for events that name one DID, or nothing that is there
  (`RemovalIsExactWhen`).
- The millisecond test and the day test of certificate renewal agree on all certificates exactly when the renewal ratio
  is one over a whole number (`TestsAgreeExactlyWhen`).
- Rate-limit calls act as if made one by one, in every run, exactly when the time they may hold their lock is below its
  time to live (`SerialExactlyWhenHeldBriefly`, `SerialExactlyWhenShort`); otherwise a hit can be lost
  (`OutstayedLockLosesAHit`).
  The stored count is right exactly until the window is over (`CountedExactlyWithinSpan`).
- What a vault's approver signs determines the application and the DIDs, among chains of one length, exactly when no
  name contains a colon (`SignedDataDeterminesExactlyWhen`).
- Grants are redeemed at most once in every run exactly when the marker's time to live is unlimited or not below the
  grant's (`TtlConditionIsExact`).

## Model

| member | source | states |
|---|---|---|
| Layers.LayerPlacement | blocklet/meta/src/get-required-components-layers.ts:24-66 | for every graph, cyclic or not: which DIDs are listed, that no layer is empty or repeats a DID, that no DID is in two layers, and that one DID comes before another exactly when its farthest dependent is farther from the target |
| Layers.LayersAreReachable | blocklet/meta/src/get-required-components-layers.ts:33-66 | a DID is listed if and only if it is at the end of a walk of 1 to `deep` present, required, filter-passing edges, although each DID is expanded only once |
| Layers.EdgesAreDependencies | blocklet/meta/src/get-required-components-layers.ts:33-51 | a DID leads to another exactly when the first component with it has a required dependency on the other and the last component with the other is there and passes the filter; in the order of declaration, once for each such dependency |
| Layers.LayersListDependencies | blocklet/meta/src/get-required-components-layers.ts:24-66 | a DID is listed if and only if the target needs it, directly or through others, over 1 to `deep` such dependencies |
| Layers.UniformDependencyComesFirst | blocklet/meta/src/get-required-components-layers.ts:53-66 | when all walks to a DID have the same length, each of its required dependencies that is listed lies in a strictly earlier layer if and only if that length is below `deep` |
| Layers.LengthMustStayBelow | blocklet/meta/src/get-required-components-layers.ts:55-64 | a concrete graph with a length of exactly `deep`, in which a dependency shares the layer of its dependent |
| Layers.LayersAreNotTopological | blocklet/meta/src/get-required-components-layers.ts:23-66 | a concrete graph in which a component's layer precedes that of its dependency |
| Layers.WaveIsSphere | blocklet/meta/src/get-required-components-layers.ts:33-64 | expanding a DID only when first met yields, wave by wave, exactly the successors of the DIDs at each distance |
| Layers.DedupedRows | blocklet/meta/src/get-required-components-layers.ts:1-14 | de-duplication lists what the rows hold, each DID in the first row that holds it, rows in order, no repeats |
| Layers.UsedDids.RequiredDependents | blocklet/meta/src/get-required-components-layers.ts:33-51 | the required, present and filter-passing dependencies of a DID on its first visit, none later; the visited set grows by it |
| Layers.UsedDids.ExpandWave | blocklet/meta/src/get-required-components-layers.ts:56-60 | one wave expanded in order against the shared visited set |
| Layers.UsedDids.GrowQueue | blocklet/meta/src/get-required-components-layers.ts:55-64 | the newest wave goes to the front of the queue unless it is empty |
| Layers.UsedDids.FillQueue | blocklet/meta/src/get-required-components-layers.ts:53-64 | the queue holds the waves up to `deep`, where a `deep` below 1 acts as 1 |
| Layers.DedupeRowInPlace | blocklet/meta/src/get-required-components-layers.ts:4-11 | splicing while walking removes exactly what was used before or earlier in the row |
| Layers.RemoveDuplicates | blocklet/meta/src/get-required-components-layers.ts:1-14 | the loop over the rows computes the specified de-duplication |
| Layers.GetRequiredComponentsLayers | blocklet/meta/src/get-required-components-layers.ts:24-67 | the whole function returns the specified layers, which list exactly what the target needs |
| SemVer.PrecedenceFlips | blocklet/resolver/index.ts:40 | precedence by section 11 of Semantic Versioning 2.0.0: swapping the versions flips the sign |
| SemVer.PrecedenceTransitive | blocklet/resolver/index.ts:40 | precedence by section 11 of Semantic Versioning 2.0.0 is transitive |
| SemVer.ComparisonIsPrecedence | blocklet/resolver/index.ts:40 | the comparison puts a version first exactly when section 11 does: the first of major, minor and patch that differs, then a pre-release before the release, then the first identifier that differs, numbers by value and before texts; and equates versions exactly when they differ in build metadata at most |
| Resolver.EveryStepKeepsPlan | blocklet/resolver/index.ts:107-220 | every step of every branch exposes an error of the unfolding or moves one unit of it to the shared list |
| Resolver.EveryRun | blocklet/resolver/index.ts:107-220 | for every store and every interleaving: a finished run succeeded exactly when the unfolding is free of errors, and its list holds exactly the unfolding's components, each as often as it occurs |
| Resolver.SuccessfulRunsAgree | blocklet/resolver/index.ts:131-219 | two finished runs under different interleavings succeed together and list the same multiset of components |
| Resolver.MovesAreBounded | blocklet/resolver/index.ts:117-120 | on every store, cyclic or infinite, no interleaving makes more steps than the unfolding cut off at the depth limit |
| Resolver.AlwaysRunnable | blocklet/resolver/index.ts:131-215 | an unfinished run can always make a step |
| Resolver.AncestorsAlwaysFirst | blocklet/resolver/index.ts:169-208 | at every moment of every interleaving each listed component comes after all its own ancestors |
| EnginePass.EnginePassComesFirst | blocklet/resolver/index.ts:183-208 | at every moment of every interleaving nothing of a component's engine pass is listed after anything of the component's own configurations |
| Resolver.SucceedsExactlyWhen | blocklet/resolver/index.ts:117-156 | resolution succeeds if and only if every way down meets only components that are found and pass their checks, repeats no bundle DID (the start not counted), and is at most 40 long |
| Resolver.EngineResolvedTwice | blocklet/resolver/index.ts:186-208 | the blocklet engine of a resolved component is visited in a pass of its own and again with the component's configurations |
| Resolver.DeclaredListedInPlace | blocklet/resolver/index.ts:131-208 | the components a resolved component declares are listed at their places in its declaration |
| ResolvedEntries.ListedExactlyWhenReached | blocklet/resolver/index.ts:131-208 | a successful resolution lists a configuration, with the meta its store gives, if and only if some way down the dependency graph ends in it |
| ResolvedEntries.NoTwoSharePath | blocklet/resolver/index.ts:131-208 | in every run, at every moment, no two listed entries share a path from the start |
| Resolver.EventLoop.Drain | blocklet/resolver/index.ts:107-220 | running branches in any order until none is left ends, with the unfolding's components or with an exception exactly when it has an error |
| Resolver.FilterDuplicateComponents | blocklet/resolver/index.ts:27-49 | the loop with its in-place replacement computes the specified fold |
| Resolver.SelectedIsMinimal | blocklet/resolver/index.ts:27-49 | what is kept has one entry for each DID that is listed and not current: the earliest one of least version by section 11 of Semantic Versioning 2.0.0; the DIDs in the order in which they are first listed |
| Resolver.SelectionIgnoresOrder | blocklet/resolver/index.ts:27-49 | the same components in any order yield the same DIDs with the same versions up to build metadata |
| Resolver.ScheduleDoesNotMatter | blocklet/resolver/index.ts:27-49 | under any two interleavings of a successful resolution the filtered components are the same DIDs with the same versions up to build metadata |
| Navigation.WalkItems | blocklet/meta/src/parse-navigation-from-blocklet.ts:69-90 | walking an array that grows while it is walked visits its original items and leaves the lifted ones at its end |
| Navigation.FlattenItem | blocklet/meta/src/parse-navigation-from-blocklet.ts:248-271 | what one top-level item adds to the final list |
| Navigation.FlattenNavigation | blocklet/meta/src/parse-navigation-from-blocklet.ts:242-273 | the whole walk computes the specified flattening, for every depth and transform |
| Navigation.FlattenKeepsItems | blocklet/meta/src/parse-navigation-from-blocklet.ts:242-273 | flattening to any depth keeps every item exactly once |
| Navigation.FlattenIsBounded | blocklet/meta/src/parse-navigation-from-blocklet.ts:236-238 | a forest flattened to a depth is no higher than that depth |
| Navigation.FlattenLeavesShallow | blocklet/meta/src/parse-navigation-from-blocklet.ts:242-273 | a forest no higher than the depth stays as it is |
| FlattenOrder.FlattenListsAncestorsFirst | blocklet/meta/src/parse-navigation-from-blocklet.ts:242-273 | full flattening lists every item's parent, and so all its ancestors, before the item |
| Navigation.NestNavigationList | blocklet/meta/src/parse-navigation-from-blocklet.ts:564-584 | the backward walk that splices the list it walks computes the specified nesting |
| Navigation.NestUndoesFlatten | blocklet/meta/src/parse-navigation-from-blocklet.ts:564-584 | nesting undoes full flattening for every forest of any height whose items name their parents, share their root's section and have unique keys |
| Navigation.NestKeepsAllExactlyWhen | blocklet/meta/src/parse-navigation-from-blocklet.ts:564-584 | nesting makes up no item, and keeps all of them if and only if every item with a parent finds it before itself or among the top-level items after it |
| Navigation.GrandchildBeforeChildIsLost | blocklet/meta/src/parse-navigation-from-blocklet.ts:566-581 | a concrete list that loses an item |
| CompactNavigation.VisitPosition | blocklet/meta/src/parse-navigation-from-blocklet.ts:470-479 | the callback at one position takes out the container it names and deletes the mark |
| CompactNavigation.PruneContainers | blocklet/meta/src/parse-navigation-from-blocklet.ts:466-483 | the backward walk over the array it splices computes the specified pruning |
| CompactNavigation.CompactNavigation | blocklet/meta/src/parse-navigation-from-blocklet.ts:443-485 | the whole function at depth 2 computes the specified compaction of each top-level item |
| CompactNavigation.PruneKeepsSurvivors | blocklet/meta/src/parse-navigation-from-blocklet.ts:470-479 | although the list shrinks while it is walked, exactly the items that some survivor names are taken out |
| CompactNavigation.ForestSettles | blocklet/meta/src/parse-navigation-from-blocklet.ts:447-464 | in a lifted forest with distinct ids an item survives if and only if no survivor names it |
| CompactNavigation.CompactKeepsSurvivors | blocklet/meta/src/parse-navigation-from-blocklet.ts:443-485 | for trees of any height: of everything lifted, exactly the items none of whose own children survives stay, in order and unmarked |
| CompactNavigation.CompactThreeLevels | blocklet/meta/src/parse-navigation-from-blocklet.ts:443-485 | with three levels, each top-level item ends with its leaf children, then all grandchildren in order, and no container |
| CompactedContainers.ListedExactlyWhenSurviving | blocklet/meta/src/parse-navigation-from-blocklet.ts:443-485 | an item of a tree of any height is in the compacted list if and only if none of its own children survives |
| CompactedContainers.NoContainerStaysExactlyWhen | blocklet/meta/src/parse-navigation-from-blocklet.ts:470-479 | compacting leaves no container if and only if every container has a leaf among its children |
| CompactedContainers.ContainerStays | blocklet/meta/src/parse-navigation-from-blocklet.ts:470-479 | concrete trees of four levels whose compacted list begins with a container |
| CompactNavigation.LiftedItemsCarryTheirPath | blocklet/meta/src/parse-navigation-from-blocklet.ts:462-463 | every lifted item carries the dot-joined component names from the second level down to itself |
| LiftedItems.LiftedItemsCarry | blocklet/meta/src/parse-navigation-from-blocklet.ts:447-464 | for trees of any height: what is lifted, in order, and what each item brings along from the way down to it: its mark, link and section from the item just above, visibility and role from the nearest that has them, the component names dotted |
| ParsedNavigation.GroupsAreTheSections | blocklet/meta/src/parse-navigation.ts:24-48 | a section's group holds exactly the menus of that section, in order; sections do not repeat and no group is empty |
| ParsedNavigation.AddItem | blocklet/meta/src/parse-navigation.ts:31-44 | one menu is added to its section's group, made when missing |
| ParsedNavigation.AddMenu | blocklet/meta/src/parse-navigation.ts:27-46 | a menu is added once for each section it names |
| ParsedNavigation.GetGroups | blocklet/meta/src/parse-navigation.ts:24-48 | the loops compute the specified groups |
| ParsedNavigation.ParseFailsExactlyWhen | blocklet/meta/src/parse-navigation.ts:52-223 | composing menus fails if and only if some menu is stuck on a single menu that leaves no entry, and leaves nothing if and only if every menu vanishes |
| ParsedNavigation.LoneMissingMenuIsStuck | blocklet/meta/src/parse-navigation.ts:147-187 | a child whose only menu names a missing component makes composing throw |
| ParsedNavigation.ParseSucceeds | blocklet/meta/src/parse-navigation.ts:52-223 | when every child named is there, composing succeeds and leaves no menu out |
| ParsedNavigation.LinksComeFrom | blocklet/meta/src/parse-navigation.ts:10-22 | every link in the result, at any depth, is declared by a component on the way down, or is its mount point, joined to the mount points that lead there |
| MenuLinks.LinksArriveExactlyWhen | blocklet/meta/src/parse-navigation.ts:52-223 | composed menus lead to a link, at any depth, if and only if some menu declares it, or a component without menus is mounted there, and nothing on its way drops it |
| MenuLinks.EntriesAreCounted | blocklet/meta/src/parse-navigation.ts:52-223 | how many entries composing leaves, and whether some has others below it |
| MenuLinks.WrappedLinksAreLost | blocklet/meta/src/parse-navigation.ts:147-187 | concrete menus of which every link is lost |
| MenuOutline.ComposedAsOutlined | blocklet/meta/src/parse-navigation.ts:52-223 | composed menus show, line by line, what is declared: each entry at its place and depth with its link, its title, icon, role and section taken from the menu, else the child's only menu, else the child |
| ParsedNavigation.DoParseNavigation | blocklet/meta/src/parse-navigation.ts:52-223 | the loop over menus and its recursion into items and children ends, and computes the specified parse |
| ParsedNavigation.ParseNav | blocklet/meta/src/parse-navigation.ts:60-219 | what one menu contributes |
| ParsedNavigation.ParseMembers | blocklet/meta/src/parse-navigation.ts:146-218 | what one group of a child's menus contributes |
| ParsedNavigation.DropBareKeepsKeys | blocklet/meta/src/parse-navigation.ts:263 | dropping entries with neither link nor items drops no link |
| ParsedNavigation.ParseNavigation | blocklet/meta/src/parse-navigation.ts:260-264 | fails exactly when a menu is stuck; otherwise no two entries at any depth share link and section, and every top-level entry has a link or items |
| MenuDuplicates.SurvivorsAre | blocklet/meta/src/parse-navigation.ts:225-258 | an entry survives if and only if it and all entries above it are first occurrences in preorder; survivors keep their order |
| MenuDuplicates.NoKeyTwice | blocklet/meta/src/parse-navigation.ts:256-258 | afterwards no two entries anywhere share a non-empty link and a section |
| MenuDuplicates.UniqueTwice | blocklet/meta/src/parse-navigation.ts:256-258 | removing duplicates again changes nothing |
| MenuDuplicates.KeyIsKeptExactlyWhen | blocklet/meta/src/parse-navigation.ts:225-258 | a link and section is still there if and only if its first occurrence survives |
| MenuDuplicates.NothingIsLostExactlyWhen | blocklet/meta/src/parse-navigation.ts:225-258 | every link and section is still there if and only if no first occurrence lies below a repeat |
| MenuDuplicates.LinkIsLost | blocklet/meta/src/parse-navigation.ts:225-258 | concrete menus in which a link is lost |
| MenuDuplicates.MarkDuplicate | blocklet/meta/src/parse-navigation.ts:225-242 | the recursive marking with one shared list of what has been seen computes the specified marks |
| MenuDuplicates.FilterDuplicate | blocklet/meta/src/parse-navigation.ts:244-254 | the recursive filter drops marked entries with everything below them |
| MenuDuplicates.Uniq | blocklet/meta/src/parse-navigation.ts:256-258 | no key twice, and exactly the entries that survive, in order |
| Grants.RedeemedAtMostOnce | core/auth/lib/debos-google-grant.js:70-92 | over any run of interleaved, arbitrarily delayed consumers and clock ticks a grant is redeemed at most once, also after its marker has expired |
| Grants.TtlConditionIsExact | core/auth/lib/debos-google-grant.js:44-92 | no run redeems a grant twice if and only if the marker never expires or lives at least as long as a grant |
| Grants.RedeemedIsGenuine | core/auth/lib/debos-google-grant.js:81-92 | in every run from the start a redeemed payload is the one issued for that grant, and for the application that asked |
| GrantOutcomes.OutcomesAreExplained | core/auth/lib/debos-google-grant.js:66-93 | in every run a consumer is told that the grant has been used exactly when it found the marker; otherwise that it has expired exactly when it read no grant or ended past its time, that it is the wrong application exactly when the grant read was in time but issued for another, and else gets the payload read |
| GrantOutcomes.IssuedAsCreated | core/auth/lib/debos-google-grant.js:44-64 | in every run what is issued for a grant is what it was created with, at that time |
| GrantOutcomes.CreatingIssues | core/auth/lib/debos-google-grant.js:44-64 | creating a grant with a new hash issues it |
| Grants.ConsumeIsARun | core/auth/lib/debos-google-grant.js:66-93 | consuming on its own is the run of its four steps |
| Grants.GrantService.CreateGrant | core/auth/lib/debos-google-grant.js:44-64 | stores the payload with creation and expiry time unless the key is taken |
| Grants.GrantService.ConsumeGrant | core/auth/lib/debos-google-grant.js:66-93 | the outcome in terms of the rows stored: used, expired, wrong application or redeemed, each exactly when; and what is left in the cache |
| Cache.TtlCache.Set | core/db-cache/src/base-db-cache.ts:77-92 | sets a row with its time to live; with `nx` only when the key has no live row |
| RateLimit.ExclusiveRunsAreSerial | blocklet/rate-limit/src/index.ts:78-125 | over any run in which a key's callers exclude one another, the key's row is that of the calls made one by one in lock order, and each finished call is among them exactly once with the answer it gave |
| RateLimit.LockedRunsAreSerial | blocklet/rate-limit/src/index.ts:78-125 | over any run in which a key's callers never outstay their lock they exclude one another, and so the run is serial |
| RateLimit.NoHitIsLost | blocklet/rate-limit/src/index.ts:78-125 | when all calls on a key have finished within the window of the first (at the same moment when the window is 0), however they were interleaved and delayed, the stored count is exactly increments less decrements, and with increments only the number of calls |
| HitCounts.CountedExactlyWithinSpan | blocklet/rate-limit/src/index.ts:78-125 | when all calls on a key have finished at most `limit` after the first, the stored count is increments less decrements in every run if and only if `limit` is below the window (below 1 when the window is 0) |
| OutstayedLock.OutstayedLockLosesAHit | blocklet/rate-limit/src/index.ts:86-104 | a concrete run in which a call goes on after its lock has expired: two calls have finished and the live row counts one |
| OutstayedLock.SerialExactlyWhenHeldBriefly | blocklet/rate-limit/src/index.ts:78-125 | in every run in which callers hold the lock for at most `limit` the row is that of the calls made one by one, if and only if `limit` is below the lock's time to live |
| OutstayedLock.SerialExactlyWhenShort | blocklet/rate-limit/src/index.ts:78-125 | likewise for all runs that last at most `limit` |
| RateLimit.NobodyOutstays | core/db-cache/src/lock-db-cache.ts:25-32 | within a lock's time to live from the first call nobody can outstay a lock |
| RateLimit.RowsOutliveTheirReset | blocklet/rate-limit/src/index.ts:65-106 | in every run from the start a stored row never expires before its reset time, and that is at most a window away |
| RateLimit.SerialCounts | blocklet/rate-limit/src/index.ts:78-125 | calls made one by one within a window leave increments less decrements, never below 0 |
| RateLimit.ResetTimeIsTheOpeningCalls | blocklet/rate-limit/src/index.ts:78-125 | over calls made one by one, the stored reset time is a window after the call that last started the count: one that found no live row or one past its time; all others keep it |
| RateLimit.ExclusiveRunsResetOnTime | blocklet/rate-limit/src/index.ts:78-125 | likewise over every run in which a key's callers exclude one another |
| RateLimit.EmptyKeysNeverCount | blocklet/rate-limit/src/index.ts:79-84 | in every run a call without a key is answered at once and never reaches the store |
| RateLimit.RateLimitStore.Acquire | core/db-cache/src/lock-db-cache.ts:117-126 | waiting for a lock ends at the latest one poll after the lock expires |
| RateLimit.RateLimitStore.ReleaseLock | core/db-cache/src/lock-db-cache.ts:66-73 | the lock's row is gone |
| RateLimit.RateLimitStore.Get | blocklet/rate-limit/src/index.ts:45-63 | the live row, none for an empty key |
| RateLimit.RateLimitStore.Set | blocklet/rate-limit/src/index.ts:65-76 | the row is rewritten with the window as time to live; nothing for an empty key |
| RateLimit.RateLimitStore.Increment | blocklet/rate-limit/src/index.ts:78-106 | with any time passing between its steps, the row and the answer are those of the call at the times it read, judged and wrote |
| RateLimit.RateLimitStore.Decrement | blocklet/rate-limit/src/index.ts:108-125 | likewise, writing nothing when there is no row |
| RateLimit.RateLimitStore.ResetKey | blocklet/rate-limit/src/index.ts:127-133 | the row is gone |
| Lcov.MapsAssociative | tools/bun-test-isolated.js:163-187 | merging coverage is associative, insertion order of the maps included |
| Lcov.MapsIdempotent | tools/bun-test-isolated.js:163-187 | merging a map with itself changes nothing |
| Lcov.OrderDoesNotMatter | tools/bun-test-isolated.js:164-186 | the DA, FNDA and summary values of a merge do not depend on the order of the parts |
| Lcov.NoHitLost | tools/bun-test-isolated.js:174-177 | a merged line count is reached by some part and exceeded by none |
| Lcov.NewestFnStays | tools/bun-test-isolated.js:165-169 | a merged FN line is that of the last part that has the function |
| Lcov.ParseJoined | tools/bun-test-isolated.js:37-113 | a text that ends at a record boundary, a newline and another text parse to the merge of the two parses |
| Lcov.ParseConcatenated | tools/bun-test-isolated.js:806-813 | concatenating parts and parsing once is parsing each and merging |
| Lcov.EntriesAreRead | tools/bun-test-isolated.js:59-65 | an FN or FNDA line is read from its first two comma-separated fields, whatever follows |
| Lcov.CountsAreRead | tools/bun-test-isolated.js:70-73 | likewise a DA line |
| Lcov.ReadLine | tools/bun-test-isolated.js:56-83 | one line changes one field of the record read so far |
| Lcov.ReadRecord | tools/bun-test-isolated.js:41-83 | the line loop computes the record's file and data |
| Lcov.MergeFile | tools/bun-test-isolated.js:86-105 | the in-place merge of one file's maps and totals |
| Lcov.PutFile | tools/bun-test-isolated.js:85-109 | a record's data is merged into what is there, or added |
| Lcov.ParseLcov | tools/bun-test-isolated.js:37-113 | the record loop computes the specified parse |
| Lcov.MergeFileMaps | tools/bun-test-isolated.js:163-187 | the merge loop computes the specified merge |
| LcovWriting.PushFns | tools/bun-test-isolated.js:123-125 | the FN lines, in insertion order |
| LcovWriting.PushFndas | tools/bun-test-isolated.js:133-135 | the FNDA lines, in insertion order |
| LcovWriting.PushDas | tools/bun-test-isolated.js:138-141 | the DA lines |
| LcovWriting.PrintRecord | tools/bun-test-isolated.js:118-156 | the lines of one file, with recomputed totals and branch lines only when there are branches |
| LcovWriting.GenerateLcov | tools/bun-test-isolated.js:116-158 | the loop over files computes the specified text |
| LcovWriting.ParseUndoesGenerate | tools/bun-test-isolated.js:37-158 | for names that fit on their lines, reading what was written gives the same FN, FNDA and DA maps, lines sorted and totals raised to what the entries show |
| LcovWriting.SecondWriteIsTheSame | tools/bun-test-isolated.js:116-158 | writing what was read from a written file changes nothing |
| LcovWriting.WrittenTotals | tools/bun-test-isolated.js:143-147 | LH is at most LF in every record written for the merge of two files, and in every one read back, when it was in every record of both |
| LcovWriting.MergeLcovFiles | tools/bun-test-isolated.js:25-192 | the existing file afterwards: unchanged without a new one, a copy when there was none, otherwise the text of the merged parses |
| LcovWriting.MergeCoverageParts | tools/bun-test-isolated.js:806-833 | the coverage file of one package after its parts are merged into it |
| WorkerPool.EveryRun | tools/bun-test-isolated.js:616-656 | in every run at most `maxConcurrency` files are in flight, a file is taken at most once and is then in flight or has ended, at most one fails, and no worker stops early nor does the process exit while none has failed |
| WorkerPool.FinishedMeansAll | tools/bun-test-isolated.js:638-723 | when all workers have stopped, every file has passed exactly once if and only if none failed, otherwise exactly one failed |
| WorkerPool.FailureStopsThePool | tools/bun-test-isolated.js:619-660 | after a failure nothing more is started and the counters stay |
| WorkerPool.StepsRunOut | tools/bun-test-isolated.js:619-656 | every step leaves less to do, and until the end there is a step to take |
| WorkerPool.ChunkRun.NextIndex | tools/bun-test-isolated.js:617 | hands out each index once, then -1 |
| WorkerPool.ChunkRun.CallRunNext | tools/bun-test-isolated.js:619-628 | the worker takes the next file, or stops after a failure or at the end |
| WorkerPool.ChunkRun.EndFile | tools/bun-test-isolated.js:645-660 | what the end of a file, good or bad, does to the shared counters and the worker |
| WorkerPool.ChunkRun.LaunchAll | tools/bun-test-isolated.js:718-721 | all workers are called |
| WorkerPool.ChunkRun.RunChunks | tools/bun-test-isolated.js:610-731 | the chunk ends with all files passed, or with exactly one failed |
| Renewal.TestsAgreeExactlyWhen | core/certificate-manager/libs/acme-manager.js:172-186 | the day test accepts every certificate the millisecond test selects, at every time, if and only if the ratio is one over a whole number |
| Renewal.SelectedIsDue | core/certificate-manager/libs/acme-manager.js:172-186 | with a ratio of one over a whole number a selected certificate is renewed at once |
| Renewal.SelectedIsDueLater | core/certificate-manager/libs/acme-manager.js:172-186 | with any ratio a selected certificate passes the day test at most the ratio, rounded up, in days later: one day for a ratio up to 1 |
| Renewal.TestsAreMonotone | core/certificate-manager/states/certificate.js:64-82 | once selected always selected, once due always due |
| Renewal.SelectedExactlyWhen | core/certificate-manager/states/certificate.js:64-82 | selected exactly with ten days or less, or no more than its share, left to live |
| Renewal.DueExactlyWhen | core/certificate-manager/libs/acme-manager.js:172-186 | due exactly with ten whole days or less, or no more than the share of its whole days, left |
| Renewal.ChecksBeforeExpiry | core/certificate-manager/states/certificate.js:64-82 | a certificate with n days of lifetime, n days within the threshold, is selected by n daily checks before it expires, and the last ten also find it due |
| Renewal.RenewedInTime | core/certificate-manager/libs/acme-manager.js:230-241 | a certificate is renewed on the first of its last ten checks on which issuing succeeds, before it expires |
| Renewal.Manager.PushToJobQueue | core/certificate-manager/libs/acme-manager.js:83-89 | a job is queued unless it is there already |
| Renewal.Manager.CheckRenewalCerts | core/certificate-manager/libs/acme-manager.js:230-241 | exactly the certificates of ours that are issued and selected are queued, none twice |
| Renewal.Manager.CreateOrRenewCert | core/certificate-manager/libs/acme-manager.js:152-228 | the result in each case and what happens to the record |
| Renewal.Manager.RunJob | core/certificate-manager/libs/acme-manager.js:90-98 | a job replaces exactly its own certificate, exactly when it is due and issuing succeeds; a failed one leaves it in error |
| Renewal.Manager.DailyCycle | core/certificate-manager/libs/acme-manager.js:230-241 | a day's check and job act on a certificate as the two tests say |
| ComponentStore.StoreIsAMap | blocklet/node-sdk/src/config.ts:270-328 | over any run with removals of one component DIDs stay unique, and what is stored for a DID depends only on the events that name it |
| ComponentStore.StatusIsTheLastCommand | blocklet/node-sdk/src/config.ts:270-308 | as long as a component is not removed itself, its status is what the last start or stop naming it says, and otherwise the one it had |
| ComponentStore.NewOnesBeginStopped | blocklet/node-sdk/src/config.ts:278-296 | installs and updates leave other statuses alone and new components begin stopped |
| ComponentStore.FieldsAreTheLastSaid | blocklet/node-sdk/src/config.ts:278-296 | after an install or update a field has the value of the last item that names the component and carries it, and otherwise is as before |
| ComponentStore.FieldsAreTheLastUpdate | blocklet/node-sdk/src/config.ts:270-328 | likewise over any run in which the component is not removed itself |
| ComponentStore.RemovalIsExactWhen | blocklet/node-sdk/src/config.ts:310-316 | removal removes exactly what is named if and only if the event names one DID, or several of which none is there, or none while the store is empty |
| ComponentStore.Holder.SetComponentStatus | blocklet/node-sdk/src/config.ts:270-276 | the statuses named change, in place, and the changed components are returned |
| ComponentStore.Holder.SetUpdatedComponents | blocklet/node-sdk/src/config.ts:278-296 | the array after an install or update, and the announced items with the stored statuses |
| ComponentStore.Holder.HandleRemoved | blocklet/node-sdk/src/config.ts:310-313 | the filter keeps a component when some DID in the event is not its own |
| ComponentStore.Holder.HandleEvent | blocklet/node-sdk/src/config.ts:298-328 | every handler acts as specified |
| Vault.Verify | blocklet/meta/src/security.ts:37-153 | accepts exactly the chains; a fault in a vault means all before it hold |
| Vault.VerifyVault | blocklet/meta/src/security.ts:37-153 | the last DID for a chain, otherwise an exception or the empty text |
| Vault.FirstChecks | blocklet/meta/src/security.ts:38-63 | empty, unordered and repeated vaults are refused, in this order |
| Vault.CheckVault | blocklet/meta/src/security.ts:66-150 | one vault passes if and only if it is approved by its predecessor's key, the first by the given approver's, and committed by its own; which fault is reported |
| Vault.DataUpTo | blocklet/meta/src/security.ts:75-78 | the data signed at a step |
| Vault.ChainGrows | blocklet/meta/src/security.ts:46-150 | a vault extends a chain if and only if it is later, new, approved by the last one and committed |
| Vault.ChainIsPrefixClosed | blocklet/meta/src/security.ts:66-152 | every beginning of a chain is a chain |
| Vault.SignedDataDetermines | blocklet/meta/src/security.ts:75-78 | the data signed determines the application and all DIDs up to that step when none contains a colon |
| Vault.SignedDataDeterminesExactlyWhen | blocklet/meta/src/security.ts:75-78 | at a given step the data signed determines the application and the DIDs if and only if none of these names contains a colon, or there is no DID |
| Vault.CommittedDataDeterminesExactlyWhen | blocklet/meta/src/security.ts:121-145 | at a given step the data committed to determines the application, the DIDs and the approver's signature if and only if none of them contains a colon |
| Vault.ColonsConfuse | blocklet/meta/src/security.ts:75-78 | for any application and DIDs with a colon somewhere, others of the same number sign the same data |
| Vault.LengthMatters | blocklet/meta/src/security.ts:75-78 | without knowing the step the data determines its names if and only if there is no DID and no colon |
| ComponentTree.ForEachBlocklet | blocklet/meta/src/util.ts:82-140 | every component is visited once, parents first, each with its own parent, level, ancestors and id |
| ComponentTree.FindComponent | blocklet/meta/src/util.ts:272-308 | finds the first component of that walk with the property, and none only when there is none |
| ComponentTree.FindComponentById | blocklet/meta/src/util.ts:310-332 | finds a component with that id; in a tree with slash-free DIDs and different siblings, exactly the one whose id it is |
| ComponentTree.FindComponentByPath | blocklet/meta/src/util.ts:319-322 | a list of DIDs finds the component at the end of that path |
| ComponentTree.IdsAreUnique | blocklet/meta/src/util.ts:34-40 | in such a tree all components have different ids |
| ComponentTree.IdIsJoinedPath | blocklet/meta/src/util.ts:34-40 | an id is the path of DIDs joined by slashes |

## Left out

- Cache.TtlCache.Set: the adapters' own way of deciding whether a key is taken and of timing expiry is not modelled; the cache is an atomic map in which a row is live strictly before its expiry time.
- Grants.GrantService.CreateGrant: a grant is its hash, which is taken to be one nobody has used; drawing and hashing random bytes, and the refusal of an empty grant, are not modelled.
- RateLimit.LockedRunsAreSerial: `resetKey`, which takes no lock, is not among the interleaved calls; cache errors, which make `increment` answer with the default, are not modelled; keys that look like lock names are kept apart from locks.
- RateLimit.RateLimitStore.Acquire: another process releasing the lock while this one waits only shortens the wait and is left to the interleaved model.
- Lcov.ReadRecord: a number with anything around its digits, such as a carriage return, makes the record unreadable, where the code reads the digits.
- Lcov.ParseLcov: a number that is not decimal makes the parse undefined, where the code would go on with NaN; a line that lacks its comma is read as malformed.
- LcovWriting.MergeLcovFiles: files are their contents; reading and writing them is left out.
- Resolver.EveryRun: stores answer every configuration the same way with a fresh meta, so the engine pushed into a meta's component list is seen by that meta's own call only; titles, descriptions, mount points, the components' `dependencies` lists, `continueOnError` and a `didKey` other than `bundleDid` are not modelled.
- Navigation.NestNavigationList: sections are compared by value; the code compares references, which is the same for the single section names that split lists carry. Items are values, which is what the deep clones make them.
- Navigation.NestUndoesFlatten: an absent and an empty list of items are the same.
- CompactNavigation.CompactNavigation: only the default depth of 2, which its one caller uses; how two links are joined is a parameter.
- ParsedNavigation.DoParseNavigation: joining and normalising link texts is left to two parameters; section names that are whole numbers, which JavaScript would list first, come in order of appearance.
- WorkerPool.ChunkRun.RunChunks: running a file, its retries and its output are one step that ends well or not.
- Renewal.TestsAgreeExactlyWhen: ratios are real numbers, so rounding of a third in floating point is not modelled, and days have 24 hours.
- Renewal.Manager.RunJob: the queue's retries are one attempt; DNS and the certificate authority are parameters.
- ComponentStore.StoreIsAMap: components are values in the array, since what is handed out is cloned; replacing the whole list, web endpoints and Docker paths are left out.
- Vault.Verify: keys, signatures and the check of a DID against a key are parameters; text stands for its UTF-8 bytes.
- ComponentTree.ForEachBlocklet: only the synchronous walk, without the parameters a callback may hand down.
- `filterNavigation`, `splitNavigationBySection` and the patching of menus: they rest on the functions above or are declared for two levels only.
- HTTP, WebSocket and command-line code, React pages, wallets, schemas and the database: input and output around libraries.
