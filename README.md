# GitHub webhook suggestion report — a Dafny model

This project models the decision logic of a build-server plugin's health
report. The report looks for VCS roots that poll a GitHub repository and could use
a push webhook instead. It suggests adding a hook for them. The model covers
two source files:

- `helpers.kt`: the status of a repository hook, the plural suffix, `nullIfBlank`,
  and `filterKnownServers`. That filter keeps a repository group only if a project
  owning its roots has an OAuth connection to the group's GitHub server. It
  fetches each project's connections at most once per call and keeps them in a
  cache local to the call.
- `GitHubWebHookAvailableHealthReport.kt`: `splitRoots` (grouping roots by
  repository identity), the `report` pipeline (group, drop groups with hooks,
  known-server filter, re-read the hook storage, emit one item per root), and
  `canReportItemsFor`.

The host's services are inputs of function type, bundled in three datatypes:
`Helpers.ConnectionServices` (`Util.getProjects`,
`OAuthConnectionsManager.getAvailableConnections`, `Util.isConnectionToServer`),
`HealthReport.VcsServices` (`Util.getGitHubInfo`, `isHasParameterReferences`) and
`HealthReport.Scope` (the severities a scope accepts, and the roots
`Util.findSuitableRoots` offers to its callback). The webhook storage is read twice
by `report`. Each read is a separate `HookSnapshot` input, and the two reads may
disagree. The result consumer is modelled as the returned sequence of
`Event`s, one per `consumeFor…` call.

Files: `wrappers.dfy` (Option), `seqs.dfy` (the Kotlin collection operations used:
`filter`, `filterNotNull`, `toSet`), `entities.dfy` (the host objects read:
repository identity, project, build type, connection, VCS root),
`helpers.dfy`, `health_report.dfy`.

Where the design description and the code differ, the model follows the code:

- The design says the eligibility query checks the inclusion filter and the hook
  storage itself. In the code, `canReportItemsFor` only checks the severity and
  asks `findSuitableRoots` for one root.
- The design speaks of insertion order within a group. The code's `MultiMapToSet`
  holds sets, so groups here are sets.

## Model

| member | source | states |
|---|---|---|
| Helpers.GetStatus | src/main/kotlin/org/jetbrains/teamcity/github/helpers.kt:38-50 | Status per outcome. A response outside 200..299 gives PAYLOAD_DELIVERY_FAILED whether or not the hook is active. Otherwise an inactive hook is DISABLED. An active hook is OK once a successful response exists and WAITING_FOR_SERVER_RESPONSE before that. Every case is stated as an if-and-only-if. |
| Helpers.PluralSuffix | src/main/kotlin/org/jetbrains/teamcity/github/helpers.kt:34 | The suffix is "" exactly when n == 1 and "s" exactly when n != 1. |
| Helpers.NullIfBlank | src/main/kotlin/org/jetbrains/teamcity/github/helpers.kt:63 | Null exactly for null or blank input (empty or JVM whitespace only). Otherwise the input comes back unchanged and is not blank. |
| Helpers.AnyConnectionTo | src/main/kotlin/org/jetbrains/teamcity/github/helpers.kt:58 | Filtering the connections by `isConnectionToServer` leaves something exactly when some connection points at the server. |
| Helpers.AnyProjectHasConnection | src/main/kotlin/org/jetbrains/teamcity/github/helpers.kt:56-59 | The `any` over owning projects is true exactly when some project has an available non-null connection to the server. The cache stays faithful: it holds exactly the projects fetched so far, each fetched once, with the value fetched. A fetch happens only for this entry's projects. |
| Helpers.FilterKnownServers | src/main/kotlin/org/jetbrains/teamcity/github/helpers.kt:53-61 | The cached loop returns exactly the uncached filter, so the cache is transparent. The output is a subsequence of the input. An entry is kept iff some project of `getProjects(entry.value)` has an available non-null connection to `entry.key.server`. `getAvailableConnections` runs at most once per project in a call, and only for projects that own some entry's roots. |
| Seqs.Filter | src/main/kotlin/org/jetbrains/teamcity/github/helpers.kt:55 | Kotlin `filter`: an element is in the result iff it is in the input and passes the test. |
| Seqs.FilterIsSubsequence | src/main/kotlin/org/jetbrains/teamcity/github/helpers.kt:55 | Filtering keeps the relative order of the kept elements. |
| Seqs.FilterSnoc | src/main/kotlin/org/jetbrains/teamcity/github/helpers.kt:55 | Filtering one more element appends either that element or nothing. This is the step of the left-to-right filtering loop. |
| Seqs.FilterNotNull | src/main/kotlin/org/jetbrains/teamcity/github/helpers.kt:57 | Kotlin `filterNotNull`: exactly the present values are kept. |
| Seqs.Distinct | src/main/kotlin/org/jetbrains/teamcity/github/GitHubWebHookAvailableHealthReport.kt:70 | Kotlin `toSet()` on a list: the same elements, each exactly once. |
| Seqs.NoDuplicatesCount | src/main/kotlin/org/jetbrains/teamcity/github/GitHubWebHookAvailableHealthReport.kt:70 | In the de-duplicated project list, every project occurs exactly once. |
| Seqs.NoDuplicatesSnoc | src/main/kotlin/org/jetbrains/teamcity/github/GitHubWebHookAvailableHealthReport.kt:65 | Visiting a root not visited before keeps the visit order free of repeats. |
| HealthReport.SplitRoots | src/main/kotlin/org/jetbrains/teamcity/github/GitHubWebHookAvailableHealthReport.kt:15-27 | The multimap equals `Grouped`. Every root in a group has non-null GitHub info equal to the group key and no parameter references. Every such input root is in the group of its info. Roots with null info or with parameter references are in no group. Groups are non-empty subsets of the input. The key set is exactly the set of infos of the eligible roots. |
| HealthReport.GroupedUnique | src/main/kotlin/org/jetbrains/teamcity/github/GitHubWebHookAvailableHealthReport.kt:15-27 | Any multimap with the grouping's membership properties and no empty group is the grouping. |
| HealthReport.EntriesOf | src/main/kotlin/org/jetbrains/teamcity/github/GitHubWebHookAvailableHealthReport.kt:54 | `entrySet()` lists each key of the multimap once, with its value set, in some order. |
| HealthReport.FilterKeepsInfosDistinct | src/main/kotlin/org/jetbrains/teamcity/github/GitHubWebHookAvailableHealthReport.kt:54-58 | Both filters keep the repository identities of the entries pairwise distinct. |
| HealthReport.ItemEventsCount | src/main/kotlin/org/jetbrains/teamcity/github/GitHubWebHookAvailableHealthReport.kt:67-70 | One item's consumer calls are exactly: the root once, each build type in `usagesInConfigurations` once per listing, and each project in `usagesInProjects ∪ {root.project}` once. No call concerns another item. |
| HealthReport.BuildTypeEventsCount | src/main/kotlin/org/jetbrains/teamcity/github/GitHubWebHookAvailableHealthReport.kt:69 | The `forEach` over build types makes one call per listing of a build type. |
| HealthReport.ProjectEventsCount | src/main/kotlin/org/jetbrains/teamcity/github/GitHubWebHookAvailableHealthReport.kt:70 | The `forEach` over projects makes one call per listed project. |
| HealthReport.ConsumeItem | src/main/kotlin/org/jetbrains/teamcity/github/GitHubWebHookAvailableHealthReport.kt:67-70 | The two loops make exactly the calls `ItemEvents` lists, in order: the root, then the build types, then the de-duplicated projects. |
| HealthReport.RootsEventsCount | src/main/kotlin/org/jetbrains/teamcity/github/GitHubWebHookAvailableHealthReport.kt:65-71 | Visiting each root of an entry once yields the expected calls for the items of exactly those roots. |
| HealthReport.ConsumeRoots | src/main/kotlin/org/jetbrains/teamcity/github/GitHubWebHookAvailableHealthReport.kt:65-71 | The loop over an entry's roots visits every root exactly once, in some order. Its calls are the concatenation of the per-item calls in that order. |
| HealthReport.EmittedOneMore | src/main/kotlin/org/jetbrains/teamcity/github/GitHubWebHookAvailableHealthReport.kt:60-72 | Adding the calls of one more entry that passed the re-check keeps the call counts equal to the expected counts of the items emitted so far. |
| HealthReport.EmitItems | src/main/kotlin/org/jetbrains/teamcity/github/GitHubWebHookAvailableHealthReport.kt:60-72 | No call is made for an entry whose identity has hooks at the re-read of the storage. Every call carries an item of a root of an entry that passed the re-read. For distinct identities, every such item gets exactly its expected calls. |
| HealthReport.PipelineItems | src/main/kotlin/org/jetbrains/teamcity/github/GitHubWebHookAvailableHealthReport.kt:54-64 | The items of the filtered entries are the roots of the groups that had no hooks at the first read, have a known server and still have no hooks at the second read. |
| HealthReport.ReportedItemsCharacterization | src/main/kotlin/org/jetbrains/teamcity/github/GitHubWebHookAvailableHealthReport.kt:48-73 | An item (info, root) is reported iff all of these hold: the scope offers the root; its GitHub info is `info`; `info` has no parameter references; both storage reads for `info` are empty; the info's whole group has a known server. |
| HealthReport.Report | src/main/kotlin/org/jetbrains/teamcity/github/GitHubWebHookAvailableHealthReport.kt:48-73 | Every call carries a reported item. Each reported item reaches its root once, each build type using the root once per listing, and each project using or owning the root exactly once. Nothing else is consumed. In particular, no item is emitted for an identity whose storage is non-empty at the re-check, even if it was empty at the first filter. |
| HealthReport.CanReportItemsFor | src/main/kotlin/org/jetbrains/teamcity/github/GitHubWebHookAvailableHealthReport.kt:40-45 | False when the scope does not accept the INFO severity. Otherwise true iff `findSuitableRoots` offers at least one root. The callback runs once when a root exists (the scan stops at the first root) and never otherwise. |

## Left out

- `GitHubWebHookSuggestionPageExtension.kt` is not part of this model. It fills a page model map for the UI and has no decision logic of its own.
- `Int.pluralize` calls a foreign library (`StringUtil.pluralize`), and `RepositoryHook.callbackUrl` is a bare map lookup. Neither is modelled.
- `getType`, `getDisplayName` and `getCategories` return constants. The type and the category are modelled as constants (`ReportType`, `Category`); the display name is not.
- The internals of `Util.getGitHubInfo` (URL parsing and normalisation), `isHasParameterReferences`, `Util.findSuitableRoots`, `Util.getProjects`, `Util.isConnectionToServer` and `getAvailableConnections` are outside the core. They are function-typed inputs.
- `findSuitableRoots` is modelled as a list of roots given to the callback in order, with the scan stopping when the callback returns false. That calling convention is assumed, because its code is outside the core.
- The Guava cache is a local map. `MultiMapToSet` is a map to sets. The `HashSet` of roots is a set. The consumer is the returned list of events.
- The race between the two storage reads is modelled only as two possibly different snapshots. There are no concurrency, timing or locking.
- Exceptions thrown by host services propagate to the host in the source. They are not modelled.
- Only the four `Status` values that `getStatus` returns are declared. The rest of that enum is outside the core.
- A response code is an unbounded integer. Kotlin's 32-bit `Int` only matters through the range test, so wrap-around plays no part.
- HealthReport.Report: the contract fixes the calls with their multiplicities, not their order across entries and roots. The source iterates hash-based sets and map entries whose order is unspecified. `ConsumeItem` fixes the order within one item.
- HealthReport.EmitItems: the exact counts are stated for entries whose repository identities are distinct. `report` always passes such entries, because they come from a map.
