/**
 * GitHubWebHookAvailableHealthReport.kt: the health report that suggests
 * replacing polling of a GitHub repository with a push webhook.
 */
module HealthReport {
  import opened Wrappers
  import opened Seqs
  import opened Entities
  import opened Helpers

  // ---------------------------------------------------------------------------
  // Constants and host inputs
  // ---------------------------------------------------------------------------

  /** Severities of the host's health-status framework. */
  datatype ItemSeverity = Info | Warn | Error

  datatype ItemCategory = ItemCategory(id: string, name: string, severity: ItemSeverity)

  const ReportType: string := "GitHub.WebHookAvailable"

  const Category: ItemCategory :=
    ItemCategory("GH.WebHook.Available", "GitHub repo polling could be replaced with webhook", Info)

  /** The host services that read a VCS root's URL. */
  datatype VcsServices = VcsServices(
    /** `Util.getGitHubInfo`: the repository identity of a root's URL, if it is a GitHub URL. */
    gitHubInfo: VcsRoot -> Option<RepositoryInfo>,
    /** `GitHubRepositoryInfo.isHasParameterReferences`: the URL still holds `%param%` references. */
    hasParameterReferences: RepositoryInfo -> bool)

  /** A hook record of the plugin's webhook storage. */
  datatype StoredHook = StoredHook(id: string)

  /**
   * One read of the webhook storage, `storage.getHooks(info)`. The report
   * reads the storage twice, and the two reads may disagree.
   */
  type HookSnapshot = RepositoryInfo -> seq<StoredHook>

  /**
   * A health-status scope: which severities it accepts, and the roots that
   * `Util.findSuitableRoots` offers for it, in order, to its callback (it
   * stops as soon as the callback answers false).
   */
  datatype Scope = Scope(isItemWithSeverityAccepted: ItemSeverity -> bool, suitableRoots: seq<VcsRoot>)

  // ---------------------------------------------------------------------------
  // splitRoots
  // ---------------------------------------------------------------------------

  /** A root that `splitRoots` keeps: its URL is a GitHub URL without parameter references. */
  predicate Eligible(vcs: VcsServices, root: VcsRoot)
  {
    vcs.gitHubInfo(root).Some? && !vcs.hasParameterReferences(vcs.gitHubInfo(root).value)
  }

  /** The repository identities of the eligible roots. */
  function EligibleInfos(roots: set<VcsRoot>, vcs: VcsServices): set<RepositoryInfo>
  {
    set r | r in roots && Eligible(vcs, r) :: vcs.gitHubInfo(r).value
  }

  /** The grouping `splitRoots` computes: each identity to the eligible roots that have it. */
  function Grouped(roots: set<VcsRoot>, vcs: VcsServices): map<RepositoryInfo, set<VcsRoot>>
  {
    map info | info in EligibleInfos(roots, vcs) ::
      set r | r in roots && vcs.gitHubInfo(r) == Some(info) && !vcs.hasParameterReferences(info)
  }

  /** A multimap that has the three properties of the grouping is the grouping. */
  lemma GroupedUnique(roots: set<VcsRoot>, vcs: VcsServices, m: map<RepositoryInfo, set<VcsRoot>>)
    requires forall info, r :: info in m && r in m[info] ==>
      r in roots && vcs.gitHubInfo(r) == Some(info) && !vcs.hasParameterReferences(info)
    requires forall r :: r in roots && Eligible(vcs, r) ==>
      vcs.gitHubInfo(r).value in m && r in m[vcs.gitHubInfo(r).value]
    requires forall info :: info in m ==> m[info] != {}
    ensures m == Grouped(roots, vcs)
  {
    var g := Grouped(roots, vcs);
    forall info | info in m
      ensures info in g
    {
      var r :| r in m[info];
      assert Eligible(vcs, r);
    }
    assert m.Keys == g.Keys;
    forall info | info in m
      ensures m[info] == g[info]
    {
    }
  }

  /**
   * `splitRoots`: groups the roots by repository identity, skipping the
   * roots without one and those whose URL still has parameter references.
   * The set is iterated in no particular order.
   */
  method SplitRoots(vcsRoots: set<VcsRoot>, vcs: VcsServices) returns (split: map<RepositoryInfo, set<VcsRoot>>)
    ensures split == Grouped(vcsRoots, vcs)
    ensures forall info, r :: info in split && r in split[info] ==>
      r in vcsRoots && vcs.gitHubInfo(r) == Some(info) && !vcs.hasParameterReferences(info)
    ensures forall r :: r in vcsRoots && Eligible(vcs, r) ==>
      vcs.gitHubInfo(r).value in split && r in split[vcs.gitHubInfo(r).value]
    ensures forall info, r :: info in split && !Eligible(vcs, r) ==> r !in split[info]
    ensures split.Keys == EligibleInfos(vcsRoots, vcs)
    ensures forall info :: info in split ==> split[info] != {} && split[info] <= vcsRoots
  {
    split := map[];
    var remaining := vcsRoots;
    ghost var visited: set<VcsRoot> := {};
    while remaining != {}
      invariant remaining <= vcsRoots && visited == vcsRoots - remaining
      invariant forall info, r :: info in split && r in split[info] ==>
        r in visited && vcs.gitHubInfo(r) == Some(info) && !vcs.hasParameterReferences(info)
      invariant forall r :: r in visited && Eligible(vcs, r) ==>
        vcs.gitHubInfo(r).value in split && r in split[vcs.gitHubInfo(r).value]
      invariant forall info :: info in split ==> split[info] != {}
      decreases remaining
    {
      var root :| root in remaining;
      remaining := remaining - {root};
      visited := visited + {root};
      match vcs.gitHubInfo(root)
      case None =>
      case Some(info) =>
        if !vcs.hasParameterReferences(info) {
          // MultiMapToSet.add
          split := split[info := (if info in split then split[info] else {}) + {root}];
        }
    }
    GroupedUnique(vcsRoots, vcs, split);
  }

  // ---------------------------------------------------------------------------
  // Items and what the consumer receives
  // ---------------------------------------------------------------------------

  /** `WebHookAddHookHealthItem`: the suggestion to add a hook for one root of a repository. */
  datatype AddHookHealthItem = AddHookHealthItem(info: RepositoryInfo, root: VcsRoot)

  /** What an item is attached to: `consumeForVcsRoot`, `consumeForBuildType`, `consumeForProject`. */
  datatype Target = VcsRootTarget(root: VcsRoot) | BuildTypeTarget(buildType: BuildType) | ProjectTarget(project: Project)

  /** One call of the result consumer. */
  datatype Event = Event(target: Target, item: AddHookHealthItem)

  /** The projects an item goes to: `usagesInProjects.plus(project).toSet()`. */
  function NotifiedProjects(root: VcsRoot): seq<Project>
  {
    Distinct(root.usagesInProjects + [root.project])
  }

  function BuildTypeEvents(buildTypes: seq<BuildType>, item: AddHookHealthItem): seq<Event>
  {
    if buildTypes == [] then []
    else BuildTypeEvents(buildTypes[..|buildTypes| - 1], item) + [Event(BuildTypeTarget(buildTypes[|buildTypes| - 1]), item)]
  }

  function ProjectEvents(projects: seq<Project>, item: AddHookHealthItem): seq<Event>
  {
    if projects == [] then []
    else ProjectEvents(projects[..|projects| - 1], item) + [Event(ProjectTarget(projects[|projects| - 1]), item)]
  }

  /** The consumer calls for one item, in the order the report makes them. */
  function ItemEvents(item: AddHookHealthItem): seq<Event>
  {
    [Event(VcsRootTarget(item.root), item)]
      + BuildTypeEvents(item.root.usagesInConfigurations, item)
      + ProjectEvents(NotifiedProjects(item.root), item)
  }

  /**
   * How often the consumer is to receive `ev` for the item it carries: once
   * for the item's root, once per listing of a build type that uses the root,
   * once for each project that uses or owns the root, never for anything else.
   */
  function ExpectedCount(ev: Event): nat
  {
    var root := ev.item.root;
    match ev.target
    case VcsRootTarget(r) => if r == root then 1 else 0
    case BuildTypeTarget(b) => multiset(root.usagesInConfigurations)[b]
    case ProjectTarget(p) => if p in root.usagesInProjects || p == root.project then 1 else 0
  }

  lemma {:induction false} BuildTypeEventsCount(buildTypes: seq<BuildType>, item: AddHookHealthItem, ev: Event)
    ensures multiset(BuildTypeEvents(buildTypes, item))[ev] ==
      if ev.item == item && ev.target.BuildTypeTarget? then multiset(buildTypes)[ev.target.buildType] else 0
  {
    if buildTypes != [] {
      var n := |buildTypes| - 1;
      assert buildTypes == buildTypes[..n] + [buildTypes[n]];
      BuildTypeEventsCount(buildTypes[..n], item, ev);
    }
  }

  lemma {:induction false} ProjectEventsCount(projects: seq<Project>, item: AddHookHealthItem, ev: Event)
    ensures multiset(ProjectEvents(projects, item))[ev] ==
      if ev.item == item && ev.target.ProjectTarget? then multiset(projects)[ev.target.project] else 0
  {
    if projects != [] {
      var n := |projects| - 1;
      assert projects == projects[..n] + [projects[n]];
      ProjectEventsCount(projects[..n], item, ev);
    }
  }

  /** The calls for one item are exactly the expected ones, and concern only that item. */
  lemma ItemEventsCount(item: AddHookHealthItem, ev: Event)
    ensures multiset(ItemEvents(item))[ev] == if ev.item == item then ExpectedCount(ev) else 0
  {
    BuildTypeEventsCount(item.root.usagesInConfigurations, item, ev);
    ProjectEventsCount(NotifiedProjects(item.root), item, ev);
    if ev.target.ProjectTarget? {
      NoDuplicatesCount(NotifiedProjects(item.root), ev.target.project);
    }
  }

  /**
   * The body of the innermost loop of `report`: the item goes to its root,
   * then to each build type using the root, then to each project.
   */
  method ConsumeItem(item: AddHookHealthItem) returns (events: seq<Event>)
    ensures events == ItemEvents(item)
  {
    events := [Event(VcsRootTarget(item.root), item)];
    var buildTypes := item.root.usagesInConfigurations;
    var k := 0;
    while k < |buildTypes|
      invariant 0 <= k <= |buildTypes|
      invariant events == [Event(VcsRootTarget(item.root), item)] + BuildTypeEvents(buildTypes[..k], item)
    {
      assert buildTypes[..k + 1][..k] == buildTypes[..k];
      events := events + [Event(BuildTypeTarget(buildTypes[k]), item)];
      k := k + 1;
    }
    assert buildTypes[..k] == buildTypes;
    ghost var prefix := events;
    var projects := NotifiedProjects(item.root);
    k := 0;
    while k < |projects|
      invariant 0 <= k <= |projects|
      invariant events == prefix + ProjectEvents(projects[..k], item)
    {
      assert projects[..k + 1][..k] == projects[..k];
      events := events + [Event(ProjectTarget(projects[k]), item)];
      k := k + 1;
    }
    assert projects[..k] == projects;
  }

  // ---------------------------------------------------------------------------
  // report
  // ---------------------------------------------------------------------------

  /** No two entries share a repository identity. */
  predicate InfosDistinct(entries: seq<Entry>)
  {
    forall a, b :: 0 <= a < b < |entries| ==> entries[a].info != entries[b].info
  }

  lemma {:induction false} FilterKeepsInfosDistinct(entries: seq<Entry>, keep: Entry -> bool)
    requires InfosDistinct(entries)
    ensures InfosDistinct(Filter(entries, keep))
  {
    if entries != [] {
      var rest := entries[1..];
      assert InfosDistinct(rest) by {
        forall a, b | 0 <= a < b < |rest| ensures rest[a].info != rest[b].info {
          assert rest[a] == entries[a + 1] && rest[b] == entries[b + 1];
        }
      }
      FilterKeepsInfosDistinct(rest, keep);
      if keep(entries[0]) {
        var r := Filter(entries, keep);
        forall b | 0 < b < |r| ensures r[0].info != r[b].info {
          assert r[b] in Filter(rest, keep);
        }
      }
    }
  }

  /**
   * `split.entrySet()`: the grouping as a list of entries, one per identity,
   * in no particular order.
   */
  method EntriesOf(split: map<RepositoryInfo, set<VcsRoot>>) returns (entries: seq<Entry>)
    ensures forall e :: e in entries <==> e.info in split && e.roots == split[e.info]
    ensures InfosDistinct(entries)
  {
    entries := [];
    var keys := split.Keys;
    while keys != {}
      invariant keys <= split.Keys
      invariant forall e :: e in entries <==> e.info in split.Keys - keys && e.roots == split[e.info]
      invariant InfosDistinct(entries)
      decreases keys
    {
      var info :| info in keys;
      assert forall e :: e in entries ==> e.info != info;
      entries := entries + [Entry(info, split[info])];
      keys := keys - {info};
    }
  }

  /** The first filter of `report`: the storage holds no hook for the entry's identity. */
  function HookFree(storage: HookSnapshot): Entry -> bool
  {
    (e: Entry) => storage(e.info) == []
  }

  /** The items the emission loop makes from `entries`, given the re-read of the storage. */
  ghost function EmittableItems(entries: seq<Entry>, storage: HookSnapshot): set<AddHookHealthItem>
  {
    set e, r | e in entries && r in e.roots && storage(e.info) == [] :: AddHookHealthItem(e.info, r)
  }

  lemma EmittableItemsStep(entries: seq<Entry>, i: nat, storage: HookSnapshot)
    requires i < |entries|
    ensures EmittableItems(entries[..i + 1], storage) ==
      EmittableItems(entries[..i], storage)
        + (if storage(entries[i].info) == [] then set r | r in entries[i].roots :: AddHookHealthItem(entries[i].info, r) else {})
  {
    assert entries[..i + 1] == entries[..i] + [entries[i]];
  }

  /** The consumer calls for the roots of one entry, visited in the order `order`. */
  function RootsEvents(info: RepositoryInfo, order: seq<VcsRoot>): seq<Event>
  {
    if order == [] then []
    else RootsEvents(info, order[..|order| - 1]) + ItemEvents(AddHookHealthItem(info, order[|order| - 1]))
  }

  /** Visiting each root once yields the expected calls for exactly the items of those roots. */
  lemma {:induction false} RootsEventsCount(info: RepositoryInfo, order: seq<VcsRoot>, ev: Event)
    requires NoDuplicates(order)
    ensures multiset(RootsEvents(info, order))[ev]
            == (if ev.item.info == info && ev.item.root in order then ExpectedCount(ev) else 0)
  {
    if order != [] {
      var n := |order| - 1;
      var init := order[..n];
      assert order == init + [order[n]];
      assert NoDuplicates(init);
      assert order[n] !in init;
      RootsEventsCount(info, init, ev);
      ItemEventsCount(AddHookHealthItem(info, order[n]), ev);
    }
  }

  /**
   * The loop over the roots of one entry in `report`: one item per root,
   * handed to the consumer with `ConsumeItem`. The roots are a set, visited
   * in no particular order; `order` is the order taken, each root once.
   */
  method ConsumeRoots(info: RepositoryInfo, roots: set<VcsRoot>) returns (events: seq<Event>, order: seq<VcsRoot>)
    ensures events == RootsEvents(info, order)
    ensures NoDuplicates(order)
    ensures forall r :: r in order <==> r in roots
  {
    events, order := [], [];
    var remaining := roots;
    while remaining != {}
      invariant remaining <= roots
      invariant events == RootsEvents(info, order)
      invariant NoDuplicates(order)
      invariant forall r :: r in order <==> r in roots - remaining
      decreases remaining
    {
      var root :| root in remaining;
      var itemEvents := ConsumeItem(AddHookHealthItem(info, root));
      NoDuplicatesSnoc(order, root);
      assert (order + [root])[..|order|] == order;
      events := events + itemEvents;
      order := order + [root];
      remaining := remaining - {root};
    }
  }

  /**
   * The nested loops at the end of `report`: every entry whose identity
   * still has no hook when the storage is read again yields one item per
   * root; the others are skipped.
   */
  method EmitItems(entries: seq<Entry>, storage: HookSnapshot) returns (events: seq<Event>)
    ensures forall ev :: ev in events ==> ev.item in EmittableItems(entries, storage)
    ensures InfosDistinct(entries) ==>
      forall ev :: multiset(events)[ev] == (if ev.item in EmittableItems(entries, storage) then ExpectedCount(ev) else 0)
  {
    events := [];
    var i := 0;
    while i < |entries|
      invariant 0 <= i <= |entries|
      invariant forall ev :: ev in events ==> ev.item in EmittableItems(entries[..i], storage)
      invariant InfosDistinct(entries) ==>
        forall ev :: multiset(events)[ev] == (if ev.item in EmittableItems(entries[..i], storage) then ExpectedCount(ev) else 0)
    {
      var entry := entries[i];
      EmittableItemsStep(entries, i, storage);
      // Something may have changed since the first read of the storage
      if storage(entry.info) == [] {
        var entryEvents, order := ConsumeRoots(entry.info, entry.roots);
        forall ev: Event
          ensures multiset(entryEvents)[ev]
                  == (if ev.item.info == entry.info && ev.item.root in entry.roots then ExpectedCount(ev) else 0)
          ensures ev in entryEvents ==> ev.item in EmittableItems(entries[..i + 1], storage)
        {
          RootsEventsCount(entry.info, order, ev);
        }
        if InfosDistinct(entries) {
          EmittedOneMore(events, entryEvents, entries, i, storage);
        }
        events := events + entryEvents;
      }
      i := i + 1;
    }
    assert entries[..i] == entries;
  }

  /** Appending the calls for the roots of one more entry whose identity still has no hook. */
  lemma EmittedOneMore(events: seq<Event>, entryEvents: seq<Event>, entries: seq<Entry>, i: nat, storage: HookSnapshot)
    requires i < |entries| && InfosDistinct(entries) && storage(entries[i].info) == []
    requires forall ev :: multiset(events)[ev]
                          == (if ev.item in EmittableItems(entries[..i], storage) then ExpectedCount(ev) else 0)
    requires forall ev :: multiset(entryEvents)[ev]
                          == (if ev.item.info == entries[i].info && ev.item.root in entries[i].roots then ExpectedCount(ev) else 0)
    ensures forall ev :: multiset(events + entryEvents)[ev]
                         == (if ev.item in EmittableItems(entries[..i + 1], storage) then ExpectedCount(ev) else 0)
  {
    EmittableItemsStep(entries, i, storage);
    assert forall it :: it in EmittableItems(entries[..i], storage) ==> it.info != entries[i].info;
    assert multiset(events + entryEvents) == multiset(events) + multiset(entryEvents);
  }

  /** The roots `report` collects: everything `findSuitableRoots` offers, as a set. */
  function RootSet(roots: seq<VcsRoot>): set<VcsRoot>
  {
    set r | r in roots
  }

  /**
   * The items `report` must produce: one per root of every group whose
   * identity has no hook at the first read of the storage, has a known
   * server, and still has no hook at the second read.
   */
  ghost function ReportedItems(scope: Scope, vcs: VcsServices, conn: ConnectionServices,
                               atFilter: HookSnapshot, atEmit: HookSnapshot): set<AddHookHealthItem>
  {
    var g := Grouped(RootSet(scope.suitableRoots), vcs);
    set info, r | info in g && r in g[info] && atFilter(info) == [] && atEmit(info) == []
                  && HasKnownConnection(conn, Entry(info, g[info])) :: AddHookHealthItem(info, r)
  }

  /**
   * An item is reported exactly when its root is offered by the scope, has a
   * GitHub identity without parameter references, and that identity passed
   * both reads of the storage and the known-server test of its whole group.
   */
  lemma ReportedItemsCharacterization(scope: Scope, vcs: VcsServices, conn: ConnectionServices,
                                      atFilter: HookSnapshot, atEmit: HookSnapshot, item: AddHookHealthItem)
    ensures item in ReportedItems(scope, vcs, conn, atFilter, atEmit) <==>
      && item.root in scope.suitableRoots
      && vcs.gitHubInfo(item.root) == Some(item.info)
      && !vcs.hasParameterReferences(item.info)
      && atFilter(item.info) == []
      && atEmit(item.info) == []
      && HasKnownConnection(conn, Entry(item.info, Grouped(RootSet(scope.suitableRoots), vcs)[item.info]))
  {
    var roots := RootSet(scope.suitableRoots);
    if item.root in scope.suitableRoots && vcs.gitHubInfo(item.root) == Some(item.info) && !vcs.hasParameterReferences(item.info) {
      assert item.root in roots && Eligible(vcs, item.root);
      assert item.info in EligibleInfos(roots, vcs);
    }
  }

  /**
   * `report`: collect the suitable roots, group them, keep the groups without
   * hooks and with a known server, then read the storage again and emit one
   * item per root of each group that still has no hook. Every item reaches
   * the consumer for its root, for each build type using it (once per
   * listing) and once for each project using or owning it. The order of the
   * calls depends on the unspecified iteration order of the host's sets;
   * what is received, with multiplicities, does not.
   */
  method Report(scope: Scope, vcs: VcsServices, conn: ConnectionServices,
                atFilter: HookSnapshot, atEmit: HookSnapshot) returns (events: seq<Event>)
    ensures forall ev :: ev in events ==> ev.item in ReportedItems(scope, vcs, conn, atFilter, atEmit)
    ensures forall ev :: multiset(events)[ev]
                           == (if ev.item in ReportedItems(scope, vcs, conn, atFilter, atEmit) then ExpectedCount(ev) else 0)
  {
    // findSuitableRoots(scope) { gitRoots.add(it); true }
    var gitRoots: set<VcsRoot> := {};
    var k := 0;
    while k < |scope.suitableRoots|
      invariant 0 <= k <= |scope.suitableRoots|
      invariant gitRoots == RootSet(scope.suitableRoots[..k])
    {
      assert scope.suitableRoots[..k + 1] == scope.suitableRoots[..k] + [scope.suitableRoots[k]];
      gitRoots := gitRoots + {scope.suitableRoots[k]};
      k := k + 1;
    }
    assert scope.suitableRoots[..k] == scope.suitableRoots;

    var split := SplitRoots(gitRoots, vcs);
    var entries := EntriesOf(split);
    var withoutHooks := Filter(entries, HookFree(atFilter));
    var filtered, lookups := FilterKnownServers(withoutHooks, conn);
    FilterKeepsInfosDistinct(entries, HookFree(atFilter));
    FilterKeepsInfosDistinct(withoutHooks, KnownServer(conn));
    events := EmitItems(filtered, atEmit);
    PipelineItems(filtered, split, conn, atFilter, atEmit);
  }

  /** The items of the filtered entries are the items the report must produce. */
  lemma PipelineItems(filtered: seq<Entry>, split: map<RepositoryInfo, set<VcsRoot>>, conn: ConnectionServices,
                      atFilter: HookSnapshot, atEmit: HookSnapshot)
    requires forall e :: e in filtered <==>
      e.info in split && e.roots == split[e.info] && atFilter(e.info) == [] && HasKnownConnection(conn, e)
    ensures EmittableItems(filtered, atEmit) ==
      set info, r | info in split && r in split[info] && atFilter(info) == [] && atEmit(info) == []
                    && HasKnownConnection(conn, Entry(info, split[info])) :: AddHookHealthItem(info, r)
  {
    var want := set info, r | info in split && r in split[info] && atFilter(info) == [] && atEmit(info) == []
                              && HasKnownConnection(conn, Entry(info, split[info])) :: AddHookHealthItem(info, r);
    forall item | item in want
      ensures item in EmittableItems(filtered, atEmit)
    {
      var e := Entry(item.info, split[item.info]);
      assert e in filtered;
    }
  }

  /**
   * `canReportItemsFor`: false when the scope does not accept the category's
   * severity; otherwise true exactly when `findSuitableRoots` offers a root.
   * The callback answers false, so the scan stops at the first root:
   * `callbacks` counts the callback's invocations.
   */
  method CanReportItemsFor(scope: Scope) returns (found: bool, callbacks: nat)
    ensures !scope.isItemWithSeverityAccepted(Category.severity) ==> !found
    ensures scope.isItemWithSeverityAccepted(Category.severity) ==> (found <==> |scope.suitableRoots| > 0)
    ensures callbacks == if found then 1 else 0
  {
    if !scope.isItemWithSeverityAccepted(Category.severity) {
      return false, 0;
    }
    found, callbacks := false, 0;
    var i := 0;
    var proceed := true;
    while proceed && i < |scope.suitableRoots|
      invariant 0 <= i <= |scope.suitableRoots|
      invariant callbacks == i && i <= 1
      invariant found <==> i == 1
      invariant proceed <==> i == 0
    {
      // the callback: { found = true; false }
      found := true;
      callbacks := callbacks + 1;
      proceed := false;
      i := i + 1;
    }
  }
}
