/** The helper functions of helpers.kt. */
module Helpers {
  import opened Wrappers
  import opened Seqs
  import opened Entities

  // ---------------------------------------------------------------------------
  // Hook status
  // ---------------------------------------------------------------------------

  /** The status of a repository hook as shown to the user. */
  datatype Status = Ok | Disabled | PayloadDeliveryFailed | WaitingForServerResponse

  /** The last delivery response GitHub recorded for a hook. */
  datatype Response = Response(code: int)

  /** A hook as GitHub describes it: the last response, if any, and whether it is active. */
  datatype RepositoryHook = RepositoryHook(lastResponse: Option<Response>, isActive: bool)

  /** Kotlin's `code in 200..299`: the range is inclusive at both ends. */
  predicate IsSuccessCode(code: int)
  {
    200 <= code <= 299
  }

  /** True when GitHub recorded a response and it was not a success. */
  predicate DeliveryFailed(hook: RepositoryHook)
  {
    hook.lastResponse.Some? && !IsSuccessCode(hook.lastResponse.value.code)
  }

  /**
   * `RepositoryHook.getStatus()`. The contract is the decision table read
   * per outcome: a failed delivery wins over everything, otherwise an
   * inactive hook is disabled, and an active one is OK once a successful
   * response exists and waiting before that.
   */
  function GetStatus(hook: RepositoryHook): (s: Status)
    ensures s == PayloadDeliveryFailed <==> DeliveryFailed(hook)
    ensures s == Disabled <==> !hook.isActive && !DeliveryFailed(hook)
    ensures s == Ok <==> hook.isActive && hook.lastResponse.Some? && !DeliveryFailed(hook)
    ensures s == WaitingForServerResponse <==> hook.isActive && hook.lastResponse.None?
  {
    match hook.lastResponse
    case Some(response) =>
      if IsSuccessCode(response.code) then
        if !hook.isActive then Disabled else Ok
      else
        PayloadDeliveryFailed
    case None =>
      if !hook.isActive then Disabled else WaitingForServerResponse
  }

  // ---------------------------------------------------------------------------
  // Small string helpers
  // ---------------------------------------------------------------------------

  /** The plural suffix `Int.s`: empty for exactly one, "s" for every other count. */
  function PluralSuffix(n: int): (r: string)
    ensures r == "" <==> n == 1
    ensures r == "s" <==> n != 1
  {
    if n != 1 then "s" else ""
  }

  /**
   * Kotlin's `Char.isWhitespace()` on the JVM: Java's `isWhitespace` or
   * `isSpaceChar`, i.e. the ASCII controls 9-13 and 28-31, the space, and
   * the Unicode space, line and paragraph separators.
   */
  predicate IsWhitespace(c: char)
  {
    var n := c as int;
    (9 <= n <= 13) || (28 <= n <= 32) || n == 0xA0 || n == 0x1680 ||
    (0x2000 <= n <= 0x200A) || n == 0x2028 || n == 0x2029 ||
    n == 0x202F || n == 0x205F || n == 0x3000
  }

  /** Kotlin's `isBlank()`: empty or whitespace only. */
  predicate IsBlank(s: string)
  {
    forall i :: 0 <= i < |s| ==> IsWhitespace(s[i])
  }

  /** `String?.nullIfBlank()`. */
  function NullIfBlank(s: Option<string>): (r: Option<string>)
    ensures r.None? <==> s.None? || IsBlank(s.value)
    ensures r.Some? ==> r == s && !IsBlank(r.value)
  {
    if s.None? || IsBlank(s.value) then None else s
  }

  // ---------------------------------------------------------------------------
  // Known-server filter
  // ---------------------------------------------------------------------------

  /** The host services the known-server filter consults. */
  datatype ConnectionServices = ConnectionServices(
    /** `Util.getProjects`: the projects that own a set of roots. */
    projectsOf: set<VcsRoot> -> seq<Project>,
    /** `OAuthConnectionsManager.getAvailableConnections`, possibly with nulls. */
    availableConnections: Project -> seq<Option<Connection>>,
    /** `Util.isConnectionToServer`. */
    isConnectionToServer: (Connection, string) -> bool)

  /** The project has an available (non-null) connection to `server`. */
  predicate ProjectHasConnectionTo(svc: ConnectionServices, project: Project, server: string)
  {
    exists c :: c in FilterNotNull(svc.availableConnections(project)) && svc.isConnectionToServer(c, server)
  }

  /**
   * `connections.filter { isConnectionToServer(it, server) }.isNotEmpty()`:
   * true exactly when one of the connections points at `server`.
   */
  function AnyConnectionTo(svc: ConnectionServices, connections: seq<Connection>, server: string): (b: bool)
    ensures b <==> exists c :: c in connections && svc.isConnectionToServer(c, server)
  {
    var matching := Filter(connections, c => svc.isConnectionToServer(c, server));
    assert |matching| > 0 ==> matching[0] in matching;
    |matching| > 0
  }

  /** Some project owning the entry's roots has a connection to the entry's server. */
  predicate HasKnownConnection(svc: ConnectionServices, e: Entry)
  {
    exists p :: p in svc.projectsOf(e.roots) && ProjectHasConnectionTo(svc, p, e.info.server)
  }

  /** The uncached test of an entry, as a value that `Filter` can take. */
  function KnownServer(svc: ConnectionServices): Entry -> bool
  {
    e => HasKnownConnection(svc, e)
  }

  /**
   * The per-call connection cache: it holds exactly the projects whose
   * connections were fetched, each fetched once, with the fetched value.
   */
  ghost predicate CacheFaithful(svc: ConnectionServices, cache: map<Project, seq<Connection>>, lookups: seq<Project>)
  {
    && (forall p :: p in cache <==> p in lookups)
    && (forall p :: p in cache ==> cache[p] == FilterNotNull(svc.availableConnections(p)))
    && NoDuplicates(lookups)
  }

  /**
   * The `any` over the owning projects of one entry: stops at the first
   * project with a connection to `server`, fetching a project's connections
   * only when the cache does not hold them yet.
   */
  method AnyProjectHasConnection(svc: ConnectionServices, projects: seq<Project>, server: string,
                                 cache: map<Project, seq<Connection>>, lookups: seq<Project>)
    returns (found: bool, cache': map<Project, seq<Connection>>, lookups': seq<Project>)
    requires CacheFaithful(svc, cache, lookups)
    ensures CacheFaithful(svc, cache', lookups')
    ensures found <==> exists p :: p in projects && ProjectHasConnectionTo(svc, p, server)
    ensures forall p :: p in lookups' ==> p in lookups || p in projects
  {
    found, cache', lookups' := false, cache, lookups;
    var j := 0;
    while j < |projects| && !found
      invariant 0 <= j <= |projects|
      invariant found <==> exists k :: 0 <= k < j && ProjectHasConnectionTo(svc, projects[k], server)
      invariant CacheFaithful(svc, cache', lookups')
      invariant forall p :: p in lookups' ==> p in lookups || p in projects
    {
      var project := projects[j];
      var connections: seq<Connection>;
      if project in cache' {
        connections := cache'[project];
      } else {
        connections := FilterNotNull(svc.availableConnections(project));
        cache' := cache'[project := connections];
        lookups' := lookups' + [project];
      }
      found := AnyConnectionTo(svc, connections, server);
      j := j + 1;
    }
  }

  /** The projects that own the roots of at least one of the entries. */
  ghost function OwningProjects(svc: ConnectionServices, entries: seq<Entry>): set<Project>
  {
    set e, p | e in entries && p in svc.projectsOf(e.roots) :: p
  }

  /**
   * `filterKnownServers`: keeps the entries some owning project of which
   * has a connection to the entry's server. The connections of each project
   * are fetched at most once per call and kept in a cache local to the call;
   * `lookups` lists the projects whose connections were fetched, in order.
   * The cached result equals the uncached filter.
   */
  method FilterKnownServers(entries: seq<Entry>, svc: ConnectionServices)
    returns (kept: seq<Entry>, lookups: seq<Project>)
    ensures kept == Filter(entries, KnownServer(svc))
    ensures IsSubsequence(kept, entries)
    ensures forall e :: e in kept <==> e in entries && HasKnownConnection(svc, e)
    ensures NoDuplicates(lookups)
    ensures forall p :: p in lookups ==> p in OwningProjects(svc, entries)
  {
    var cache: map<Project, seq<Connection>> := map[];
    kept, lookups := [], [];
    var i := 0;
    while i < |entries|
      invariant 0 <= i <= |entries|
      invariant kept == Filter(entries[..i], KnownServer(svc))
      invariant CacheFaithful(svc, cache, lookups)
      invariant forall p :: p in lookups ==> p in OwningProjects(svc, entries)
    {
      var entry := entries[i];
      var found;
      found, cache, lookups := AnyProjectHasConnection(svc, svc.projectsOf(entry.roots), entry.info.server, cache, lookups);
      assert forall p :: p in svc.projectsOf(entry.roots) ==> p in OwningProjects(svc, entries);
      assert entries[..i + 1] == entries[..i] + [entry];
      FilterSnoc(entries[..i], entry, KnownServer(svc));
      if found {
        kept := kept + [entry];
      }
      i := i + 1;
    }
    assert entries[..i] == entries;
    FilterIsSubsequence(entries, KnownServer(svc));
  }
}
