/**
 The self-updater over any sequence of launches
 (codex-cli/bin/codex-agents-update.js, codex-cli/bin/codex.js).  Clock readings,
 registry answers, cache writes and installs are inputs of a launch, so nothing
 is assumed about them; a successful install makes the requested version current.
 */
module AutoUpdate {
  import opened Options
  import opened Orders
  import opened SemVer

  const CHECK_INTERVAL_MS := 20 * 60 * 60 * 1000

  /** The cache file: a missing, malformed or mistyped one is unreadable. */
  datatype Cache = Unreadable | Cached(latest: string, checkedAt: int)

  datatype World = World(installed: string, cache: Cache)

  datatype Launch = Launch(
    ownPackage: bool,
    skip: bool,
    now: int,
    registry: Option<string>,
    cacheWritable: bool,
    installs: bool)

  function ReadCached(cache: Cache, now: int): Option<string> {
    if cache.Cached? && now - cache.checkedAt < CHECK_INTERVAL_MS then Some(cache.latest) else None
  }

  /** The cached answer unless it is absent or empty, as `||` decides. */
  predicate UsesCache(w: World, l: Launch) {
    ReadCached(w.cache, l.now).Some? && w.cache.latest != ""
  }

  predicate Participates(l: Launch) {
    l.ownPackage && !l.skip
  }

  /** The launch asked the registry and recorded a usable answer. */
  predicate Records(w: World, l: Launch) {
    && Participates(l) && !UsesCache(w, l)
    && l.registry.Some? && ParseVersion(l.registry.value).Some? && l.cacheWritable
  }

  function Latest(w: World, l: Launch): Option<string> {
    if UsesCache(w, l) then Some(w.cache.latest)
    else if Records(w, l) then l.registry
    else None
  }

  predicate Updates(w: World, l: Launch) {
    Participates(l) && Latest(w, l).Some? && IsNewer(Latest(w, l).value, w.installed) && l.installs
  }

  function After(w: World, l: Launch): World {
    World(if Updates(w, l) then Latest(w, l).value else w.installed,
          if Records(w, l) then Cached(l.registry.value, l.now) else w.cache)
  }

  /** The updater as it is written, over the installed package and the cache file. */
  class Installation {
    var version: string
    var cache: Cache

    ghost function Abs(): World
      reads this
    {
      World(version, cache)
    }

    constructor (version: string, cache: Cache)
      ensures Abs() == World(version, cache)
    {
      this.version, this.cache := version, cache;
    }

    method FetchLatestVersion(l: Launch) returns (latest: Option<string>)
      requires Participates(l) && !UsesCache(Abs(), l)
      modifies this`cache
      ensures latest == if Records(old(Abs()), l) then l.registry else None
      ensures cache == if Records(old(Abs()), l) then Cached(l.registry.value, l.now) else old(cache)
    {
      if l.registry.None? || ParseVersion(l.registry.value).None? {
        return None;
      }
      if !l.cacheWritable {
        return None;
      }
      cache := Cached(l.registry.value, l.now);
      return l.registry;
    }

    method MaybeAutoUpdate(l: Launch) returns (updated: bool)
      modifies this
      ensures Abs() == After(old(Abs()), l)
      ensures updated <==> Updates(old(Abs()), l)
    {
      if !l.ownPackage || l.skip {
        return false;
      }
      var latest := ReadCached(cache, l.now);
      if latest.None? || latest.value == "" {
        latest := FetchLatestVersion(l);
      }
      if latest.None? || latest.value == "" {
        EmptyIsNoVersion();
        return false;
      }
      var newer := IsNewerVersion(latest.value, version);
      if !newer {
        return false;
      }
      if !l.installs {
        return false;
      }
      version := latest.value;
      return true;
    }

    /**
     The launcher: after an update it starts itself again with the skip flag set,
     whatever the child's clock and registry then are.
     */
    method Start(l: Launch, child: Launch) returns (updated: bool, updatedAgain: bool)
      modifies this
      ensures Abs() == After(old(Abs()), l)
      ensures updated <==> Updates(old(Abs()), l)
      ensures !updatedAgain
    {
      updatedAgain := false;
      updated := MaybeAutoUpdate(l);
      if updated {
        updatedAgain := MaybeAutoUpdate(child.(skip := true));
      }
    }
  }

  lemma EmptyIsNoVersion()
    ensures ParseVersion("").None?
  {
  }

  // ---------- Every sequence of launches ----------

  function Worlds(start: World, launches: seq<Launch>): (ws: seq<World>)
    ensures |ws| == |launches| + 1 && ws[0] == start
  {
    if launches == [] then [start]
    else
      var n := |launches| - 1;
      var before := Worlds(start, launches[..n]);
      before + [After(before[n], launches[n])]
  }

  /** The clock readings under which answers of the registry were recorded. */
  function Checks(start: World, launches: seq<Launch>): seq<int> {
    if launches == [] then []
    else
      var n := |launches| - 1;
      var w := Worlds(start, launches[..n])[n];
      Checks(start, launches[..n]) + (if Records(w, launches[n]) then [launches[n].now] else [])
  }

  function UpdateCount(start: World, launches: seq<Launch>): nat {
    if launches == [] then 0
    else
      var n := |launches| - 1;
      var w := Worlds(start, launches[..n])[n];
      UpdateCount(start, launches[..n]) + (if Updates(w, launches[n]) then 1 else 0)
  }

  /** `later` is the same version or one of higher precedence. */
  predicate NotOlder(earlier: World, later: World) {
    later.installed == earlier.installed || IsNewer(later.installed, earlier.installed)
  }

  lemma NotOlderTransitive()
    ensures Transitive(NotOlder)
  {
    forall a: World, b: World, c: World | NotOlder(a, b) && NotOlder(b, c)
      ensures NotOlder(a, c)
    {
      NewerIsStrictOrder(c.installed, b.installed, a.installed);
    }
  }

  lemma {:induction false} WorldsAreAChain(start: World, launches: seq<Launch>)
    ensures Chain(NotOlder, Worlds(start, launches))
  {
    if launches == [] {
    } else {
      var n := |launches| - 1;
      WorldsAreAChain(start, launches[..n]);
      var before := Worlds(start, launches[..n]);
      assert NotOlder(before[n], After(before[n], launches[n]));
    }
  }

  /** No downgrade and no cycle: a version that has been left never comes back. */
  lemma VersionsOnlyRise(start: World, launches: seq<Launch>, i: nat, j: nat, k: nat)
    requires i <= j <= k <= |launches|
    ensures var ws := Worlds(start, launches);
            && NotOlder(ws[i], ws[j])
            && (ws[i].installed != ws[j].installed ==> IsNewer(ws[k].installed, ws[i].installed) && ws[k].installed != ws[i].installed)
  {
    var ws := Worlds(start, launches);
    NotOlderTransitive();
    WorldsAreAChain(start, launches);
    if i < j {
      ChainRelates(NotOlder, ws, i, j);
    }
    if j < k {
      ChainRelates(NotOlder, ws, j, k);
    }
    NewerIsStrictOrder(ws[k].installed, ws[j].installed, ws[i].installed);
  }

  /** Once an answer is recorded, the cache holds the last one recorded. */
  lemma {:induction false} CacheHoldsLastCheck(start: World, launches: seq<Launch>)
    ensures var checks, w := Checks(start, launches), Worlds(start, launches)[|launches|];
            checks != [] ==> w.cache.Cached? && w.cache.checkedAt == checks[|checks| - 1] && w.cache.latest != ""
  {
    if launches == [] {
    } else {
      CacheHoldsLastCheck(start, launches[..|launches| - 1]);
      EmptyIsNoVersion();
    }
  }

  lemma CheckStep(start: World, launches: seq<Launch>)
    requires launches != []
    ensures var n := |launches| - 1;
            var w := Worlds(start, launches[..n])[n];
            Checks(start, launches) == Checks(start, launches[..n]) + (if Records(w, launches[n]) then [launches[n].now] else [])
  {
  }

  /** The next recorded check comes late enough after the last one. */
  lemma NextCheckIsLate(start: World, launches: seq<Launch>, l: Launch)
    requires var checks := Checks(start, launches);
             checks != [] && Records(Worlds(start, launches)[|launches|], l)
    ensures var checks := Checks(start, launches); l.now - checks[|checks| - 1] >= CHECK_INTERVAL_MS
  {
    CacheHoldsLastCheck(start, launches);
    RecordsOnlyWhenStale(Worlds(start, launches)[|launches|], l);
  }

  /** Recorded registry checks are at least 20 hours apart, whatever the clock did in between. */
  lemma {:induction false} ChecksAreFarApart(start: World, launches: seq<Launch>, i: nat)
    requires i + 1 < |Checks(start, launches)|
    ensures Checks(start, launches)[i + 1] - Checks(start, launches)[i] >= CHECK_INTERVAL_MS
  {
    var n := |launches| - 1;
    CheckStep(start, launches);
    if i + 1 < |Checks(start, launches[..n])| {
      ChecksAreFarApart(start, launches[..n], i);
    } else {
      NextCheckIsLate(start, launches[..n], launches[n]);
    }
  }

  lemma RecordsOnlyWhenStale(w: World, l: Launch)
    requires Records(w, l) && w.cache.Cached? && w.cache.latest != ""
    ensures l.now - w.cache.checkedAt >= CHECK_INTERVAL_MS
  {
  }

  predicate CaughtUp(w: World) {
    w.cache.Cached? && !IsNewer(w.cache.latest, w.installed)
  }

  /** A recorded answer is installed at most once: updates outnumber checks by at most the initial cache. */
  lemma {:induction false} UpdatesAreBoundedByChecks(start: World, launches: seq<Launch>)
    ensures UpdateCount(start, launches) <= |Checks(start, launches)| + 1
    ensures UpdateCount(start, launches) == |Checks(start, launches)| + 1 ==> CaughtUp(Worlds(start, launches)[|launches|])
  {
    if launches == [] {
    } else {
      var n := |launches| - 1;
      UpdatesAreBoundedByChecks(start, launches[..n]);
      var w := Worlds(start, launches[..n])[n];
      var latest := After(w, launches[n]).installed;
      NewerIsStrictOrder(latest, latest, latest);
    }
  }
}
