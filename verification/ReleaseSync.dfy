/** Importing a repository's releases: the sync loop of api/handlers/github_sync.go with ListVersions and
    CreateVersion of api/service/plugin_service.go. The release list, with its chosen download and checksums, is an
    input, and so are the clock and the failing writes. */
module ReleaseSync {
  import opened Text
  import opened Sorting
  import opened Models
  import opened Releases
  import opened Identity
  import opened Ownership
  import opened FileStore
  import opened StoreInvariant
  import opened Lookup
  import opened PluginService
  import opened ServiceRuns
  import StoreRuns

  // ----- listing and publishing versions ------------------------------------------------------------------

  /** The versions that are not deleted, in order. */
  function Undeleted(vs: seq<PluginVersion>): (r: seq<PluginVersion>)
    ensures forall v :: v in r <==> v in vs && v.deletedAt.None?
  {
    if vs == [] then []
    else
      var last := vs[|vs| - 1];
      assert forall v :: v in vs <==> v in vs[..|vs| - 1] || v == last;
      Undeleted(vs[..|vs| - 1]) + if last.deletedAt.None? then [last] else []
  }

  method GetVersions(repo: FileRepository, id: int) returns (r: Result<seq<PluginVersion>>)
    ensures r == if id in repo.plugins then Ok(Undeleted(Refreshed(repo.plugins[id]).versions)) else Err(NotFound)
  {
    hide Refreshed;
    var loaded := repo.LoadPlugin(id);
    if loaded.Err? {
      return Err(loaded.error);
    }
    var vs := loaded.value.versions;
    var versions := [];
    for i := 0 to |vs|
      invariant versions == Undeleted(vs[..i])
    {
      assert vs[..i + 1][..i] == vs[..i];
      if vs[i].deletedAt.Some? {
        continue;
      }
      versions := versions + [vs[i]];
    }
    assert vs[..|vs|] == vs;
    return Ok(versions);
  }

  function Page(vs: seq<PluginVersion>, limit: int, offset: int): seq<PluginVersion>
    requires 1 <= limit && 0 <= offset
  {
    if offset >= |vs| then [] else vs[offset..if offset + limit > |vs| then |vs| else offset + limit]
  }

  ghost function Listed(s: Store, order: seq<int>, ref: string, limit: int, offset: int): Result<seq<PluginVersion>>
    requires forall i :: 0 <= i < |order| ==> order[i] in s.plugins
  {
    var size := if limit == 0 then 20 else limit;
    if Trim(ref) == "" || size < 1 || size > 100 || offset < 0 then Err(Invalid)
    else
      match LookedUp(s, order, ref)
      case Err(e) => Err(e)
      case Ok(p) =>
        if p.id in s.plugins then Ok(Page(Undeleted(Refreshed(s.plugins[p.id]).versions), size, offset))
        else Err(NotFound)
  }

  method ListVersions(repo: FileRepository, order: seq<int>, ref: string, limit: int, offset: int)
    returns (r: Result<seq<PluginVersion>>)
    requires IsListing(order, repo.plugins)
    ensures r == Listed(repo.View(), order, ref, limit, offset)
  {
    hide LookedUp, Refreshed, Undeleted, Trim;
    if Trim(ref) == "" {
      return Err(Invalid);
    }
    var size := limit;
    if size == 0 {
      size := 20;
    }
    if size < 1 || size > 100 || offset < 0 {
      return Err(Invalid);
    }
    var plugin := LookupPlugin(repo, order, ref);
    if plugin.Err? {
      return Err(plugin.error);
    }
    r := GetVersions(repo, plugin.value.id);
    if r.Err? {
      return;
    }
    var versions := r.value;
    if offset >= |versions| {
      return Ok([]);
    }
    var end := offset + size;
    if end > |versions| {
      end := |versions|;
    }
    return Ok(versions[offset..end]);
  }

  /** A version published without a date is released now. */
  function Dated(v: PluginVersion, now: int): PluginVersion {
    if v.releaseDate.None? then v.(releaseDate := Some(now)) else v
  }

  ghost function Published(s: Store, order: seq<int>, ref: string, version: PluginVersion, rules: VersionRules,
                           now: int, fault: Fault)
    : (Store, Result<PluginVersion>)
    requires forall i :: 0 <= i < |order| ==> order[i] in s.plugins
  {
    var v := TidyVersion(version, rules);
    if Trim(ref) == "" || !rules.accepts(v) then (s, Err(Invalid))
    else
      match LookedUp(s, order, ref)
      case Err(e) => (s, Err(e))
      case Ok(p) =>
        var (s', added) := VersionAdded(s, Dated(v, now).(pluginId := p.id), now, fault);
        if added.Err? then (s', Err(added.error))
        else if p.id !in s'.plugins then (s', Err(NotFound))
        else (s', WithId(Undeleted(Refreshed(s'.plugins[p.id]).versions), added.value))
  }

  function WithId(vs: seq<PluginVersion>, id: int): Result<PluginVersion> {
    var i := VersionIndex(vs, id);
    if i < |vs| then Ok(vs[i]) else Err(NotFound)
  }

  method CreateVersion(repo: FileRepository, order: seq<int>, ref: string, version: PluginVersion,
                       rules: VersionRules, now: int,
                       fault: Fault) returns (r: Result<PluginVersion>)
    requires IsListing(order, repo.plugins) && forall id :: id in repo.plugins ==> repo.plugins[id].id == id
    modifies repo
    ensures (repo.View(), r) == Published(old(repo.View()), order, ref, version, rules, now, fault)
  {
    hide LookedUp, Refreshed, Undeleted, VersionAdded, Trim, WithId;
    if Trim(ref) == "" {
      return Err(Invalid);
    }
    var v := NormalizeVersion(version, rules);
    if !rules.accepts(v) {
      return Err(Invalid);
    }
    if v.releaseDate.None? {
      v := v.(releaseDate := Some(now));
    }
    var plugin := LookupPlugin(repo, order, ref);
    if plugin.Err? {
      return Err(plugin.error);
    }
    var id := repo.AddVersion(v.(pluginId := plugin.value.id), now, fault);
    if id.Err? {
      return Err(id.error);
    }
    var versions := GetVersions(repo, plugin.value.id);
    if versions.Err? {
      return Err(versions.error);
    }
    r := FindVersion(versions.value, id.value);
  }

  method FindVersion(vs: seq<PluginVersion>, id: int) returns (r: Result<PluginVersion>)
    ensures r == WithId(vs, id)
  {
    for i := 0 to |vs|
      invariant VersionIndex(vs, id) == i + VersionIndex(vs[i..], id)
    {
      if vs[i].id == id {
        return Ok(vs[i]);
      }
    }
    return Err(NotFound);
  }

  // ----- one release -------------------------------------------------------------------------------------------

  /** `downloadUrl` is empty when the release has no binary asset; a date that cannot be read is None. */
  datatype Release = Release(draft: bool, tagName: string, publishedAt: Option<int>, body: string, downloadUrl: string,
                             checksums: map<string, string>, prerelease: bool)

  function Tag(rel: Release): string {
    if rel.tagName != "" && rel.tagName[0] == 'v' then rel.tagName[1..] else rel.tagName
  }

  function AsVersion(p: Plugin, rel: Release): PluginVersion {
    PluginVersion(0, p.id, Tag(rel), rel.publishedAt, rel.body, rel.downloadUrl, rel.checksums, "", rel.prerelease,
                  0, 0, 0, None, None, "", "")
  }

  predicate HasName(vs: seq<PluginVersion>, version: string) {
    exists i :: 0 <= i < |vs| && vs[i].version == version
  }

  /** Whether the release was imported. */
  ghost function VersionUpserted(s: Store, order: seq<int>, p: Plugin, rel: Release, rules: VersionRules, now: int,
                                 fault: Fault)
    : (Store, Result<bool>)
    requires forall i :: 0 <= i < |order| ==> order[i] in s.plugins
  {
    match Listed(s, order, p.Ref(), 100, 0)
    case Err(e) => (s, Err(e))
    case Ok(existing) =>
      if HasName(existing, Tag(rel)) || rel.downloadUrl == "" then (s, Ok(false))
      else
        var (s', r) := Published(s, order, p.Ref(), AsVersion(p, rel), rules, now, fault);
        (s', if r.Ok? then Ok(true) else Err(r.error))
  }

  method UpsertVersion(repo: FileRepository, order: seq<int>, p: Plugin, rel: Release, rules: VersionRules,
                       now: int, fault: Fault)
    returns (r: Result<bool>)
    requires IsListing(order, repo.plugins) && forall id :: id in repo.plugins ==> repo.plugins[id].id == id
    modifies repo
    ensures (repo.View(), r) == VersionUpserted(old(repo.View()), order, p, rel, rules, now, fault)
  {
    hide Listed, Published;
    var tag := Tag(rel);
    var ref := p.Ref();
    var existing := ListVersions(repo, order, ref, 100, 0);
    if existing.Err? {
      return Err(existing.error);
    }
    for i := 0 to |existing.value|
      invariant forall k :: 0 <= k < i ==> existing.value[k].version != tag
    {
      if existing.value[i].version == tag {
        return Ok(false);
      }
    }
    if rel.downloadUrl == "" {
      return Ok(false);
    }
    var created := CreateVersion(repo, order, ref, AsVersion(p, rel), rules, now, fault);
    return if created.Ok? then Ok(true) else Err(created.error);
  }

  // ----- a whole sync --------------------------------------------------------------------------------------------

  datatype Outcome = Outcome(created: nat, skipped: nat, firstErr: Option<Error>)

  /** The clock and the failing writes, release by release. */
  datatype Env = Env(clock: nat -> int, fault: nat -> Fault)

  function Tallied(o: Outcome, r: Result<bool>): Outcome {
    match r
    case Err(e) => o.(skipped := o.skipped + 1, firstErr := if o.firstErr.None? then Some(e) else o.firstErr)
    case Ok(created) => if created then o.(created := o.created + 1) else o.(skipped := o.skipped + 1)
  }

  /** What handling the first n releases does. */
  ghost function Synced(s: Store, order: seq<int>, p: Plugin, releases: seq<Release>, rules: VersionRules,
                        env: Env, n: nat)
    : (r: (Store, Outcome))
    requires n <= |releases| && forall i :: 0 <= i < |order| ==> order[i] in s.plugins
    ensures forall i :: 0 <= i < |order| ==> order[i] in r.0.plugins
  {
    if n == 0 then (s, Outcome(0, 0, None))
    else
      var (t, o) := Synced(s, order, p, releases, rules, env, n - 1);
      var rel := releases[n - 1];
      if rel.draft then (t, Tallied(o, Ok(false)))
      else
        var (t', r) := VersionUpserted(t, order, p, rel, rules, env.clock(n - 1), env.fault(n - 1));
        UpsertKeepsRecords(t, order, p, rel, rules, env.clock(n - 1), env.fault(n - 1));
        (t', Tallied(o, r))
  }

  ghost predicate KeepsRecords(s: Store, t: Store) {
    t.plugins.Keys == s.plugins.Keys &&
    ((forall id :: id in s.plugins ==> s.plugins[id].id == id) ==>
     forall id :: id in t.plugins ==> t.plugins[id].id == id)
  }

  lemma AddingKeepsRecords(s: Store, v: PluginVersion, now: int, fault: Fault)
    ensures KeepsRecords(s, VersionAdded(s, v, now, fault).0)
  {
    hide SortVersions, Sort;
  }

  lemma PublishingKeepsRecords(s: Store, order: seq<int>, ref: string, v: PluginVersion, rules: VersionRules,
                               now: int, fault: Fault)
    requires forall i :: 0 <= i < |order| ==> order[i] in s.plugins
    ensures KeepsRecords(s, Published(s, order, ref, v, rules, now, fault).0)
  {
    hide LookedUp, Undeleted, VersionAdded, Refreshed, Trim, WithId, TidyVersion;
    var found := LookedUp(s, order, ref);
    if found.Ok? {
      AddingKeepsRecords(s, Dated(TidyVersion(v, rules), now).(pluginId := found.value.id), now, fault);
    }
  }

  lemma UpsertKeepsRecords(s: Store, order: seq<int>, p: Plugin, rel: Release, rules: VersionRules, now: int,
                           fault: Fault)
    requires forall i :: 0 <= i < |order| ==> order[i] in s.plugins
    ensures KeepsRecords(s, VersionUpserted(s, order, p, rel, rules, now, fault).0)
  {
    hide Listed, Published;
    PublishingKeepsRecords(s, order, p.Ref(), AsVersion(p, rel), rules, now, fault);
  }

  method SyncPluginReleases(repo: FileRepository, order: seq<int>, p: Plugin, releases: seq<Release>,
                            rules: VersionRules, env: Env)
    returns (o: Outcome)
    requires IsListing(order, repo.plugins) && forall id :: id in repo.plugins ==> repo.plugins[id].id == id
    modifies repo
    ensures (repo.View(), o) == Synced(old(repo.View()), order, p, releases, rules, env, |releases|)
  {
    hide VersionUpserted;
    var created, skipped, firstErr := 0, 0, None;
    for i := 0 to |releases|
      invariant (repo.View(), Outcome(created, skipped, firstErr)) ==
        Synced(old(repo.View()), order, p, releases, rules, env, i)
      invariant IsListing(order, repo.plugins) && forall id :: id in repo.plugins ==> repo.plugins[id].id == id
    {
      var rel := releases[i];
      if rel.draft {
        skipped := skipped + 1;
        continue;
      }
      UpsertKeepsRecords(repo.View(), order, p, rel, rules, env.clock(i), env.fault(i));
      var ok := UpsertVersion(repo, order, p, rel, rules, env.clock(i), env.fault(i));
      if ok.Err? {
        skipped := skipped + 1;
        if firstErr == None {
          firstErr := Some(ok.error);
        }
        continue;
      }
      if ok.value {
        created := created + 1;
      } else {
        skipped := skipped + 1;
      }
    }
    return Outcome(created, skipped, firstErr);
  }

  // ----- what a sync never does ------------------------------------------------------------------------------------

  /** Every release is counted once. */
  lemma {:induction false} CreatedAndSkippedAddUp(s: Store, order: seq<int>, p: Plugin, releases: seq<Release>,
                                                  rules: VersionRules,
                                                  env: Env, n: nat)
    requires n <= |releases| && forall i :: 0 <= i < |order| ==> order[i] in s.plugins
    ensures var o := Synced(s, order, p, releases, rules, env, n).1; o.created + o.skipped == n
  {
    hide VersionUpserted;
    if n > 0 {
      CreatedAndSkippedAddUp(s, order, p, releases, rules, env, n - 1);
    }
  }

  /** The name the release would be published under. */
  function PublishedName(rel: Release): string {
    Trim(Tag(rel))
  }

  /** A version of this name, deleted or not, is among the plugin's. */
  ghost predicate Taken(s: Store, order: seq<int>, ref: string, version: string)
    requires forall i :: 0 <= i < |order| ==> order[i] in s.plugins
  {
    match LookedUp(s, order, ref)
    case Err(_) => false
    case Ok(p) => HasVersion(p, version)
  }

  /** Nothing is left to do for the release. */
  ghost predicate Done(s: Store, order: seq<int>, p: Plugin, rel: Release, rules: VersionRules)
    requires forall i :: 0 <= i < |order| ==> order[i] in s.plugins
  {
    rel.draft || rel.downloadUrl == "" || !rules.accepts(TidyVersion(AsVersion(p, rel), rules)) ||
    Trim(p.Ref()) == "" ||
    LookedUp(s, order, p.Ref()).Err? || Taken(s, order, p.Ref(), PublishedName(rel))
  }

  lemma PublishTaken(s: Store, order: seq<int>, ref: string, v: PluginVersion, rules: VersionRules, now: int,
                     fault: Fault)
    requires Identified(s) && IsListing(order, s.plugins) && Taken(s, order, ref, Trim(v.version))
    ensures var (t, r) := Published(s, order, ref, v, rules, now, fault); t == s && r.Err?
  {
    hide LookedUp, Undeleted, Refreshed, Trim, WithId, Identified, IsListing;
    FoundIsStored(s, order, ref);
  }

  /** A release whose name is taken, or that cannot be published, changes nothing and creates nothing, whatever the
      clock and the faults. A soft-deleted version takes its name too, so it is never re-imported. */
  lemma DoneStaysUndone(s: Store, order: seq<int>, p: Plugin, rel: Release, rules: VersionRules, now: int, fault: Fault)
    requires Identified(s) && IsListing(order, s.plugins) && Done(s, order, p, rel, rules) && !rel.draft
    ensures var (t, r) := VersionUpserted(s, order, p, rel, rules, now, fault); t == s && r != Ok(true)
  {
    hide LookedUp, Undeleted, Refreshed, Trim, WithId, Identified, Taken, TidyVersion, VersionAdded, Page;
    if Taken(s, order, p.Ref(), PublishedName(rel)) {
      PublishTaken(s, order, p.Ref(), AsVersion(p, rel), rules, now, fault);
    }
  }

  // ----- the second sync ---------------------------------------------------------------------------------------------

  /** Publishing a version changes at most the record it goes to, which keeps its identity and all its versions. */
  ghost predicate OnlyAdds(s: Store, t: Store) {
    t.plugins == s.plugins || exists id :: id in s.plugins && id in t.plugins && Adds(s, t, id)
  }

  ghost predicate Adds(s: Store, t: Store, id: int)
    requires id in s.plugins && id in t.plugins
  {
    t.plugins == s.plugins[id := t.plugins[id]] && SameCore(s.plugins[id], t.plugins[id]) &&
    IsLive(s, id) && IsLive(t, id) &&
    forall v :: v in s.plugins[id].versions ==> v in t.plugins[id].versions
  }

  lemma AddingOnlyAdds(s: Store, v: PluginVersion, now: int, fault: Fault)
    ensures OnlyAdds(s, VersionAdded(s, v, now, fault).0)
  {
    hide SortVersions, Sort;
    var (t, r) := VersionAdded(s, v, now, fault);
    if r.Ok? {
      var p := s.plugins[v.pluginId];
      RefreshedParts(p);
      StoreRuns.ReadMembers(p);
      var all := Refreshed(p).versions + [v.(id := s.nextVersionId, createdAt := now)];
      SortMembers(ByAddition(), all);
      hide Refreshed;
      assert forall w :: w in p.versions ==> w in all;
      assert Adds(s, t, v.pluginId);
    }
  }

  lemma PublishedAdds(s: Store, order: seq<int>, ref: string, v: PluginVersion, rules: VersionRules, now: int,
                      fault: Fault)
    requires Identified(s) && IsListing(order, s.plugins)
    ensures var t := Published(s, order, ref, v, rules, now, fault).0;
      Identified(t) && IsListing(order, t.plugins) && OnlyAdds(s, t)
  {
    hide LookedUp, Undeleted, VersionAdded, Refreshed, Trim, WithId, TidyVersion, Identified, Owners, OnlyAdds;
    assert OnlyAdds(s, s) by { OnlyAddsNothing(s); }
    var found := LookedUp(s, order, ref);
    if found.Ok? {
      var w := Dated(TidyVersion(v, rules), now).(pluginId := found.value.id);
      AddVersionKeepsIdentities(s, w, now, fault);
      AddingOnlyAdds(s, w, now, fault);
    }
  }

  lemma OnlyAddsNothing(s: Store)
    ensures OnlyAdds(s, s)
  {
  }

  lemma UpsertedAdds(s: Store, order: seq<int>, p: Plugin, rel: Release, rules: VersionRules, now: int, fault: Fault)
    requires Identified(s) && IsListing(order, s.plugins)
    ensures var t := VersionUpserted(s, order, p, rel, rules, now, fault).0;
      Identified(t) && IsListing(order, t.plugins) && OnlyAdds(s, t)
  {
    hide Listed, Published, Identified, OnlyAdds;
    OnlyAddsNothing(s);
    PublishedAdds(s, order, p.Ref(), AsVersion(p, rel), rules, now, fault);
  }

  /** Lookups do not look at versions. */
  lemma LookupUnmoved(s: Store, t: Store, order: seq<int>, ref: string)
    requires Identified(s) && Identified(t) && IsListing(order, s.plugins) && IsListing(order, t.plugins)
    requires OnlyAdds(s, t)
    ensures match LookedUp(s, order, ref)
      case Err(_) => LookedUp(t, order, ref).Err?
      case Ok(p) => LookedUp(t, order, ref).Ok? && LookedUp(t, order, ref).value.id == p.id
  {
    hide Identified, Refreshed, IsListing, Lower, Fold, Folds, Addressable, Trim, Found;
    if t.plugins != s.plugins {
      var id :| id in s.plugins && id in t.plugins && Adds(s, t, id);
      SameReach(s, t, id, Trim(ref));
    }
    FoundIsStored(s, order, ref);
    FoundIsStored(t, order, ref);
    if RouteOf(Trim(ref)).ByName? {
      LookupIsOwnership(s, order, ref);
      LookupIsOwnership(t, order, ref);
      hide LookedUp, Adds, Reaches;
    } else {
      RouteById(s, order, ref);
      RouteById(t, order, ref);
      hide LookedUp, Reaches;
    }
  }

  lemma RouteById(s: Store, order: seq<int>, ref: string)
    requires Identified(s) && IsListing(order, s.plugins) && RouteOf(Trim(ref)).ById?
    ensures match LookedUp(s, order, ref)
      case Err(_) => !IsLive(s, RouteOf(Trim(ref)).id)
      case Ok(p) => IsLive(s, RouteOf(Trim(ref)).id) && p.id == RouteOf(Trim(ref)).id
  {
    hide UniqueIdentities, VersionIdsGlobal, TellApart, SortVersions, Atoi;
  }

  lemma SameReach(s: Store, t: Store, id: int, ref: string)
    requires id in s.plugins && id in t.plugins && Adds(s, t, id)
    ensures forall k :: Reaches(s.plugins, ref, k) <==> Reaches(t.plugins, ref, k)
    ensures forall k :: IsLive(s, k) <==> IsLive(t, k)
  {
    hide Lower, Fold, Folds;
    assert Addressable(s.plugins[id]) == Addressable(t.plugins[id]);
    hide Addressable;
  }

  lemma TakenStays(s: Store, t: Store, order: seq<int>, ref: string, version: string)
    requires Identified(s) && Identified(t) && IsListing(order, s.plugins) && IsListing(order, t.plugins)
    requires OnlyAdds(s, t)
    requires Taken(s, order, ref, version)
    ensures Taken(t, order, ref, version)
  {
    hide Identified, Refreshed, LookedUp, HasVersion;
    LookupUnmoved(s, t, order, ref);
    FoundIsStored(s, order, ref);
    FoundIsStored(t, order, ref);
    var p, q := LookedUp(s, order, ref).value, LookedUp(t, order, ref).value;
    NamesStay(s.plugins[p.id], t.plugins[p.id], version);
  }

  lemma NamesStay(p: Plugin, q: Plugin, version: string)
    requires forall v :: v in p.versions ==> v in q.versions
    ensures HasVersion(Refreshed(p), version) ==> HasVersion(Refreshed(q), version)
  {
    hide Refreshed;
    StoreRuns.ReadMembers(p);
    StoreRuns.ReadMembers(q);
    if HasVersion(Refreshed(p), version) {
      var i :| 0 <= i < |Refreshed(p).versions| && Refreshed(p).versions[i].version == version;
      NameThere(Refreshed(q), Refreshed(p).versions[i]);
    }
  }

  lemma NameThere(p: Plugin, v: PluginVersion)
    requires v in p.versions
    ensures HasVersion(p, v.version)
  {
    var i :| 0 <= i < |p.versions| && p.versions[i] == v;
  }

  lemma DoneStays(s: Store, t: Store, order: seq<int>, p: Plugin, rel: Release, rules: VersionRules)
    requires Identified(s) && Identified(t) && IsListing(order, s.plugins) && IsListing(order, t.plugins)
    requires OnlyAdds(s, t)
    requires Done(s, order, p, rel, rules)
    ensures Done(t, order, p, rel, rules)
  {
    hide Identified, LookedUp, Taken, TidyVersion, Trim, OnlyAdds;
    LookupUnmoved(s, t, order, p.Ref());
    if Taken(s, order, p.Ref(), PublishedName(rel)) {
      TakenStays(s, t, order, p.Ref(), PublishedName(rel));
    }
  }

  /** Publishing without a fault leaves the name taken, whether or not it was before. */
  lemma PublishTakes(s: Store, order: seq<int>, ref: string, v: PluginVersion, rules: VersionRules, now: int)
    requires Identified(s) && IsListing(order, s.plugins) && Trim(ref) != "" && rules.accepts(TidyVersion(v, rules))
    requires LookedUp(s, order, ref).Ok?
    ensures Taken(Published(s, order, ref, v, rules, now, NoFault).0, order, ref, Trim(v.version))
  {
    hide LookedUp, Undeleted, VersionAdded, Refreshed, Trim, WithId, Identified, OnlyAdds, HasVersion;
    var t := Published(s, order, ref, v, rules, now, NoFault).0;
    PublishedAdds(s, order, ref, v, rules, now, NoFault);
    LookupUnmoved(s, t, order, ref);
    FoundIsStored(s, order, ref);
    FoundIsStored(t, order, ref);
    var id := LookedUp(s, order, ref).value.id;
    AddTakes(s, Dated(TidyVersion(v, rules), now).(pluginId := id), now);
  }

  lemma AddTakes(s: Store, v: PluginVersion, now: int)
    requires IsLive(s, v.pluginId)
    ensures var t := VersionAdded(s, v, now, NoFault).0;
      v.pluginId in t.plugins && HasVersion(Refreshed(t.plugins[v.pluginId]), v.version)
  {
    hide Refreshed, HasVersion;
    var (t, r) := VersionAdded(s, v, now, NoFault);
    if r.Ok? {
      var w := v.(id := s.nextVersionId, createdAt := now);
      var all := Refreshed(s.plugins[v.pluginId]).versions + [w];
      SortMembers(ByAddition(), all);
      StoreRuns.ReadMembers(t.plugins[v.pluginId]);
      assert w in all;
      NameThere(Refreshed(t.plugins[v.pluginId]), w);
    }
  }

  lemma UpsertIsDone(s: Store, order: seq<int>, p: Plugin, rel: Release, rules: VersionRules, now: int)
    requires Identified(s) && IsListing(order, s.plugins) && Trimmed(Tag(rel)) && !rel.draft
    ensures var t := VersionUpserted(s, order, p, rel, rules, now, NoFault).0;
      IsListing(order, t.plugins) && Done(t, order, p, rel, rules)
  {
    hide LookedUp, Undeleted, Refreshed, Trim, Identified, Taken, TidyVersion, Published;
    UpsertedAdds(s, order, p, rel, rules, now, NoFault);
    TrimIsTrimmed(Tag(rel));
    var listed := Listed(s, order, p.Ref(), 100, 0);
    if listed.Ok? && HasName(listed.value, Tag(rel)) {
      ListedIsTaken(s, order, p.Ref(), Tag(rel));
    } else if listed.Ok? && rel.downloadUrl != "" && rules.accepts(TidyVersion(AsVersion(p, rel), rules)) {
      PublishTakes(s, order, p.Ref(), AsVersion(p, rel), rules, now);
    } else if listed.Ok? && rel.downloadUrl != "" {
      InvalidIsRefused(s, order, p.Ref(), AsVersion(p, rel), rules, now);
    } else if listed.Err? {
      ListingFails(s, order, p.Ref());
    }
  }

  lemma InvalidIsRefused(s: Store, order: seq<int>, ref: string, v: PluginVersion, rules: VersionRules, now: int)
    requires IsListing(order, s.plugins) && !rules.accepts(TidyVersion(v, rules))
    ensures Published(s, order, ref, v, rules, now, NoFault).0 == s
  {
  }

  lemma ListingFails(s: Store, order: seq<int>, ref: string)
    requires Identified(s) && IsListing(order, s.plugins) && Listed(s, order, ref, 100, 0).Err?
    ensures Trim(ref) == "" || LookedUp(s, order, ref).Err?
  {
    hide LookedUp, Undeleted, Refreshed, Trim, Identified, Page, IsListing;
    FoundIsStored(s, order, ref);
  }

  lemma ListedIsTaken(s: Store, order: seq<int>, ref: string, version: string)
    requires Identified(s) && IsListing(order, s.plugins) && Listed(s, order, ref, 100, 0).Ok?
    requires HasName(Listed(s, order, ref, 100, 0).value, version)
    ensures Taken(s, order, ref, version)
  {
    hide LookedUp, Refreshed, Trim, Identified, HasVersion;
    FoundIsStored(s, order, ref);
    var p := LookedUp(s, order, ref).value;
    var vs := Undeleted(p.versions);
    var page := Page(vs, 100, 0);
    var i :| 0 <= i < |page| && page[i].version == version;
    assert page[i] == vs[i] && vs[i] in vs;
    NameThere(p, vs[i]);
  }

  lemma {:induction false} SyncedIdentities(s: Store, order: seq<int>, p: Plugin, releases: seq<Release>,
                                     rules: VersionRules, env: Env, n: nat)
    requires Identified(s) && IsListing(order, s.plugins) && n <= |releases|
    ensures var t := Synced(s, order, p, releases, rules, env, n).0; Identified(t) && IsListing(order, t.plugins)
  {
    hide Identified, VersionUpserted;
    if n > 0 {
      SyncedIdentities(s, order, p, releases, rules, env, n - 1);
      var t := Synced(s, order, p, releases, rules, env, n - 1).0;
      UpsertedAdds(t, order, p, releases[n - 1], rules, env.clock(n - 1), env.fault(n - 1));
    }
  }

  lemma {:induction false} SyncedIsDone(s: Store, order: seq<int>, p: Plugin, releases: seq<Release>,
                                        rules: VersionRules, env: Env, n: nat)
    requires Identified(s) && IsListing(order, s.plugins) && n <= |releases|
    requires forall k :: 0 <= k < n ==> env.fault(k).NoFault? && Trimmed(Tag(releases[k]))
    ensures var t := Synced(s, order, p, releases, rules, env, n).0;
      IsListing(order, t.plugins) && forall k :: 0 <= k < n ==> Done(t, order, p, releases[k], rules)
  {
    hide Identified, VersionUpserted, Done, Synced;
    SyncedIdentities(s, order, p, releases, rules, env, n);
    if n > 0 {
      SyncedStep(s, order, p, releases, rules, env, n);
      SyncedIsDone(s, order, p, releases, rules, env, n - 1);
      SyncedIdentities(s, order, p, releases, rules, env, n - 1);
      var t, rel := Synced(s, order, p, releases, rules, env, n - 1).0, releases[n - 1];
      if rel.draft {
        DraftIsDone(t, order, p, rel, rules);
      } else {
        OneMoreDone(t, order, p, releases, rules, n, env.clock(n - 1));
      }
    }
  }

  lemma SyncedStep(s: Store, order: seq<int>, p: Plugin, releases: seq<Release>, rules: VersionRules, env: Env, n: nat)
    requires 1 <= n <= |releases| && forall i :: 0 <= i < |order| ==> order[i] in s.plugins
    ensures var t, rel := Synced(s, order, p, releases, rules, env, n - 1).0, releases[n - 1];
      Synced(s, order, p, releases, rules, env, n).0 ==
      if rel.draft then t else VersionUpserted(t, order, p, rel, rules, env.clock(n - 1), env.fault(n - 1)).0
  {
    hide VersionUpserted;
  }

  lemma OneMoreDone(s: Store, order: seq<int>, p: Plugin, releases: seq<Release>, rules: VersionRules, n: nat, now: int)
    requires Identified(s) && IsListing(order, s.plugins) && 1 <= n <= |releases| && !releases[n - 1].draft
    requires Trimmed(Tag(releases[n - 1]))
    requires forall k :: 0 <= k < n - 1 ==> Done(s, order, p, releases[k], rules)
    ensures var t := VersionUpserted(s, order, p, releases[n - 1], rules, now, NoFault).0;
      IsListing(order, t.plugins) && forall k :: 0 <= k < n ==> Done(t, order, p, releases[k], rules)
  {
    hide Identified, VersionUpserted, Done, OnlyAdds;
    var t := VersionUpserted(s, order, p, releases[n - 1], rules, now, NoFault).0;
    UpsertedAdds(s, order, p, releases[n - 1], rules, now, NoFault);
    UpsertIsDone(s, order, p, releases[n - 1], rules, now);
    forall k | 0 <= k < n - 1
      ensures Done(t, order, p, releases[k], rules)
    {
      DoneStays(s, t, order, p, releases[k], rules);
    }
  }

  lemma DraftIsDone(s: Store, order: seq<int>, p: Plugin, rel: Release, rules: VersionRules)
    requires IsListing(order, s.plugins) && rel.draft
    ensures Done(s, order, p, rel, rules)
  {
  }

  lemma {:induction false} SyncIdles(s: Store, order: seq<int>, p: Plugin, releases: seq<Release>,
                                     rules: VersionRules, env: Env, n: nat)
    requires Identified(s) && IsListing(order, s.plugins) && n <= |releases|
    requires forall k :: 0 <= k < n ==> Done(s, order, p, releases[k], rules)
    ensures var (t, o) := Synced(s, order, p, releases, rules, env, n); t == s && o.created == 0 && o.skipped == n
  {
    hide Identified, VersionUpserted, Done, IsListing;
    if n > 0 {
      SyncIdles(s, order, p, releases, rules, env, n - 1);
      if !releases[n - 1].draft {
        DoneStaysUndone(s, order, p, releases[n - 1], rules, env.clock(n - 1), env.fault(n - 1));
      }
    }
  }

  /** A second sync of the same releases, at any time and with any faults, creates nothing and changes nothing at
      all, after a first one whose writes did not fail. (A git tag holds no white space.) */
  lemma SyncTwice(s: Store, order: seq<int>, p: Plugin, releases: seq<Release>, rules: VersionRules, env: Env,
                  again: Env)
    requires Identified(s) && IsListing(order, s.plugins)
    requires forall k :: 0 <= k < |releases| ==> env.fault(k).NoFault? && Trimmed(Tag(releases[k]))
    ensures var t := Synced(s, order, p, releases, rules, env, |releases|).0;
      IsListing(order, t.plugins) &&
      var (u, o) := Synced(t, order, p, releases, rules, again, |releases|);
      u == t && o.created == 0 && o.skipped == |releases|
  {
    hide Identified, Synced, Done;
    SyncedIsDone(s, order, p, releases, rules, env, |releases|);
    SyncedIdentities(s, order, p, releases, rules, env, |releases|);
    SyncIdles(Synced(s, order, p, releases, rules, env, |releases|).0, order, p, releases, rules, again, |releases|);
  }

  /** No sync changes or removes a version, or touches a plugin's identity. */
  lemma {:induction false} SyncOnlyAdds(s: Store, order: seq<int>, p: Plugin, releases: seq<Release>,
                                        rules: VersionRules, env: Env,
                                        n: nat, id: int)
    requires Identified(s) && IsListing(order, s.plugins) && n <= |releases| && id in s.plugins
    ensures var t := Synced(s, order, p, releases, rules, env, n).0;
      id in t.plugins && SameCore(s.plugins[id], t.plugins[id]) &&
      forall v :: v in s.plugins[id].versions ==> v in t.plugins[id].versions
  {
    hide Identified, VersionUpserted;
    if n > 0 {
      SyncOnlyAdds(s, order, p, releases, rules, env, n - 1, id);
      SyncedIdentities(s, order, p, releases, rules, env, n - 1);
      var t := Synced(s, order, p, releases, rules, env, n - 1).0;
      UpsertedAdds(t, order, p, releases[n - 1], rules, env.clock(n - 1), env.fault(n - 1));
    }
  }
}
