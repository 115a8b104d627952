/** What publishing a version and importing a release store, field by field: CreateVersion of
    api/service/plugin_service.go and upsertVersion of api/handlers/github_sync.go against a description of their
    own. */
module SyncEffects {
  import opened Text
  import opened Sorting
  import opened Models
  import opened Releases
  import opened FileStore
  import opened StoreInvariant
  import opened StoreEffects
  import opened Lookup
  import opened PluginService
  import opened ServiceEffects
  import opened ReleaseSync

  /** What is stored of a version that is published now. */
  ghost predicate PublishedAs(v: PluginVersion, w: PluginVersion, id: int, pluginId: int, now: int) {
    && w.id == id && w.pluginId == pluginId && w.createdAt == now
    && w.version == Trim(v.version) && w.changelog == Trim(v.changelog) && w.downloadUrl == Trim(v.downloadUrl)
    && TrimmedEntries(v.checksums, w.checksums)
    && (w.releaseDate == if v.releaseDate == None then Some(now) else v.releaseDate)
    && w.prerelease == v.prerelease && w.semrelCore == v.semrelCore && w.views == v.views && w.downloads == v.downloads
    && w.deletedAt == v.deletedAt && w.yankedAt == v.yankedAt && w.yankedBy == v.yankedBy
    && w.yankedReason == v.yankedReason
  }

  /** Nothing differs but the record under `id`, which keeps its identity and gains `w`, a version of a new name. */
  ghost predicate Gains(s: Store, t: Store, id: int, w: PluginVersion) {
    && id in s.plugins && s.plugins[id].deletedAt == None
    && id in t.plugins && t.plugins == s.plugins[id := t.plugins[id]]
    && t.nextPluginId == s.nextPluginId && w.id == s.nextVersionId && t.nextVersionId == s.nextVersionId + 1
    && SameMetadata(s.plugins[id], t.plugins[id]) && SameCounters(s.plugins[id], t.plugins[id])
    && multiset(t.plugins[id].versions) == multiset(s.plugins[id].versions) + multiset{w}
    && forall v :: v in s.plugins[id].versions ==> v.version != w.version
  }

  lemma TidyIsPublished(v: PluginVersion, rules: VersionRules, id: int, pluginId: int, now: int)
    requires Ranges(rules)
    ensures PublishedAs(v, Dated(TidyVersion(v, rules), now).(pluginId := pluginId, id := id, createdAt := now),
                        id, pluginId, now)
  {
    hide Trim, TidyChecksums, TrimmedEntries;
    TidyEntries(v, rules);
  }

  lemma Stored(s: Store, v: PluginVersion, now: int, fault: Fault)
    requires VersionAdded(s, v, now, fault).1.Ok?
    ensures Gains(s, VersionAdded(s, v, now, fault).0, v.pluginId, v.(id := s.nextVersionId, createdAt := now))
  {
    hide Refreshed, Sort;
    AddVersionExactly(s, v, now, fault);
    var p := Refreshed(s.plugins[v.pluginId]);
    ReadShape(s.plugins[v.pluginId]);
    SortPermutes(ByAddition(), p.versions + [v.(id := s.nextVersionId, createdAt := now)]);
  }

  /** Publishing: unless an error changes no record, the plugin that the reference resolves to gains exactly the version
      described, tidied and dated. */
  lemma PublishExactly(s: Store, order: seq<int>, ref: string, v: PluginVersion, rules: VersionRules, now: int,
                       fault: Fault)
    requires Identified(s) && IsListing(order, s.plugins) && Ranges(rules)
    ensures var (t, r) := Published(s, order, ref, v, rules, now, fault);
      t.plugins == s.plugins ||
      (LookedUp(s, order, ref).Ok? &&
       var id := LookedUp(s, order, ref).value.id;
       exists w :: Gains(s, t, id, w) && PublishedAs(v, w, s.nextVersionId, id, now))
    ensures Published(s, order, ref, v, rules, now, fault).1.Ok? ==>
      Published(s, order, ref, v, rules, now, fault).0.plugins != s.plugins
  {
    hide LookedUp, Undeleted, VersionAdded, Refreshed, Trim, WithId, TidyVersion, Identified, Gains, PublishedAs, Dated;
    var found := LookedUp(s, order, ref);
    if Trim(ref) != "" && rules.accepts(TidyVersion(v, rules)) && found.Ok? {
      var id := found.value.id;
      var u := Dated(TidyVersion(v, rules), now).(pluginId := id);
      AddVersionExactly(s, u, now, fault);
      if VersionAdded(s, u, now, fault).1.Ok? {
        Stored(s, u, now, fault);
        TidyIsPublished(v, rules, s.nextVersionId, id, now);
        GainShows(s, VersionAdded(s, u, now, fault).0, id, u.(id := s.nextVersionId, createdAt := now));
      }
    }
  }

  lemma GainShows(s: Store, t: Store, id: int, w: PluginVersion)
    requires Gains(s, t, id, w)
    ensures t.plugins != s.plugins
  {
    assert |multiset(t.plugins[id].versions)| == |multiset(s.plugins[id].versions)| + 1;
  }

  // ----- releases -----------------------------------------------------------------------------------

  /** What is stored of a release that is imported now. */
  ghost predicate ImportedAs(rel: Release, w: PluginVersion, now: int) {
    && (w.version == if rel.tagName != "" && rel.tagName[0] == 'v' then Trim(rel.tagName[1..]) else Trim(rel.tagName))
    && w.prerelease == rel.prerelease && w.changelog == Trim(rel.body) && w.downloadUrl == Trim(rel.downloadUrl)
    && (w.releaseDate == if rel.publishedAt == None then Some(now) else rel.publishedAt)
    && TrimmedEntries(rel.checksums, w.checksums)
    && w.deletedAt == None && w.yankedAt == None && w.yankedBy == "" && w.yankedReason == ""
    && w.createdAt == now && w.views == 0 && w.downloads == 0 && w.semrelCore == ""
  }

  lemma ReleaseIsImported(p: Plugin, rel: Release, w: PluginVersion, id: int, pluginId: int, now: int)
    requires PublishedAs(AsVersion(p, rel), w, id, pluginId, now)
    ensures ImportedAs(rel, w, now)
  {
    hide Trim, TrimmedEntries;
  }

  /** Importing a release: it reports true exactly when a record changes. Then the plugin that the synced plugin's
      reference resolves to gains exactly one version, which bears the release's data; nothing else changes. */
  lemma ImportReleaseExactly(s: Store, order: seq<int>, p: Plugin, rel: Release, rules: VersionRules, now: int,
                             fault: Fault)
    requires Identified(s) && IsListing(order, s.plugins) && Ranges(rules)
    ensures var (t, r) := VersionUpserted(s, order, p, rel, rules, now, fault);
      (r == Ok(true) <==> t.plugins != s.plugins) &&
      (r == Ok(true) ==>
         LookedUp(s, order, p.Ref()).Ok? &&
         var id := LookedUp(s, order, p.Ref()).value.id;
         exists w :: Gains(s, t, id, w) && ImportedAs(rel, w, now))
  {
    hide Listed, Published, Identified, Gains, PublishedAs, ImportedAs, LookedUp;
    PublishExactly(s, order, p.Ref(), AsVersion(p, rel), rules, now, fault);
    PublishReports(s, order, p.Ref(), AsVersion(p, rel), rules, now, fault);
    var (t, r) := VersionUpserted(s, order, p, rel, rules, now, fault);
    if t.plugins != s.plugins {
      var id := LookedUp(s, order, p.Ref()).value.id;
      var w :| Gains(s, t, id, w) && PublishedAs(AsVersion(p, rel), w, s.nextVersionId, id, now);
      ReleaseIsImported(p, rel, w, s.nextVersionId, id, now);
    }
  }

  /** A release is skipped without an error if and only if its plugin is found and the release has no download or is
      named like one of the plugin's first hundred undeleted versions. */
  lemma SkipReleaseExactly(s: Store, order: seq<int>, p: Plugin, rel: Release, rules: VersionRules, now: int,
                           fault: Fault)
    requires Identified(s) && IsListing(order, s.plugins)
    ensures var tag := if rel.tagName != "" && rel.tagName[0] == 'v' then rel.tagName[1..] else rel.tagName;
      VersionUpserted(s, order, p, rel, rules, now, fault).1 == Ok(false) <==>
      Trim(p.Ref()) != "" && LookedUp(s, order, p.Ref()).Ok? &&
      LookedUp(s, order, p.Ref()).value.id in s.plugins &&
      (rel.downloadUrl == "" ||
       var vs := Undeleted(Refreshed(s.plugins[LookedUp(s, order, p.Ref()).value.id]).versions);
       exists k :: 0 <= k < |vs| && k < 100 && vs[k].version == tag)
  {
    hide LookedUp, Undeleted, Refreshed, Trim, Published, Identified;
    ListExactly(s, order, p.Ref(), 100, 0);
  }

  /** A version that is not born deleted is found again once it is stored. */
  lemma PublishReports(s: Store, order: seq<int>, ref: string, v: PluginVersion, rules: VersionRules, now: int,
                       fault: Fault)
    requires Identified(s) && IsListing(order, s.plugins) && v.deletedAt == None
    ensures var (t, r) := Published(s, order, ref, v, rules, now, fault); t.plugins != s.plugins ==> r.Ok?
  {
    hide LookedUp, Undeleted, VersionAdded, Refreshed, Trim, TidyChecksums, Identified, VersionIndex;
    var found := LookedUp(s, order, ref);
    if Trim(ref) != "" && rules.accepts(TidyVersion(v, rules)) && found.Ok? {
      var id := found.value.id;
      var u := Dated(TidyVersion(v, rules), now).(pluginId := id);
      AddVersionExactly(s, u, now, fault);
      var (t, added) := VersionAdded(s, u, now, fault);
      if added.Ok? {
        AddedIsFound(s, u, now, fault);
      }
    }
  }

  lemma AddedIsFound(s: Store, v: PluginVersion, now: int, fault: Fault)
    requires VersionAdded(s, v, now, fault).1.Ok? && v.deletedAt == None
    ensures var t := VersionAdded(s, v, now, fault).0;
      v.pluginId in t.plugins && WithId(Undeleted(Refreshed(t.plugins[v.pluginId]).versions), s.nextVersionId).Ok?
  {
    hide VersionAdded, Refreshed, VersionIndex;
    Stored(s, v, now, fault);
    var q := VersionAdded(s, v, now, fault).0.plugins[v.pluginId];
    var w := v.(id := s.nextVersionId, createdAt := now);
    ReadShape(q);
    SameVersions(Refreshed(q).versions, q.versions);
    assert w in multiset(q.versions);
    var vs := Undeleted(Refreshed(q).versions);
    assert w in vs;
    var i :| 0 <= i < |vs| && vs[i] == w;
  }

  /** So a release marked as a prerelease is never what the plugin offers by default. */
  lemma PrereleaseIsNotOffered(rel: Release, w: PluginVersion, now: int)
    requires ImportedAs(rel, w, now) && rel.prerelease
    ensures !Offered(w) && !Installable(w)
  {
  }

  // ----- the counts -----------------------------------------------------------------------------------

  /** What handling release `k` reports. */
  ghost function Report(s: Store, order: seq<int>, p: Plugin, releases: seq<Release>, rules: VersionRules, env: Env,
                        k: nat): Result<bool>
    requires k < |releases| && forall i :: 0 <= i < |order| ==> order[i] in s.plugins
  {
    if releases[k].draft then Ok(false)
    else VersionUpserted(Synced(s, order, p, releases, rules, env, k).0, order, p, releases[k], rules, env.clock(k),
                         env.fault(k)).1
  }

  function Trues(reports: seq<Result<bool>>): nat {
    if reports == [] then 0
    else Trues(reports[..|reports| - 1]) + if reports[|reports| - 1] == Ok(true) then 1 else 0
  }

  ghost function Reports(s: Store, order: seq<int>, p: Plugin, releases: seq<Release>, rules: VersionRules, env: Env,
                         n: nat): (r: seq<Result<bool>>)
    requires n <= |releases| && forall i :: 0 <= i < |order| ==> order[i] in s.plugins
    ensures |r| == n
  {
    if n == 0 then []
    else Reports(s, order, p, releases, rules, env, n - 1) + [Report(s, order, p, releases, rules, env, n - 1)]
  }

  /** The outcome counts the imported releases, skips the rest, and names the first error, if there was one. */
  ghost predicate Sums(o: Outcome, rs: seq<Result<bool>>) {
    && o.created == Trues(rs) && o.created + o.skipped == |rs|
    && match o.firstErr
       case None => forall k :: 0 <= k < |rs| ==> rs[k].Ok?
       case Some(e) => exists k :: FirstError(rs, k, e)
  }

  predicate FirstError(rs: seq<Result<bool>>, k: int, e: Error) {
    0 <= k < |rs| && rs[k] == Err(e) && forall j :: 0 <= j < k ==> rs[j].Ok?
  }

  lemma SumsOneMore(o: Outcome, rs: seq<Result<bool>>, r: Result<bool>)
    requires Sums(o, rs)
    ensures Sums(Tallied(o, r), rs + [r])
  {
    var all := rs + [r];
    assert all[..|all| - 1] == rs;
    if o.firstErr.Some? {
      var k :| FirstError(rs, k, o.firstErr.value);
      assert FirstError(all, k, o.firstErr.value);
    } else if r.Err? {
      assert FirstError(all, |rs|, r.error);
    }
  }

  lemma {:induction false} SyncCountsExactly(s: Store, order: seq<int>, p: Plugin, releases: seq<Release>,
                                             rules: VersionRules, env: Env, n: nat)
    requires n <= |releases| && forall i :: 0 <= i < |order| ==> order[i] in s.plugins
    ensures Sums(Synced(s, order, p, releases, rules, env, n).1, Reports(s, order, p, releases, rules, env, n))
  {
    if n > 0 {
      SyncCountsExactly(s, order, p, releases, rules, env, n - 1);
      hide VersionUpserted, Sums, Tallied;
      SumsOneMore(Synced(s, order, p, releases, rules, env, n - 1).1, Reports(s, order, p, releases, rules, env, n - 1),
                  Report(s, order, p, releases, rules, env, n - 1));
    }
  }

  // ----- listings ---------------------------------------------------------------------------------------

  /** Which versions a listing shows, exactly: one by one in their order, all but the deleted. */
  lemma UndeletedExactly(vs: seq<PluginVersion>, v: PluginVersion)
    ensures Undeleted([]) == [] && Undeleted(vs + [v]) == Undeleted(vs) + if v.deletedAt == None then [v] else []
  {
    var all := vs + [v];
    assert all[..|all| - 1] == vs && all[|all| - 1] == v;
  }

  /** A page, exactly: from the offset on, at most the limit, 20 if none is given. */
  lemma ListExactly(s: Store, order: seq<int>, ref: string, limit: int, offset: int)
    requires IsListing(order, s.plugins)
    ensures var size := if limit == 0 then 20 else limit;
      match Listed(s, order, ref, limit, offset)
      case Err(e) => Trim(ref) == "" || !(1 <= size <= 100) || offset < 0 || LookedUp(s, order, ref).Err? ||
                     LookedUp(s, order, ref).value.id !in s.plugins
      case Ok(page) =>
        Trim(ref) != "" && 1 <= size <= 100 && offset >= 0 && LookedUp(s, order, ref).Ok? &&
        LookedUp(s, order, ref).value.id in s.plugins &&
        var all := Undeleted(Refreshed(s.plugins[LookedUp(s, order, ref).value.id]).versions);
        |page| == (if |all| - offset <= 0 then 0 else if |all| - offset < size then |all| - offset else size) &&
        forall k :: 0 <= k < |page| ==> page[k] == all[offset + k]
  {
    hide LookedUp, Undeleted, Refreshed, Trim;
  }
}
