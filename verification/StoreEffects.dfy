/** What each write of the store leaves behind, field by field: the operations of api/repository/file_repo.go against
    a description that names no step of theirs. */
module StoreEffects {
  import opened Text
  import opened Sorting
  import opened Models
  import opened Releases
  import opened Identity
  import opened FileStore

  /** The counters stay, and so does every record but one. */
  predicate OneRecord(s: Store, t: Store, id: int) {
    && t.nextPluginId == s.nextPluginId && t.nextVersionId == s.nextVersionId
    && id in s.plugins && id in t.plugins && t.plugins == s.plugins[id := t.plugins[id]]
  }

  /** The same plugin but for its versions, its counters and what it advertises. */
  predicate SameMetadata(p: Plugin, q: Plugin) {
    && q.id == p.id && q.namespace == p.namespace && q.name == p.name && q.aliases == p.aliases
    && q.description == p.description && q.author == p.author && q.category == p.category
    && q.repository == p.repository && q.license == p.license && q.status == p.status && q.tags == p.tags
    && q.createdAt == p.createdAt && q.deletedAt == p.deletedAt
  }

  predicate SameCounters(p: Plugin, q: Plugin) {
    q.views == p.views && q.downloads == p.downloads
  }

  /** The same version but for its deletion, its yank and its counters. */
  predicate SameRelease(v: PluginVersion, w: PluginVersion) {
    && w.id == v.id && w.pluginId == v.pluginId && w.version == v.version && w.releaseDate == v.releaseDate
    && w.changelog == v.changelog && w.downloadUrl == v.downloadUrl && w.checksums == v.checksums
    && w.semrelCore == v.semrelCore && w.prerelease == v.prerelease && w.createdAt == v.createdAt
  }

  predicate SameYank(v: PluginVersion, w: PluginVersion) {
    w.yankedAt == v.yankedAt && w.yankedBy == v.yankedBy && w.yankedReason == v.yankedReason
  }

  predicate SameVisits(v: PluginVersion, w: PluginVersion) {
    w.views == v.views && w.downloads == v.downloads
  }

  // ----- reads ------------------------------------------------------------------------------------

  /** A read, exactly: the same plugin with the same versions, shown in order, that advertises the first version that is
      no prerelease, not deleted and not yanked. */
  lemma ReadExactly(p: Plugin)
    requires DistinctNames(p.versions) && DistinctDates(p.versions)
    ensures var r := Refreshed(p);
      SameMetadata(p, r) && SameCounters(p, r) && multiset(r.versions) == multiset(p.versions) &&
      (forall i, j :: 0 <= i < j < |r.versions| ==> ShownBefore(r.versions[i], r.versions[j])) &&
      Advertises(r, r.versions)
  {
    NamesAreDistinct(p.versions);
    ReleaseOrderIsLinear(p.versions);
    SortOrders(ByRelease(), p.versions);
    ReadShape(p);
    var vs := Refreshed(p).versions;
    forall i, j | 0 <= i < j < |vs|
      ensures ShownBefore(vs[i], vs[j])
    {
      assert ByRelease()(vs[i], vs[j]);
      SortMembers(ByRelease(), p.versions);
      SortDistinct(ByRelease(), p.versions);
      assert vs[i] in p.versions && vs[j] in p.versions;
      Apart(p.versions, vs[i], vs[j]);
    }
  }

  predicate FirstOffer(vs: seq<PluginVersion>, i: int) {
    0 <= i < |vs| && Offered(vs[i]) && forall k :: 0 <= k < i ==> !Offered(vs[k])
  }

  /** The plugin advertises the first version on offer, and nothing exactly if there is none. */
  ghost predicate Advertises(p: Plugin, vs: seq<PluginVersion>) {
    if exists v :: v in vs && Offered(v)
    then exists i :: FirstOffer(vs, i) && p.latestVersion == vs[i].version && p.latestSemrelCore == vs[i].semrelCore
    else p.latestVersion == "" && p.latestSemrelCore == ""
  }

  lemma {:induction false} FirstOffered(vs: seq<PluginVersion>)
    ensures match FirstInstallable(vs)
      case None => forall v :: v in vs ==> !Offered(v)
      case Some(v) => exists i :: FirstOffer(vs, i) && vs[i] == v
  {
    hide Offered, Installable;
    SameOffer(vs);
    if vs != [] {
      if Installable(vs[0]) {
        FirstIsOffered(vs);
      } else {
        FirstOffered(vs[1..]);
        assert vs == [vs[0]] + vs[1..];
        if FirstInstallable(vs).Some? {
          var i :| FirstOffer(vs[1..], i) && vs[1..][i] == FirstInstallable(vs).value;
          OfferedLater(vs, i);
        }
      }
    }
  }

  lemma FirstIsOffered(vs: seq<PluginVersion>)
    requires vs != [] && Offered(vs[0])
    ensures FirstOffer(vs, 0)
  {
  }

  lemma OfferedLater(vs: seq<PluginVersion>, i: int)
    requires vs != [] && !Offered(vs[0]) && FirstOffer(vs[1..], i)
    ensures FirstOffer(vs, i + 1) && vs[i + 1] == vs[1..][i]
  {
    assert forall k :: 1 <= k <= i + 1 ==> vs[k] == vs[1..][k - 1];
  }

  lemma SameOffer(vs: seq<PluginVersion>)
    ensures forall v :: v in vs ==> (Offered(v) <==> Installable(v))
  {
  }

  /** With any dates a read keeps everything but the order and the advertised fields. */
  lemma ReadShape(p: Plugin)
    ensures var r := Refreshed(p);
      SameMetadata(p, r) && SameCounters(p, r) && multiset(r.versions) == multiset(p.versions) &&
      Advertises(r, r.versions)
  {
    SortPermutes(ByRelease(), p.versions);
    FirstOffered(SortVersions(p.versions));
    hide Offered;
  }

  // ----- plugins ----------------------------------------------------------------------------------

  /** Create: on success the draft itself is stored under the next id, its aliases normalised, created now. On an
      error no record changes; a failed record write uses an id up, any other error nothing. */
  lemma CreateExactly(s: Store, plugin: Plugin, now: int, fault: Fault)
    ensures var (t, r) := Created(s, plugin, now, fault);
      t.nextVersionId == s.nextVersionId && s.nextPluginId <= t.nextPluginId <= s.nextPluginId + 1 &&
      match r
      case Ok(id) =>
        id == s.nextPluginId && t.nextPluginId == id + 1 && id in t.plugins &&
        t.plugins == s.plugins[id := t.plugins[id]] &&
        SameMetadata(plugin.(id := id, createdAt := now, aliases := Normalized(plugin.aliases)), t.plugins[id]) &&
        SameCounters(plugin, t.plugins[id]) && t.plugins[id].versions == plugin.versions
      case Err(e) => t.plugins == s.plugins && (e != Storage || fault.MetaFault? ==> t == s)
  {
    hide MayClaim, Normalized;
  }

  /** Update: exactly the nine described fields are replaced. */
  lemma UpdateExactly(s: Store, plugin: Plugin, fault: Fault)
    ensures var (t, r) := Updated(s, plugin, fault);
      if r.Err? then t == s
      else
        OneRecord(s, t, plugin.id) && s.plugins[plugin.id].deletedAt == None &&
        var p, q := s.plugins[plugin.id], t.plugins[plugin.id];
        q.namespace == plugin.namespace && q.name == plugin.name && q.aliases == Normalized(plugin.aliases) &&
        q.description == plugin.description && q.author == plugin.author && q.category == plugin.category &&
        q.repository == plugin.repository && q.license == plugin.license && q.tags == plugin.tags &&
        q.id == p.id && q.status == p.status && q.createdAt == p.createdAt && q.deletedAt == None &&
        SameCounters(p, q) && multiset(q.versions) == multiset(p.versions)
  {
    hide MayClaim, Normalized, Refreshed;
    if IsLive(s, plugin.id) {
      ReadShape(s.plugins[plugin.id]);
    }
  }

  /** Delete: the plugin is marked now, loses its author if that is asked for, and if that is asked for so are its
      versions, except those that were marked before. */
  lemma DeleteExactly(s: Store, spec: PluginDeletion, now: int, fault: Fault)
    ensures var (t, r) := Deleted(s, spec, now, fault);
      if r.Err? then t == s
      else
        OneRecord(s, t, spec.pluginId) && s.plugins[spec.pluginId].deletedAt == None &&
        var p, q := s.plugins[spec.pluginId], t.plugins[spec.pluginId];
        SameMetadata(p.(deletedAt := Some(now), author := if spec.anonymizeAuthor then "" else p.author), q) &&
        SameCounters(p, q) &&
        var vs := Refreshed(p).versions;
        |q.versions| == |vs| && forall i :: 0 <= i < |vs| ==>
          q.versions[i].deletedAt ==
          (if spec.cascadeVersions && vs[i].deletedAt == None then Some(now) else vs[i].deletedAt) &&
          SameRelease(vs[i], q.versions[i]) && SameYank(vs[i], q.versions[i]) && SameVisits(vs[i], q.versions[i])
  {
    hide Refreshed;
    if IsLive(s, spec.pluginId) {
      ReadShape(s.plugins[spec.pluginId]);
    }
  }

  /** IncrCounters: the plugin's counters rise, and those of the first version of the id named, if one is named. */
  lemma CountersExactly(s: Store, id: int, versionId: int, views: int, downloads: int, fault: Fault)
    ensures var (t, r) := CountersIncremented(s, id, versionId, views, downloads, fault);
      if r.Err? then t == s
      else
        OneRecord(s, t, id) && s.plugins[id].deletedAt == None &&
        var p, q := s.plugins[id], t.plugins[id];
        SameMetadata(p, q) && q.views == p.views + views && q.downloads == p.downloads + downloads &&
        var vs := Refreshed(p).versions;
        |q.versions| == |vs| && forall i :: 0 <= i < |vs| ==>
          var hit := versionId > 0 && vs[i].id == versionId && forall k :: 0 <= k < i ==> vs[k].id != versionId;
          q.versions[i].views == vs[i].views + (if hit then views else 0) &&
          q.versions[i].downloads == vs[i].downloads + (if hit then downloads else 0) &&
          q.versions[i].deletedAt == vs[i].deletedAt &&
          SameRelease(vs[i], q.versions[i]) && SameYank(vs[i], q.versions[i])
  {
    hide Refreshed, VersionIndex;
    if IsLive(s, id) {
      ReadShape(s.plugins[id]);
      VersionCountersExactly(Refreshed(s.plugins[id]).versions, versionId, views, downloads);
      hide VersionCounted, SameRelease, SameYank;
    }
  }

  lemma VersionCountersExactly(vs: seq<PluginVersion>, versionId: int, views: int, downloads: int)
    ensures var ws := VersionCounted(vs, versionId, views, downloads);
      forall i :: 0 <= i < |vs| ==>
        var hit := versionId > 0 && vs[i].id == versionId && forall k :: 0 <= k < i ==> vs[k].id != versionId;
        ws[i].views == vs[i].views + (if hit then views else 0) &&
        ws[i].downloads == vs[i].downloads + (if hit then downloads else 0) &&
        ws[i].deletedAt == vs[i].deletedAt && SameRelease(vs[i], ws[i]) && SameYank(vs[i], ws[i])
  {
    hide VersionIndex;
  }

  // ----- versions -----------------------------------------------------------------------------------

  /** AddVersion, exactly: it goes in if and only if the plugin is live, has no version of that name, deleted or not,
      and no write fails. The version is stored as given but for the next id and the time; nothing else changes. */
  lemma AddVersionExactly(s: Store, version: PluginVersion, now: int, fault: Fault)
    ensures var (t, r) := VersionAdded(s, version, now, fault); var id := version.pluginId;
      (r.Ok? <==> id in s.plugins && s.plugins[id].deletedAt == None && fault == NoFault &&
                  forall v :: v in s.plugins[id].versions ==> v.version != version.version) &&
      t.nextPluginId == s.nextPluginId && s.nextVersionId <= t.nextVersionId <= s.nextVersionId + 1 &&
      match r
      case Err(_) => t.plugins == s.plugins
      case Ok(n) =>
        n == s.nextVersionId && t.nextVersionId == n + 1 && id in t.plugins &&
        t.plugins == s.plugins[id := t.plugins[id]] &&
        SameMetadata(s.plugins[id], t.plugins[id]) && SameCounters(s.plugins[id], t.plugins[id]) &&
        exists w: PluginVersion :: SameRelease(version.(id := n, createdAt := now), w) &&
                    SameYank(version, w) && SameVisits(version, w) && w.deletedAt == version.deletedAt &&
                    multiset(t.plugins[id].versions) == multiset(s.plugins[id].versions) + multiset{w}
  {
    hide Refreshed, Sort;
    var id := version.pluginId;
    if IsLive(s, id) {
      ReadShape(s.plugins[id]);
      var p := Refreshed(s.plugins[id]);
      var w := version.(id := s.nextVersionId, createdAt := now);
      SortPermutes(ByAddition(), p.versions + [w]);
      NamesByMembers(p.versions, s.plugins[id].versions, version.version);
    }
  }

  /** The order in which a list with a new version is written: the latest date foremost, undated ones last, and within a
      date the latest created foremost. */
  predicate WrittenBefore(v: PluginVersion, w: PluginVersion) {
    match (v.releaseDate, w.releaseDate)
    case (Some(a), Some(b)) => a > b || (a == b && v.createdAt > w.createdAt)
    case (Some(_), None) => true
    case (None, Some(_)) => false
    case (None, None) => v.createdAt > w.createdAt
  }

  lemma AdditionOrder(vs: seq<PluginVersion>)
    requires forall i, j :: 0 <= i < j < |vs| ==> vs[i].createdAt != vs[j].createdAt
    ensures var r := Sort(ByAddition(), vs);
      multiset(r) == multiset(vs) && forall i, j :: 0 <= i < j < |r| ==> WrittenBefore(r[i], r[j])
  {
    hide Sort, AddedBefore;
    SortPermutes(ByAddition(), vs);
    assert Distinct(vs);
    AdditionIsLinear(vs);
    SortOrders(ByAddition(), vs);
    var r := Sort(ByAddition(), vs);
    TimesApart(vs, r);
    forall i, j | 0 <= i < j < |r|
      ensures WrittenBefore(r[i], r[j])
    {
      assert ByAddition()(r[i], r[j]);
      AddedIsWritten(r[i], r[j]);
    }
  }

  lemma AddedIsWritten(v: PluginVersion, w: PluginVersion)
    requires v.createdAt != w.createdAt
    ensures AddedBefore(v, w) <==> WrittenBefore(v, w)
    ensures WrittenBefore(v, w) != WrittenBefore(w, v)
  {
  }

  lemma WrittenOnward(u: PluginVersion, v: PluginVersion, w: PluginVersion)
    requires WrittenBefore(u, v) && WrittenBefore(v, w)
    ensures WrittenBefore(u, w)
  {
  }

  lemma AdditionIsLinear(vs: seq<PluginVersion>)
    requires forall i, j :: 0 <= i < j < |vs| ==> vs[i].createdAt != vs[j].createdAt
    ensures Linear(ByAddition(), vs)
  {
    hide AddedBefore, WrittenBefore;
    forall x, y | x in vs && y in vs && x != y
      ensures (AddedBefore(x, y) <==> WrittenBefore(x, y)) && WrittenBefore(x, y) != WrittenBefore(y, x)
    {
      AddedIsWritten(x, y);
    }
    forall x, y, z | WrittenBefore(x, y) && WrittenBefore(y, z)
      ensures WrittenBefore(x, z)
    {
      WrittenOnward(x, y, z);
    }
  }

  /** A new version is written in its place, if no two versions were created at one time. */
  lemma AddVersionOrders(s: Store, version: PluginVersion, now: int, fault: Fault)
    requires VersionAdded(s, version, now, fault).1.Ok?
    requires var vs := s.plugins[version.pluginId].versions;
      (forall i, j :: 0 <= i < j < |vs| ==> vs[i].createdAt != vs[j].createdAt) &&
      forall v :: v in vs ==> v.createdAt != now
    ensures var ws := VersionAdded(s, version, now, fault).0.plugins[version.pluginId].versions;
      forall i, j :: 0 <= i < j < |ws| ==> WrittenBefore(ws[i], ws[j])
  {
    hide Refreshed, Sort;
    var p := s.plugins[version.pluginId];
    ReadShape(p);
    var vs := Refreshed(p).versions;
    TimesApart(p.versions, vs);
    SameVersions(vs, p.versions);
    assert forall i :: 0 <= i < |vs| ==> vs[i] in vs;
    AdditionOrder(vs + [version.(id := s.nextVersionId, createdAt := now)]);
  }

  lemma {:induction false} TimesApart(vs: seq<PluginVersion>, ws: seq<PluginVersion>)
    requires multiset(vs) == multiset(ws) && forall i, j :: 0 <= i < j < |vs| ==> vs[i].createdAt != vs[j].createdAt
    ensures forall i, j :: 0 <= i < j < |ws| ==> ws[i].createdAt != ws[j].createdAt
  {
    forall i, j | 0 <= i < j < |ws|
      ensures ws[i].createdAt != ws[j].createdAt
    {
      assert ws == ws[..i] + [ws[i]] + ws[i + 1..j] + [ws[j]] + ws[j + 1..];
      assert multiset(vs)[ws[i]] >= 1 && multiset(vs)[ws[j]] >= 1;
      if ws[i] == ws[j] {
        assert multiset(ws)[ws[i]] >= 2;
        OnceEach(vs, ws[i]);
      }
    }
  }

  lemma {:induction false} OnceEach(vs: seq<PluginVersion>, v: PluginVersion)
    requires forall i, j :: 0 <= i < j < |vs| ==> vs[i].createdAt != vs[j].createdAt
    ensures multiset(vs)[v] <= 1
  {
    if vs != [] {
      var front := vs[..|vs| - 1];
      assert vs == front + [vs[|vs| - 1]];
      OnceEach(front, v);
      if v == vs[|vs| - 1] {
        assert v !in front;
      }
    }
  }

  lemma NamesByMembers(vs: seq<PluginVersion>, ws: seq<PluginVersion>, version: string)
    requires multiset(vs) == multiset(ws)
    ensures (exists i :: 0 <= i < |vs| && vs[i].version == version) <==> exists w :: w in ws && w.version == version
  {
    assert forall v :: v in vs <==> v in multiset(vs);
    assert forall w :: w in ws <==> w in multiset(ws);
    assert forall i :: 0 <= i < |vs| ==> vs[i] in vs;
  }

  /** A yank and its lifting, exactly: they go through if and only if the plugin is live, the write works and some
      version of that id is not deleted. The first such is marked, keeping an earlier mark's time, or cleared. */
  lemma YankExactly(s: Store, spec: Yank, now: int, fault: Fault)
    ensures var (t, r) := YankSet(s, spec, now, fault); var id := spec.pluginId;
      (r.Ok? <==> IsLive(s, id) && !fault.PluginFault? &&
                  exists v :: v in s.plugins[id].versions && v.id == spec.versionId && v.deletedAt == None) &&
      if r.Err? then t == s
      else
        OneRecord(s, t, id) && SameMetadata(s.plugins[id], t.plugins[id]) &&
        SameCounters(s.plugins[id], t.plugins[id]) &&
        var vs, ws := Refreshed(s.plugins[id]).versions, t.plugins[id].versions;
        exists i :: 0 <= i < |vs| && vs[i].id == spec.versionId && vs[i].deletedAt == None &&
          (forall k :: 0 <= k < i ==> vs[k].id != spec.versionId || vs[k].deletedAt != None) && ws == vs[i := ws[i]] &&
          MarkedAs(vs[i], ws[i], spec, now)
  {
    hide Refreshed, LiveVersionIndex;
    if IsLive(s, spec.pluginId) {
      ReadShape(s.plugins[spec.pluginId]);
      SameVersions(Refreshed(s.plugins[spec.pluginId]).versions, s.plugins[spec.pluginId].versions);
      var vs := Refreshed(s.plugins[spec.pluginId]).versions;
      var i := LiveVersionIndex(vs, spec.versionId);
      if i < |vs| {
        assert vs[i] in vs;
      }
    }
  }

  predicate MarkedAs(v: PluginVersion, w: PluginVersion, spec: Yank, now: int) {
    && SameRelease(v, w) && SameVisits(v, w) && w.deletedAt == v.deletedAt
    && if spec.yanked
       then (w.yankedAt == if v.yankedAt == None then Some(now) else v.yankedAt) &&
            w.yankedBy == spec.actor && w.yankedReason == spec.reason
       else w.yankedAt == None && w.yankedBy == "" && w.yankedReason == ""
  }

  lemma SameVersions(vs: seq<PluginVersion>, ws: seq<PluginVersion>)
    requires multiset(vs) == multiset(ws)
    ensures forall v :: v in vs <==> v in ws
  {
    assert forall v :: v in vs <==> v in multiset(vs);
    assert forall w :: w in ws <==> w in multiset(ws);
  }

  /** DeleteVersion: it goes through if and only if the plugin is live, the write works, and the first version of that
      id is there and not deleted, which is then marked now. */
  lemma DeleteVersionExactly(s: Store, id: int, versionId: int, now: int, fault: Fault)
    ensures var (t, r) := VersionDeleted(s, id, versionId, now, fault);
      (r.Ok? <==> IsLive(s, id) && !fault.PluginFault? &&
                  exists i :: FirstOfId(Refreshed(s.plugins[id]).versions, i, versionId) &&
                              Refreshed(s.plugins[id]).versions[i].deletedAt == None) &&
      if r.Err? then t == s
      else
        OneRecord(s, t, id) && SameMetadata(s.plugins[id], t.plugins[id]) &&
        SameCounters(s.plugins[id], t.plugins[id]) &&
        var vs, ws := Refreshed(s.plugins[id]).versions, t.plugins[id].versions;
        exists i :: FirstOfId(vs, i, versionId) && ws == vs[i := ws[i]] && ws[i].deletedAt == Some(now) &&
          SameRelease(vs[i], ws[i]) && SameVisits(vs[i], ws[i]) && SameYank(vs[i], ws[i])
  {
    hide Refreshed, VersionIndex;
    if IsLive(s, id) {
      ReadShape(s.plugins[id]);
      var vs := Refreshed(s.plugins[id]).versions;
      var i := VersionIndex(vs, versionId);
      assert i < |vs| ==> FirstOfId(vs, i, versionId);
    }
  }

  predicate FirstOfId(vs: seq<PluginVersion>, i: int, versionId: int) {
    0 <= i < |vs| && vs[i].id == versionId && forall k :: 0 <= k < i ==> vs[k].id != versionId
  }
}
