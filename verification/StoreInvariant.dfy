/** What every operation of the store keeps: the identity rule, fresh ids, and versions that can be told apart;
    and what each operation does to the claim map. */
module StoreInvariant {
  import opened Text
  import opened Sorting
  import opened Models
  import opened Releases
  import opened Identity
  import opened Ownership
  import opened FileStore

  /** Version strings and version ids are pairwise distinct. */
  ghost predicate TellApart(vs: seq<PluginVersion>) {
    forall i, j :: 0 <= i < j < |vs| ==> vs[i].version != vs[j].version && vs[i].id != vs[j].id
  }

  ghost predicate VersionsOk(vs: seq<PluginVersion>, pluginId: int, bound: int) {
    TellApart(vs) && forall v :: v in vs ==> v.pluginId == pluginId && 1 <= v.id < bound
  }

  /** No version id occurs in two plugins. */
  ghost predicate VersionIdsGlobal(plugins: Plugins) {
    forall a, b, v, w ::
      a in plugins && b in plugins && a != b && v in plugins[a].versions && w in plugins[b].versions ==>
      v.id != w.id
  }

  /** Records lie under their ids, ids below their counter, and the identity rule holds. */
  ghost predicate Identified(s: Store) {
    && 1 <= s.nextPluginId && 1 <= s.nextVersionId
    && (forall id :: id in s.plugins ==> s.plugins[id].id == id && 1 <= id < s.nextPluginId)
    && UniqueIdentities(s.plugins)
  }

  ghost predicate VersionsSound(s: Store) {
    && (forall id :: id in s.plugins ==> VersionsOk(s.plugins[id].versions, id, s.nextVersionId))
    && VersionIdsGlobal(s.plugins)
  }

  ghost predicate Inv(s: Store) {
    Identified(s) && VersionsSound(s)
  }

  lemma InvIdentifies(s: Store)
    requires Inv(s)
    ensures Identified(s)
  {
  }

  lemma EmptyInv()
    ensures Inv(EMPTY)
  {
  }

  // ----- version lists -----------------------------------------------------------------------------

  lemma TellApartNames(vs: seq<PluginVersion>)
    requires TellApart(vs)
    ensures DistinctNames(vs) && Distinct(vs)
  {
  }

  lemma SortTellsApart(before: (PluginVersion, PluginVersion) -> bool, vs: seq<PluginVersion>)
    requires TellApart(vs)
    ensures TellApart(Sort(before, vs))
  {
    TellApartNames(vs);
    SortDistinct(before, vs);
    SortMembers(before, vs);
    var r := Sort(before, vs);
    forall i, j | 0 <= i < j < |r|
      ensures r[i].version != r[j].version && r[i].id != r[j].id
    {
      assert r[i] in r && r[j] in r;
      var i' :| 0 <= i' < |vs| && vs[i'] == r[i];
      var j' :| 0 <= j' < |vs| && vs[j'] == r[j];
    }
  }

  lemma RefreshedVersions(p: Plugin, bound: int)
    requires VersionsOk(p.versions, p.id, bound)
    ensures VersionsOk(Refreshed(p).versions, p.id, bound)
    ensures forall v :: v in Refreshed(p).versions <==> v in p.versions
  {
    SortTellsApart(ByRelease(), p.versions);
    SortMembers(ByRelease(), p.versions);
  }

  /** The same versions in the same places, whatever else about them changes. */
  ghost predicate SameRoster(vs: seq<PluginVersion>, ws: seq<PluginVersion>) {
    |vs| == |ws| && forall i :: 0 <= i < |vs| ==>
      vs[i].id == ws[i].id && vs[i].version == ws[i].version && vs[i].pluginId == ws[i].pluginId
  }

  lemma RosterKeepsVersions(vs: seq<PluginVersion>, ws: seq<PluginVersion>, pluginId: int, bound: int)
    requires SameRoster(vs, ws) && VersionsOk(vs, pluginId, bound)
    ensures VersionsOk(ws, pluginId, bound)
    ensures forall w :: w in ws ==> exists v :: v in vs && v.id == w.id
  {
  }

  // ----- replacing one record ------------------------------------------------------------------------

  /** Every version id of `vs` is an old one of plugin `id` or was handed out now. */
  ghost predicate OwnOrNew(s: Store, id: int, vs: seq<PluginVersion>) {
    forall w :: w in vs ==>
      w.id >= s.nextVersionId || (id in s.plugins && exists v :: v in s.plugins[id].versions && v.id == w.id)
  }

  lemma ReplaceKeepsInv(s: Store, id: int, p: Plugin, nextPluginId: int, nextVersionId: int)
    requires Inv(s) && s.nextPluginId <= nextPluginId && s.nextVersionId <= nextVersionId
    requires p.id == id && 1 <= id < nextPluginId
    requires VersionsOk(p.versions, id, nextVersionId) && OwnOrNew(s, id, p.versions)
    requires UniqueIdentities(s.plugins[id := p])
    ensures Inv(Store(s.plugins[id := p], nextPluginId, nextVersionId))
  {
    hide UniqueIdentities, TellApart;
    var after := s.plugins[id := p];
    forall a, b, v, w | a in after && b in after && a != b && v in after[a].versions && w in after[b].versions
      ensures v.id != w.id
    {
      if a == id {
        assert w in s.plugins[b].versions;
      } else if b == id {
        assert v in s.plugins[a].versions;
      }
    }
  }

  lemma ReplaceIdentified(s: Store, id: int, p: Plugin, nextPluginId: int, nextVersionId: int)
    requires Identified(s) && s.nextPluginId <= nextPluginId && s.nextVersionId <= nextVersionId
    requires p.id == id && 1 <= id < nextPluginId && UniqueIdentities(s.plugins[id := p])
    ensures Identified(Store(s.plugins[id := p], nextPluginId, nextVersionId))
  {
    hide UniqueIdentities;
  }

  /** A record that keeps its identity and deletion state keeps the claim map. */
  lemma SameKeysSameOwners(plugins: Plugins, id: int, p: Plugin)
    requires UniqueIdentities(plugins) && id in plugins && Keys(p) == Keys(plugins[id])
    requires p.Live() == plugins[id].Live()
    ensures UniqueIdentities(plugins[id := p]) && Owners(plugins[id := p]) == Owners(plugins)
  {
    var after := plugins[id := p];
    assert UniqueIdentities(after) by {
      hide Keys, Distinct;
    }
    hide Keys, UniqueIdentities, Owners;
    forall key, o
      ensures Owns(after, key, o) <==> key in Owners(plugins) && Owners(plugins)[key] == o
    {
      OwnersAreOwns(plugins, key, o);
    }
    OwnersDetermined(after, Owners(plugins));
  }

  // ----- each operation ---------------------------------------------------------------------------------

  /** Create succeeds, without faults, exactly when the draft's references are distinct and unowned, and then the
      claim map gains exactly those references if the draft is live; otherwise it is unchanged. A draft may bring
      versions and a deletion date. Unless it is stored with versions, the whole invariant stays. */
  lemma CreateClaims(s: Store, plugin: Plugin, now: int, fault: Fault)
    requires Identified(s)
    ensures var p := plugin.(aliases := Normalized(plugin.aliases));
      var (s', r) := Created(s, plugin, now, fault);
      Identified(s') && s.nextPluginId <= s'.nextPluginId && s'.nextVersionId == s.nextVersionId &&
      (r.Ok? <==> fault.NoFault? && Distinct(Keys(p)) && forall k :: k in Keys(p) ==> k !in Owners(s.plugins)) &&
      (r.Ok? ==> r.value !in s.plugins && r.value == s.nextPluginId && s'.plugins.Keys == s.plugins.Keys + {r.value} &&
                 Owners(s'.plugins) ==
                 Owners(s.plugins) + if plugin.Live() then Claiming(Keys(p), r.value) else map[]) &&
      (r.Err? ==> s'.plugins == s.plugins)
    ensures var (s', r) := Created(s, plugin, now, fault);
      Inv(s) && (r.Err? || plugin.versions == []) ==> Inv(s')
  {
    hide Normalized, Keys, Owners, Free, UniqueIdentities, VersionsSound;
    var p := plugin.(aliases := Normalized(plugin.aliases));
    var (s', r) := Created(s, plugin, now, fault);
    var id := s.nextPluginId;
    NobodyIs(s, 0);
    NobodyIs(s, id);
    FreeInOwners(s.plugins, Keys(p), 0);
    if r.Ok? {
      var q := p.(id := id, createdAt := now);
      assert Keys(q) == Keys(p) by { KeysByIdentity(q, p); }
      FreeExceptNobody(s, Keys(p), id);
      ReleasingNobody(s, id);
      if plugin.Live() {
        StoreLive(s.plugins, id, q);
      } else {
        StoreDeleted(s.plugins, id, q);
        assert Owners(s.plugins) + map[] == Owners(s.plugins);
      }
      ReplaceIdentified(s, id, q, id + 1, s.nextVersionId);
      if VersionsSound(s) && plugin.versions == [] {
        ReplaceKeepsInv(s, id, q, id + 1, s.nextVersionId);
      }
    } else if VersionsSound(s) {
      ReplaceNothing(s, s'.nextPluginId, s'.nextVersionId);
    }
  }

  /** Identity depends only on the namespace, the name and the aliases. */
  lemma KeysByIdentity(p: Plugin, q: Plugin)
    requires p.namespace == q.namespace && p.name == q.name && p.aliases == q.aliases
    ensures Keys(p) == Keys(q)
  {
  }

  lemma ReplaceNothing(s: Store, nextPluginId: int, nextVersionId: int)
    requires Inv(s) && s.nextPluginId <= nextPluginId && s.nextVersionId <= nextVersionId
    ensures Inv(Store(s.plugins, nextPluginId, nextVersionId))
  {
    hide UniqueIdentities, VersionIdsGlobal, TellApart;
  }

  /** Nobody owns anything under an id that is not stored. */
  lemma NobodyIs(s: Store, id: int)
    requires Identified(s) && !(1 <= id < s.nextPluginId)
    ensures id !in s.plugins && forall k :: k in Owners(s.plugins) ==> Owners(s.plugins)[k] != id
  {
  }

  lemma FreeExceptNobody(s: Store, keys: seq<string>, id: int)
    requires Identified(s) && Free(s.plugins, keys, 0)
    ensures Free(s.plugins, keys, id)
  {
  }

  lemma ReleasingNobody(s: Store, id: int)
    requires forall k :: k in Owners(s.plugins) ==> Owners(s.plugins)[k] != id
    ensures Releasing(Owners(s.plugins), id) == Owners(s.plugins)
  {
  }

  /** Update of a live plugin succeeds, without a fault, exactly when its new references are distinct and owned by
      nobody else; the claim map then trades its old references for the new ones. An error changes nothing. */
  lemma UpdateClaims(s: Store, plugin: Plugin, fault: Fault)
    requires Identified(s)
    ensures var p := plugin.(aliases := Normalized(plugin.aliases));
      var (s', r) := Updated(s, plugin, fault);
      Identified(s') && s'.nextPluginId == s.nextPluginId && s'.nextVersionId == s.nextVersionId &&
      (r.Ok? <==> IsLive(s, plugin.id) && !fault.PluginFault? && Distinct(Keys(p)) &&
                  forall k :: k in Keys(p) && k in Owners(s.plugins) ==> Owners(s.plugins)[k] == plugin.id) &&
      (r.Ok? ==> s'.plugins.Keys == s.plugins.Keys &&
                 Owners(s'.plugins) == Releasing(Owners(s.plugins), plugin.id) + Claiming(Keys(p), plugin.id)) &&
      (r.Err? ==> s' == s)
    ensures Inv(s) ==> Inv(Updated(s, plugin, fault).0)
  {
    hide Normalized, Keys, Owners, Free, UniqueIdentities, VersionIdsGlobal, Refreshed;
    var p := plugin.(aliases := Normalized(plugin.aliases));
    var (s', r) := Updated(s, plugin, fault);
    var id := plugin.id;
    FreeInOwners(s.plugins, Keys(p), id);
    if r.Ok? {
      var existing := Refreshed(s.plugins[id]);
      RefreshedIdentity(s.plugins[id]);
      var q := WithMetadata(existing, p, p.aliases);
      KeysByIdentity(q, p);
      StoreLive(s.plugins, id, q);
      ReplaceIdentified(s, id, q, s.nextPluginId, s.nextVersionId);
      if VersionsSound(s) {
        RefreshedVersions(s.plugins[id], s.nextVersionId);
        ReplaceKeepsInv(s, id, q, s.nextPluginId, s.nextVersionId);
      }
    }
  }

  /** Delete releases exactly the references of the plugin. */
  lemma DeleteReleases(s: Store, spec: PluginDeletion, now: int, fault: Fault)
    requires Identified(s)
    ensures var (s', r) := Deleted(s, spec, now, fault);
      Identified(s') && s'.nextPluginId == s.nextPluginId && s'.nextVersionId == s.nextVersionId &&
      (r.Ok? <==> IsLive(s, spec.pluginId) && !fault.PluginFault?) &&
      (r.Ok? ==> s'.plugins.Keys == s.plugins.Keys &&
                 Owners(s'.plugins) == Releasing(Owners(s.plugins), spec.pluginId)) &&
      (r.Err? ==> s' == s)
    ensures Inv(s) ==> Inv(Deleted(s, spec, now, fault).0)
  {
    hide Keys, Owners, Free, UniqueIdentities, VersionIdsGlobal, Refreshed;
    var (s', r) := Deleted(s, spec, now, fault);
    var id := spec.pluginId;
    if r.Ok? {
      var p := Refreshed(s.plugins[id]);
      RefreshedIdentity(s.plugins[id]);
      StoreDeleted(s.plugins, id, s'.plugins[id]);
      ReplaceIdentified(s, id, s'.plugins[id], s.nextPluginId, s.nextVersionId);
      if VersionsSound(s) {
        RefreshedVersions(s.plugins[id], s.nextVersionId);
        RosterKeepsVersions(p.versions, Cascaded(p.versions, now), id, s.nextVersionId);
        ReplaceKeepsInv(s, id, s'.plugins[id], s.nextPluginId, s.nextVersionId);
      }
    }
  }

  /** What an operation on versions or counters keeps. */
  ghost predicate KeepsIdentities(s: Store, s': Store) {
    Identified(s') && s'.nextPluginId == s.nextPluginId && s.nextVersionId <= s'.nextVersionId &&
    s'.plugins.Keys == s.plugins.Keys && Owners(s'.plugins) == Owners(s.plugins) && (Inv(s) ==> Inv(s'))
  }

  lemma SaveKeepsIdentities(s: Store, id: int, vs: seq<PluginVersion>, p: Plugin, nextVersionId: int)
    requires Identified(s) && IsLive(s, id) && s.nextVersionId <= nextVersionId
    requires p.id == id && p.Live() && KeysLike(p, s.plugins[id]) && p.versions == vs
    requires Inv(s) ==> VersionsOk(vs, id, nextVersionId) && OwnOrNew(s, id, vs)
    ensures KeepsIdentities(s, Store(s.plugins[id := p], s.nextPluginId, nextVersionId))
  {
    hide UniqueIdentities, VersionsSound, VersionsOk, Owners, Free, OwnOrNew;
    KeysByIdentity(p, s.plugins[id]);
    SameKeysSameOwners(s.plugins, id, p);
    ReplaceIdentified(s, id, p, s.nextPluginId, nextVersionId);
    if VersionsSound(s) {
      ReplaceKeepsInv(s, id, p, s.nextPluginId, nextVersionId);
    }
  }

  predicate KeysLike(p: Plugin, q: Plugin) {
    p.namespace == q.namespace && p.name == q.name && p.aliases == q.aliases
  }

  /** Editing the versions of a read in place. */
  lemma EditKeepsIdentities(s: Store, id: int, q: Plugin)
    requires Identified(s) && IsLive(s, id) && q.id == id && q.Live() && KeysLike(q, s.plugins[id])
    requires SameRoster(Refreshed(s.plugins[id]).versions, q.versions)
    ensures KeepsIdentities(s, s.(plugins := s.plugins[id := q]))
  {
    hide UniqueIdentities, VersionIdsGlobal, Owners, Refreshed, TellApart, SameRoster;
    var p := Refreshed(s.plugins[id]);
    if Inv(s) {
      RefreshedVersions(s.plugins[id], s.nextVersionId);
      RosterKeepsVersions(p.versions, q.versions, id, s.nextVersionId);
    }
    SaveKeepsIdentities(s, id, q.versions, q, s.nextVersionId);
  }

  lemma NothingKeepsIdentities(s: Store)
    requires Identified(s)
    ensures KeepsIdentities(s, s)
  {
  }

  lemma StoredUnderItsId(s: Store, id: int)
    requires Identified(s) && id in s.plugins
    ensures s.plugins[id].id == id
  {
  }

  lemma YankKeepsIdentities(s: Store, spec: Yank, now: int, fault: Fault)
    requires Identified(s)
    ensures KeepsIdentities(s, YankSet(s, spec, now, fault).0)
  {
    hide Identified, KeepsIdentities, SortVersions, LiveVersionIndex;
    var (t, r) := YankSet(s, spec, now, fault);
    NothingKeepsIdentities(s);
    if r.Ok? {
      StoredUnderItsId(s, spec.pluginId);
      RefreshedParts(s.plugins[spec.pluginId]);
      hide Refreshed;
      EditKeepsIdentities(s, spec.pluginId, t.plugins[spec.pluginId]);
    }
  }

  lemma VersionDeleteKeepsIdentities(s: Store, pluginId: int, versionId: int, now: int, fault: Fault)
    requires Identified(s)
    ensures KeepsIdentities(s, VersionDeleted(s, pluginId, versionId, now, fault).0)
  {
    hide Identified, KeepsIdentities, SortVersions, VersionIndex;
    var (t, r) := VersionDeleted(s, pluginId, versionId, now, fault);
    NothingKeepsIdentities(s);
    if r.Ok? {
      StoredUnderItsId(s, pluginId);
      RefreshedParts(s.plugins[pluginId]);
      hide Refreshed;
      EditKeepsIdentities(s, pluginId, t.plugins[pluginId]);
    }
  }

  lemma CountedRoster(vs: seq<PluginVersion>, versionId: int, views: int, downloads: int)
    ensures SameRoster(vs, VersionCounted(vs, versionId, views, downloads))
  {
    hide VersionIndex;
  }

  lemma CountersKeepIdentities(s: Store, pluginId: int, versionId: int, views: int, downloads: int, fault: Fault)
    requires Identified(s)
    ensures KeepsIdentities(s, CountersIncremented(s, pluginId, versionId, views, downloads, fault).0)
  {
    hide Identified, KeepsIdentities, SortVersions, VersionCounted, SameRoster;
    var (t, r) := CountersIncremented(s, pluginId, versionId, views, downloads, fault);
    NothingKeepsIdentities(s);
    if r.Ok? {
      StoredUnderItsId(s, pluginId);
      RefreshedParts(s.plugins[pluginId]);
      hide Refreshed;
      CountedRoster(Refreshed(s.plugins[pluginId]).versions, versionId, views, downloads);
      EditKeepsIdentities(s, pluginId, t.plugins[pluginId]);
    }
  }

  lemma AppendOk(vs: seq<PluginVersion>, v: PluginVersion, pluginId: int, bound: int)
    requires VersionsOk(vs, pluginId, bound) && v.id == bound && 1 <= bound && v.pluginId == pluginId
    requires forall i :: 0 <= i < |vs| ==> vs[i].version != v.version
    ensures VersionsOk(vs + [v], pluginId, bound + 1)
  {
    assert forall i :: 0 <= i < |vs| ==> vs[i] in vs;
  }

  lemma AddedOk(vs: seq<PluginVersion>, v: PluginVersion, pluginId: int, bound: int)
    requires VersionsOk(vs, pluginId, bound) && v.id == bound && 1 <= bound && v.pluginId == pluginId
    requires forall i :: 0 <= i < |vs| ==> vs[i].version != v.version
    ensures VersionsOk(Sort(ByAddition(), vs + [v]), pluginId, bound + 1)
    ensures forall w :: w in Sort(ByAddition(), vs + [v]) <==> w in vs || w == v
  {
    AppendOk(vs, v, pluginId, bound);
    SortTellsApart(ByAddition(), vs + [v]);
    SortMembers(ByAddition(), vs + [v]);
  }

  /** A published version gets an id never used before, and keeps every identity. */
  lemma AddVersionKeepsIdentities(s: Store, version: PluginVersion, now: int, fault: Fault)
    requires Identified(s)
    ensures var (s', r) := VersionAdded(s, version, now, fault);
      KeepsIdentities(s, s') && (r.Ok? ==> r.value == s.nextVersionId < s'.nextVersionId) &&
      (r.Err? ==> s'.plugins == s.plugins)
  {
    hide Identified, Inv, KeepsIdentities, SortVersions, Sort, VersionsOk;
    var (s', r) := VersionAdded(s, version, now, fault);
    var id := version.pluginId;
    if r.Ok? {
      StoredUnderItsId(s, id);
      RefreshedParts(s.plugins[id]);
      hide Refreshed;
      var p := Refreshed(s.plugins[id]);
      var v := version.(id := s.nextVersionId, createdAt := now);
      if Inv(s) {
        ReadVersionsOk(s, id);
        AddedOk(p.versions, v, id, s.nextVersionId);
      }
      SaveKeepsIdentities(s, id, s'.plugins[id].versions, s'.plugins[id], s.nextVersionId + 1);
    } else {
      CountersOnly(s, s'.nextVersionId);
    }
  }

  lemma ReadVersionsOk(s: Store, id: int)
    requires Inv(s) && id in s.plugins
    ensures var p := Refreshed(s.plugins[id]);
      s.plugins[id].id == id && 1 <= s.nextVersionId && VersionsOk(p.versions, id, s.nextVersionId) &&
      forall v :: v in p.versions <==> v in s.plugins[id].versions
  {
    hide Refreshed;
    RefreshedVersions(s.plugins[id], s.nextVersionId);
  }

  lemma CountersOnly(s: Store, nextVersionId: int)
    requires Identified(s) && s.nextVersionId <= nextVersionId
    ensures KeepsIdentities(s, s.(nextVersionId := nextVersionId))
  {
  }

  // ----- what is read back --------------------------------------------------------------------------------

  /** A read changes nothing but the order of the versions and the advertised fields. */
  lemma RefreshedParts(p: Plugin)
    ensures var r := Refreshed(p);
      r == p.(versions := SortVersions(p.versions), latestVersion := r.latestVersion,
              latestSemrelCore := r.latestSemrelCore)
  {
  }

  /** The advertised fields are a function of the sorted versions, so stale stored ones do not matter. */
  lemma RefreshedByVersions(p: Plugin, q: Plugin)
    requires SortVersions(p.versions) == SortVersions(q.versions)
    requires p == q.(versions := p.versions, latestVersion := p.latestVersion, latestSemrelCore := p.latestSemrelCore)
    ensures Refreshed(p) == Refreshed(q)
  {
  }

  // ----- sorting does not look at marks ---------------------------------------------------------------------

  /** What the release order looks at. */
  predicate SamePlace(v: PluginVersion, w: PluginVersion) {
    v.version == w.version && v.releaseDate == w.releaseDate && v.createdAt == w.createdAt
  }

  function Swap(x: PluginVersion, v: PluginVersion, w: PluginVersion): PluginVersion {
    if x == v then w else x
  }

  function SwapAll(vs: seq<PluginVersion>, v: PluginVersion, w: PluginVersion): (r: seq<PluginVersion>)
    ensures |r| == |vs|
    ensures forall i :: 0 <= i < |vs| ==> r[i] == Swap(vs[i], v, w)
  {
    seq(|vs|, i requires 0 <= i < |vs| => Swap(vs[i], v, w))
  }

  lemma {:induction false} InsertSwaps(s: seq<PluginVersion>, x: PluginVersion, v: PluginVersion, w: PluginVersion)
    requires SamePlace(v, w)
    ensures Insert(ByRelease(), SwapAll(s, v, w), Swap(x, v, w)) == SwapAll(Insert(ByRelease(), s, x), v, w)
  {
    hide Precedes, Insert, Swap;
    var t := SwapAll(s, v, w);
    InsertStep(ByRelease(), s, x);
    InsertStep(ByRelease(), t, Swap(x, v, w));
    if s != [] {
      SwapKeepsPlace(x, s[|s| - 1], v, w);
      if Precedes(x, s[|s| - 1]) {
        InsertSwaps(s[..|s| - 1], x, v, w);
        assert t[..|s| - 1] == SwapAll(s[..|s| - 1], v, w);
      }
    }
  }

  lemma SwapKeepsPlace(x: PluginVersion, y: PluginVersion, v: PluginVersion, w: PluginVersion)
    requires SamePlace(v, w)
    ensures Precedes(Swap(x, v, w), Swap(y, v, w)) == Precedes(x, y)
  {
  }

  lemma {:induction false} SortSwaps(s: seq<PluginVersion>, v: PluginVersion, w: PluginVersion)
    requires SamePlace(v, w)
    ensures SortVersions(SwapAll(s, v, w)) == SwapAll(SortVersions(s), v, w)
  {
    hide Insert;
    if s != [] {
      SortSwaps(s[..|s| - 1], v, w);
      InsertSwaps(SortVersions(s[..|s| - 1]), s[|s| - 1], v, w);
      assert SwapAll(s, v, w)[..|s| - 1] == SwapAll(s[..|s| - 1], v, w);
    }
  }

  /** Replacing the one occurrence of a version. */
  lemma SwapOne(vs: seq<PluginVersion>, i: nat, w: PluginVersion)
    requires TellApart(vs) && i < |vs|
    ensures SwapAll(vs, vs[i], w) == vs[i := w]
  {
  }

  lemma LiveIndexIs(vs: seq<PluginVersion>, i: nat, versionId: int)
    requires TellApart(vs) && i < |vs| && vs[i].id == versionId && vs[i].deletedAt.None?
    ensures LiveVersionIndex(vs, versionId) == i
  {
    hide LiveVersionIndex;
  }

  predicate Unmarked(v: PluginVersion) {
    v.yankedAt == None && v.yankedBy == "" && v.yankedReason == ""
  }

  lemma SwappedTwice(vs: seq<PluginVersion>, v: PluginVersion, w: PluginVersion, i: nat)
    requires TellApart(vs) && v in vs && v.id == w.id && i < |vs| && SwapAll(vs, v, w)[i].id == v.id
    ensures SwapAll(vs, v, w)[i] == w && SwapAll(vs, v, w)[i := v] == vs && vs[i] == v
  {
    var k :| 0 <= k < |vs| && vs[k] == v;
    assert vs[i].id == v.id;
  }

  /** The read after marking shows the same order with the mark on one version, and finds it there. */
  lemma ReadAfterMark(vs: seq<PluginVersion>, i: nat, w: PluginVersion, versionId: int)
    requires TellApart(vs) && i < |vs| && SamePlace(vs[i], w) && w.id == vs[i].id == versionId
    requires vs[i].deletedAt.None? && w.deletedAt.None?
    ensures var rs := SortVersions(vs[i := w]);
      var j := LiveVersionIndex(rs, versionId);
      j < |rs| && rs[j] == w && rs[j := vs[i]] == SortVersions(vs)
  {
    hide SortVersions, LiveVersionIndex;
    var v, ss := vs[i], SortVersions(vs);
    SwapOne(vs, i, w);
    SortSwaps(vs, v, w);
    SortTellsApart(ByRelease(), vs);
    SameAsSort(vs);
    assert v in vs;
    var rs := SwapAll(ss, v, w);
    var k :| 0 <= k < |ss| && ss[k] == v;
    SwappedTwice(ss, v, w, k);
    LiveIndexIs(rs, k, versionId);
  }

  lemma SameAsSort(vs: seq<PluginVersion>)
    ensures SortVersions(vs) == Sort(ByRelease(), vs) && forall v :: v in SortVersions(vs) <==> v in vs
  {
    SortMembers(ByRelease(), vs);
  }

  /** Yanking a version that bears no yank and lifting the yank restores everything that is read back, the
      advertised version and the order of shared dates included. */
  lemma YankAndLiftRestores(s: Store, spec: Yank, t1: int, t2: int)
    requires Inv(s) && IsLive(s, spec.pluginId) && spec.yanked
    requires forall v :: v in s.plugins[spec.pluginId].versions && v.id == spec.versionId ==> Unmarked(v)
    requires YankSet(s, spec, t1, NoFault).1.Ok?
    ensures var s1 := YankSet(s, spec, t1, NoFault).0;
      var s2 := YankSet(s1, spec.(yanked := false), t2, NoFault).0;
      s2.plugins.Keys == s.plugins.Keys && Refreshed(s2.plugins[spec.pluginId]) == Refreshed(s.plugins[spec.pluginId])
  {
    hide Inv, SortVersions, TellApart, LiveVersionIndex;
    var id, lift := spec.pluginId, spec.(yanked := false);
    var stored := s.plugins[id];
    ReadVersionsOk(s, id);
    RefreshedParts(stored);
    var p := Refreshed(stored);
    var i := LiveVersionIndex(p.versions, spec.versionId);
    var v := p.versions[i];
    assert v in p.versions && Unmarked(v);
    var w := Yanked(v, spec, t1);
    var s1 := YankSet(s, spec, t1, NoFault).0;
    RefreshedParts(s1.plugins[id]);
    ReadAfterMark(p.versions, i, w, spec.versionId);
    var s2 := YankSet(s1, lift, t2, NoFault).0;
    hide Refreshed;
    assert Yanked(w, lift, t2) == v;
    assert s2.plugins[id].versions == SortVersions(p.versions);
    StoredTellApart(s, id);
    ThreeSortsAreOne(stored.versions);
    RefreshedByVersions(s2.plugins[id], stored);
  }

  lemma StoredTellApart(s: Store, id: int)
    requires Inv(s) && id in s.plugins
    ensures TellApart(s.plugins[id].versions) && DistinctNames(s.plugins[id].versions)
  {
  }
}
