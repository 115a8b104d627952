/** Whole runs of the file-backed store: any sequence of operations and catalogue imports, with any faults. */
module StoreRuns {
  import opened Sorting
  import opened Models
  import opened Releases
  import opened Identity
  import opened FileStore
  import opened StoreInvariant
  import opened SeedImport
  import opened SeedProperties
  import opened SeedInvariant

  datatype Op =
    | Create(draft: Plugin, now: int, fault: Fault)
    | Update(plugin: Plugin, fault: Fault)
    | Delete(deletion: PluginDeletion, now: int, fault: Fault)
    | AddVersion(version: PluginVersion, now: int, fault: Fault)
    | DeleteVersion(pluginId: int, versionId: int, now: int, fault: Fault)
    | SetYank(yank: Yank, now: int, fault: Fault)
    | IncrCounters(pluginId: int, versionId: int, views: int, downloads: int, fault: Fault)
    | Import(order: seq<int>, seeds: seq<SeedPlugin>, now: int, installed: bool)

  /** A directory is listed completely. */
  ghost predicate Allowed(s: Store, op: Op) {
    op.Import? ==> IsListing(op.order, s.plugins)
  }

  /** No draft is stored that brings versions. Nobody checks the ids of such versions. */
  ghost predicate Bare(s: Store, op: Op) {
    op.Create? ==> op.draft.versions == [] || Created(s, op.draft, op.now, op.fault).1.Err?
  }

  ghost function After(s: Store, op: Op): Store
    requires Allowed(s, op)
  {
    match op
    case Create(draft, now, fault) => Created(s, draft, now, fault).0
    case Update(plugin, fault) => Updated(s, plugin, fault).0
    case Delete(deletion, now, fault) => Deleted(s, deletion, now, fault).0
    case AddVersion(version, now, fault) => VersionAdded(s, version, now, fault).0
    case DeleteVersion(pluginId, versionId, now, fault) => VersionDeleted(s, pluginId, versionId, now, fault).0
    case SetYank(yank, now, fault) => YankSet(s, yank, now, fault).0
    case IncrCounters(pluginId, versionId, views, downloads, fault) =>
      CountersIncremented(s, pluginId, versionId, views, downloads, fault).0
    case Import(order, seeds, now, installed) => Imported(s, order, seeds, now, installed).0
  }

  ghost predicate Run(states: seq<Store>, ops: seq<Op>) {
    && |states| == |ops| + 1 && states[0] == EMPTY
    && forall i :: 0 <= i < |ops| ==> Allowed(states[i], ops[i]) && states[i + 1] == After(states[i], ops[i])
  }

  ghost predicate BareRun(states: seq<Store>, ops: seq<Op>) {
    |states| == |ops| + 1 && forall i :: 0 <= i < |ops| ==> Bare(states[i], ops[i])
  }

  // ----- what never goes back ---------------------------------------------------------------------------

  /** The version is still there under its id and version string, and deleted if it was. */
  ghost predicate LastsIn(v: PluginVersion, ws: seq<PluginVersion>) {
    exists w :: w in ws && Lasts(v, w)
  }

  predicate Lasts(v: PluginVersion, w: PluginVersion) {
    w.id == v.id && w.version == v.version && (v.deletedAt.Some? ==> w.deletedAt == v.deletedAt)
  }

  ghost predicate KnownIn(w: PluginVersion, vs: seq<PluginVersion>) {
    exists v :: v in vs && v.id == w.id
  }

  ghost predicate VersionsLast(vs: seq<PluginVersion>, ws: seq<PluginVersion>, nextVersionId: int) {
    && (forall v :: v in vs ==> LastsIn(v, ws))
    && (forall w :: w in ws ==> w.id >= nextVersionId || KnownIn(w, vs))
  }

  ghost predicate RecordAges(p: Plugin, q: Plugin, nextVersionId: int) {
    (!p.Live() ==> q.deletedAt == p.deletedAt) && VersionsLast(p.versions, q.versions, nextVersionId)
  }

  /** Counters never fall, records and versions never vanish, deletions last, and no id is ever handed out twice. */
  ghost predicate Ages(s: Store, t: Store) {
    && s.nextPluginId <= t.nextPluginId && s.nextVersionId <= t.nextVersionId
    && (forall id :: id in s.plugins ==> id in t.plugins && RecordAges(s.plugins[id], t.plugins[id], s.nextVersionId))
    && (forall id :: id in t.plugins && id !in s.plugins ==>
          id >= s.nextPluginId && VersionsLast([], t.plugins[id].versions, s.nextVersionId))
  }

  lemma VersionsLastOn(us: seq<PluginVersion>, vs: seq<PluginVersion>, ws: seq<PluginVersion>, m: int, n: int)
    requires VersionsLast(us, vs, m) && VersionsLast(vs, ws, n) && m <= n
    ensures VersionsLast(us, ws, m)
  {
  }

  lemma VersionsLastSame(vs: seq<PluginVersion>, ws: seq<PluginVersion>, nextVersionId: int)
    requires forall v :: v in vs <==> v in ws
    ensures VersionsLast(vs, ws, nextVersionId)
  {
    assert forall v: PluginVersion :: Lasts(v, v);
  }

  lemma AgesOn(s: Store, t: Store, u: Store)
    requires Ages(s, t) && Ages(t, u)
    ensures Ages(s, u)
  {
    hide VersionsLast;
    forall id | id in s.plugins
      ensures VersionsLast(s.plugins[id].versions, u.plugins[id].versions, s.nextVersionId)
    {
      VersionsLastOn(s.plugins[id].versions, t.plugins[id].versions, u.plugins[id].versions, s.nextVersionId,
                     t.nextVersionId);
    }
    forall id | id in u.plugins && id !in s.plugins
      ensures id >= s.nextPluginId && VersionsLast([], u.plugins[id].versions, s.nextVersionId)
    {
      var before := if id in t.plugins then t.plugins[id].versions else [];
      if id !in t.plugins {
        VersionsLastSame([], [], s.nextVersionId);
      }
      VersionsLastOn([], before, u.plugins[id].versions, s.nextVersionId, t.nextVersionId);
    }
  }

  lemma AgesNot(s: Store, nextPluginId: int, nextVersionId: int)
    requires s.nextPluginId <= nextPluginId && s.nextVersionId <= nextVersionId
    ensures Ages(s, Store(s.plugins, nextPluginId, nextVersionId))
  {
  }

  lemma ReplaceAges(s: Store, id: int, q: Plugin, nextPluginId: int, nextVersionId: int)
    requires s.nextPluginId <= nextPluginId && s.nextVersionId <= nextVersionId
    requires if id in s.plugins then RecordAges(s.plugins[id], q, s.nextVersionId)
      else id >= s.nextPluginId && VersionsLast([], q.versions, s.nextVersionId)
    ensures Ages(s, Store(s.plugins[id := q], nextPluginId, nextVersionId))
  {
  }

  /** Editing a read's versions in place. */
  lemma EditLasts(p: Plugin, ws: seq<PluginVersion>, nextVersionId: int)
    requires var rs := Refreshed(p).versions; |ws| == |rs| && forall i :: 0 <= i < |rs| ==> Lasts(rs[i], ws[i])
    ensures VersionsLast(p.versions, ws, nextVersionId)
  {
    hide Refreshed;
    var rs := Refreshed(p).versions;
    ReadMembers(p);
    forall v | v in p.versions
      ensures LastsIn(v, ws)
    {
      var i :| 0 <= i < |rs| && rs[i] == v;
      assert ws[i] in ws;
    }
    forall w | w in ws
      ensures KnownIn(w, p.versions)
    {
      var i :| 0 <= i < |ws| && ws[i] == w;
      assert rs[i] in rs;
    }
  }

  lemma ReadMembers(p: Plugin)
    ensures forall v :: v in Refreshed(p).versions <==> v in p.versions
  {
    SortMembers(ByRelease(), p.versions);
  }

  lemma AddedLasts(p: Plugin, v: PluginVersion, nextVersionId: int)
    requires v.id >= nextVersionId
    ensures VersionsLast(p.versions, Sort(ByAddition(), Refreshed(p).versions + [v]), nextVersionId)
  {
    hide Refreshed;
    ReadMembers(p);
    var all := Refreshed(p).versions + [v];
    SortMembers(ByAddition(), all);
    var sorted := Sort(ByAddition(), all);
    forall u | u in p.versions
      ensures LastsIn(u, sorted)
    {
      assert u in all && u in sorted && Lasts(u, u);
    }
    forall w | w in sorted && w != v
      ensures KnownIn(w, p.versions)
    {
      assert w in all && w in Refreshed(p).versions;
    }
  }

  // ----- each operation -------------------------------------------------------------------------------------

  lemma CreateAges(s: Store, draft: Plugin, now: int, fault: Fault)
    requires Identified(s) && (draft.versions == [] || Created(s, draft, now, fault).1.Err?)
    ensures Ages(s, Created(s, draft, now, fault).0)
  {
    hide MayClaim, Identified, VersionsLast, Normalized;
    var (t, r) := Created(s, draft, now, fault);
    var id := s.nextPluginId;
    NobodyIs(s, id);
    AgesNot(s, t.nextPluginId, s.nextVersionId);
    if r.Ok? {
      VersionsLastSame([], [], s.nextVersionId);
      ReplaceAges(s, id, t.plugins[id], id + 1, s.nextVersionId);
      assert t == Store(s.plugins[id := t.plugins[id]], id + 1, s.nextVersionId);
    } else {
      assert t == Store(s.plugins, t.nextPluginId, s.nextVersionId);
    }
  }

  /** A version that a stored draft brings is either beyond the counter or not new. */
  lemma BroughtVersionsSpoil(s: Store, draft: Plugin, now: int, fault: Fault)
    requires Identified(s) && draft.versions != [] && Created(s, draft, now, fault).1.Ok?
    ensures var t := Created(s, draft, now, fault).0; !(Inv(t) && Ages(s, t))
  {
    hide MayClaim, Identified, Normalized;
    var t := Created(s, draft, now, fault).0;
    var id, v := s.nextPluginId, draft.versions[0];
    NobodyIs(s, id);
    assert v in t.plugins[id].versions && !KnownIn(v, []);
  }

  lemma UpdateAges(s: Store, plugin: Plugin, fault: Fault)
    ensures Ages(s, Updated(s, plugin, fault).0)
  {
    hide MayClaim, Refreshed, VersionsLast, Normalized;
    var (t, r) := Updated(s, plugin, fault);
    AgesNot(s, s.nextPluginId, s.nextVersionId);
    if r.Ok? {
      var id := plugin.id;
      ReadMembers(s.plugins[id]);
      VersionsLastSame(s.plugins[id].versions, t.plugins[id].versions, s.nextVersionId);
      ReplaceAges(s, id, t.plugins[id], s.nextPluginId, s.nextVersionId);
    }
  }

  lemma DeleteAges(s: Store, deletion: PluginDeletion, now: int, fault: Fault)
    ensures Ages(s, Deleted(s, deletion, now, fault).0)
  {
    hide Refreshed, VersionsLast;
    var (t, r) := Deleted(s, deletion, now, fault);
    AgesNot(s, s.nextPluginId, s.nextVersionId);
    if r.Ok? {
      var id := deletion.pluginId;
      EditLasts(s.plugins[id], t.plugins[id].versions, s.nextVersionId);
      ReplaceAges(s, id, t.plugins[id], s.nextPluginId, s.nextVersionId);
    }
  }

  lemma VersionOpAges(s: Store, op: Op)
    requires op.AddVersion? || op.DeleteVersion? || op.SetYank? || op.IncrCounters?
    requires Allowed(s, op)
    ensures Ages(s, After(s, op))
  {
    hide Refreshed, VersionsLast, Sort, LiveVersionIndex, VersionIndex;
    var t := After(s, op);
    AgesNot(s, s.nextPluginId, s.nextVersionId);
    AgesNot(s, s.nextPluginId, s.nextVersionId + 1);
    if t.plugins != s.plugins {
      var id := if op.AddVersion? then op.version.pluginId else if op.SetYank? then op.yank.pluginId else op.pluginId;
      if op.AddVersion? {
        AddedLasts(s.plugins[id], op.version.(id := s.nextVersionId, createdAt := op.now), s.nextVersionId);
      } else {
        EditLasts(s.plugins[id], t.plugins[id].versions, s.nextVersionId);
      }
      ReplaceAges(s, id, t.plugins[id], s.nextPluginId, t.nextVersionId);
    }
  }

  lemma SurvivalLasts(vs: seq<PluginVersion>, ws: seq<PluginVersion>, nextVersionId: int)
    requires KeepsVersions(vs, ws, nextVersionId)
    ensures VersionsLast(vs, ws, nextVersionId)
  {
    forall v | v in vs
      ensures LastsIn(v, ws)
    {
      assert SurvivesIn(v, ws);
      var w :| w in ws && Survives(v, w);
      assert Lasts(v, w);
    }
    forall w | w in ws && w.id < nextVersionId
      ensures KnownIn(w, vs)
    {
      assert ComesFrom(w, vs);
    }
  }

  lemma EvolvingAges(s: Store, t: Store)
    requires Evolves(s, t)
    ensures Ages(s, t)
  {
    hide KeepsVersions, VersionsLast;
    forall id | id in t.plugins
      ensures VersionsLast(if id in s.plugins then s.plugins[id].versions else [], t.plugins[id].versions,
                           s.nextVersionId)
    {
      SurvivalLasts(if id in s.plugins then s.plugins[id].versions else [], t.plugins[id].versions, s.nextVersionId);
    }
  }

  lemma StepKeepsIdentities(s: Store, op: Op)
    requires Identified(s) && Allowed(s, op)
    ensures Identified(After(s, op))
  {
    hide Identified, Inv, Created, Updated, Deleted, VersionAdded, VersionDeleted, YankSet, CountersIncremented,
      Imported;
    match op
    case Create(draft, now, fault) => CreateClaims(s, draft, now, fault);
    case Update(plugin, fault) => UpdateClaims(s, plugin, fault);
    case Delete(deletion, now, fault) => DeleteReleases(s, deletion, now, fault);
    case AddVersion(version, now, fault) => AddVersionKeepsIdentities(s, version, now, fault);
    case DeleteVersion(pluginId, versionId, now, fault) =>
      VersionDeleteKeepsIdentities(s, pluginId, versionId, now, fault);
    case SetYank(yank, now, fault) => YankKeepsIdentities(s, yank, now, fault);
    case IncrCounters(pluginId, versionId, views, downloads, fault) =>
      CountersKeepIdentities(s, pluginId, versionId, views, downloads, fault);
    case Import(order, seeds, now, installed) => ImportKeepsIds(s, order, seeds, now, installed);
  }

  /** A step keeps the invariant and loses nothing if and only if it does not store a draft that brings versions. */
  lemma StepIsSafe(s: Store, op: Op)
    requires Inv(s) && Allowed(s, op)
    ensures Inv(After(s, op)) && Ages(s, After(s, op)) <==> Bare(s, op)
  {
    InvIdentifies(s);
    hide Identified, Inv, Ages, Created, Updated, Deleted, VersionAdded, VersionDeleted, YankSet,
      CountersIncremented, Imported;
    match op
    case Create(draft, now, fault) =>
      if Bare(s, op) {
        CreateClaims(s, draft, now, fault);
        CreateAges(s, draft, now, fault);
      } else {
        BroughtVersionsSpoil(s, draft, now, fault);
      }
    case Update(plugin, fault) => UpdateClaims(s, plugin, fault); UpdateAges(s, plugin, fault);
    case Delete(deletion, now, fault) => DeleteReleases(s, deletion, now, fault); DeleteAges(s, deletion, now, fault);
    case AddVersion(version, now, fault) => AddVersionKeepsIdentities(s, version, now, fault); VersionOpAges(s, op);
    case DeleteVersion(pluginId, versionId, now, fault) =>
      VersionDeleteKeepsIdentities(s, pluginId, versionId, now, fault);
      VersionOpAges(s, op);
    case SetYank(yank, now, fault) => YankKeepsIdentities(s, yank, now, fault); VersionOpAges(s, op);
    case IncrCounters(pluginId, versionId, views, downloads, fault) =>
      CountersKeepIdentities(s, pluginId, versionId, views, downloads, fault);
      VersionOpAges(s, op);
    case Import(order, seeds, now, installed) =>
      ImportKeepsInv(s, order, seeds, now, installed);
      EvolvingAges(s, After(s, op));
  }

  /** In every reachable state, after any faults and whatever the drafts bring: the folded references of live plugins
      are pairwise distinct, and records lie under their ids, below the counter. */
  lemma {:induction false} RunKeepsIdentities(states: seq<Store>, ops: seq<Op>, i: nat)
    requires Run(states, ops) && i <= |ops|
    ensures Identified(states[i])
  {
    hide Identified, After;
    if i == 0 {
      assert Identified(EMPTY) by { EmptyInv(); InvIdentifies(EMPTY); }
    } else {
      RunKeepsIdentities(states, ops, i - 1);
      StepKeepsIdentities(states[i - 1], ops[i - 1]);
    }
  }

  /** Where no draft is stored that brings versions, versions can moreover be told apart, and their ids are below
      their counter. */
  lemma {:induction false} RunKeepsInv(states: seq<Store>, ops: seq<Op>, i: nat)
    requires Run(states, ops) && BareRun(states, ops) && i <= |ops|
    ensures Inv(states[i])
  {
    hide Inv, After, Ages;
    if i == 0 {
      EmptyInv();
    } else {
      RunKeepsInv(states, ops, i - 1);
      StepIsSafe(states[i - 1], ops[i - 1]);
    }
  }

  /** From any point of a run to any later one: no record or version is lost, no deletion is undone, and every id
      that appears is one that was never handed out before. */
  lemma {:induction false} RunNeverGoesBack(states: seq<Store>, ops: seq<Op>, i: nat, j: nat)
    requires Run(states, ops) && BareRun(states, ops) && i <= j <= |ops|
    ensures Ages(states[i], states[j])
    decreases j
  {
    hide Inv, After, Ages;
    if i == j {
      AgesNot(states[i], states[i].nextPluginId, states[i].nextVersionId);
    } else {
      RunNeverGoesBack(states, ops, i, j - 1);
      RunKeepsInv(states, ops, j - 1);
      StepIsSafe(states[j - 1], ops[j - 1]);
      AgesOn(states[i], states[j - 1], states[j]);
    }
  }

  /** Exactly in those runs: a stored draft that brings versions breaks the invariant or reuses an id at once. */
  lemma RunIsSafeExactly(states: seq<Store>, ops: seq<Op>)
    requires Run(states, ops)
    ensures BareRun(states, ops) <==>
      (forall i :: 0 <= i <= |ops| ==> Inv(states[i])) && forall i :: 0 <= i < |ops| ==> Ages(states[i], states[i + 1])
  {
    hide Inv, Ages, After, Bare;
    if BareRun(states, ops) {
      forall i | 0 <= i <= |ops|
        ensures Inv(states[i])
      {
        RunKeepsInv(states, ops, i);
      }
      forall i | 0 <= i < |ops|
        ensures Ages(states[i], states[i + 1])
      {
        StepIsSafe(states[i], ops[i]);
      }
    } else {
      var i :| 0 <= i < |ops| && !Bare(states[i], ops[i]);
      if Inv(states[i]) {
        StepIsSafe(states[i], ops[i]);
        assert !Inv(states[i + 1]) || !Ages(states[i], states[i + 1]);
      }
    }
  }

  /** An id that a run hands out for a plugin or a version was not in use at any earlier point. */
  lemma IdsAreNeverReused(states: seq<Store>, ops: seq<Op>, i: nat, j: nat, id: int, v: PluginVersion)
    requires Run(states, ops) && BareRun(states, ops) && i <= j <= |ops|
    requires id in states[j].plugins && v in states[j].plugins[id].versions
    ensures id !in states[i].plugins ==> forall k :: 0 <= k <= i ==> id !in states[k].plugins
    ensures forall a, w :: a in states[i].plugins && w in states[i].plugins[a].versions && w.id == v.id ==>
      a == id && w.version == v.version
  {
    hide After, Ages;
    if id !in states[i].plugins {
      forall k | 0 <= k <= i
        ensures id !in states[k].plugins
      {
        RunNeverGoesBack(states, ops, k, i);
        RecordsStay(states[k], states[i], id);
      }
    }
    RunNeverGoesBack(states, ops, i, j);
    RunKeepsInv(states, ops, j);
    hide Inv;
    forall a, w | a in states[i].plugins && w in states[i].plugins[a].versions && w.id == v.id
      ensures a == id && w.version == v.version
    {
      SameVersion(states[i], states[j], a, w, id, v);
    }
  }

  lemma RecordsStay(s: Store, t: Store, id: int)
    requires Ages(s, t)
    ensures id in s.plugins ==> id in t.plugins
  {
  }

  lemma SameVersion(s: Store, t: Store, a: int, w: PluginVersion, id: int, v: PluginVersion)
    requires Ages(s, t) && Inv(t) && a in s.plugins && w in s.plugins[a].versions
    requires id in t.plugins && v in t.plugins[id].versions && v.id == w.id
    ensures a == id && w.version == v.version
  {
    hide Ages, Inv;
    StillThere(s, t, a, w);
    var x :| x in t.plugins[a].versions && Lasts(w, x);
    OnePlace(t, a, x, id, v);
  }

  lemma StillThere(s: Store, t: Store, a: int, w: PluginVersion)
    requires Ages(s, t) && a in s.plugins && w in s.plugins[a].versions
    ensures a in t.plugins && LastsIn(w, t.plugins[a].versions)
  {
  }

  lemma OnePlace(t: Store, a: int, x: PluginVersion, b: int, v: PluginVersion)
    requires Inv(t) && a in t.plugins && b in t.plugins && x in t.plugins[a].versions && v in t.plugins[b].versions
    requires x.id == v.id
    ensures a == b && x == v
  {
  }
}
