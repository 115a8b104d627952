/** A catalogue import keeps the store's invariant, loses no version, hands out fresh ids and touches only
    catalogued records. */
module SeedInvariant {
  import opened Text
  import opened Sorting
  import opened Models
  import opened Releases
  import opened Ownership
  import opened FileStore
  import opened StoreInvariant
  import opened SeedImport
  import opened SeedProperties

  // ----- growth of the whole store ------------------------------------------------------------------

  ghost predicate SurvivesIn(v: PluginVersion, ws: seq<PluginVersion>) {
    exists w :: w in ws && Survives(v, w)
  }

  ghost predicate ComesFrom(w: PluginVersion, vs: seq<PluginVersion>) {
    exists v :: v in vs && Survives(v, w)
  }

  /** Every version survives, and every other one has an id that was free before. */
  ghost predicate KeepsVersions(vs: seq<PluginVersion>, ws: seq<PluginVersion>, nextVersionId: int) {
    && (forall v :: v in vs ==> SurvivesIn(v, ws))
    && (forall w :: w in ws ==> w.id >= nextVersionId || ComesFrom(w, vs))
  }

  /** The record's own history stays. */
  predicate RecordSurvives(p: Plugin, q: Plugin) {
    && q.id == p.id && q.views == p.views && q.downloads == p.downloads
    && q.createdAt == p.createdAt && q.deletedAt == p.deletedAt
  }

  ghost predicate RecordEvolves(p: Plugin, q: Plugin, nextVersionId: int) {
    RecordSurvives(p, q) && KeepsVersions(p.versions, q.versions, nextVersionId)
  }

  ghost predicate Evolves(s: Store, t: Store) {
    && s.nextPluginId <= t.nextPluginId && s.nextVersionId <= t.nextVersionId
    && (forall id :: id in s.plugins ==>
          id in t.plugins && RecordEvolves(s.plugins[id], t.plugins[id], s.nextVersionId))
    && (forall id :: id in t.plugins && id !in s.plugins ==>
          id >= s.nextPluginId && KeepsVersions([], t.plugins[id].versions, s.nextVersionId))
  }

  lemma KeepsAll(vs: seq<PluginVersion>, ws: seq<PluginVersion>, nextVersionId: int)
    requires forall v :: v in vs <==> v in ws
    ensures KeepsVersions(vs, ws, nextVersionId)
  {
    assert forall v: PluginVersion :: Survives(v, v);
  }

  lemma KeepsMore(us: seq<PluginVersion>, vs: seq<PluginVersion>, ws: seq<PluginVersion>, m: int, n: int)
    requires KeepsVersions(us, vs, m) && KeepsVersions(vs, ws, n) && m <= n
    ensures KeepsVersions(us, ws, m)
  {
  }

  lemma EvolvesOnward(s: Store, t: Store, u: Store)
    requires Evolves(s, t) && Evolves(t, u)
    ensures Evolves(s, u)
  {
    hide KeepsVersions;
    forall id | id in s.plugins
      ensures KeepsVersions(s.plugins[id].versions, u.plugins[id].versions, s.nextVersionId)
    {
      KeepsMore(s.plugins[id].versions, t.plugins[id].versions, u.plugins[id].versions, s.nextVersionId,
                t.nextVersionId);
    }
    forall id | id in u.plugins && id !in s.plugins
      ensures id >= s.nextPluginId && KeepsVersions([], u.plugins[id].versions, s.nextVersionId)
    {
      var before := if id in t.plugins then t.plugins[id].versions else [];
      if id !in t.plugins {
        KeepsAll([], [], s.nextVersionId);
      }
      KeepsMore([], before, u.plugins[id].versions, s.nextVersionId, t.nextVersionId);
    }
  }

  // ----- the loaded copy ---------------------------------------------------------------------------------

  function RefreshedAll(plugins: Plugins): Plugins {
    map id | id in plugins :: Refreshed(plugins[id])
  }

  lemma {:induction false} PluginCounterStays(all: seq<Plugin>, next: int)
    requires forall p :: p in all ==> p.id < next
    ensures NextPluginIdAfter(all, next) == next
  {
    if all != [] {
      assert forall p :: p in all[..|all| - 1] ==> p in all;
      PluginCounterStays(all[..|all| - 1], next);
      assert all[|all| - 1] in all;
    }
  }

  lemma {:induction false} NoneAfterVersions(vs: seq<PluginVersion>, next: int)
    requires forall v :: v in vs ==> v.id < next
    ensures NextAfterVersions(vs, next) == next
  {
    if vs != [] {
      assert forall v :: v in vs[..|vs| - 1] ==> v in vs;
      NoneAfterVersions(vs[..|vs| - 1], next);
      assert vs[|vs| - 1] in vs;
    }
  }

  lemma {:induction false} VersionCounterStays(all: seq<Plugin>, next: int)
    requires forall p, v :: p in all && v in p.versions ==> v.id < next
    ensures NextVersionIdAfter(all, next) == next
  {
    if all != [] {
      assert forall p :: p in all[..|all| - 1] ==> p in all;
      VersionCounterStays(all[..|all| - 1], next);
      assert all[|all| - 1] in all;
      NoneAfterVersions(all[|all| - 1].versions, next);
    }
  }

  lemma RefreshedAllIds(s: Store, nextVersionId: int)
    requires Identified(s) && s.nextVersionId <= nextVersionId
    ensures Identified(Store(RefreshedAll(s.plugins), s.nextPluginId, nextVersionId))
    ensures Owners(RefreshedAll(s.plugins)) == Owners(s.plugins)
  {
    hide Refreshed, Keys, Owners, UniqueIdentities;
    var m := RefreshedAll(s.plugins);
    forall id | id in m
      ensures m[id].id == id && Keys(m[id]) == Keys(s.plugins[id]) && m[id].Live() == s.plugins[id].Live()
    {
      RefreshedIdentity(s.plugins[id]);
    }
    SameIdentities(s.plugins, m);
  }

  lemma RefreshedAllInv(s: Store)
    requires Inv(s)
    ensures Inv(s.(plugins := RefreshedAll(s.plugins))) && Owners(RefreshedAll(s.plugins)) == Owners(s.plugins)
    ensures Evolves(s, s.(plugins := RefreshedAll(s.plugins)))
  {
    hide Refreshed, Keys, TellApart, Owners, UniqueIdentities;
    var m := RefreshedAll(s.plugins);
    forall id | id in m
      ensures m[id].id == id && VersionsOk(m[id].versions, id, s.nextVersionId)
      ensures RecordSurvives(s.plugins[id], m[id])
      ensures forall v :: v in m[id].versions <==> v in s.plugins[id].versions
      ensures KeepsVersions(s.plugins[id].versions, m[id].versions, s.nextVersionId)
    {
      RefreshedVersions(s.plugins[id], s.nextVersionId);
      RefreshedIdentity(s.plugins[id]);
      RefreshedParts(s.plugins[id]);
      KeepsAll(s.plugins[id].versions, m[id].versions, s.nextVersionId);
    }
    hide KeepsVersions, VersionsOk;
    RefreshedAllIds(s, s.nextVersionId);
  }

  /** Maps whose records have the same references and deletion state have the same claim map. */
  lemma SameIdentities(m: Plugins, n: Plugins)
    requires UniqueIdentities(m) && m.Keys == n.Keys
    requires forall id :: id in m ==> Keys(n[id]) == Keys(m[id]) && n[id].Live() == m[id].Live()
    ensures UniqueIdentities(n) && Owners(n) == Owners(m)
  {
    hide Keys, Owners;
    assert UniqueIdentities(n);
    hide UniqueIdentities;
    forall key, id
      ensures Owns(n, key, id) <==> key in Owners(m) && Owners(m)[key] == id
    {
      OwnersAreOwns(m, key, id);
    }
    OwnersDetermined(n, Owners(m));
  }

  lemma LoadedIds(s: Store, order: seq<int>)
    requires Identified(s) && IsListing(order, s.plugins)
    ensures var all := Loaded(s.plugins, order);
      forall i :: 0 <= i < |order| ==> all[i].id == order[i] && all[i].id < s.nextPluginId
  {
    hide UniqueIdentities, Refreshed;
    forall i | 0 <= i < |order|
      ensures Refreshed(s.plugins[order[i]]).id == order[i] && order[i] < s.nextPluginId
    {
      var id := order[i];
      assert s.plugins[id].id == id && id < s.nextPluginId;
      RefreshedIdentity(s.plugins[id]);
    }
  }

  lemma LoadedOk(s: Store, order: seq<int>)
    requires Inv(s) && IsListing(order, s.plugins)
    ensures var all := Loaded(s.plugins, order);
      forall i :: 0 <= i < |order| ==>
        all[i].id == order[i] && all[i].id < s.nextPluginId && VersionsOk(all[i].versions, order[i], s.nextVersionId)
  {
    hide UniqueIdentities, VersionIdsGlobal, TellApart, Refreshed;
    forall i | 0 <= i < |order|
      ensures var p := Refreshed(s.plugins[order[i]]);
        p.id == order[i] && p.id < s.nextPluginId && VersionsOk(p.versions, order[i], s.nextVersionId)
    {
      var id := order[i];
      assert s.plugins[id].id == id && id < s.nextPluginId;
      RefreshedVersions(s.plugins[id], s.nextVersionId);
      RefreshedIdentity(s.plugins[id]);
    }
  }

  lemma CountersStay(s: Store, order: seq<int>)
    requires Inv(s) && IsListing(order, s.plugins)
    ensures Start(s, order) == Working(Loaded(s.plugins, order), s.nextPluginId, s.nextVersionId)
  {
    hide Loaded, Inv;
    var all := Loaded(s.plugins, order);
    LoadedOk(s, order);
    forall i | 0 <= i < |all|
      ensures all[i].id < s.nextPluginId && forall v :: v in all[i].versions ==> v.id < s.nextVersionId
    {
    }
    hide VersionsOk;
    PluginCounterStays(all, s.nextPluginId);
    VersionCounterStays(all, s.nextVersionId);
  }

  lemma LoadedFiles(s: Store, order: seq<int>)
    requires Identified(s) && IsListing(order, s.plugins)
    ensures IdsApart(Loaded(s.plugins, order)) && ById(Loaded(s.plugins, order)) == RefreshedAll(s.plugins)
  {
    hide Identified, Refreshed, ById;
    var all, m := Loaded(s.plugins, order), RefreshedAll(s.plugins);
    LoadedIds(s, order);
    forall id | id in m
      ensures exists i :: 0 <= i < |all| && all[i].id == id
    {
      assert id in order;
      var i :| 0 <= i < |order| && order[i] == id;
      assert all[i].id == id;
    }
    FilesOnce(m, all);
  }

  /** The import starts from the stored records as a read shows them, with the stored counters. */
  lemma StartInv(s: Store, order: seq<int>)
    requires Inv(s) && IsListing(order, s.plugins)
    ensures WorkingInv(Start(s, order)) && AsStore(Start(s, order)) == s.(plugins := RefreshedAll(s.plugins))
  {
    hide Loaded, Inv, RefreshedAll, ById, Start;
    InvIdentifies(s);
    CountersStay(s, order);
    LoadedFiles(s, order);
    RefreshedAllInv(s);
  }

  // ----- one catalogue entry -------------------------------------------------------------------------------

  lemma BaseIsFiled(w: Working, seed: SeedPlugin, now: int)
    requires WorkingIds(w)
    ensures var b := Base(w, seed, now); var known := MatchIndex(w.all, seed) < |w.all|;
      1 <= b.id && (WorkingInv(w) ==> VersionsOk(b.versions, b.id, w.nextVersionId)) &&
      (known ==> b.id < w.nextPluginId && b.id in ById(w.all) && ById(w.all)[b.id] == b) &&
      (!known ==> b.id == w.nextPluginId && b.id !in ById(w.all) && b.versions == [] && b.Live())
  {
    hide UniqueIdentities, VersionIdsGlobal, MatchIndex, ById;
    ByIdFiles(w.all);
  }

  lemma GrownKeeps(r: Roster, t: Roster, ws: seq<PluginVersion>)
    requires RosterGrows(r, t) && forall w :: w in ws <==> w in t.versions
    ensures KeepsVersions(r.versions, ws, r.nextVersionId)
  {
  }

  lemma SeededIsOk(c: Plugin, seed: SeedPlugin, nextVersionId: int, now: int)
    requires 1 <= nextVersionId && VersionsOk(c.versions, c.id, nextVersionId)
    ensures var r := SeededVersions(c, seed, nextVersionId, now); var p := SeededPlugin(c, r.versions);
      nextVersionId <= r.nextVersionId && VersionsOk(p.versions, c.id, r.nextVersionId) &&
      KeepsVersions(c.versions, p.versions, nextVersionId) &&
      RecordSurvives(c, p) && Keys(p) == Keys(c) && (forall v :: v in p.versions <==> v in r.versions)
  {
    hide SortVersions, Refreshed, Keys, TellApart, Upserted, KeepsVersions;
    var r := SeededVersions(c, seed, nextVersionId, now);
    UpsertedGrows(Roster(c.versions, nextVersionId), seed.versions, c.id, now);
    var d := c.(versions := SortVersions(r.versions));
    SortedOk(r.versions, c.id, r.nextVersionId);
    RefreshedVersions(d, r.nextVersionId);
    RefreshedIdentity(d);
    RefreshedParts(d);
    KeysByIdentity(d, c);
    GrownKeeps(Roster(c.versions, nextVersionId), r, Refreshed(d).versions);
  }

  lemma SortedOk(vs: seq<PluginVersion>, pluginId: int, bound: int)
    requires VersionsOk(vs, pluginId, bound)
    ensures VersionsOk(SortVersions(vs), pluginId, bound) && forall v :: v in SortVersions(vs) <==> v in vs
  {
    SortTellsApart(ByRelease(), vs);
    SortMembers(ByRelease(), vs);
  }

  /** A catalogue entry replaces or adds one record. */
  lemma AppliedFiles(w: Working, seed: SeedPlugin, now: int)
    requires WorkingIds(w) && Applied(w, seed, now).Ok?
    ensures var w' := Applied(w, seed, now).value; var c := WithSeed(Base(w, seed, now), seed);
      var p := SeededPlugin(c, SeededVersions(c, seed, w.nextVersionId, now).versions);
      IdsApart(w'.all) && ById(w'.all) == ById(w.all)[c.id := p]
  {
    hide UniqueIdentities, VersionIdsGlobal, MatchIndex, ById, VersionsOk, Refreshed, Keys, FreeInList, Upserted;
    BaseIsFiled(w, seed, now);
    var c := WithSeed(Base(w, seed, now), seed);
    var p := SeededPlugin(c, SeededVersions(c, seed, w.nextVersionId, now).versions);
    SeededId(c, SeededVersions(c, seed, w.nextVersionId, now).versions);
    var i := MatchIndex(w.all, seed);
    if i < |w.all| {
      ByIdReplace(w.all, i, p);
    } else {
      ByIdAppend(w.all, p);
    }
  }

  lemma SeededId(c: Plugin, vs: seq<PluginVersion>)
    ensures SeededPlugin(c, vs).id == c.id
  {
    RefreshedIdentity(c.(versions := SortVersions(vs)));
  }

  /** One catalogue entry keeps the invariant and lets the store grow. */
  lemma AppliedKeepsInv(w: Working, seed: SeedPlugin, now: int)
    requires WorkingInv(w) && Applied(w, seed, now).Ok?
    ensures var w' := Applied(w, seed, now).value; WorkingInv(w') && Evolves(AsStore(w), AsStore(w'))
  {
    hide UniqueIdentities, VersionIdsGlobal, ById, VersionsOk, Refreshed, Keys, Upserted, KeepsVersions, Free, Distinct;
    var s, w' := AsStore(w), Applied(w, seed, now).value;
    BaseIsFiled(w, seed, now);
    var b := Base(w, seed, now);
    var c := WithSeed(b, seed);
    var r := SeededVersions(c, seed, w.nextVersionId, now);
    var p := SeededPlugin(c, r.versions);
    SeededIsOk(c, seed, w.nextVersionId, now);
    AppliedFiles(w, seed, now);
    FreeInListIsFree(w.all, Keys(c), c.id);
    hide FreeInList, MatchIndex;
    if p.Live() {
      StoreLive(s.plugins, p.id, p);
    } else {
      StoreDeleted(s.plugins, p.id, p);
    }
    KeptAreOwn(s, p.id, c.versions, p.versions);
    ReplaceKeepsInv(s, p.id, p, w'.nextPluginId, w'.nextVersionId);
    ReplaceEvolves(s, p, w'.nextPluginId, w'.nextVersionId);
  }

  lemma KeptAreOwn(s: Store, id: int, vs: seq<PluginVersion>, ws: seq<PluginVersion>)
    requires KeepsVersions(vs, ws, s.nextVersionId) && (vs == [] || (id in s.plugins && vs == s.plugins[id].versions))
    ensures OwnOrNew(s, id, ws)
  {
    hide SurvivesIn;
  }

  lemma ReplaceEvolves(s: Store, p: Plugin, nextPluginId: int, nextVersionId: int)
    requires s.nextPluginId <= nextPluginId && s.nextVersionId <= nextVersionId
    requires if p.id in s.plugins
      then RecordSurvives(s.plugins[p.id], p) && KeepsVersions(s.plugins[p.id].versions, p.versions, s.nextVersionId)
      else p.id >= s.nextPluginId && KeepsVersions([], p.versions, s.nextVersionId)
    ensures Evolves(s, Store(s.plugins[p.id := p], nextPluginId, nextVersionId))
  {
    hide KeepsVersions;
    forall id | id in s.plugins
      ensures KeepsVersions(s.plugins[id].versions, s.plugins[id].versions, s.nextVersionId)
    {
      KeepsAll(s.plugins[id].versions, s.plugins[id].versions, s.nextVersionId);
    }
  }

  // ----- the whole catalogue ---------------------------------------------------------------------------------

  lemma EvolvesNothing(s: Store)
    ensures Evolves(s, s)
  {
    forall id | id in s.plugins
      ensures KeepsVersions(s.plugins[id].versions, s.plugins[id].versions, s.nextVersionId)
    {
      KeepsAll(s.plugins[id].versions, s.plugins[id].versions, s.nextVersionId);
    }
  }

  lemma {:induction false} AllKeepInv(w: Working, seeds: seq<SeedPlugin>, now: int)
    requires WorkingInv(w) && AppliedAll(w, seeds, now).Ok?
    ensures var w' := AppliedAll(w, seeds, now).value; WorkingInv(w') && Evolves(AsStore(w), AsStore(w'))
    decreases |seeds|
  {
    hide WorkingInv, Evolves, AsStore, Applied;
    if seeds == [] {
      EvolvesNothing(AsStore(w));
    } else {
      AllKeepInv(w, seeds[..|seeds| - 1], now);
      var middle := AppliedAll(w, seeds[..|seeds| - 1], now).value;
      AppliedKeepsInv(middle, seeds[|seeds| - 1], now);
      EvolvesOnward(AsStore(w), AsStore(middle), AsStore(AppliedAll(w, seeds, now).value));
    }
  }

  /** A record that no entry matches stays as it is. */
  lemma {:induction false} UnmatchedStays(w: Working, seeds: seq<SeedPlugin>, now: int, id: int)
    requires WorkingInv(w) && AppliedAll(w, seeds, now).Ok? && id in ById(w.all)
    requires forall seed :: seed in seeds ==> !Matches(ById(w.all)[id], seed)
    ensures var after := ById(AppliedAll(w, seeds, now).value.all); id in after && after[id] == ById(w.all)[id]
    decreases |seeds|
  {
    hide Inv, Applied, ById, Matches, MatchIndex;
    if seeds != [] {
      var front, seed := seeds[..|seeds| - 1], seeds[|seeds| - 1];
      assert seed in seeds && forall x :: x in front ==> x in seeds;
      UnmatchedStays(w, front, now, id);
      AllKeepInv(w, front, now);
      var middle := AppliedAll(w, front, now).value;
      WorkingIdentifies(middle);
      BaseIsFiled(middle, seed, now);
      AppliedFiles(middle, seed, now);
    }
  }

  /** After any import, successful or not: the invariant holds, every version and every record's history is
      still there, new ids were never used before, the claim rule holds, and an error leaves the store unchanged. */
  lemma ImportKeepsInv(s: Store, order: seq<int>, seeds: seq<SeedPlugin>, now: int, installed: bool)
    requires Inv(s) && IsListing(order, s.plugins)
    ensures var (t, r) := Imported(s, order, seeds, now, installed);
      Inv(t) && Evolves(s, t) && (r.Err? ==> t == s)
  {
    hide UniqueIdentities, VersionIdsGlobal, Evolves, Start, AppliedAll, ById, RefreshedAll;
    var (t, r) := Imported(s, order, seeds, now, installed);
    StartInv(s, order);
    RefreshedAllInv(s);
    if r.Ok? {
      AllKeepInv(Start(s, order), seeds, now);
      EvolvesOnward(s, AsStore(Start(s, order)), t);
    } else {
      EvolvesNothing(s);
    }
  }

  /** A record whose namespace and name no entry has is left as it was, community plugins included. */
  lemma UncataloguedUntouched(s: Store, order: seq<int>, seeds: seq<SeedPlugin>, now: int, id: int)
    requires Inv(s) && IsListing(order, s.plugins) && Imported(s, order, seeds, now, true).1.Ok? && id in s.plugins
    requires forall seed :: seed in seeds ==> !Matches(s.plugins[id], seed)
    ensures var t := Imported(s, order, seeds, now, true).0;
      id in t.plugins && t.plugins[id] == Refreshed(s.plugins[id])
  {
    hide Inv, Start, AppliedAll, ById, EqualFold, SortVersions;
    StartInv(s, order);
    RefreshedParts(s.plugins[id]);
    hide Refreshed;
    UnmatchedStays(Start(s, order), seeds, now, id);
  }

  // ----- the import where drafts brought versions of their own --------------------------------------------

  ghost predicate WorkingIds(w: Working) {
    IdsApart(w.all) && Identified(AsStore(w))
  }

  lemma WorkingIdentifies(w: Working)
    requires WorkingInv(w)
    ensures WorkingIds(w)
  {
  }

  lemma {:induction false} VersionCounterMoves(vs: seq<PluginVersion>, next: int)
    ensures next <= NextAfterVersions(vs, next)
  {
    if vs != [] {
      VersionCounterMoves(vs[..|vs| - 1], next);
    }
  }

  lemma {:induction false} VersionCountersMove(all: seq<Plugin>, next: int)
    ensures next <= NextVersionIdAfter(all, next)
  {
    if all != [] {
      VersionCountersMove(all[..|all| - 1], next);
      VersionCounterMoves(all[|all| - 1].versions, NextVersionIdAfter(all[..|all| - 1], next));
    }
  }

  lemma {:induction false} UpsertedCounts(r: Roster, svs: seq<SeedVersion>, pluginId: int, now: int)
    ensures r.nextVersionId <= Upserted(r, svs, pluginId, now).nextVersionId
  {
    if svs != [] {
      UpsertedCounts(r, svs[..|svs| - 1], pluginId, now);
    }
  }

  lemma StartIds(s: Store, order: seq<int>)
    requires Identified(s) && IsListing(order, s.plugins)
    ensures WorkingIds(Start(s, order)) && ById(Start(s, order).all) == RefreshedAll(s.plugins)
  {
    hide Loaded, Identified, RefreshedAll, ById;
    var all := Loaded(s.plugins, order);
    LoadedFiles(s, order);
    LoadedIds(s, order);
    PluginCounterStays(all, s.nextPluginId);
    VersionCountersMove(all, s.nextVersionId);
    RefreshedAllIds(s, NextVersionIdAfter(all, s.nextVersionId));
  }

  lemma AppliedKeepsIds(w: Working, seed: SeedPlugin, now: int)
    requires WorkingIds(w) && Applied(w, seed, now).Ok?
    ensures WorkingIds(Applied(w, seed, now).value)
  {
    hide UniqueIdentities, ById, Refreshed, Keys, Upserted, Free, Distinct;
    var s, w' := AsStore(w), Applied(w, seed, now).value;
    BaseIsFiled(w, seed, now);
    var c := WithSeed(Base(w, seed, now), seed);
    var r := SeededVersions(c, seed, w.nextVersionId, now);
    var p := SeededPlugin(c, r.versions);
    UpsertedCounts(Roster(c.versions, w.nextVersionId), seed.versions, c.id, now);
    SeededIdentity(c, r.versions);
    AppliedFiles(w, seed, now);
    FreeInListIsFree(w.all, Keys(c), c.id);
    hide FreeInList, MatchIndex, SeededPlugin;
    if p.Live() {
      StoreLive(s.plugins, p.id, p);
    } else {
      StoreDeleted(s.plugins, p.id, p);
    }
    ReplaceIdentified(s, p.id, p, w'.nextPluginId, w'.nextVersionId);
  }

  lemma SeededIdentity(c: Plugin, vs: seq<PluginVersion>)
    ensures var p := SeededPlugin(c, vs); p.id == c.id && Keys(p) == Keys(c) && p.Live() == c.Live()
  {
    hide Refreshed, Keys;
    var d := c.(versions := SortVersions(vs));
    RefreshedIdentity(d);
    KeysByIdentity(d, c);
  }

  lemma {:induction false} AllKeepIds(w: Working, seeds: seq<SeedPlugin>, now: int)
    requires WorkingIds(w) && AppliedAll(w, seeds, now).Ok?
    ensures WorkingIds(AppliedAll(w, seeds, now).value)
    decreases |seeds|
  {
    hide WorkingIds, Applied;
    if seeds != [] {
      AllKeepIds(w, seeds[..|seeds| - 1], now);
      AppliedKeepsIds(AppliedAll(w, seeds[..|seeds| - 1], now).value, seeds[|seeds| - 1], now);
    }
  }

  /** The identity rule survives an import even where drafts brought versions, whose ids nobody checks. */
  lemma ImportKeepsIds(s: Store, order: seq<int>, seeds: seq<SeedPlugin>, now: int, installed: bool)
    requires Identified(s) && IsListing(order, s.plugins)
    ensures var (t, r) := Imported(s, order, seeds, now, installed); Identified(t) && (r.Err? ==> t == s)
  {
    hide Identified, Start, AppliedAll, ById, RefreshedAll;
    var (t, r) := Imported(s, order, seeds, now, installed);
    StartIds(s, order);
    if r.Ok? {
      AllKeepIds(Start(s, order), seeds, now);
    }
  }
}
