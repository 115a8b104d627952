/** What a catalogue import writes, field by field: applySeedPlugin of api/repository/file_repo.go against a
    description of its own. */
module SeedEffects {
  import opened Text
  import opened Sorting
  import opened Models
  import opened Releases
  import opened Identity
  import opened Ownership
  import opened FileStore
  import opened StoreInvariant
  import opened SeedImport
  import opened SeedProperties
  import opened SeedInvariant
  import opened SeedTwice
  import StoreRuns

  // ----- versions ---------------------------------------------------------------------------------

  /** The version bears what the entry says about it. */
  predicate Describes(sv: SeedVersion, w: PluginVersion, pluginId: int) {
    && w.version == sv.version && w.pluginId == pluginId && w.changelog == sv.changelog
    && w.downloadUrl == sv.downloadUrl && w.prerelease == sv.prerelease && w.checksums == sv.checksums
    && (sv.releaseDate.At? ==> w.releaseDate == Some(sv.releaseDate.time))
    && (sv.releaseDate.Absent? ==> w.releaseDate == None)
  }

  /** No later entry is of the same version. */
  predicate LastOfItsVersion(svs: seq<SeedVersion>, k: int) {
    0 <= k < |svs| && forall j :: k < j < |svs| ==> svs[j].version != svs[k].version
  }

  predicate FirstOfItsName(vs: seq<PluginVersion>, i: int, version: string) {
    0 <= i < |vs| && vs[i].version == version && forall j :: 0 <= j < i ==> vs[j].version != version
  }

  ghost predicate DescribedIn(vs: seq<PluginVersion>, sv: SeedVersion, pluginId: int) {
    exists i :: FirstOfItsName(vs, i, sv.version) && Describes(sv, vs[i], pluginId)
  }

  /** One entry describes the first version of its name, in place or appended with the next id and no history; no
      other version changes. */
  lemma UpsertOneExactly(r: Roster, sv: SeedVersion, pluginId: int, now: int)
    ensures var t := UpsertOne(r, sv, pluginId, now);
      DescribedIn(t.versions, sv, pluginId) &&
      (forall i :: 0 <= i < |r.versions| ==> i < |t.versions| && Survives(r.versions[i], t.versions[i])) &&
      (forall i :: 0 <= i < |r.versions| && !FirstOfItsName(r.versions, i, sv.version) ==>
         t.versions[i] == r.versions[i]) &&
      if exists v :: v in r.versions && v.version == sv.version
      then |t.versions| == |r.versions| && t.nextVersionId == r.nextVersionId
      else |t.versions| == |r.versions| + 1 && t.nextVersionId == r.nextVersionId + 1 &&
           Untouched(t.versions[|r.versions|], r.nextVersionId, now)
  {
    hide NameIndex;
    var i, t := NameIndex(r.versions, sv.version), UpsertOne(r, sv, pluginId, now);
    assert FirstOfItsName(t.versions, i, sv.version);
    NameIndexFinds(r.versions, sv.version);
  }

  lemma NameIndexFinds(vs: seq<PluginVersion>, version: string)
    ensures NameIndex(vs, version) < |vs| <==> exists v :: v in vs && v.version == version
  {
    hide NameIndex;
    var i := NameIndex(vs, version);
    assert forall v :: v in vs && v.version == version ==> i < |vs|;
    assert i < |vs| ==> vs[i] in vs;
  }

  /** A version nobody has seen, marked or deleted yet. */
  predicate Untouched(w: PluginVersion, id: int, now: int) {
    && w.id == id && w.createdAt == now && w.views == 0 && w.downloads == 0 && w.semrelCore == ""
    && w.deletedAt == None && w.yankedAt == None && w.yankedBy == "" && w.yankedReason == ""
  }

  /** After all entries: the last entry of each version string describes the first version of that name, and versions
      that no entry names are as they were. */
  lemma {:induction false} UpsertedExactly(r: Roster, svs: seq<SeedVersion>, pluginId: int, now: int, k: nat)
    requires LastOfItsVersion(svs, k)
    ensures DescribedIn(Upserted(r, svs, pluginId, now).versions, svs[k], pluginId)
    decreases |svs|
  {
    hide UpsertOne;
    var front, sv := svs[..|svs| - 1], svs[|svs| - 1];
    var before, t := Upserted(r, front, pluginId, now), Upserted(r, svs, pluginId, now);
    UpsertOneExactly(before, sv, pluginId, now);
    if k < |front| {
      UpsertedExactly(r, front, pluginId, now, k);
      var i :| FirstOfItsName(before.versions, i, svs[k].version) && Describes(svs[k], before.versions[i], pluginId);
      assert front[k] == svs[k] && !FirstOfItsName(before.versions, i, sv.version);
      assert FirstOfItsName(t.versions, i, svs[k].version) && t.versions[i] == before.versions[i];
    }
  }

  lemma {:induction false} UncataloguedVersionsStay(r: Roster, svs: seq<SeedVersion>, pluginId: int, now: int)
    ensures var t := Upserted(r, svs, pluginId, now);
      |r.versions| <= |t.versions| &&
      t.nextVersionId == r.nextVersionId + |t.versions| - |r.versions| &&
      (forall i :: 0 <= i < |r.versions| ==> Survives(r.versions[i], t.versions[i])) &&
      (forall i :: 0 <= i < |r.versions| && (forall sv :: sv in svs ==> sv.version != r.versions[i].version) ==>
         t.versions[i] == r.versions[i]) &&
      (forall i :: |r.versions| <= i < |t.versions| ==>
         Untouched(t.versions[i], r.nextVersionId + i - |r.versions|, now))
  {
    hide UpsertOne;
    if svs != [] {
      var front, sv := svs[..|svs| - 1], svs[|svs| - 1];
      assert svs == front + [sv];
      UncataloguedVersionsStay(r, front, pluginId, now);
      UpsertOneExactly(Upserted(r, front, pluginId, now), sv, pluginId, now);
    }
  }

  // ----- records ----------------------------------------------------------------------------------

  /** The record bears what the entry says about the plugin and about each of its versions. */
  ghost predicate Records(seed: SeedPlugin, q: Plugin) {
    && q.namespace == seed.namespace && q.name == seed.name && q.aliases == Normalized(seed.aliases)
    && q.description == seed.description && q.author == seed.author && q.category == seed.category
    && q.repository == seed.repository && q.license == seed.license && q.tags == seed.tags && q.status != ""
    && (forall k :: LastOfItsVersion(seed.versions, k) ==>
          (exists w :: w in q.versions && w.version == seed.versions[k].version) &&
          forall w :: w in q.versions && w.version == seed.versions[k].version ==>
            Describes(seed.versions[k], w, q.id))
  }

  lemma {:induction false} LastOverlayDescribes(v: PluginVersion, svs: seq<SeedVersion>, pluginId: int, k: nat)
    requires LastOfItsVersion(svs, k) && svs[k].version == v.version
    ensures Describes(svs[k], LastOverlay(v, svs, pluginId), pluginId)
    decreases |svs|
  {
    if k < |svs| - 1 {
      LastOverlayDescribes(v, svs[..|svs| - 1], pluginId, k);
    }
  }

  lemma SettledRecords(all: seq<Plugin>, seed: SeedPlugin, b: Plugin)
    requires SettledAs(all, seed, b)
    ensures Records(seed, b)
  {
    hide LastOverlay, Keys, FreeInList, Normalized, Describes;
    forall k, w | LastOfItsVersion(seed.versions, k) && w in b.versions && w.version == seed.versions[k].version
      ensures Describes(seed.versions[k], w, b.id)
    {
      LastOverlayDescribes(w, seed.versions, b.id, k);
    }
    forall k | LastOfItsVersion(seed.versions, k)
      ensures exists w :: w in b.versions && w.version == seed.versions[k].version
    {
      assert seed.versions[k] in seed.versions;
    }
  }

  /** The record an entry goes to is the first, deleted or not, of its folded namespace and name. */
  predicate FirstOfItsIdentity(all: seq<Plugin>, i: int, seed: SeedPlugin) {
    && 0 <= i < |all| && Lower(all[i].namespace) == Lower(seed.namespace) && Lower(all[i].name) == Lower(seed.name)
    && forall k :: 0 <= k < i ==>
         Lower(all[k].namespace) != Lower(seed.namespace) || Lower(all[k].name) != Lower(seed.name)
  }

  /** What a record keeps when an entry goes to it. */
  predicate KeepsHistory(p: Plugin, q: Plugin) {
    && q.id == p.id && q.views == p.views && q.downloads == p.downloads && q.createdAt == p.createdAt
    && q.deletedAt == p.deletedAt && q.status == if p.status == "" then "active" else p.status
  }

  predicate Fresh(q: Plugin, id: int, now: int) {
    && q.id == id && q.views == 0 && q.downloads == 0 && q.createdAt == now && q.deletedAt == None
    && q.status == "active"
  }

  /** One entry: the record it goes to, old or new, bears its data; no other record changes. */
  lemma AppliedExactly(w: Working, seed: SeedPlugin, now: int)
    requires WorkingInv(w) && Applied(w, seed, now).Ok?
    ensures var t := Applied(w, seed, now).value;
      exists i :: 0 <= i < |t.all| && Records(seed, t.all[i]) &&
        (forall k :: 0 <= k < |w.all| && k != i ==> k < |t.all| && t.all[k] == w.all[k]) &&
        if i < |w.all|
        then FirstOfItsIdentity(w.all, i, seed) && |t.all| == |w.all| && t.nextPluginId == w.nextPluginId &&
             KeepsHistory(w.all[i], t.all[i])
        else (forall k :: !FirstOfItsIdentity(w.all, k, seed)) && i == |w.all| && |t.all| == |w.all| + 1 &&
             t.nextPluginId == w.nextPluginId + 1 && Fresh(t.all[i], w.nextPluginId, now)
  {
    var t, i := Applied(w, seed, now).value, MatchIndex(w.all, seed);
    AppliedSettles(w, seed, now);
    SettledInPlace(w, seed, now);
    SettledRecords(t.all, seed, t.all[i]);
    WrittenRecord(w, seed, now);
  }

  lemma SettledInPlace(w: Working, seed: SeedPlugin, now: int)
    requires Applied(w, seed, now).Ok? && Settled(Applied(w, seed, now).value.all, seed)
    ensures var i, t := MatchIndex(w.all, seed), Applied(w, seed, now).value;
      i < |t.all| && SettledAs(t.all, seed, t.all[i])
  {
    hide SettledAs, FreeInList, Keys, Upserted, Refreshed, WellDated, Distinct;
    var i, t := MatchIndex(w.all, seed), Applied(w, seed, now).value;
    var c := WithSeed(Base(w, seed, now), seed);
    var vs := SeededVersions(c, seed, w.nextVersionId, now).versions;
    NewNames(Base(w, seed, now), vs, seed);
    assert t.all[i] == SeededPlugin(c, vs);
    FirstMatch(t.all, seed, i);
  }

  lemma WrittenRecord(w: Working, seed: SeedPlugin, now: int)
    requires Applied(w, seed, now).Ok?
    ensures var t, i := Applied(w, seed, now).value, MatchIndex(w.all, seed);
      i < |t.all| && (forall k :: 0 <= k < |w.all| && k != i ==> k < |t.all| && t.all[k] == w.all[k]) &&
      if i < |w.all|
      then FirstOfItsIdentity(w.all, i, seed) && |t.all| == |w.all| && t.nextPluginId == w.nextPluginId &&
           KeepsHistory(w.all[i], t.all[i])
      else (forall k :: !FirstOfItsIdentity(w.all, k, seed)) && i == |w.all| && |t.all| == |w.all| + 1 &&
           t.nextPluginId == w.nextPluginId + 1 && Fresh(t.all[i], w.nextPluginId, now)
  {
    hide FreeInList, Keys, Upserted, WellDated, Distinct, Lower, Normalized, SortVersions;
    var c := WithSeed(Base(w, seed, now), seed);
    var vs := SeededVersions(c, seed, w.nextVersionId, now).versions;
    RefreshedParts(c.(versions := SortVersions(vs)));
    assert forall k :: 0 <= k < |w.all| ==>
      (Matches(w.all[k], seed) <==>
       Lower(w.all[k].namespace) == Lower(seed.namespace) && Lower(w.all[k].name) == Lower(seed.name));
    hide Matches, EqualFold;
  }

  // ----- the whole catalogue ----------------------------------------------------------------------

  /** After importing a catalogue that gives no reference to two entries, every entry has a stored record that bears
      its data, field by field. */
  lemma ImportExactly(s: Store, order: seq<int>, seeds: seq<SeedPlugin>, now: int, k: nat)
    requires Inv(s) && IsListing(order, s.plugins) && SeedsApart(seeds) && k < |seeds|
    requires Imported(s, order, seeds, now, true).1.Ok?
    ensures var (t, r) := Imported(s, order, seeds, now, true);
      (exists id :: id in t.plugins && t.plugins[id].id == id && Records(seeds[k], t.plugins[id])) &&
      r == Ok(ImportResult(|seeds|, |AllVersions(seeds)|))
  {
    hide Inv, Start, AppliedAll, Settled, SettledAs, MatchIndex, SeedsApart, Records, ById;
    var w := Start(s, order);
    ReportExactly(seeds);
    StartInv(s, order);
    AllSettled(w, seeds, now);
    AllKeepInv(w, seeds, now);
    var all := AppliedAll(w, seeds, now).value.all;
    SettledSomewhere(all, seeds[k]);
    var b :| b in all && SettledAs(all, seeds[k], b);
    SettledRecords(all, seeds[k], b);
    ByIdFiles(all);
    var i :| 0 <= i < |all| && all[i] == b;
    assert ById(all)[b.id] == b;
  }

  lemma SettledSomewhere(all: seq<Plugin>, seed: SeedPlugin)
    requires Settled(all, seed)
    ensures exists b :: b in all && SettledAs(all, seed, b)
  {
  }

  /** An import succeeds if and only if every entry goes in and the snapshot is installed; the store is then the working
      list, each record under its id, and is otherwise untouched. */
  lemma OutcomeExactly(s: Store, order: seq<int>, seeds: seq<SeedPlugin>, now: int, installed: bool)
    requires Inv(s) && IsListing(order, s.plugins)
    ensures var (t, r) := Imported(s, order, seeds, now, installed); var w := AppliedAll(Start(s, order), seeds, now);
      (r.Ok? <==> w.Ok? && installed) && (r.Err? ==> t == s) &&
      (r.Ok? ==> t.nextPluginId == w.value.nextPluginId && t.nextVersionId == w.value.nextVersionId &&
                 Filed(t.plugins, w.value.all))
  {
    hide Inv, Start, AppliedAll, ById, Filed;
    StartInv(s, order);
    var w := AppliedAll(Start(s, order), seeds, now);
    if w.Ok? {
      AllKeepInv(Start(s, order), seeds, now);
      ByIdFiles(w.value.all);
    }
  }

  // ----- counters and the report ------------------------------------------------------------------

  /** The version counter ends at the old counter or one past the highest stored id, whichever is more. */
  lemma {:induction false} VersionCounterExactly(vs: seq<PluginVersion>, next: int)
    ensures var n := NextAfterVersions(vs, next);
      next <= n && (forall v :: v in vs ==> v.id < n) && (n == next || exists v :: v in vs && n == v.id + 1)
  {
    if vs != [] {
      var front, last := vs[..|vs| - 1], vs[|vs| - 1];
      assert vs == front + [last];
      VersionCounterExactly(front, next);
    }
  }

  lemma {:induction false} CountersExactly(all: seq<Plugin>, nextPluginId: int, nextVersionId: int)
    ensures var n := NextPluginIdAfter(all, nextPluginId);
      nextPluginId <= n && (forall p :: p in all ==> p.id < n) &&
      (n == nextPluginId || exists p :: p in all && n == p.id + 1)
    ensures var n := NextVersionIdAfter(all, nextVersionId);
      nextVersionId <= n && (forall p, v :: p in all && v in p.versions ==> v.id < n) &&
      (n == nextVersionId || exists p, v :: p in all && v in p.versions && n == v.id + 1)
  {
    if all != [] {
      var front, last := all[..|all| - 1], all[|all| - 1];
      assert all == front + [last];
      CountersExactly(front, nextPluginId, nextVersionId);
      VersionCounterExactly(last.versions, NextVersionIdAfter(front, nextVersionId));
    }
  }

  /** An import works on the records as a read shows them, and hands out ids beyond all that are stored, versions that
      drafts brought included. */
  lemma StartExactly(s: Store, order: seq<int>)
    requires Identified(s) && IsListing(order, s.plugins)
    ensures var w := Start(s, order);
      |w.all| == |order| && (forall i :: 0 <= i < |order| ==> w.all[i] == Refreshed(s.plugins[order[i]])) &&
      w.nextPluginId == s.nextPluginId && s.nextVersionId <= w.nextVersionId &&
      forall id, v :: id in s.plugins && v in s.plugins[id].versions ==> v.id < w.nextVersionId
  {
    hide Identified, Refreshed;
    var w := Start(s, order);
    CountersExactly(w.all, s.nextPluginId, s.nextVersionId);
    LoadedIds(s, order);
    PluginCounterStays(w.all, s.nextPluginId);
    forall id, v | id in s.plugins && v in s.plugins[id].versions
      ensures v.id < w.nextVersionId
    {
      StoreRuns.ReadMembers(s.plugins[id]);
      var i :| 0 <= i < |order| && order[i] == id;
      assert w.all[i] in w.all && v in w.all[i].versions;
    }
  }

  function AllVersions(seeds: seq<SeedPlugin>): seq<SeedVersion> {
    if seeds == [] then [] else seeds[0].versions + AllVersions(seeds[1..])
  }

  lemma {:induction false} VersionsAddUp(seeds: seq<SeedPlugin>, last: SeedPlugin)
    ensures |AllVersions(seeds + [last])| == |AllVersions(seeds)| + |last.versions|
  {
    if seeds == [] {
      assert [last][1..] == [];
    } else {
      assert (seeds + [last])[1..] == seeds[1..] + [last];
      VersionsAddUp(seeds[1..], last);
    }
  }

  /** The report counts all entries and all their versions. */
  lemma {:induction false} ReportExactly(seeds: seq<SeedPlugin>)
    ensures TotalVersions(seeds) == |AllVersions(seeds)|
  {
    if seeds != [] {
      ReportExactly(seeds[..|seeds| - 1]);
      VersionsAddUp(seeds[..|seeds| - 1], seeds[|seeds| - 1]);
      assert seeds[..|seeds| - 1] + [seeds[|seeds| - 1]] == seeds;
    }
  }
}
