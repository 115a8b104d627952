/** Importing a valid catalogue a second time changes nothing. */
module SeedTwice {
  import opened Text
  import opened Sorting
  import opened Models
  import opened Releases
  import opened Identity
  import opened Ownership
  import opened FileStore
  import opened StoreInvariant
  import opened SeedImport
  import opened SeedProperties
  import opened SeedInvariant

  // ----- a valid catalogue -----------------------------------------------------------------------------

  /** Everything the seeded plugin will answer to. */
  function SeedKeys(seed: SeedPlugin): seq<string> {
    [Lower(if seed.namespace != "" then seed.namespace + "/" + seed.name else seed.name)] +
      Folds(Normalized(seed.aliases))
  }

  /** No reference is given to two entries. */
  ghost predicate SeedsApart(seeds: seq<SeedPlugin>) {
    forall i, j :: 0 <= i < j < |seeds| ==> !Clash(SeedKeys(seeds[i]), SeedKeys(seeds[j]))
  }

  lemma SeedKeysAreKeys(p: Plugin, seed: SeedPlugin)
    ensures Keys(WithSeed(p, seed)) == SeedKeys(seed)
  {
  }

  /** A record and an entry of one folded namespace and name have one folded reference. */
  lemma MatchingRef(p: Plugin, seed: SeedPlugin)
    requires Matches(p, seed)
    ensures Lower(p.Ref()) == SeedKeys(seed)[0]
  {
    assert |Lower(p.namespace)| == |Lower(seed.namespace)|;
    LowerConcat(p.namespace + "/", p.name);
    LowerConcat(p.namespace, "/");
    LowerConcat(seed.namespace + "/", seed.name);
    LowerConcat(seed.namespace, "/");
  }

  lemma MatchingBothClash(p: Plugin, a: SeedPlugin, b: SeedPlugin)
    requires Matches(p, a) && Matches(p, b)
    ensures Clash(SeedKeys(a), SeedKeys(b))
  {
    hide Matches, SeedKeys;
    MatchingRef(p, a);
    MatchingRef(p, b);
    NeverEmpty(a);
    NeverEmpty(b);
    assert SeedKeys(a)[0] in SeedKeys(a) && SeedKeys(b)[0] in SeedKeys(b);
  }

  lemma NeverEmpty(seed: SeedPlugin)
    ensures SeedKeys(seed) != []
  {
  }

  lemma NewNames(p: Plugin, vs: seq<PluginVersion>, seed: SeedPlugin)
    ensures Matches(SeededPlugin(WithSeed(p, seed), vs), seed)
  {
    RefreshedParts(WithSeed(p, seed).(versions := SortVersions(vs)));
  }

  // ----- what an applied entry leaves behind ---------------------------------------------------------------

  /** The entry's data is in place in record `b`, and nothing stands in the way of applying it again. */
  ghost predicate SettledAs(all: seq<Plugin>, seed: SeedPlugin, b: Plugin) {
    && WithSeed(b, seed) == b && Distinct(Keys(b)) && FreeInList(all, Keys(b), b.id)
    && WellDated(seed.versions) && Carries(b.versions, seed.versions, b.id)
  }

  ghost predicate Settled(all: seq<Plugin>, seed: SeedPlugin) {
    var i := MatchIndex(all, seed);
    i < |all| && SettledAs(all, seed, all[i])
  }

  lemma SeedStaysOn(c: Plugin, seed: SeedPlugin, vs: seq<PluginVersion>)
    requires WithSeed(c, seed) == c
    ensures var p := SeededPlugin(c, vs); WithSeed(p, seed) == p && Keys(p) == Keys(c) && p.id == c.id
  {
  }

  lemma WithSeedTwice(p: Plugin, seed: SeedPlugin)
    ensures WithSeed(WithSeed(p, seed), seed) == WithSeed(p, seed)
  {
  }

  lemma FreeAmongOthers(all: seq<Plugin>, after: seq<Plugin>, keys: seq<string>, id: int)
    requires FreeInList(all, keys, id) && forall q :: q in after ==> q in all || q.id == id
    ensures FreeInList(after, keys, id)
  {
    hide Clash, Keys;
  }

  lemma SeededCarries(c: Plugin, seed: SeedPlugin, nextVersionId: int, now: int)
    requires 1 <= nextVersionId && VersionsOk(c.versions, c.id, nextVersionId)
    ensures Carries(SeededPlugin(c, SeededVersions(c, seed, nextVersionId, now).versions).versions, seed.versions, c.id)
  {
    hide VersionsOk, Carries, Upserted, Refreshed, SortVersions;
    var r := SeededVersions(c, seed, nextVersionId, now);
    UpsertedCarries(Roster(c.versions, nextVersionId), seed.versions, c.id, now);
    SeededIsOk(c, seed, nextVersionId, now);
    CarriesByMembers(r.versions, SeededPlugin(c, r.versions).versions, seed.versions, c.id);
  }

  lemma FirstMatch(all: seq<Plugin>, seed: SeedPlugin, i: nat)
    requires i < |all| && Matches(all[i], seed) && forall k :: 0 <= k < i ==> !Matches(all[k], seed)
    ensures MatchIndex(all, seed) == i
  {
  }

  lemma AppliedSettles(w: Working, seed: SeedPlugin, now: int)
    requires WorkingInv(w) && Applied(w, seed, now).Ok?
    ensures Settled(Applied(w, seed, now).value.all, seed)
  {
    hide WorkingInv, WorkingIds, MatchIndex, Matches, Keys, Carries, WithSeed, FreeInList, Distinct, WellDated,
      Upserted, VersionsOk, Refreshed;
    WorkingIdentifies(w);
    BaseIsFiled(w, seed, now);
    var b := Base(w, seed, now);
    var c := WithSeed(b, seed);
    SeedKeepsRecord(b, seed);
    var vs := SeededVersions(c, seed, w.nextVersionId, now).versions;
    var p := SeededPlugin(c, vs);
    WithSeedTwice(b, seed);
    SeedStaysOn(c, seed, vs);
    assert 1 <= w.nextVersionId by { StartsAtOne(w); }
    SeededCarries(c, seed, w.nextVersionId, now);
    NewNames(b, vs, seed);
    hide SeededPlugin;
    var i, after := MatchIndex(w.all, seed), Applied(w, seed, now).value.all;
    assert after[i] == p;
    FirstMatch(after, seed, i);
    FreeAmongOthers(w.all, after, Keys(c), c.id);
  }

  lemma StartsAtOne(w: Working)
    requires WorkingInv(w)
    ensures 1 <= w.nextVersionId
  {
  }

  lemma SeedKeepsRecord(b: Plugin, seed: SeedPlugin)
    ensures WithSeed(b, seed).id == b.id && WithSeed(b, seed).versions == b.versions
  {
  }

  /** What another entry writes: a record that answers to that entry's references. */
  lemma AppliedElsewhere(w: Working, other: SeedPlugin, now: int)
    requires Applied(w, other, now).Ok?
    ensures var j := MatchIndex(w.all, other); var after := Applied(w, other, now).value.all;
      exists p :: Keys(p) == SeedKeys(other) && Matches(p, other) &&
                  after == if j < |w.all| then w.all[j := p] else w.all + [p]
  {
    hide MatchIndex, Matches, FreeInList, Distinct, Upserted, SeedKeys, WithSeed, Refreshed;
    var b := Base(w, other, now);
    var c := WithSeed(b, other);
    var vs := SeededVersions(c, other, w.nextVersionId, now).versions;
    var p := SeededPlugin(c, vs);
    SeedKeysAreKeys(b, other);
    WithSeedTwice(b, other);
    SeedStaysOn(c, other, vs);
    NewNames(b, vs, other);
    assert Keys(p) == SeedKeys(other) && Matches(p, other);
  }

  /** Later entries of a valid catalogue do not disturb it. */
  lemma SettledStays(w: Working, seed: SeedPlugin, other: SeedPlugin, now: int)
    requires Settled(w.all, seed) && Applied(w, other, now).Ok? && !Clash(SeedKeys(seed), SeedKeys(other))
    ensures Settled(Applied(w, other, now).value.all, seed)
  {
    hide MatchIndex, Matches, Keys, Carries, WithSeed, FreeInList, Distinct, WellDated, Applied, SeedKeys, Clash;
    AppliedElsewhere(w, other, now);
    var i, j, after := MatchIndex(w.all, seed), MatchIndex(w.all, other), Applied(w, other, now).value.all;
    var p :| Keys(p) == SeedKeys(other) && Matches(p, other) &&
      after == if j < |w.all| then w.all[j := p] else w.all + [p];
    var b := w.all[i];
    SeedKeysAreKeys(b, seed);
    if i == j {
      MatchingBothClash(b, seed, other);
    }
    if Matches(p, seed) {
      MatchingBothClash(p, seed, other);
    }
    assert after[i] == b;
    FirstMatch(after, seed, i);
    FreeWithNewcomer(w.all, after, p, Keys(b), b.id);
  }

  lemma FreeWithNewcomer(all: seq<Plugin>, after: seq<Plugin>, p: Plugin, keys: seq<string>, id: int)
    requires FreeInList(all, keys, id) && !Clash(keys, Keys(p)) && forall q :: q in after ==> q in all || q == p
    ensures FreeInList(after, keys, id)
  {
    hide Clash, Keys;
  }

  lemma {:induction false} AllSettled(w: Working, seeds: seq<SeedPlugin>, now: int)
    requires WorkingInv(w) && SeedsApart(seeds) && AppliedAll(w, seeds, now).Ok?
    ensures forall k :: 0 <= k < |seeds| ==> Settled(AppliedAll(w, seeds, now).value.all, seeds[k])
    decreases |seeds|
  {
    hide WorkingInv, Settled, Applied, SeedKeys, Clash;
    if seeds != [] {
      var front, last := seeds[..|seeds| - 1], seeds[|seeds| - 1];
      AllSettled(w, front, now);
      AllKeepInv(w, front, now);
      var middle := AppliedAll(w, front, now).value;
      AppliedSettles(middle, last, now);
      forall k | 0 <= k < |front|
        ensures Settled(Applied(middle, last, now).value.all, seeds[k])
      {
        assert front[k] == seeds[k];
        SettledStays(middle, seeds[k], last, now);
      }
    }
  }

  lemma DatesExactly(svs: seq<SeedVersion>)
    ensures WellDated(svs) <==> forall sv :: sv in svs ==> !sv.releaseDate.Malformed?
  {
    assert forall i :: 0 <= i < |svs| ==> svs[i] in svs;
  }

  /** An entry goes in exactly when its references are distinct, owned by nobody but the record it finds, and its
      dates can be read. */
  lemma AppliedOkExactly(w: Working, seed: SeedPlugin, now: int)
    requires WorkingInv(w)
    ensures Applied(w, seed, now).Ok? <==>
      Distinct(SeedKeys(seed)) && (forall sv :: sv in seed.versions ==> !sv.releaseDate.Malformed?) &&
      forall key :: key in SeedKeys(seed) && key in Owners(ById(w.all)) ==>
        Owners(ById(w.all))[key] == Base(w, seed, now).id
  {
    hide MatchIndex, Keys, FreeInList, Distinct, Upserted, SeedKeys, WithSeed, Refreshed, Owners, Free, ById, WellDated,
      UniqueIdentities, VersionIdsGlobal, VersionsOk;
    var b := Base(w, seed, now);
    DatesExactly(seed.versions);
    SeedKeepsRecord(b, seed);
    SeedKeysAreKeys(b, seed);
    FreeInListIsFree(w.all, SeedKeys(seed), b.id);
    FreeInOwners(ById(w.all), SeedKeys(seed), b.id);
  }

  /** So the outcome depends on the directory order: a deleted record listed before a live one of the same name
      makes the import fail, whatever the entry says. */
  lemma DeletedTwinBlocks(w: Working, seed: SeedPlugin, now: int, live: Plugin)
    requires var i := MatchIndex(w.all, seed); i < |w.all| && !w.all[i].Live() && w.all[i].id != live.id
    requires live in w.all && live.Live() && Matches(live, seed)
    ensures Applied(w, seed, now) == Err(Duplicate)
  {
    hide MatchIndex, Matches, Distinct, Upserted, SeedKeys, WithSeed, Refreshed;
    var b := Base(w, seed, now);
    SeedKeepsRecord(b, seed);
    SeedKeysAreKeys(b, seed);
    MatchingRef(live, seed);
    NeverEmpty(seed);
    assert SeedKeys(seed)[0] in SeedKeys(seed) && Keys(live)[0] in Keys(live);
    assert Clash(Keys(WithSeed(b, seed)), Keys(live));
  }

  // ----- which record an entry finds -------------------------------------------------------------------------

  predicate SameName(p: Plugin, q: Plugin) {
    EqualFold(p.namespace, q.namespace) && EqualFold(p.name, q.name)
  }

  /** The first records are those of the directory, in its order; no added record repeats an earlier name. */
  ghost predicate Grown(order: seq<int>, all: seq<Plugin>) {
    && |order| <= |all|
    && (forall i :: 0 <= i < |order| ==> all[i].id == order[i])
    && (forall i, j :: 0 <= i < j < |all| && |order| <= j ==> !SameName(all[i], all[j]))
  }

  lemma AppliedGrows(order: seq<int>, w: Working, seed: SeedPlugin, now: int)
    requires Grown(order, w.all) && Applied(w, seed, now).Ok?
    ensures Grown(order, Applied(w, seed, now).value.all)
  {
    hide MatchIndex, FreeInList, Distinct, Upserted, Refreshed, EqualFold, Lower, SortVersions;
    var b := Base(w, seed, now);
    var c := WithSeed(b, seed);
    var vs := SeededVersions(c, seed, w.nextVersionId, now).versions;
    NamesOf(c, vs);
    hide SeededPlugin;
    SameNameAs(seed);
  }

  lemma NamesOf(c: Plugin, vs: seq<PluginVersion>)
    ensures var p := SeededPlugin(c, vs); p.namespace == c.namespace && p.name == c.name && p.id == c.id
  {
  }

  lemma SameNameAs(seed: SeedPlugin)
    ensures forall p: Plugin, q: Plugin :: q.namespace == seed.namespace && q.name == seed.name ==>
      (Matches(p, seed) <==> SameName(p, q)) && (SameName(p, q) <==> SameName(q, p))
    ensures forall p: Plugin, q: Plugin, r: Plugin :: SameName(p, q) && SameName(q, r) ==> SameName(p, r)
  {
  }

  lemma {:induction false} AllGrow(order: seq<int>, w: Working, seeds: seq<SeedPlugin>, now: int)
    requires Grown(order, w.all) && AppliedAll(w, seeds, now).Ok?
    ensures Grown(order, AppliedAll(w, seeds, now).value.all)
    decreases |seeds|
  {
    hide Applied, Grown;
    if seeds != [] {
      AllGrow(order, w, seeds[..|seeds| - 1], now);
      AppliedGrows(order, AppliedAll(w, seeds[..|seeds| - 1], now).value, seeds[|seeds| - 1], now);
    }
  }

  /** A directory is read in file-name order, so two files never change places. */
  ghost predicate KeepsOrder(order: seq<int>, later: seq<int>) {
    forall i, j :: 0 <= i < j < |order| ==> StandsBefore(later, order[i], order[j])
  }

  lemma SameMatch(order: seq<int>, later: seq<int>, all: seq<Plugin>, loaded: seq<Plugin>, seed: SeedPlugin)
    requires Grown(order, all) && IdsApart(all) && KeepsOrder(order, later) && Distinct(later)
    requires |loaded| == |later| && forall k :: 0 <= k < |loaded| ==> loaded[k].id == later[k]
    requires forall p :: p in all <==> p in loaded
    requires MatchIndex(all, seed) < |all|
    ensures var m := MatchIndex(loaded, seed); m < |loaded| && loaded[m] == all[MatchIndex(all, seed)]
  {
    hide MatchIndex, EqualFold;
    var i := MatchIndex(all, seed);
    assert all[i] in loaded;
    var k :| 0 <= k < |loaded| && loaded[k] == all[i];
    var m := MatchIndex(loaded, seed);
    assert m <= k && loaded[m] in all;
    var i' :| 0 <= i' < |all| && all[i'] == loaded[m];
    if i' != i {
      StaysFirst(order, later, all, seed, i, i');
    }
  }

  lemma StaysFirst(order: seq<int>, later: seq<int>, all: seq<Plugin>, seed: SeedPlugin, i: nat, j: nat)
    requires Grown(order, all) && KeepsOrder(order, later)
    requires i < j < |all| && Matches(all[i], seed) && Matches(all[j], seed)
    ensures StandsBefore(later, all[i].id, all[j].id)
  {
  }

  // ----- the second import -------------------------------------------------------------------------------------

  /** What a read shows, a second read shows again. */
  lemma ReadAgain(q: Plugin)
    requires TellApart(q.versions) && DistinctDates(Refreshed(q).versions)
    ensures Refreshed(Refreshed(q)) == Refreshed(q)
  {
    hide Refreshed;
    var vs, r := q.versions, Refreshed(q).versions;
    RefreshedParts(q);
    SortMembers(ByRelease(), vs);
    SortTellsApart(ByRelease(), vs);
    TellApartNames(vs);
    TellApartNames(r);
    forall i, j | 0 <= i < j < |vs|
      ensures vs[i].releaseDate.None? || vs[i].releaseDate != vs[j].releaseDate
    {
      assert vs[i] in vs && vs[j] in vs;
      Apart(r, vs[i], vs[j]);
    }
    RefreshedTwice(q);
  }

  /** Every record of the list is what some read showed. */
  ghost predicate AllRead(all: seq<Plugin>) {
    forall p :: p in all ==> Read(p)
  }

  ghost predicate Read(p: Plugin) {
    exists q: Plugin :: TellApart(q.versions) && p == Refreshed(q)
  }

  lemma AppliedReads(w: Working, seed: SeedPlugin, now: int)
    requires WorkingInv(w) && AllRead(w.all) && Applied(w, seed, now).Ok?
    ensures AllRead(Applied(w, seed, now).value.all)
  {
    hide WorkingInv, WorkingIds, MatchIndex, FreeInList, Distinct, Upserted, Refreshed, TellApart, Read, SortVersions;
    WorkingIdentifies(w);
    BaseIsFiled(w, seed, now);
    StartsAtOne(w);
    var c := WithSeed(Base(w, seed, now), seed);
    var r := SeededVersions(c, seed, w.nextVersionId, now);
    UpsertedGrows(Roster(c.versions, w.nextVersionId), seed.versions, c.id, now);
    SortedOk(r.versions, c.id, r.nextVersionId);
    ReadBy(c.(versions := SortVersions(r.versions)));
  }

  lemma ReadBy(q: Plugin)
    requires TellApart(q.versions)
    ensures Read(Refreshed(q))
  {
  }

  lemma {:induction false} AllAreRead(w: Working, seeds: seq<SeedPlugin>, now: int)
    requires WorkingInv(w) && AllRead(w.all) && AppliedAll(w, seeds, now).Ok?
    ensures AllRead(AppliedAll(w, seeds, now).value.all)
    decreases |seeds|
  {
    hide WorkingInv, AllRead, Applied;
    if seeds != [] {
      AllAreRead(w, seeds[..|seeds| - 1], now);
      AllKeepInv(w, seeds[..|seeds| - 1], now);
      AppliedReads(AppliedAll(w, seeds[..|seeds| - 1], now).value, seeds[|seeds| - 1], now);
    }
  }

  lemma LoadedIsRead(s: Store, order: seq<int>)
    requires Inv(s) && IsListing(order, s.plugins)
    ensures AllRead(Loaded(s.plugins, order)) && Grown(order, Loaded(s.plugins, order))
  {
    hide Refreshed, UniqueIdentities, VersionIdsGlobal, TellApart, Read;
    forall i | 0 <= i < |order|
      ensures Read(Refreshed(s.plugins[order[i]])) && Refreshed(s.plugins[order[i]]).id == order[i]
    {
      var id := order[i];
      assert s.plugins[id].id == id && VersionsOk(s.plugins[id].versions, id, s.nextVersionId);
      ReadBy(s.plugins[id]);
      RefreshedIdentity(s.plugins[id]);
    }
  }

  /** An entry whose data is in place, applied to a list of settled reads, changes nothing. */
  lemma AppliedIdle(w: Working, seed: SeedPlugin, now: int)
    requires Settled(w.all, seed)
    requires forall p :: p in w.all ==> Refreshed(p) == p && TellApart(p.versions)
    ensures Applied(w, seed, now) == Ok(w)
  {
    hide MatchIndex, Keys, Carries, WithSeed, FreeInList, Distinct, WellDated, Upserted, Refreshed, TellApart,
      SortVersions;
    var i := MatchIndex(w.all, seed);
    var b := w.all[i];
    assert b in w.all;
    TellApartNames(b.versions);
    UpsertedIdle(b.versions, w.nextVersionId, seed.versions, b.id, now);
    RefreshedParts(b);
    assert b.(versions := SortVersions(b.versions)) == b;
    assert w.all[i := b] == w.all;
  }

  lemma {:induction false} AllIdle(w: Working, seeds: seq<SeedPlugin>, now: int)
    requires forall k :: 0 <= k < |seeds| ==> Applied(w, seeds[k], now) == Ok(w)
    ensures AppliedAll(w, seeds, now) == Ok(w)
    decreases |seeds|
  {
    hide Applied;
    if seeds != [] {
      AllIdle(w, seeds[..|seeds| - 1], now);
    }
  }

  lemma SettledReordered(all: seq<Plugin>, loaded: seq<Plugin>, seed: SeedPlugin)
    requires Settled(all, seed) && forall p :: p in all <==> p in loaded
    requires var m := MatchIndex(loaded, seed); m < |loaded| && loaded[m] == all[MatchIndex(all, seed)]
    ensures Settled(loaded, seed)
  {
    hide MatchIndex, Keys, Carries, WithSeed, Distinct, WellDated, Clash;
  }

  lemma StoredSettle(t: Store, all: seq<Plugin>)
    requires Filed(t.plugins, all) && AllRead(all)
    requires forall id :: id in t.plugins ==> DistinctDates(t.plugins[id].versions)
    ensures forall id :: id in t.plugins ==> Refreshed(t.plugins[id]) == t.plugins[id]
  {
    hide DistinctDates, Refreshed, Read;
    forall id | id in t.plugins
      ensures Refreshed(t.plugins[id]) == t.plugins[id]
    {
      var i :| 0 <= i < |all| && all[i].id == id;
      assert all[i] in all;
      ReadSettles(t.plugins[id]);
    }
  }

  /** Reading back a list of settled reads yields the same records. */
  lemma LoadedBack(t: Store, all: seq<Plugin>, later: seq<int>)
    requires IdsApart(all) && t.plugins == ById(all) && IsListing(later, t.plugins) && AllRead(all)
    requires forall id :: id in t.plugins ==> DistinctDates(t.plugins[id].versions) && t.plugins[id].id == id
    ensures var loaded := Loaded(t.plugins, later);
      (forall p :: p in all <==> p in loaded) && (forall k :: 0 <= k < |later| ==> loaded[k].id == later[k]) &&
      (forall p :: p in loaded ==> Refreshed(p) == p)
    ensures RefreshedAll(t.plugins) == t.plugins
  {
    hide DistinctDates, Refreshed, ById, AllRead, Loaded;
    ByIdFiles(all);
    StoredSettle(t, all);
    LoadedAsStored(t.plugins, later);
    hide RefreshedAll;
    var loaded := Loaded(t.plugins, later);
    forall p | p in all
      ensures p in loaded
    {
      var i :| 0 <= i < |all| && all[i] == p;
      assert p.id in later;
      var k :| 0 <= k < |later| && later[k] == p.id;
    }
    forall p | p in loaded
      ensures p in all && Refreshed(p) == p
    {
      var k :| 0 <= k < |loaded| && loaded[k] == p;
      var i :| 0 <= i < |all| && all[i].id == later[k];
    }
  }

  lemma LoadedAsStored(plugins: Plugins, later: seq<int>)
    requires forall i :: 0 <= i < |later| ==> later[i] in plugins
    requires forall id :: id in plugins ==> Refreshed(plugins[id]) == plugins[id]
    ensures var loaded := Loaded(plugins, later);
      |loaded| == |later| && forall k :: 0 <= k < |later| ==> loaded[k] == plugins[later[k]]
    ensures RefreshedAll(plugins) == plugins
  {
    hide Refreshed;
    var loaded := Loaded(plugins, later);
    forall k | 0 <= k < |later|
      ensures loaded[k] == plugins[later[k]]
    {
      var id := later[k];
      assert id in plugins && Refreshed(plugins[id]) == plugins[id];
    }
    forall id | id in plugins
      ensures RefreshedAll(plugins)[id] == plugins[id]
    {
    }
  }

  lemma ReadSettles(p: Plugin)
    requires Read(p) && DistinctDates(p.versions)
    ensures Refreshed(p) == p
  {
    hide TellApart, Refreshed, DistinctDates;
    var q: Plugin :| TellApart(q.versions) && p == Refreshed(q);
    ReadAgain(q);
  }

  /** Importing a valid catalogue again, at any later time, reports the same and changes nothing: no record, no
      version, no id counter. Valid means that no reference is given to two entries and that no plugin ends up with
      two versions of one release date. */
  lemma ImportTwice(s: Store, order: seq<int>, seeds: seq<SeedPlugin>, now: int, later: seq<int>, again: int)
    requires Inv(s) && IsListing(order, s.plugins) && SeedsApart(seeds)
    requires Imported(s, order, seeds, now, true).1.Ok?
    requires var t := Imported(s, order, seeds, now, true).0;
      IsListing(later, t.plugins) && forall id :: id in t.plugins ==> DistinctDates(t.plugins[id].versions)
    requires KeepsOrder(order, later)
    ensures Imported(Imported(s, order, seeds, now, true).0, later, seeds, again, true) ==
      Imported(s, order, seeds, now, true)
  {
    hide Inv, Start, AppliedAll, ById, Settled, MatchIndex, DistinctDates, AllRead, Grown, SeedsApart, RefreshedAll,
      Refreshed;
    var w := Start(s, order);
    var t := Imported(s, order, seeds, now, true).0;
    var all := AppliedAll(w, seeds, now).value.all;
    StartInv(s, order);
    CountersStay(s, order);
    LoadedIsRead(s, order);
    AllKeepInv(w, seeds, now);
    AllSettled(w, seeds, now);
    AllAreRead(w, seeds, now);
    AllGrow(order, w, seeds, now);
    IdsMatch(t);
    LoadedBack(t, all, later);
    CountersStay(t, later);
    var v := Start(t, later);
    forall k | 0 <= k < |seeds|
      ensures Applied(v, seeds[k], again) == Ok(v)
    {
      SettledThere(all, seeds[k]);
      SameMatch(order, later, all, v.all, seeds[k]);
      SettledReordered(all, v.all, seeds[k]);
      LoadedTellApart(t, later);
      AppliedIdle(v, seeds[k], again);
    }
    AllIdle(v, seeds, again);
    InvIdentifies(t);
    LoadedFiles(t, later);
  }

  lemma IdsMatch(t: Store)
    requires Inv(t)
    ensures forall id :: id in t.plugins ==> t.plugins[id].id == id
  {
  }

  lemma SettledThere(all: seq<Plugin>, seed: SeedPlugin)
    requires Settled(all, seed)
    ensures MatchIndex(all, seed) < |all|
  {
  }

  lemma LoadedTellApart(t: Store, later: seq<int>)
    requires Inv(t) && IsListing(later, t.plugins)
    ensures forall p :: p in Loaded(t.plugins, later) ==> TellApart(p.versions)
  {
    hide Inv, Loaded, TellApart;
    LoadedOk(t, later);
    var loaded := Loaded(t.plugins, later);
    forall p | p in loaded
      ensures TellApart(p.versions)
    {
      var k :| 0 <= k < |loaded| && loaded[k] == p;
    }
  }
}
