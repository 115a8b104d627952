/** Exactly when a second import changes nothing: when no plugin has two versions of one release date. With a shared
    date the sorting on every load and save swaps the versions that share it. */
module SeedExact {
  import opened Sorting
  import opened Models
  import opened Releases
  import opened Ownership
  import opened FileStore
  import opened StoreInvariant
  import opened SeedImport
  import opened SeedProperties
  import opened SeedInvariant
  import opened SeedTwice

  /** An import has handled this record once, starting from the read `p`. */
  ghost predicate HandledOnce(p: Plugin, q: Plugin, nextVersionId: int, seed: SeedPlugin) {
    Matches(q, seed) && exists r: Roster ::
      RosterGrows(Roster(p.versions, nextVersionId), r) && q.versions == SortVersions(SortVersions(r.versions))
  }

  ghost predicate Handled(p: Plugin, q: Plugin, nextVersionId: int, seeds: seq<SeedPlugin>) {
    q == p || exists k :: 0 <= k < |seeds| && HandledOnce(p, q, nextVersionId, seeds[k])
  }

  lemma SeededOnce(p: Plugin, seed: SeedPlugin, nextVersionId: int, now: int, bound: int)
    requires 1 <= nextVersionId && VersionsOk(p.versions, p.id, nextVersionId) && bound <= nextVersionId
    ensures var c := WithSeed(p, seed);
      HandledOnce(p, SeededPlugin(c, SeededVersions(c, seed, nextVersionId, now).versions), bound, seed)
  {
    hide Matches, SortVersions, Upserted, VersionsOk, WithSeed, Refreshed;
    SeedKeepsRecord(p, seed);
    var c := WithSeed(p, seed);
    var r := SeededVersions(c, seed, nextVersionId, now);
    UpsertedGrows(Roster(c.versions, nextVersionId), seed.versions, c.id, now);
    NewNames(p, r.versions, seed);
    RefreshedParts(c.(versions := SortVersions(r.versions)));
    assert RosterGrows(Roster(p.versions, bound), r);
  }

  /** No two entries of a valid catalogue handle one record. */
  lemma NextEntry(w: Working, seeds: seq<SeedPlugin>, now: int, id: int, p: Plugin, bound: int)
    requires WorkingInv(w) && SeedsApart(seeds) && seeds != [] && id in ById(w.all) && bound <= w.nextVersionId
    requires Handled(p, ById(w.all)[id], bound, seeds[..|seeds| - 1]) && Applied(w, seeds[|seeds| - 1], now).Ok?
    ensures var after := ById(Applied(w, seeds[|seeds| - 1], now).value.all);
      id in after && Handled(p, after[id], bound, seeds)
  {
    hide Applied, MatchIndex, Matches, SeedKeys, HandledOnce, SeededPlugin, SeededVersions, VersionsOk, ById, WithSeed,
      WorkingInv, WorkingIds, Clash;
    WorkingIdentifies(w);
    var front, seed := seeds[..|seeds| - 1], seeds[|seeds| - 1];
    var q := ById(w.all)[id];
    AppliedFiles(w, seed, now);
    BaseIsFiled(w, seed, now);
    StartsAtOne(w);
    var b := Base(w, seed, now);
    SeedKeepsRecord(b, seed);
    if b.id == id {
      assert Matches(q, seed);
      if q != p {
        var k :| 0 <= k < |front| && HandledOnce(p, q, bound, front[k]);
        HandledMatches(p, q, bound, front[k]);
        MatchingBothClash(q, front[k], seed);
      } else {
        SeededOnce(p, seed, w.nextVersionId, now, bound);
      }
    } else if q != p {
      var k :| 0 <= k < |front| && HandledOnce(p, q, bound, front[k]);
      assert seeds[k] == front[k];
    }
  }

  lemma HandledMatches(p: Plugin, q: Plugin, nextVersionId: int, seed: SeedPlugin)
    requires HandledOnce(p, q, nextVersionId, seed)
    ensures Matches(q, seed)
  {
  }

  lemma {:induction false} AllHandledOnce(w: Working, seeds: seq<SeedPlugin>, now: int, id: int)
    requires WorkingInv(w) && SeedsApart(seeds) && AppliedAll(w, seeds, now).Ok? && id in ById(w.all)
    ensures var after := ById(AppliedAll(w, seeds, now).value.all);
      id in after && Handled(ById(w.all)[id], after[id], w.nextVersionId, seeds)
    decreases |seeds|
  {
    hide WorkingInv, Applied, Evolves, Handled, SeedsApart, ById;
    if seeds == [] {
      NotHandled(ById(w.all)[id], w.nextVersionId);
    } else {
      FrontApart(seeds);
      AllHandledOnce(w, seeds[..|seeds| - 1], now, id);
      AllKeepInv(w, seeds[..|seeds| - 1], now);
      var middle := AppliedAll(w, seeds[..|seeds| - 1], now).value;
      assert w.nextVersionId <= middle.nextVersionId by { CounterGrows(AsStore(w), AsStore(middle)); }
      NextEntry(middle, seeds, now, id, ById(w.all)[id], w.nextVersionId);
    }
  }

  lemma NotHandled(p: Plugin, nextVersionId: int)
    ensures Handled(p, p, nextVersionId, [])
  {
  }

  lemma FrontApart(seeds: seq<SeedPlugin>)
    requires SeedsApart(seeds) && seeds != []
    ensures SeedsApart(seeds[..|seeds| - 1])
  {
    hide SeedKeys, Clash;
  }

  lemma CounterGrows(s: Store, t: Store)
    requires Evolves(s, t)
    ensures s.nextVersionId <= t.nextVersionId
  {
  }

  // ----- ties ------------------------------------------------------------------------------------------------

  /** An odd number of sorts leaves a list alone only if no two versions share a date. */
  lemma ThreeSorts(vs: seq<PluginVersion>)
    requires DistinctNames(vs) && SortVersions(SortVersions(SortVersions(vs))) == vs
    ensures DistinctDates(vs)
  {
    hide SortVersions;
    ThreeSortsAreOne(vs);
    SortIsStableExactlyOnDistinctDates(vs);
  }

  /** A roster that only overwrote, and ends up with the same versions, overwrote nothing. */
  lemma SameRosterSameVersions(vs: seq<PluginVersion>, rs: seq<PluginVersion>, ws: seq<PluginVersion>)
    requires TellApart(vs) && |rs| == |ws| && forall i :: 0 <= i < |rs| ==> rs[i].id == ws[i].id
    requires (forall i :: 0 <= i < |rs| ==> rs[i] in vs) && (forall i :: 0 <= i < |ws| ==> ws[i] in vs)
    ensures rs == ws
  {
  }

  lemma UnchangedMeansDistinct(p: Plugin, nextVersionId: int, seeds: seq<SeedPlugin>)
    requires TellApart(p.versions) && Handled(Refreshed(p), p, nextVersionId, seeds)
    ensures DistinctDates(p.versions)
  {
    hide Refreshed, SortVersions, DistinctDates;
    TellApartNames(p.versions);
    RefreshedParts(p);
    var vs := p.versions;
    if p == Refreshed(p) {
      SortIsStableExactlyOnDistinctDates(vs);
    } else {
      var k :| 0 <= k < |seeds| && HandledOnce(Refreshed(p), p, nextVersionId, seeds[k]);
      var r: Roster :| RosterGrows(Roster(SortVersions(vs), nextVersionId), r) &&
        vs == SortVersions(SortVersions(r.versions));
      SortedMembers(vs);
      SortedMembers(r.versions);
      SortedMembers(SortVersions(r.versions));
      assert |r.versions| == |vs|;
      SameRosterSameVersions(vs, SortVersions(vs), r.versions);
      ThreeSorts(vs);
    }
  }

  lemma SortedMembers(vs: seq<PluginVersion>)
    ensures forall i :: 0 <= i < |vs| ==> vs[i] in SortVersions(vs)
    ensures forall v :: v in SortVersions(vs) <==> v in vs
  {
    SortMembers(ByRelease(), vs);
  }

  /** A second import of a valid catalogue goes through and changes nothing if and only if no plugin has two versions
      of one release date. */
  lemma ImportTwiceExactly(s: Store, order: seq<int>, seeds: seq<SeedPlugin>, now: int, later: seq<int>, again: int)
    requires Inv(s) && IsListing(order, s.plugins) && SeedsApart(seeds)
    requires Imported(s, order, seeds, now, true).1.Ok?
    requires var t := Imported(s, order, seeds, now, true).0; IsListing(later, t.plugins)
    requires KeepsOrder(order, later)
    ensures var t := Imported(s, order, seeds, now, true).0;
      var (u, r) := Imported(t, later, seeds, again, true);
      u == t && r.Ok? <==> forall id :: id in t.plugins ==> DistinctDates(t.plugins[id].versions)
  {
    hide Inv, Imported, SeedsApart, DistinctDates;
    var t := Imported(s, order, seeds, now, true).0;
    if forall id :: id in t.plugins ==> DistinctDates(t.plugins[id].versions) {
      ImportTwice(s, order, seeds, now, later, again);
    }
    var (u, r) := Imported(t, later, seeds, again, true);
    if u == t && r.Ok? {
      ImportKeepsInv(s, order, seeds, now, true);
      UnchangedImport(t, later, seeds, again);
    }
  }

  lemma UnchangedImport(t: Store, later: seq<int>, seeds: seq<SeedPlugin>, again: int)
    requires Inv(t) && IsListing(later, t.plugins) && SeedsApart(seeds)
    requires Imported(t, later, seeds, again, true).0 == t && Imported(t, later, seeds, again, true).1.Ok?
    ensures forall id :: id in t.plugins ==> DistinctDates(t.plugins[id].versions)
  {
    hide Inv, SeedsApart, DistinctDates, Start, AppliedAll, ById, Handled, Refreshed;
    StartInv(t, later);
    var w := Start(t, later);
    forall id | id in t.plugins
      ensures DistinctDates(t.plugins[id].versions)
    {
      AllHandledOnce(w, seeds, again, id);
      StoredTellApart(t, id);
      UnchangedMeansDistinct(t.plugins[id], w.nextVersionId, seeds);
    }
  }

  lemma StoredTellApart(t: Store, id: int)
    requires Inv(t) && id in t.plugins
    ensures TellApart(t.plugins[id].versions)
  {
  }
}
