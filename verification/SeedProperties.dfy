/** What a catalogue import keeps, adds and leaves alone. */
module SeedProperties {
  import opened Models
  import opened Releases
  import opened Ownership
  import opened FileStore
  import opened StoreInvariant
  import opened SeedImport

  // ----- the version list of one plugin ------------------------------------------------------------

  /** The same version with its whole history: only what the catalogue describes may differ. */
  predicate Survives(v: PluginVersion, w: PluginVersion) {
    && w.id == v.id && w.version == v.version && w.semrelCore == v.semrelCore && w.views == v.views
    && w.downloads == v.downloads && w.createdAt == v.createdAt && w.deletedAt == v.deletedAt
    && w.yankedAt == v.yankedAt && w.yankedBy == v.yankedBy && w.yankedReason == v.yankedReason
  }

  /** Overwriting matched versions and appending unmatched ones keeps every version and hands out fresh ids. */
  ghost predicate RosterGrows(r: Roster, t: Roster) {
    && r.nextVersionId <= t.nextVersionId && |r.versions| <= |t.versions|
    && (forall i :: 0 <= i < |r.versions| ==> Survives(r.versions[i], t.versions[i]))
    && (forall i :: |r.versions| <= i < |t.versions| ==> t.versions[i].id >= r.nextVersionId)
  }

  lemma {:induction false} UpsertedGrows(r: Roster, svs: seq<SeedVersion>, pluginId: int, now: int)
    requires 1 <= r.nextVersionId && VersionsOk(r.versions, pluginId, r.nextVersionId)
    ensures var t := Upserted(r, svs, pluginId, now);
      VersionsOk(t.versions, pluginId, t.nextVersionId) && RosterGrows(r, t)
  {
    if svs != [] {
      UpsertedGrows(r, svs[..|svs| - 1], pluginId, now);
      UpsertOneGrows(Upserted(r, svs[..|svs| - 1], pluginId, now), svs[|svs| - 1], pluginId, now);
    }
  }

  lemma UpsertOneGrows(r: Roster, sv: SeedVersion, pluginId: int, now: int)
    requires 1 <= r.nextVersionId && VersionsOk(r.versions, pluginId, r.nextVersionId)
    ensures var t := UpsertOne(r, sv, pluginId, now);
      VersionsOk(t.versions, pluginId, t.nextVersionId) && RosterGrows(r, t)
  {
    hide NameIndex, VersionsOk;
    var i := NameIndex(r.versions, sv.version);
    if i < |r.versions| {
      OverwriteOk(r.versions, i, Overlaid(r.versions[i], sv, pluginId), pluginId, r.nextVersionId);
    } else {
      AppendOk(r.versions, Overlaid(BlankVersion(r.nextVersionId, pluginId, sv.version, now), sv, pluginId),
               pluginId, r.nextVersionId);
    }
  }

  lemma OverwriteOk(vs: seq<PluginVersion>, i: nat, v: PluginVersion, pluginId: int, bound: int)
    requires VersionsOk(vs, pluginId, bound) && i < |vs| && v.id == vs[i].id && v.version == vs[i].version
    requires v.pluginId == pluginId
    ensures VersionsOk(vs[i := v], pluginId, bound)
  {
  }

  /** The last entry of the catalogue for a version decides its catalogue fields. */
  function LastOverlay(v: PluginVersion, svs: seq<SeedVersion>, pluginId: int): (r: PluginVersion)
    ensures r.version == v.version && r.id == v.id
  {
    if svs == [] then v
    else if svs[|svs| - 1].version == v.version then Overlaid(v, svs[|svs| - 1], pluginId)
    else LastOverlay(v, svs[..|svs| - 1], pluginId)
  }

  lemma {:induction false} OverlayTwice(v: PluginVersion, svs: seq<SeedVersion>, sv: SeedVersion, pluginId: int)
    ensures Overlaid(LastOverlay(v, svs, pluginId), sv, pluginId) == Overlaid(v, sv, pluginId)
  {
    if svs != [] {
      OverlayTwice(v, svs[..|svs| - 1], sv, pluginId);
    }
  }

  /** The list carries the catalogue's data: every catalogued version is there, and no further overwriting with
      this catalogue changes anything. */
  ghost predicate Carries(vs: seq<PluginVersion>, svs: seq<SeedVersion>, pluginId: int) {
    && (forall v :: v in vs ==> LastOverlay(v, svs, pluginId) == v)
    && (forall sv :: sv in svs ==> exists v :: v in vs && v.version == sv.version)
  }

  lemma {:induction false} UpsertedCarries(r: Roster, svs: seq<SeedVersion>, pluginId: int, now: int)
    requires 1 <= r.nextVersionId && VersionsOk(r.versions, pluginId, r.nextVersionId)
    ensures Carries(Upserted(r, svs, pluginId, now).versions, svs, pluginId)
  {
    if svs != [] {
      var front := svs[..|svs| - 1];
      UpsertedCarries(r, front, pluginId, now);
      UpsertedGrows(r, front, pluginId, now);
      CarriesOneMore(Upserted(r, front, pluginId, now), svs, pluginId, now);
    }
  }

  lemma CarriesOneMore(r: Roster, svs: seq<SeedVersion>, pluginId: int, now: int)
    requires svs != [] && TellApart(r.versions) && Carries(r.versions, svs[..|svs| - 1], pluginId)
    ensures Carries(UpsertOne(r, svs[|svs| - 1], pluginId, now).versions, svs, pluginId)
  {
    hide NameIndex;
    var sv, front := svs[|svs| - 1], svs[..|svs| - 1];
    var vs := UpsertOne(r, sv, pluginId, now).versions;
    var at := NameIndex(r.versions, sv.version);
    forall v | v in vs
      ensures LastOverlay(v, svs, pluginId) == v
    {
      var i :| 0 <= i < |vs| && vs[i] == v;
      if i != at {
        assert v == r.versions[i] && v in r.versions;
        assert v.version != sv.version;
      }
    }
    assert vs[at].version == sv.version && vs[at] in vs;
    forall other | other in svs
      ensures exists v :: v in vs && v.version == other.version
    {
      if other != sv {
        assert other in front;
        var v :| v in r.versions && v.version == other.version;
        var i :| 0 <= i < |r.versions| && r.versions[i] == v;
        assert vs[i] in vs && vs[i].version == v.version;
      }
    }
  }

  /** Where every catalogued version is already there, upserting overwrites in place. */
  lemma {:induction false} UpsertedInPlace(vs: seq<PluginVersion>, next: int, svs: seq<SeedVersion>, pluginId: int,
                                           now: int)
    requires DistinctNames(vs) && forall sv :: sv in svs ==> exists v :: v in vs && v.version == sv.version
    ensures var t := Upserted(Roster(vs, next), svs, pluginId, now);
      t.nextVersionId == next && |t.versions| == |vs| &&
      forall i :: 0 <= i < |vs| ==> t.versions[i] == LastOverlay(vs[i], svs, pluginId)
  {
    hide NameIndex, Overlaid;
    if svs != [] {
      var front, sv := svs[..|svs| - 1], svs[|svs| - 1];
      assert forall x :: x in front ==> x in svs;
      UpsertedInPlace(vs, next, front, pluginId, now);
      hide Upserted;
      var before := Upserted(Roster(vs, next), front, pluginId, now);
      UpsertedStep(Roster(vs, next), svs, pluginId, now);
      OverwritesOne(vs, before, svs, pluginId, now);
    }
  }

  lemma UpsertedStep(r: Roster, svs: seq<SeedVersion>, pluginId: int, now: int)
    requires svs != []
    ensures Upserted(r, svs, pluginId, now) ==
      UpsertOne(Upserted(r, svs[..|svs| - 1], pluginId, now), svs[|svs| - 1], pluginId, now)
  {
  }

  lemma OverwritesOne(vs: seq<PluginVersion>, before: Roster, svs: seq<SeedVersion>, pluginId: int, now: int)
    requires svs != [] && DistinctNames(vs) && |before.versions| == |vs|
    requires forall i :: 0 <= i < |vs| ==> before.versions[i] == LastOverlay(vs[i], svs[..|svs| - 1], pluginId)
    requires exists v :: v in vs && v.version == svs[|svs| - 1].version
    ensures var t := UpsertOne(before, svs[|svs| - 1], pluginId, now);
      t.nextVersionId == before.nextVersionId && |t.versions| == |vs| &&
      forall i :: 0 <= i < |vs| ==> t.versions[i] == LastOverlay(vs[i], svs, pluginId)
  {
    hide NameIndex, Overlaid;
    var front, sv := svs[..|svs| - 1], svs[|svs| - 1];
    var v :| v in vs && v.version == sv.version;
    var i :| 0 <= i < |vs| && vs[i] == v;
    assert before.versions[i].version == sv.version;
    var at := NameIndex(before.versions, sv.version);
    assert before.versions[at].version == vs[at].version;
    OverlayTwice(vs[at], front, sv, pluginId);
  }

  lemma UpsertedIdle(vs: seq<PluginVersion>, next: int, svs: seq<SeedVersion>, pluginId: int, now: int)
    requires DistinctNames(vs) && Carries(vs, svs, pluginId)
    ensures Upserted(Roster(vs, next), svs, pluginId, now) == Roster(vs, next)
  {
    UpsertedInPlace(vs, next, svs, pluginId, now);
    assert forall i :: 0 <= i < |vs| ==> vs[i] in vs;
  }

  lemma CarriesByMembers(vs: seq<PluginVersion>, ws: seq<PluginVersion>, svs: seq<SeedVersion>, pluginId: int)
    requires Carries(vs, svs, pluginId) && forall v :: v in vs <==> v in ws
    ensures Carries(ws, svs, pluginId)
  {
    hide LastOverlay;
  }

  // ----- working lists --------------------------------------------------------------------------------

  ghost predicate IdsApart(all: seq<Plugin>) {
    forall i, j :: 0 <= i < j < |all| ==> all[i].id != all[j].id
  }

  /** `m` files the records of `all` under their ids. */
  ghost predicate Filed(m: Plugins, all: seq<Plugin>) {
    && (forall i :: 0 <= i < |all| ==> all[i].id in m && m[all[i].id] == all[i])
    && (forall id :: id in m ==> exists i :: 0 <= i < |all| && all[i].id == id)
  }

  lemma {:induction false} ByIdFiles(all: seq<Plugin>)
    requires IdsApart(all)
    ensures Filed(ById(all), all)
  {
    if all != [] {
      ByIdFiles(all[..|all| - 1]);
      FilesOneMore(ById(all[..|all| - 1]), all);
    }
  }

  lemma FilesOneMore(m: Plugins, all: seq<Plugin>)
    requires all != [] && IdsApart(all) && Filed(m, all[..|all| - 1])
    ensures Filed(m[all[|all| - 1].id := all[|all| - 1]], all)
  {
  }

  lemma FilesOnce(m: Plugins, all: seq<Plugin>)
    requires IdsApart(all) && Filed(m, all)
    ensures ById(all) == m
  {
    ByIdFiles(all);
    var n := ById(all);
    forall id
      ensures id in m <==> id in n
      ensures id in m ==> m[id] == n[id]
    {
    }
  }

  lemma ByIdReplace(all: seq<Plugin>, i: nat, p: Plugin)
    requires IdsApart(all) && i < |all| && p.id == all[i].id
    ensures IdsApart(all[i := p]) && ById(all[i := p]) == ById(all)[p.id := p]
  {
    ByIdFiles(all);
    var m, after := ById(all)[p.id := p], all[i := p];
    forall id | id in m
      ensures exists k :: 0 <= k < |after| && after[k].id == id
    {
      var k :| 0 <= k < |all| && all[k].id == id;
      assert after[k].id == id;
    }
    FilesOnce(m, after);
  }

  lemma ByIdAppend(all: seq<Plugin>, p: Plugin)
    requires IdsApart(all) && p.id !in ById(all)
    ensures IdsApart(all + [p]) && ById(all + [p]) == ById(all)[p.id := p]
  {
    ByIdFiles(all);
    assert (all + [p])[..|all|] == all;
  }

  lemma FreeInListIsFree(all: seq<Plugin>, keys: seq<string>, except: int)
    requires IdsApart(all)
    ensures FreeInList(all, keys, except) <==> Free(ById(all), keys, except)
  {
    hide Keys, Clash;
    ByIdFiles(all);
    var m := ById(all);
    if FreeInList(all, keys, except) {
      forall id | id in m && m[id].Live() && id != except
        ensures !Clash(keys, Keys(m[id]))
      {
        var i :| 0 <= i < |all| && all[i].id == id;
        assert all[i] in all;
      }
    }
    if Free(m, keys, except) {
      forall p | p in all && p.Live() && p.id != except
        ensures !Clash(keys, Keys(p))
      {
        var i :| 0 <= i < |all| && all[i] == p;
      }
    }
  }

  function AsStore(w: Working): Store {
    Store(ById(w.all), w.nextPluginId, w.nextVersionId)
  }

  ghost predicate WorkingInv(w: Working) {
    IdsApart(w.all) && Inv(AsStore(w))
  }
}
