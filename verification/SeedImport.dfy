/** The bulk import of a bundled catalogue: importSeedRegistry and applySeedPlugin of
    api/repository/file_repo.go. Everything happens on a loaded copy; the stored state changes only when the whole
    snapshot is installed, which SeedInstall carries out on a disk. */
module SeedImport {
  import opened Text
  import opened Sorting
  import opened Models
  import opened Releases
  import opened Identity
  import opened Ownership
  import opened FileStore

  datatype SeedDate = Absent | At(time: int) | Malformed

  datatype SeedVersion = SeedVersion(version: string, releaseDate: SeedDate, changelog: string, downloadUrl: string,
                                     prerelease: bool, checksums: map<string, string>)

  datatype SeedPlugin = SeedPlugin(namespace: string, name: string, aliases: seq<string>, description: string,
                                   author: string,
                                   category: string, repository: string, license: string, tags: seq<string>,
                                   versions: seq<SeedVersion>)

  /** The copy the import works on. */
  datatype Working = Working(all: seq<Plugin>, nextPluginId: int, nextVersionId: int)

  predicate Matches(p: Plugin, seed: SeedPlugin) {
    EqualFold(p.namespace, seed.namespace) && EqualFold(p.name, seed.name)
  }

  /** The first record, deleted or not, with the seed's namespace and name, or the length of the list. */
  function MatchIndex(all: seq<Plugin>, seed: SeedPlugin): (i: nat)
    ensures i <= |all|
    ensures i < |all| ==> Matches(all[i], seed)
    ensures forall k :: 0 <= k < i ==> !Matches(all[k], seed)
  {
    if all == [] || Matches(all[0], seed) then 0 else 1 + MatchIndex(all[1..], seed)
  }

  // ----- versions ---------------------------------------------------------------------------------

  function DateOf(d: SeedDate): Option<int> {
    if d.At? then Some(d.time) else None
  }

  function Overlaid(v: PluginVersion, sv: SeedVersion, pluginId: int): PluginVersion {
    v.(pluginId := pluginId, releaseDate := DateOf(sv.releaseDate), changelog := sv.changelog,
       downloadUrl := sv.downloadUrl, prerelease := sv.prerelease, checksums := sv.checksums)
  }

  function BlankVersion(id: int, pluginId: int, version: string, now: int): PluginVersion {
    PluginVersion(id, pluginId, version, None, "", "", map[], "", false, 0, 0, now, None, None, "", "")
  }

  function NameIndex(vs: seq<PluginVersion>, version: string): (i: nat)
    ensures i <= |vs|
    ensures i < |vs| ==> vs[i].version == version
    ensures forall k :: 0 <= k < i ==> vs[k].version != version
  {
    if vs == [] || vs[0].version == version then 0 else 1 + NameIndex(vs[1..], version)
  }

  datatype Roster = Roster(versions: seq<PluginVersion>, nextVersionId: int)

  function UpsertOne(r: Roster, sv: SeedVersion, pluginId: int, now: int): Roster {
    var i := NameIndex(r.versions, sv.version);
    if i < |r.versions|
    then r.(versions := r.versions[i := Overlaid(r.versions[i], sv, pluginId)])
    else Roster(r.versions + [Overlaid(BlankVersion(r.nextVersionId, pluginId, sv.version, now), sv, pluginId)],
                r.nextVersionId + 1)
  }

  function Upserted(r: Roster, svs: seq<SeedVersion>, pluginId: int, now: int): Roster {
    if svs == [] then r
    else UpsertOne(Upserted(r, svs[..|svs| - 1], pluginId, now), svs[|svs| - 1], pluginId, now)
  }

  predicate WellDated(svs: seq<SeedVersion>) {
    forall i :: 0 <= i < |svs| ==> !svs[i].releaseDate.Malformed?
  }

  method UpsertVersions(vs: seq<PluginVersion>, nextVersionId: int, svs: seq<SeedVersion>, pluginId: int, now: int)
    returns (r: Result<Roster>)
    ensures r == if WellDated(svs) then Ok(Upserted(Roster(vs, nextVersionId), svs, pluginId, now)) else Err(Invalid)
  {
    hide UpsertOne;
    var versions, next := vs, nextVersionId;
    for i := 0 to |svs|
      invariant WellDated(svs[..i])
      invariant Roster(versions, next) == Upserted(Roster(vs, nextVersionId), svs[..i], pluginId, now)
    {
      var sv := svs[i];
      assert svs[..i + 1][..i] == svs[..i];
      if sv.releaseDate.Malformed? {
        return Err(Invalid);
      }
      versions, next := UpsertVersion(versions, next, sv, pluginId, now);
    }
    assert svs[..|svs|] == svs;
    return Ok(Roster(versions, next));
  }

  method UpsertVersion(vs: seq<PluginVersion>, nextVersionId: int, sv: SeedVersion, pluginId: int, now: int)
    returns (versions: seq<PluginVersion>, next: int)
    ensures Roster(versions, next) == UpsertOne(Roster(vs, nextVersionId), sv, pluginId, now)
  {
    versions, next := vs, nextVersionId;
    var index := 0;
    while index < |versions| && versions[index].version != sv.version
      invariant 0 <= index <= |versions|
      invariant NameIndex(versions, sv.version) == index + NameIndex(versions[index..], sv.version)
    {
      index := index + 1;
    }
    if index == |versions| {
      versions := versions + [BlankVersion(next, pluginId, sv.version, now)];
      next := next + 1;
    }
    versions := versions[index := Overlaid(versions[index], sv, pluginId)];
  }

  // ----- one plugin ------------------------------------------------------------------------------------

  function NewPlugin(id: int, now: int): Plugin {
    Plugin(id, "", "", [], "", "", "", "", "", ACTIVE, [], [], "", "", 0, 0, now, None)
  }

  function WithSeed(p: Plugin, seed: SeedPlugin): Plugin {
    p.(namespace := seed.namespace, name := seed.name, aliases := Normalized(seed.aliases),
       description := seed.description,
       author := seed.author, category := seed.category, repository := seed.repository, license := seed.license,
       tags := seed.tags, status := if p.status == "" then ACTIVE else p.status)
  }

  /** The record the seed updates, or a new one. */
  function Base(w: Working, seed: SeedPlugin, now: int): Plugin {
    var i := MatchIndex(w.all, seed);
    if i < |w.all| then w.all[i] else NewPlugin(w.nextPluginId, now)
  }

  ghost predicate FreeInList(all: seq<Plugin>, keys: seq<string>, except: int) {
    forall p :: p in all && p.Live() && p.id != except ==> !Clash(keys, Keys(p))
  }

  function SeededVersions(c: Plugin, seed: SeedPlugin, nextVersionId: int, now: int): Roster {
    Upserted(Roster(c.versions, nextVersionId), seed.versions, c.id, now)
  }

  /** The versions are sorted once on their own and once more by the refresh. */
  function SeededPlugin(c: Plugin, versions: seq<PluginVersion>): Plugin {
    Refreshed(c.(versions := SortVersions(versions)))
  }

  ghost function Applied(w: Working, seed: SeedPlugin, now: int): Result<Working> {
    var i := MatchIndex(w.all, seed);
    var c := WithSeed(Base(w, seed, now), seed);
    if !Distinct(Keys(c)) || !FreeInList(w.all, Keys(c), c.id) then Err(Duplicate)
    else if !WellDated(seed.versions) then Err(Invalid)
    else
      var r := SeededVersions(c, seed, w.nextVersionId, now);
      var p := SeededPlugin(c, r.versions);
      Ok(if i < |w.all| then Working(w.all[i := p], w.nextPluginId, r.nextVersionId)
         else Working(w.all + [p], w.nextPluginId + 1, r.nextVersionId))
  }

  method ApplySeedPlugin(w: Working, seed: SeedPlugin, now: int) returns (r: Result<Working>)
    ensures r == Applied(w, seed, now)
  {
    hide Keys, Clash, Upserted, SortVersions, Refreshed, EqualFold, Normalized;
    var existing := 0;
    while existing < |w.all| && !Matches(w.all[existing], seed)
      invariant 0 <= existing <= |w.all|
      invariant MatchIndex(w.all, seed) == existing + MatchIndex(w.all[existing..], seed)
    {
      existing := existing + 1;
    }
    var nextPluginId := w.nextPluginId;
    var candidate;
    if existing == |w.all| {
      candidate := NewPlugin(nextPluginId, now);
      nextPluginId := nextPluginId + 1;
    } else {
      candidate := w.all[existing];
    }
    var aliases := NormalizeAliases(seed.aliases);
    candidate := candidate.(namespace := seed.namespace, name := seed.name, aliases := aliases);
    candidate := candidate.(description := seed.description, author := seed.author, category := seed.category);
    candidate := candidate.(repository := seed.repository, license := seed.license, tags := seed.tags);
    if candidate.status == "" {
      candidate := candidate.(status := ACTIVE);
    }
    assert candidate == WithSeed(Base(w, seed, now), seed);
    var unique := EnsureUniqueIdentity(w.all, candidate, candidate.id);
    if !unique {
      return Err(Duplicate);
    }
    var roster := UpsertVersions(candidate.versions, w.nextVersionId, seed.versions, candidate.id, now);
    if roster.Err? {
      return Err(roster.error);
    }
    var list := ToSorted(roster.value.versions);
    candidate := RefreshLatest(candidate.(versions := list));
    return Ok(Working(if existing == |w.all| then w.all + [candidate] else w.all[existing := candidate],
                      nextPluginId, roster.value.nextVersionId));
  }

  method ToSorted(vs: seq<PluginVersion>) returns (r: seq<PluginVersion>)
    ensures r == SortVersions(vs)
  {
    var list := new PluginVersion[|vs|](i requires 0 <= i < |vs| => vs[i]);
    assert list[..] == vs;
    SortPluginVersions(list);
    return list[..];
  }

  // ----- the whole catalogue ------------------------------------------------------------------------------

  ghost function AppliedAll(w: Working, seeds: seq<SeedPlugin>, now: int): Result<Working> {
    if seeds == [] then Ok(w)
    else
      match AppliedAll(w, seeds[..|seeds| - 1], now)
      case Err(e) => Err(e)
      case Ok(w') => Applied(w', seeds[|seeds| - 1], now)
  }

  lemma {:induction false} ErrorStays(w: Working, seeds: seq<SeedPlugin>, now: int, i: nat)
    requires i <= |seeds| && AppliedAll(w, seeds[..i], now).Err?
    ensures AppliedAll(w, seeds, now) == AppliedAll(w, seeds[..i], now)
    decreases |seeds|
  {
    hide Applied;
    if i == |seeds| {
      assert seeds[..i] == seeds;
    } else {
      assert seeds[..|seeds| - 1][..i] == seeds[..i];
      ErrorStays(w, seeds[..|seeds| - 1], now, i);
    }
  }

  function NextPluginIdAfter(all: seq<Plugin>, next: int): int {
    if all == [] then next
    else
      var before := NextPluginIdAfter(all[..|all| - 1], next);
      if all[|all| - 1].id >= before then all[|all| - 1].id + 1 else before
  }

  function NextAfterVersions(vs: seq<PluginVersion>, next: int): int {
    if vs == [] then next
    else
      var before := NextAfterVersions(vs[..|vs| - 1], next);
      if vs[|vs| - 1].id >= before then vs[|vs| - 1].id + 1 else before
  }

  function NextVersionIdAfter(all: seq<Plugin>, next: int): int {
    if all == [] then next else NextAfterVersions(all[|all| - 1].versions, NextVersionIdAfter(all[..|all| - 1], next))
  }

  /** The counters are moved past every stored id before any new id is handed out. */
  function Start(s: Store, order: seq<int>): Working
    requires forall i :: 0 <= i < |order| ==> order[i] in s.plugins
  {
    var all := Loaded(s.plugins, order);
    Working(all, NextPluginIdAfter(all, s.nextPluginId), NextVersionIdAfter(all, s.nextVersionId))
  }

  /** The files of a snapshot, one per plugin id. */
  function ById(all: seq<Plugin>): Plugins {
    if all == [] then map[] else ById(all[..|all| - 1])[all[|all| - 1].id := all[|all| - 1]]
  }

  datatype ImportResult = ImportResult(plugins: nat, versions: nat)

  function TotalVersions(seeds: seq<SeedPlugin>): nat {
    if seeds == [] then 0 else TotalVersions(seeds[..|seeds| - 1]) + |seeds[|seeds| - 1].versions|
  }

  /** `installed` is the outcome of installing the snapshot on disk. */
  ghost function Imported(s: Store, order: seq<int>, seeds: seq<SeedPlugin>, now: int, installed: bool): (Store,
                          Result<ImportResult>)
    requires forall i :: 0 <= i < |order| ==> order[i] in s.plugins
  {
    match AppliedAll(Start(s, order), seeds, now)
    case Err(e) => (s, Err(e))
    case Ok(w) =>
      if !installed then (s, Err(Storage))
      else (Store(ById(w.all), w.nextPluginId, w.nextVersionId), Ok(ImportResult(|seeds|, TotalVersions(seeds))))
  }

  method MoveCountersPast(all: seq<Plugin>, nextPluginId: int, nextVersionId: int) returns (np: int, nv: int)
    ensures np == NextPluginIdAfter(all, nextPluginId) && nv == NextVersionIdAfter(all, nextVersionId)
  {
    np, nv := nextPluginId, nextVersionId;
    for i := 0 to |all|
      invariant np == NextPluginIdAfter(all[..i], nextPluginId) && nv == NextVersionIdAfter(all[..i], nextVersionId)
    {
      assert all[..i + 1][..i] == all[..i];
      if all[i].id >= np {
        np := all[i].id + 1;
      }
      var vs := all[i].versions;
      ghost var before := nv;
      for j := 0 to |vs|
        invariant nv == NextAfterVersions(vs[..j], before)
      {
        assert vs[..j + 1][..j] == vs[..j];
        if vs[j].id >= nv {
          nv := vs[j].id + 1;
        }
      }
      assert vs[..|vs|] == vs;
    }
    assert all[..|all|] == all;
  }

  /** Everything up to the install: the catalogue goes into a loaded copy, or the first entry that does not fit says
      why. */
  method PrepareImport(repo: FileRepository, seeds: seq<SeedPlugin>, order: seq<int>, now: int)
    returns (r: Result<Working>, counted: ImportResult)
    requires IsListing(order, repo.plugins)
    ensures r == AppliedAll(Start(repo.View(), order), seeds, now)
    ensures r.Ok? ==> counted == ImportResult(|seeds|, TotalVersions(seeds))
  {
    hide Applied, Loaded;
    var all := repo.LoadAll(order);
    var np, nv := MoveCountersPast(all, repo.nextPluginId, repo.nextVersionId);
    var w := Working(all, np, nv);
    ghost var start := w;
    counted := ImportResult(0, 0);
    for i := 0 to |seeds|
      invariant AppliedAll(start, seeds[..i], now) == Ok(w)
      invariant counted == ImportResult(i, TotalVersions(seeds[..i]))
    {
      assert seeds[..i + 1][..i] == seeds[..i];
      var next := ApplySeedPlugin(w, seeds[i], now);
      if next.Err? {
        ErrorStays(start, seeds, now, i + 1);
        return Err(next.error), counted;
      }
      w := next.value;
      counted := ImportResult(counted.plugins + 1, counted.versions + |seeds[i].versions|);
    }
    assert seeds[..|seeds|] == seeds;
    return Ok(w), counted;
  }
}
