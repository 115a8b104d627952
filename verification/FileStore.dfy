/** The file-backed plugin store of api/repository/file_repo.go: one record per plugin, two id counters, and the
    operations that load a record, change it and save it. A directory listing may come in any order, and any
    single write may fail. */
module FileStore {
  import opened Text
  import opened Sorting
  import opened Models
  import opened Releases
  import opened Identity
  import opened Ownership

  datatype Store = Store(plugins: Plugins, nextPluginId: int, nextVersionId: int)

  /** Which write of an operation fails: the metadata file or the plugin file. */
  datatype Fault = NoFault | MetaFault | PluginFault

  const EMPTY: Store := Store(map[], 1, 1)

  // ----- reading --------------------------------------------------------------------------------

  predicate IsLive(s: Store, id: int) {
    id in s.plugins && s.plugins[id].Live()
  }

  /** A directory listing names every stored plugin once, in some order. */
  ghost predicate IsListing(order: seq<int>, plugins: Plugins) {
    && Distinct(order)
    && (forall i :: 0 <= i < |order| ==> order[i] in plugins)
    && (forall id :: id in plugins ==> id in order)
  }

  /** What loadAll returns for a listing. */
  function Loaded(plugins: Plugins, order: seq<int>): (all: seq<Plugin>)
    requires forall i :: 0 <= i < |order| ==> order[i] in plugins
    ensures |all| == |order|
  {
    seq(|order|, i requires 0 <= i < |order| => Refreshed(plugins[order[i]]))
  }

  lemma RefreshedIdentity(p: Plugin)
    ensures Keys(Refreshed(p)) == Keys(p) && Refreshed(p).Live() == p.Live() && Refreshed(p).id == p.id
  {
  }

  /** A loaded listing has the same identities as the stored records, in any order. */
  lemma ListingDecides(plugins: Plugins, order: seq<int>, keys: seq<string>, except: int)
    requires IsListing(order, plugins) && forall id :: id in plugins ==> plugins[id].id == id
    ensures Free(plugins, keys, except) <==>
      forall p :: p in Loaded(plugins, order) && p.Live() && p.id != except ==> !Clash(keys, Keys(p))
  {
    hide Keys, Refreshed, Clash;
    var all := Loaded(plugins, order);
    forall i | 0 <= i < |order|
      ensures all[i].id == order[i] && all[i].Live() == plugins[order[i]].Live()
      ensures Keys(all[i]) == Keys(plugins[order[i]])
    {
      RefreshedIdentity(plugins[order[i]]);
    }
    if Free(plugins, keys, except) {
      forall p | p in all && p.Live() && p.id != except
        ensures !Clash(keys, Keys(p))
      {
        var i :| 0 <= i < |all| && all[i] == p;
      }
    } else {
      var id :| id in plugins && plugins[id].Live() && id != except && Clash(keys, Keys(plugins[id]));
      var i :| 0 <= i < |order| && order[i] == id;
      assert all[i] in all;
    }
  }

  // ----- what each operation does ----------------------------------------------------------------

  /** A plugin may take these references: they are distinct and belong to no other live plugin. */
  ghost predicate MayClaim(plugins: Plugins, p: Plugin, except: int) {
    Distinct(Keys(p)) && Free(plugins, Keys(p), except)
  }

  ghost function Created(s: Store, plugin: Plugin, now: int, fault: Fault): (Store, Result<int>) {
    var p := plugin.(aliases := Normalized(plugin.aliases));
    var id := s.nextPluginId;
    if !MayClaim(s.plugins, p, 0) then (s, Err(Duplicate))
    else if fault.MetaFault? then (s, Err(Storage))
    else if fault.PluginFault? then (s.(nextPluginId := id + 1), Err(Storage))
    else (s.(nextPluginId := id + 1, plugins := s.plugins[id := p.(id := id, createdAt := now)]), Ok(id))
  }

  /** The fields that an update carries over. */
  function WithMetadata(p: Plugin, q: Plugin, aliases: seq<string>): Plugin {
    p.(namespace := q.namespace, name := q.name, aliases := aliases, description := q.description, author := q.author,
       category := q.category, repository := q.repository, license := q.license, tags := q.tags)
  }

  ghost function Updated(s: Store, plugin: Plugin, fault: Fault): (Store, Result<()>) {
    var p := plugin.(aliases := Normalized(plugin.aliases));
    if !IsLive(s, plugin.id) then (s, Err(NotFound))
    else if !MayClaim(s.plugins, p, plugin.id) then (s, Err(Duplicate))
    else Stored(s, plugin.id, WithMetadata(Refreshed(s.plugins[plugin.id]), p, p.aliases), fault)
  }

  /** Saving a plugin record. */
  function Stored(s: Store, id: int, p: Plugin, fault: Fault): (Store, Result<()>) {
    if fault.PluginFault? then (s, Err(Storage)) else (s.(plugins := s.plugins[id := p]), Ok(()))
  }

  function Cascaded(vs: seq<PluginVersion>, now: int): (r: seq<PluginVersion>)
    ensures |r| == |vs|
  {
    seq(|vs|, i requires 0 <= i < |vs| => if vs[i].deletedAt.Some? then vs[i] else vs[i].(deletedAt := Some(now)))
  }

  datatype PluginDeletion = PluginDeletion(pluginId: int, anonymizeAuthor: bool, cascadeVersions: bool)

  function Deleted(s: Store, spec: PluginDeletion, now: int, fault: Fault): (Store, Result<()>) {
    if !IsLive(s, spec.pluginId) then (s, Err(NotFound))
    else
      var p := Refreshed(s.plugins[spec.pluginId]);
      var q := p.(deletedAt := Some(now),
                  author := if spec.anonymizeAuthor then "" else p.author,
                  versions := if spec.cascadeVersions then Cascaded(p.versions, now) else p.versions);
      Stored(s, spec.pluginId, q, fault)
  }

  /** The comparison AddVersion sorts by before saving; every load sorts again. */
  predicate AddedBefore(l: PluginVersion, r: PluginVersion) {
    if l.releaseDate.Some? && r.releaseDate.Some? && l.releaseDate != r.releaseDate
    then l.releaseDate.value > r.releaseDate.value
    else if l.releaseDate.Some? && r.releaseDate.None? then true
    else if l.releaseDate.None? && r.releaseDate.Some? then false
    else l.createdAt > r.createdAt
  }

  function ByAddition(): (PluginVersion, PluginVersion) -> bool {
    (l, r) => AddedBefore(l, r)
  }

  predicate HasVersion(p: Plugin, version: string) {
    exists i :: 0 <= i < |p.versions| && p.versions[i].version == version
  }

  function VersionAdded(s: Store, version: PluginVersion, now: int, fault: Fault): (Store, Result<int>) {
    var id := s.nextVersionId;
    if !IsLive(s, version.pluginId) then (s, Err(NotFound))
    else
      var p := Refreshed(s.plugins[version.pluginId]);
      if HasVersion(p, version.version) then (s, Err(Duplicate))
      else if fault.MetaFault? then (s, Err(Storage))
      else if fault.PluginFault? then (s.(nextVersionId := id + 1), Err(Storage))
      else
        var v := version.(id := id, createdAt := now);
        var q := p.(versions := Sort(ByAddition(), p.versions + [v]));
        (s.(nextVersionId := id + 1, plugins := s.plugins[version.pluginId := q]), Ok(id))
  }

  /** The first version with this id that is not deleted, or the length of the list. */
  function LiveVersionIndex(vs: seq<PluginVersion>, versionId: int): (i: nat)
    ensures i <= |vs|
    ensures i < |vs| ==> vs[i].id == versionId && vs[i].deletedAt.None?
    ensures forall k :: 0 <= k < i ==> vs[k].id != versionId || vs[k].deletedAt.Some?
  {
    if vs == [] || (vs[0].id == versionId && vs[0].deletedAt.None?) then 0 else 1 + LiveVersionIndex(vs[1..], versionId)
  }

  /** The first version with this id, or the length of the list. */
  function VersionIndex(vs: seq<PluginVersion>, versionId: int): (i: nat)
    ensures i <= |vs|
    ensures i < |vs| ==> vs[i].id == versionId
    ensures forall k :: 0 <= k < i ==> vs[k].id != versionId
  {
    if vs == [] || vs[0].id == versionId then 0 else 1 + VersionIndex(vs[1..], versionId)
  }

  datatype Yank = Yank(pluginId: int, versionId: int, yanked: bool, actor: string, reason: string)

  /** Yanking again keeps the first timestamp; lifting a yank clears all three fields. */
  function Yanked(v: PluginVersion, spec: Yank, now: int): PluginVersion {
    if spec.yanked
    then v.(yankedAt := if v.yankedAt.Some? then v.yankedAt else Some(now), yankedBy := spec.actor,
            yankedReason := spec.reason)
    else v.(yankedAt := None, yankedBy := "", yankedReason := "")
  }

  function YankSet(s: Store, spec: Yank, now: int, fault: Fault): (Store, Result<()>) {
    if !IsLive(s, spec.pluginId) then (s, Err(NotFound))
    else
      var p := Refreshed(s.plugins[spec.pluginId]);
      var i := LiveVersionIndex(p.versions, spec.versionId);
      if i == |p.versions| then (s, Err(NotFound))
      else Stored(s, spec.pluginId, p.(versions := p.versions[i := Yanked(p.versions[i], spec, now)]), fault)
  }

  /** A version id that exists but is deleted stops the search; so does the first live one. */
  function VersionDeleted(s: Store, pluginId: int, versionId: int, now: int, fault: Fault): (Store, Result<()>) {
    if !IsLive(s, pluginId) then (s, Err(NotFound))
    else
      var p := Refreshed(s.plugins[pluginId]);
      var i := VersionIndex(p.versions, versionId);
      if i == |p.versions| || p.versions[i].deletedAt.Some? then (s, Err(NotFound))
      else Stored(s, pluginId, p.(versions := p.versions[i := p.versions[i].(deletedAt := Some(now))]), fault)
  }

  function VersionCounted(vs: seq<PluginVersion>, versionId: int, views: int, downloads: int): (r: seq<PluginVersion>)
    ensures |r| == |vs|
  {
    var i := VersionIndex(vs, versionId);
    if versionId <= 0 || i == |vs| then vs
    else vs[i := vs[i].(views := vs[i].views + views, downloads := vs[i].downloads + downloads)]
  }

  function CountersIncremented(s: Store, pluginId: int, versionId: int, views: int, downloads: int,
                               fault: Fault): (Store, Result<()>) {
    if !IsLive(s, pluginId) then (s, Err(NotFound))
    else
      var p := Refreshed(s.plugins[pluginId]);
      Stored(s, pluginId, p.(views := p.views + views, downloads := p.downloads + downloads,
                             versions := VersionCounted(p.versions, versionId, views, downloads)), fault)
  }

  // ----- the class -----------------------------------------------------------------------------

  class FileRepository {
    var plugins: Plugins
    var nextPluginId: int
    var nextVersionId: int

    constructor ()
      ensures View() == EMPTY
    {
      plugins, nextPluginId, nextVersionId := map[], 1, 1;
    }

    function View(): Store
      reads this
    {
      Store(plugins, nextPluginId, nextVersionId)
    }

    method LoadPlugin(id: int) returns (r: Result<Plugin>)
      ensures r == if id in plugins then Ok(Refreshed(plugins[id])) else Err(NotFound)
    {
      if id !in plugins {
        return Err(NotFound);
      }
      var p := RefreshLatest(plugins[id]);
      return Ok(p);
    }

    method LoadLive(id: int) returns (r: Result<Plugin>)
      ensures r == if IsLive(View(), id) then Ok(Refreshed(plugins[id])) else Err(NotFound)
    {
      hide SortVersions;
      r := LoadPlugin(id);
      if r.Ok? && !r.value.Live() {
        return Err(NotFound);
      }
    }

    method LoadAll(order: seq<int>) returns (all: seq<Plugin>)
      requires IsListing(order, plugins)
      ensures all == Loaded(plugins, order)
    {
      hide Refreshed;
      all := [];
      for i := 0 to |order|
        invariant all == Loaded(plugins, order)[..i]
      {
        var p := RefreshLatest(plugins[order[i]]);
        all := all + [p];
      }
    }

    method SavePlugin(p: Plugin, fault: Fault) returns (r: Result<()>)
      modifies this`plugins
      ensures (View(), r) == Stored(old(View()), p.id, p, fault)
    {
      if fault.PluginFault? {
        return Err(Storage);
      }
      plugins := plugins[p.id := p];
      return Ok(());
    }

    /** The uniqueness check over a listing decides MayClaim, whatever the order. */
    method CheckIdentity(order: seq<int>, candidate: Plugin, excludeID: int) returns (ok: bool)
      requires IsListing(order, plugins)
      requires forall id :: id in plugins ==> plugins[id].id == id
      ensures ok <==> MayClaim(plugins, candidate, excludeID)
    {
      hide Keys, Loaded, Clash;
      var all := LoadAll(order);
      ok := EnsureUniqueIdentity(all, candidate, excludeID);
      ListingDecides(plugins, order, Keys(candidate), excludeID);
    }

    method Create(plugin: Plugin, order: seq<int>, now: int, fault: Fault) returns (r: Result<int>)
      requires IsListing(order, plugins)
      requires forall id :: id in plugins ==> plugins[id].id == id
      modifies this
      ensures (View(), r) == Created(old(View()), plugin, now, fault)
    {
      hide MayClaim, Normalized;
      var aliases := NormalizeAliases(plugin.aliases);
      var p := plugin.(aliases := aliases);
      var unique := CheckIdentity(order, p, 0);
      if !unique {
        return Err(Duplicate);
      }
      p := p.(id := nextPluginId, createdAt := now);
      if fault.MetaFault? {
        return Err(Storage);
      }
      nextPluginId := nextPluginId + 1;
      var saved := SavePlugin(p, fault);
      if saved.Err? {
        return Err(saved.error);
      }
      return Ok(p.id);
    }

    method Update(plugin: Plugin, order: seq<int>, fault: Fault) returns (r: Result<()>)
      requires IsListing(order, plugins)
      requires forall id :: id in plugins ==> plugins[id].id == id
      modifies this
      ensures (View(), r) == Updated(old(View()), plugin, fault)
    {
      hide MayClaim, Normalized;
      hide SortVersions;
      var existing := LoadLive(plugin.id);
      if existing.Err? {
        return Err(existing.error);
      }
      var aliases := NormalizeAliases(plugin.aliases);
      var p := plugin.(aliases := aliases);
      var unique := CheckIdentity(order, p, plugin.id);
      if !unique {
        return Err(Duplicate);
      }
      var e := existing.value;
      e := e.(namespace := p.namespace, name := p.name, aliases := p.aliases);
      e := e.(description := p.description, author := p.author, category := p.category);
      e := e.(repository := p.repository, license := p.license, tags := p.tags);
      r := SavePlugin(e, fault);
    }

    method Delete(spec: PluginDeletion, now: int, fault: Fault) returns (r: Result<()>)
      requires forall id :: id in plugins ==> plugins[id].id == id
      modifies this
      ensures (View(), r) == Deleted(old(View()), spec, now, fault)
    {
      hide SortVersions;
      var found := LoadLive(spec.pluginId);
      if found.Err? {
        return Err(found.error);
      }
      var p := found.value.(deletedAt := Some(now));
      if spec.anonymizeAuthor {
        p := p.(author := "");
      }
      if spec.cascadeVersions {
        var versions := Cascade(p.versions, now);
        p := p.(versions := versions);
      }
      r := SavePlugin(p, fault);
    }

    static method Cascade(vs: seq<PluginVersion>, now: int) returns (versions: seq<PluginVersion>)
      ensures versions == Cascaded(vs, now)
    {
      versions := vs;
      for i := 0 to |versions|
        invariant |versions| == |vs|
        invariant versions[..i] == Cascaded(vs, now)[..i] && versions[i..] == vs[i..]
      {
        assert versions[i] == versions[i..][0] && versions[i + 1..] == versions[i..][1..];
        if versions[i].deletedAt.Some? {
          continue;
        }
        versions := versions[i := versions[i].(deletedAt := Some(now))];
      }
    }

    method AddVersion(version: PluginVersion, now: int, fault: Fault) returns (r: Result<int>)
      requires forall id :: id in plugins ==> plugins[id].id == id
      modifies this
      ensures (View(), r) == VersionAdded(old(View()), version, now, fault)
    {
      hide SortVersions, Sort;
      var found := LoadLive(version.pluginId);
      if found.Err? {
        return Err(found.error);
      }
      var p := found.value;
      for i := 0 to |p.versions|
        invariant forall k :: 0 <= k < i ==> p.versions[k].version != version.version
      {
        if p.versions[i].version == version.version {
          return Err(Duplicate);
        }
      }
      var v := version.(id := nextVersionId, createdAt := now);
      if fault.MetaFault? {
        return Err(Storage);
      }
      nextVersionId := nextVersionId + 1;
      var all := p.versions + [v];
      var list := new PluginVersion[|all|](i requires 0 <= i < |all| => all[i]);
      assert list[..] == all;
      SortInPlace(ByAddition(), list);
      var saved := SavePlugin(p.(versions := list[..]), fault);
      if saved.Err? {
        return Err(saved.error);
      }
      return Ok(v.id);
    }

    method SetVersionYank(spec: Yank, now: int, fault: Fault) returns (r: Result<()>)
      requires forall id :: id in plugins ==> plugins[id].id == id
      modifies this
      ensures (View(), r) == YankSet(old(View()), spec, now, fault)
    {
      hide SortVersions;
      var found := LoadLive(spec.pluginId);
      if found.Err? {
        return Err(found.error);
      }
      var p := found.value;
      for i := 0 to |p.versions|
        invariant LiveVersionIndex(p.versions, spec.versionId) == i + LiveVersionIndex(p.versions[i..], spec.versionId)
      {
        if p.versions[i].id != spec.versionId || p.versions[i].deletedAt.Some? {
          continue;
        }
        var v := p.versions[i];
        if spec.yanked {
          if v.yankedAt == None {
            v := v.(yankedAt := Some(now));
          }
          v := v.(yankedBy := spec.actor, yankedReason := spec.reason);
        } else {
          v := v.(yankedAt := None, yankedBy := "", yankedReason := "");
        }
        r := SavePlugin(p.(versions := p.versions[i := v]), fault);
        return;
      }
      return Err(NotFound);
    }

    method DeleteVersion(pluginId: int, versionId: int, now: int, fault: Fault) returns (r: Result<()>)
      requires forall id :: id in plugins ==> plugins[id].id == id
      modifies this
      ensures (View(), r) == VersionDeleted(old(View()), pluginId, versionId, now, fault)
    {
      hide SortVersions;
      var found := LoadLive(pluginId);
      if found.Err? {
        return Err(found.error);
      }
      var p := found.value;
      for i := 0 to |p.versions|
        invariant VersionIndex(p.versions, versionId) == i + VersionIndex(p.versions[i..], versionId)
      {
        if p.versions[i].id != versionId {
          continue;
        }
        if p.versions[i].deletedAt.Some? {
          return Err(NotFound);
        }
        var versions := p.versions[i := p.versions[i].(deletedAt := Some(now))];
        r := SavePlugin(p.(versions := versions), fault);
        return;
      }
      return Err(NotFound);
    }

    method IncrCounters(pluginId: int, versionId: int, views: int, downloads: int, fault: Fault) returns (r: Result<()>)
      requires forall id :: id in plugins ==> plugins[id].id == id
      modifies this
      ensures (View(), r) == CountersIncremented(old(View()), pluginId, versionId, views, downloads, fault)
    {
      hide SortVersions;
      var found := LoadLive(pluginId);
      if found.Err? {
        return Err(found.error);
      }
      var p := found.value;
      p := p.(views := p.views + views, downloads := p.downloads + downloads);
      if versionId > 0 {
        var vs := p.versions;
        for i := 0 to |vs|
          invariant p.versions == vs
          invariant VersionIndex(vs, versionId) == i + VersionIndex(vs[i..], versionId)
        {
          if vs[i].id == versionId {
            var v := vs[i].(views := vs[i].views + views, downloads := vs[i].downloads + downloads);
            p := p.(versions := vs[i := v]);
            break;
          }
        }
        assert p.versions == VersionCounted(vs, versionId, views, downloads);
      }
      r := SavePlugin(p, fault);
    }
  }
}
