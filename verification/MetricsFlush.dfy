/** What a flush does with a batch: the file backend raises counters key by key (fileMetricsRecorder.flushBatch),
    the database backend counts totals and days (asyncMetricsRecorder.flushBatch of api/service/metrics.go). */
module MetricsFlush {
  import opened Text
  import opened Sorting
  import opened Models
  import opened Releases
  import opened Ownership
  import opened FileStore
  import opened StoreInvariant
  import opened MetricsRecorder

  // ----- counting --------------------------------------------------------------------------------------

  /** Which events to count: absent fields match anything. */
  datatype Query = Query(plugin: Option<int>, version: Option<int>, day: Option<string>, download: bool)

  predicate Hits(e: Event, q: Query) {
    (q.plugin.Some? ==> e.pluginId == q.plugin.value) && (q.version.Some? ==> e.versionId == q.version.value) &&
    (q.day.Some? ==> e.day == q.day.value) && e.kind.Download? == q.download
  }

  function Count(events: seq<Event>, q: Query): nat {
    if events == [] then 0
    else Count(events[..|events| - 1], q) + if Hits(events[|events| - 1], q) then 1 else 0
  }

  datatype Key = Key(pluginId: int, versionId: int)

  function KeyOf(e: Event): Key {
    Key(e.pluginId, e.versionId)
  }

  function OfKey(k: Key, download: bool): Query {
    Query(Some(k.pluginId), Some(k.versionId), None, download)
  }

  function OfPlugin(id: int, download: bool): Query {
    Query(Some(id), None, None, download)
  }

  datatype Counters = Counters(views: nat, downloads: nat)

  function KeyCounters(events: seq<Event>, k: Key): Counters {
    Counters(Count(events, OfKey(k, false)), Count(events, OfKey(k, true)))
  }

  function KeySet(events: seq<Event>): set<Key> {
    set e | e in events :: KeyOf(e)
  }

  function Totals(events: seq<Event>): map<Key, Counters> {
    map k | k in KeySet(events) :: KeyCounters(events, k)
  }

  function Bumped(c: Counters, e: Event): Counters {
    if e.kind.Download? then c.(downloads := c.downloads + 1) else c.(views := c.views + 1)
  }

  lemma {:induction false} NoneCounted(events: seq<Event>, k: Key)
    requires k !in KeySet(events)
    ensures KeyCounters(events, k) == Counters(0, 0)
  {
    if events != [] {
      assert events[|events| - 1] in events && KeyOf(events[|events| - 1]) in KeySet(events);
      assert forall e :: e in events[..|events| - 1] ==> e in events;
      NoneCounted(events[..|events| - 1], k);
    }
  }

  lemma TotalsStep(events: seq<Event>, e: Event)
    ensures var k := KeyOf(e);
      var c := if k in Totals(events) then Totals(events)[k] else Counters(0, 0);
      Totals(events + [e]) == Totals(events)[k := Bumped(c, e)]
  {
    var all, k := events + [e], KeyOf(e);
    assert all[..|all| - 1] == events;
    assert KeySet(all) == KeySet(events) + {k};
    if k !in KeySet(events) {
      NoneCounted(events, k);
    }
    forall j | j in KeySet(all)
      ensures KeyCounters(all, j) == if j == k then Bumped(KeyCounters(events, k), e) else KeyCounters(events, j)
    {
    }
  }

  method Tally(events: seq<Event>) returns (totals: map<Key, Counters>)
    ensures totals == Totals(events)
  {
    hide Totals;
    totals := map[];
    assert totals == Totals([]) by { NoTotals(); }
    for i := 0 to |events|
      invariant totals == Totals(events[..i])
    {
      var ev := events[i];
      assert events[..i + 1] == events[..i] + [ev];
      TotalsStep(events[..i], ev);
      var key := KeyOf(ev);
      if key !in totals {
        totals := totals[key := Counters(0, 0)];
      }
      totals := totals[key := Bumped(totals[key], ev)];
    }
    assert events[..|events|] == events;
  }

  lemma NoTotals()
    ensures Totals([]) == map[]
  {
  }

  // ----- the file backend ----------------------------------------------------------------------------------

  /** One write per key, in the order the map yields them; a failing write is logged and skipped. */
  function FlushedTo(s: Store, events: seq<Event>, keys: seq<Key>, failing: set<Key>): Store {
    if keys == [] then s
    else
      var k := keys[|keys| - 1];
      var before := FlushedTo(s, events, keys[..|keys| - 1], failing);
      var c := KeyCounters(events, k);
      var fault := if k in failing then PluginFault else NoFault;
      CountersIncremented(before, k.pluginId, k.versionId, c.views, c.downloads, fault).0
  }

  ghost predicate IsKeyOrder(keys: seq<Key>, events: seq<Event>) {
    Distinct(keys) && forall k :: k in keys <==> k in KeySet(events)
  }

  method FlushBatch(repo: FileRepository, events: seq<Event>, keys: seq<Key>, failing: set<Key>)
    requires IsKeyOrder(keys, events) && forall id :: id in repo.plugins ==> repo.plugins[id].id == id
    modifies repo
    ensures repo.View() == FlushedTo(old(repo.View()), events, keys, failing)
  {
    hide CountersIncremented, KeyCounters;
    var totals := Tally(events);
    for i := 0 to |keys|
      invariant repo.View() == FlushedTo(old(repo.View()), events, keys[..i], failing)
      invariant forall id :: id in repo.plugins ==> repo.plugins[id].id == id
    {
      assert keys[..i + 1][..i] == keys[..i];
      var key := keys[i];
      assert key in keys;
      var c := totals[key];
      var fault := if key in failing then PluginFault else NoFault;
      IncrementKeepsIds(repo.View(), key, c, fault);
      var _ := repo.IncrCounters(key.pluginId, key.versionId, c.views, c.downloads, fault);
    }
    assert keys[..|keys|] == keys;
  }

  lemma IncrementKeepsIds(s: Store, k: Key, c: Counters, fault: Fault)
    requires forall id :: id in s.plugins ==> s.plugins[id].id == id
    ensures var t := CountersIncremented(s, k.pluginId, k.versionId, c.views, c.downloads, fault).0;
      forall id :: id in t.plugins ==> t.plugins[id].id == id
  {
    hide SortVersions, VersionCounted;
  }

  // ----- what one write does -----------------------------------------------------------------------------------

  function Raised(v: PluginVersion, c: Counters): PluginVersion {
    v.(views := v.views + c.views, downloads := v.downloads + c.downloads)
  }

  predicate OnlyCountersDiffer(p: Plugin, q: Plugin) {
    q == p.(views := q.views, downloads := q.downloads, versions := q.versions, latestVersion := q.latestVersion,
            latestSemrelCore := q.latestSemrelCore)
  }

  const NOTHING := Counters(0, 0)

  lemma CountedRaises(vs: seq<PluginVersion>, versionId: int, c: Counters, v: PluginVersion)
    requires TellApart(vs) && v in vs && v.id >= 1
    ensures Raised(v, if v.id == versionId then c else NOTHING) in VersionCounted(vs, versionId, c.views, c.downloads)
  {
    hide VersionIndex;
    var ws, i := VersionCounted(vs, versionId, c.views, c.downloads), VersionIndex(vs, versionId);
    var k :| 0 <= k < |vs| && vs[k] == v;
    assert ws[k] == Raised(v, if v.id == versionId then c else NOTHING);
    assert ws[k] in ws;
  }

  /** One write raises the plugin it names and, within it, the version it names; nothing else differs. */
  lemma WriteRaises(s: Store, k: Key, c: Counters, fault: Fault, id: int)
    requires Inv(s) && IsLive(s, id)
    ensures var t := CountersIncremented(s, k.pluginId, k.versionId, c.views, c.downloads, fault).0;
      var hit := k.pluginId == id && !fault.PluginFault?;
      IsLive(t, id) && OnlyCountersDiffer(s.plugins[id], t.plugins[id]) &&
      t.plugins[id].views == s.plugins[id].views + (if hit then c.views else 0) &&
      t.plugins[id].downloads == s.plugins[id].downloads + (if hit then c.downloads else 0) &&
      |t.plugins[id].versions| == |s.plugins[id].versions| &&
      forall v :: v in s.plugins[id].versions ==>
        Raised(v, if hit && k.versionId == v.id then c else NOTHING) in t.plugins[id].versions
  {
    hide UniqueIdentities, VersionIdsGlobal, VersionCounted, SortVersions;
    var p := s.plugins[id];
    RefreshedParts(p);
    RefreshedVersions(p, s.nextVersionId);
    hide Refreshed;
    assert forall v :: Raised(v, NOTHING) == v;
    if k.pluginId == id && !fault.PluginFault? {
      forall v | v in p.versions
        ensures Raised(v, if v.id == k.versionId then c else NOTHING) in
          VersionCounted(Refreshed(p).versions, k.versionId, c.views, c.downloads)
      {
        CountedRaises(Refreshed(p).versions, k.versionId, c, v);
      }
    }
  }

  // ----- what a flush does ------------------------------------------------------------------------------------

  /** The events of one plugin whose keys were written. */
  function Written(events: seq<Event>, keys: seq<Key>, failing: set<Key>, id: int, download: bool): nat {
    if keys == [] then 0
    else
      var k := keys[|keys| - 1];
      Written(events, keys[..|keys| - 1], failing, id, download) +
      if k.pluginId == id && k !in failing then Count(events, OfKey(k, download)) else 0
  }

  lemma {:induction false} FlushKeepsInv(s: Store, events: seq<Event>, keys: seq<Key>, failing: set<Key>)
    requires Inv(s)
    ensures Inv(FlushedTo(s, events, keys, failing))
  {
    hide Inv, CountersIncremented, KeyCounters;
    if keys != [] {
      var k := keys[|keys| - 1];
      var before := FlushedTo(s, events, keys[..|keys| - 1], failing);
      var c := KeyCounters(events, k);
      FlushKeepsInv(s, events, keys[..|keys| - 1], failing);
      InvIdentifies(before);
      var fault := if k in failing then PluginFault else NoFault;
      CountersKeepIdentities(before, k.pluginId, k.versionId, c.views, c.downloads, fault);
    }
  }

  /** The counters of a version after a flush, given the keys handled so far. */
  function VersionGain(events: seq<Event>, keys: seq<Key>, failing: set<Key>, k: Key): Counters {
    if k in keys && k !in failing then KeyCounters(events, k) else NOTHING
  }

  /** `q` is `p` with the counters of the keys handled so far. */
  ghost predicate RaisedSoFar(p: Plugin, q: Plugin, events: seq<Event>, keys: seq<Key>, failing: set<Key>) {
    && OnlyCountersDiffer(p, q) && |q.versions| == |p.versions|
    && q.views == p.views + Written(events, keys, failing, p.id, false)
    && q.downloads == p.downloads + Written(events, keys, failing, p.id, true)
    && forall v :: v in p.versions ==> Raised(v, VersionGain(events, keys, failing, Key(p.id, v.id))) in q.versions
  }

  lemma {:induction false} FlushRaisesSoFar(s: Store, events: seq<Event>, keys: seq<Key>, failing: set<Key>, id: int)
    requires Inv(s) && IsLive(s, id) && Distinct(keys)
    ensures var t := FlushedTo(s, events, keys, failing);
      IsLive(t, id) && s.plugins[id].id == id && RaisedSoFar(s.plugins[id], t.plugins[id], events, keys, failing)
  {
    hide CountersIncremented, RaisedSoFar, KeyCounters;
    assert s.plugins[id].id == id;
    hide Inv;
    if keys == [] {
      NoneRaisedYet(s.plugins[id], events, failing);
    } else {
      FlushRaisesSoFar(s, events, keys[..|keys| - 1], failing, id);
      FlushKeepsInv(s, events, keys[..|keys| - 1], failing);
      OneKeyMore(s.plugins[id], FlushedTo(s, events, keys[..|keys| - 1], failing), events, keys, failing);
    }
  }

  lemma NoneRaisedYet(p: Plugin, events: seq<Event>, failing: set<Key>)
    ensures RaisedSoFar(p, p, events, [], failing)
  {
    assert forall v :: Raised(v, NOTHING) == v;
  }

  lemma OneKeyMore(p: Plugin, before: Store, events: seq<Event>, keys: seq<Key>, failing: set<Key>)
    requires Inv(before) && IsLive(before, p.id) && Distinct(keys) && keys != []
    requires RaisedSoFar(p, before.plugins[p.id], events, keys[..|keys| - 1], failing)
    ensures var k := keys[|keys| - 1]; var c := KeyCounters(events, k);
      var fault := if k in failing then PluginFault else NoFault;
      var t := CountersIncremented(before, k.pluginId, k.versionId, c.views, c.downloads, fault).0;
      IsLive(t, p.id) && RaisedSoFar(p, t.plugins[p.id], events, keys, failing)
  {
    hide Inv, CountersIncremented, Count;
    var front, k := keys[..|keys| - 1], keys[|keys| - 1];
    var c := KeyCounters(events, k);
    var fault := if k in failing then PluginFault else NoFault;
    WriteRaises(before, k, c, fault, p.id);
    LastIsNew(keys);
    var t := CountersIncremented(before, k.pluginId, k.versionId, c.views, c.downloads, fault).0;
    GainsOn(p, before.plugins[p.id].versions, t.plugins[p.id].versions, events, keys, failing);
  }

  lemma GainsOn(p: Plugin, vs: seq<PluginVersion>, ws: seq<PluginVersion>, events: seq<Event>, keys: seq<Key>,
                failing: set<Key>)
    requires Distinct(keys) && keys != []
    requires forall v :: v in p.versions ==>
      Raised(v, VersionGain(events, keys[..|keys| - 1], failing, Key(p.id, v.id))) in vs
    requires var k := keys[|keys| - 1]; forall v :: v in vs ==>
      var c := if (k.pluginId == p.id && k !in failing) && k.versionId == v.id then KeyCounters(events, k) else NOTHING;
      Raised(v, c) in ws
    ensures forall v :: v in p.versions ==> Raised(v, VersionGain(events, keys, failing, Key(p.id, v.id))) in ws
  {
    hide KeyCounters;
    LastIsNew(keys);
    forall v | v in p.versions
      ensures Raised(v, VersionGain(events, keys, failing, Key(p.id, v.id))) in ws
    {
      var w := Raised(v, VersionGain(events, keys[..|keys| - 1], failing, Key(p.id, v.id)));
      assert w in vs && w.id == v.id;
    }
  }

  lemma LastIsNew(keys: seq<Key>)
    requires Distinct(keys) && keys != []
    ensures keys[|keys| - 1] !in keys[..|keys| - 1]
    ensures forall k :: k in keys <==> k in keys[..|keys| - 1] || k == keys[|keys| - 1]
  {
    assert keys == keys[..|keys| - 1] + [keys[|keys| - 1]];
  }

  /** The events whose key is written. */
  function Landed(events: seq<Event>, failing: set<Key>): seq<Event> {
    if events == [] then []
    else
      var e := events[|events| - 1];
      Landed(events[..|events| - 1], failing) + if KeyOf(e) in failing then [] else [e]
  }

  lemma {:induction false} AllLand(events: seq<Event>)
    ensures Landed(events, {}) == events
  {
    if events != [] {
      AllLand(events[..|events| - 1]);
    }
  }

  lemma {:induction false} LandedOfKey(events: seq<Event>, failing: set<Key>, k: Key, download: bool)
    ensures Count(Landed(events, failing), OfKey(k, download)) ==
      if k in failing then 0 else Count(events, OfKey(k, download))
  {
    hide Hits;
    if events != [] {
      hide Count, Landed;
      var front, e, q := events[..|events| - 1], events[|events| - 1], OfKey(k, download);
      assert front + [e] == events;
      LandedOfKey(front, failing, k, download);
      LandedStep(front, e, failing, q);
      CountStep(front, e, q);
      HitsHasKey(e, k, download);
    }
  }

  lemma HitsHasKey(e: Event, k: Key, download: bool)
    ensures Hits(e, OfKey(k, download)) ==> KeyOf(e) == k
  {
  }

  lemma LandedGain(events: seq<Event>, failing: set<Key>, k: Key)
    ensures KeyCounters(Landed(events, failing), k) == if k in failing then NOTHING else KeyCounters(events, k)
  {
    hide Count, Landed;
    LandedOfKey(events, failing, k, false);
    LandedOfKey(events, failing, k, true);
  }

  lemma LandedStep(events: seq<Event>, e: Event, failing: set<Key>, q: Query)
    ensures Count(Landed(events + [e], failing), q) ==
      Count(Landed(events, failing), q) + if KeyOf(e) !in failing && Hits(e, q) then 1 else 0
  {
    assert (events + [e])[..|events|] == events;
    CountStep(Landed(events, failing), e, q);
    assert Landed(events, failing) + [] == Landed(events, failing);
  }

  /** Every event of a plugin has exactly one key. */
  lemma {:induction false} KeysAddUp(events: seq<Event>, keys: seq<Key>, failing: set<Key>, id: int, download: bool)
    requires Distinct(keys) && forall e :: e in events ==> KeyOf(e) in keys
    ensures Written(events, keys, failing, id, download) == Count(Landed(events, failing), OfPlugin(id, download))
  {
    hide Written;
    if events == [] {
      NothingWritten(keys, failing, id, download);
    } else {
      hide Landed, Count;
      var front, e := events[..|events| - 1], events[|events| - 1];
      assert forall x :: x in front ==> x in events;
      KeysAddUp(front, keys, failing, id, download);
      assert e in events;
      WrittenStep(front, e, keys, failing, id, download);
      assert front + [e] == events;
      LandedStep(front, e, failing, OfPlugin(id, download));
    }
  }

  lemma {:induction false} NothingWritten(keys: seq<Key>, failing: set<Key>, id: int, download: bool)
    ensures Written([], keys, failing, id, download) == 0
  {
    if keys != [] {
      NothingWritten(keys[..|keys| - 1], failing, id, download);
    }
  }

  lemma {:induction false} WrittenStep(events: seq<Event>, e: Event, keys: seq<Key>, failing: set<Key>, id: int,
                                       download: bool)
    requires Distinct(keys)
    ensures Written(events + [e], keys, failing, id, download) ==
      Written(events, keys, failing, id, download) +
      if KeyOf(e) in keys && KeyOf(e) !in failing && Hits(e, OfPlugin(id, download)) then 1 else 0
  {
    if keys != [] {
      WrittenStep(events, e, keys[..|keys| - 1], failing, id, download);
      LastIsNew(keys);
      assert (events + [e])[..|events|] == events;
    }
  }

  /** The counters of `q` are those of `p` plus exactly its events in `events`, and its versions' likewise; no other
      field differs and no version is added or lost. */
  ghost predicate RaisedBy(p: Plugin, q: Plugin, events: seq<Event>) {
    && OnlyCountersDiffer(p, q) && |q.versions| == |p.versions|
    && q.views == p.views + Count(events, OfPlugin(p.id, false))
    && q.downloads == p.downloads + Count(events, OfPlugin(p.id, true))
    && forall v :: v in p.versions ==> Raised(v, KeyCounters(events, Key(p.id, v.id))) in q.versions
  }

  /** A flush raises each live plugin's counters by exactly its own events in the batch whose write goes through, and
      each of its versions' by exactly that version's, whatever the order of the keys. */
  lemma FlushRaises(s: Store, events: seq<Event>, keys: seq<Key>, failing: set<Key>, id: int)
    requires Inv(s) && IsLive(s, id) && IsKeyOrder(keys, events)
    ensures var t := FlushedTo(s, events, keys, failing);
      IsLive(t, id) && s.plugins[id].id == id && RaisedBy(s.plugins[id], t.plugins[id], Landed(events, failing))
  {
    hide Inv, CountersIncremented, Count, FlushedTo, Written, KeyCounters, Landed;
    FlushRaisesSoFar(s, events, keys, failing, id);
    KeysAddUp(events, keys, failing, id, false);
    KeysAddUp(events, keys, failing, id, true);
    forall v | v in s.plugins[id].versions
      ensures KeyCounters(Landed(events, failing), Key(id, v.id)) == VersionGain(events, keys, failing, Key(id, v.id))
    {
      LandedGain(events, failing, Key(id, v.id));
      if Key(id, v.id) !in keys {
        NoneCounted(events, Key(id, v.id));
      }
    }
  }

  /** A plugin that is deleted or unknown is left alone; its events are lost. */
  lemma {:induction false} FlushSparesTheDead(s: Store, events: seq<Event>, keys: seq<Key>, failing: set<Key>, id: int)
    requires !IsLive(s, id)
    ensures var t := FlushedTo(s, events, keys, failing);
      !IsLive(t, id) && (id in s.plugins <==> id in t.plugins) && (id in s.plugins ==> t.plugins[id] == s.plugins[id])
  {
    hide SortVersions, VersionCounted, KeyCounters;
    if keys != [] {
      FlushSparesTheDead(s, events, keys[..|keys| - 1], failing, id);
    }
  }

  // ----- the database backend ------------------------------------------------------------------------------------

  datatype DailyKey = DailyKey(day: string, pluginId: int, versionId: int, kind: Kind)

  datatype BatchCounts = BatchCounts(plugins: map<int, Counters>, versions: map<int, Counters>,
                                     dailyPlugins: map<DailyKey, nat>, dailyVersions: map<DailyKey, nat>)

  function CountAt<K(==)>(m: map<K, nat>, k: K): nat {
    if k in m then m[k] else 0
  }

  function CountersAt<K(==)>(m: map<K, Counters>, k: K): Counters {
    if k in m then m[k] else NOTHING
  }

  /** The tables say of each plugin, version and day how many events of either kind the batch has for it. */
  ghost predicate Counted(b: BatchCounts, events: seq<Event>) {
    PluginsCounted(b.plugins, events) && VersionsCounted(b.versions, events) && DaysCounted(b.dailyPlugins, events) &&
    VersionDaysCounted(b.dailyVersions, events)
  }

  ghost predicate PluginsCounted(m: map<int, Counters>, events: seq<Event>) {
    forall id :: CountersAt(m, id) == Counters(Count(events, OfPlugin(id, false)), Count(events, OfPlugin(id, true)))
  }

  ghost predicate VersionsCounted(m: map<int, Counters>, events: seq<Event>) {
    forall id :: id > 0 ==>
      CountersAt(m, id) == Counters(Count(events, OfVersion(id, false)), Count(events, OfVersion(id, true)))
  }

  ghost predicate DaysCounted(m: map<DailyKey, nat>, events: seq<Event>) {
    forall day, id, download :: CountAt(m, PluginDay(day, id, download)) == Count(events, OnDay(day, id, download))
  }

  ghost predicate VersionDaysCounted(m: map<DailyKey, nat>, events: seq<Event>) {
    forall day, id, version, download :: version > 0 ==>
      CountAt(m, VersionDay(day, id, version, download)) == Count(events, VersionOnDay(day, id, version, download))
  }

  function OfVersion(id: int, download: bool): Query {
    Query(None, Some(id), None, download)
  }

  function OnDay(day: string, id: int, download: bool): Query {
    Query(Some(id), None, Some(day), download)
  }

  function VersionOnDay(day: string, id: int, version: int, download: bool): Query {
    Query(Some(id), Some(version), Some(day), download)
  }

  function KindOf(download: bool): Kind {
    if download then Download else View
  }

  function PluginDay(day: string, id: int, download: bool): DailyKey {
    DailyKey(day, id, 0, KindOf(download))
  }

  function VersionDay(day: string, id: int, version: int, download: bool): DailyKey {
    DailyKey(day, id, version, KindOf(download))
  }

  /** Counting one more event under a key. */
  function Plus(m: map<int, Counters>, id: int, e: Event): map<int, Counters> {
    m[id := Bumped(CountersAt(m, id), e)]
  }

  function PlusOne(m: map<DailyKey, nat>, k: DailyKey): map<DailyKey, nat> {
    m[k := CountAt(m, k) + 1]
  }

  /** What one event adds to the four tables. */
  function CountedIn(b: BatchCounts, e: Event): BatchCounts {
    var c := b.(plugins := Plus(b.plugins, e.pluginId, e),
                dailyPlugins := PlusOne(b.dailyPlugins, DailyKey(e.day, e.pluginId, 0, e.kind)));
    if e.versionId > 0
    then c.(versions := Plus(b.versions, e.versionId, e),
            dailyVersions := PlusOne(b.dailyVersions, DailyKey(e.day, e.pluginId, e.versionId, e.kind)))
    else c
  }

  lemma CountStep(events: seq<Event>, e: Event, q: Query)
    ensures Count(events + [e], q) == Count(events, q) + if Hits(e, q) then 1 else 0
  {
    assert (events + [e])[..|events|] == events;
  }

  lemma PluginsStep(m: map<int, Counters>, events: seq<Event>, e: Event)
    requires PluginsCounted(m, events)
    ensures PluginsCounted(Plus(m, e.pluginId, e), events + [e])
  {
    hide Count;
    forall id
      ensures CountersAt(Plus(m, e.pluginId, e), id) ==
        Counters(Count(events + [e], OfPlugin(id, false)), Count(events + [e], OfPlugin(id, true)))
    {
      CountStep(events, e, OfPlugin(id, false));
      CountStep(events, e, OfPlugin(id, true));
    }
  }

  lemma VersionsStep(m: map<int, Counters>, events: seq<Event>, e: Event)
    requires VersionsCounted(m, events)
    ensures VersionsCounted(if e.versionId > 0 then Plus(m, e.versionId, e) else m, events + [e])
  {
    hide Count;
    forall id | id > 0
      ensures CountersAt(if e.versionId > 0 then Plus(m, e.versionId, e) else m, id) ==
        Counters(Count(events + [e], OfVersion(id, false)), Count(events + [e], OfVersion(id, true)))
    {
      CountStep(events, e, OfVersion(id, false));
      CountStep(events, e, OfVersion(id, true));
    }
  }

  lemma DaysStep(m: map<DailyKey, nat>, events: seq<Event>, e: Event)
    requires DaysCounted(m, events) && Valid(e)
    ensures DaysCounted(PlusOne(m, DailyKey(e.day, e.pluginId, 0, e.kind)), events + [e])
  {
    hide Count;
    var n := PlusOne(m, DailyKey(e.day, e.pluginId, 0, e.kind));
    forall day, id, download
      ensures CountAt(n, PluginDay(day, id, download)) == Count(events + [e], OnDay(day, id, download))
    {
      CountStep(events, e, OnDay(day, id, download));
    }
  }

  lemma VersionDaysStep(m: map<DailyKey, nat>, events: seq<Event>, e: Event)
    requires VersionDaysCounted(m, events) && Valid(e)
    ensures var k := DailyKey(e.day, e.pluginId, e.versionId, e.kind);
      VersionDaysCounted(if e.versionId > 0 then PlusOne(m, k) else m, events + [e])
  {
  }

  lemma CountedStep(b: BatchCounts, events: seq<Event>, e: Event)
    requires Counted(b, events) && Valid(e)
    ensures Counted(CountedIn(b, e), events + [e])
  {
    hide PluginsCounted, VersionsCounted, DaysCounted, VersionDaysCounted;
    PluginsStep(b.plugins, events, e);
    VersionsStep(b.versions, events, e);
    DaysStep(b.dailyPlugins, events, e);
    VersionDaysStep(b.dailyVersions, events, e);
  }

  /** What all events of a batch add up to. */
  function Tables(events: seq<Event>): BatchCounts {
    if events == [] then BatchCounts(map[], map[], map[], map[])
    else CountedIn(Tables(events[..|events| - 1]), events[|events| - 1])
  }

  /** Of the events that the recorders admit, the tables hold the counts. */
  lemma {:induction false} TablesCount(events: seq<Event>)
    requires forall e :: e in events ==> Valid(e)
    ensures Counted(Tables(events), events)
  {
    hide Counted, CountedIn;
    if events == [] {
      NothingCounted(Tables([]));
    } else {
      var front, e := events[..|events| - 1], events[|events| - 1];
      assert e in events && forall x :: x in front ==> x in events;
      TablesCount(front);
      CountedStep(Tables(front), front, e);
      assert front + [e] == events;
    }
  }

  method CountBatch(events: seq<Event>) returns (b: BatchCounts)
    ensures b == Tables(events)
    ensures (forall e :: e in events ==> Valid(e)) ==> Counted(b, events)
  {
    hide Counted, Bumped, Valid;
    b := BatchCounts(map[], map[], map[], map[]);
    for i := 0 to |events|
      invariant b == Tables(events[..i])
    {
      var ev := events[i];
      assert events[..i + 1][..i] == events[..i];
      ghost var before := b;
      var pc := if ev.pluginId in b.plugins then b.plugins[ev.pluginId] else Counters(0, 0);
      b := b.(plugins := b.plugins[ev.pluginId := Bumped(pc, ev)]);
      var pKey := DailyKey(ev.day, ev.pluginId, 0, ev.kind);
      b := b.(dailyPlugins := b.dailyPlugins[pKey := CountAt(b.dailyPlugins, pKey) + 1]);
      if ev.versionId > 0 {
        var vc := if ev.versionId in b.versions then b.versions[ev.versionId] else Counters(0, 0);
        b := b.(versions := b.versions[ev.versionId := Bumped(vc, ev)]);
        var vKey := DailyKey(ev.day, ev.pluginId, ev.versionId, ev.kind);
        b := b.(dailyVersions := b.dailyVersions[vKey := CountAt(b.dailyVersions, vKey) + 1]);
      }
      assert b == CountedIn(before, ev);
    }
    assert events[..|events|] == events;
    if forall e :: e in events ==> Valid(e) {
      TablesCount(events);
    }
  }

  lemma NothingCounted(b: BatchCounts)
    requires b == BatchCounts(map[], map[], map[], map[])
    ensures Counted(b, [])
  {
  }

  // ----- days add up to totals ------------------------------------------------------------------------------

  function OverDays(events: seq<Event>, days: seq<string>, q: Query): nat {
    if days == [] then 0
    else OverDays(events, days[..|days| - 1], q) + Count(events, q.(day := Some(days[|days| - 1])))
  }

  lemma {:induction false} NoneOverDays(days: seq<string>, q: Query)
    ensures OverDays([], days, q) == 0
  {
    if days != [] {
      NoneOverDays(days[..|days| - 1], q);
    }
  }

  lemma {:induction false} OverDaysStep(events: seq<Event>, e: Event, days: seq<string>, q: Query)
    requires Distinct(days) && q.day.None?
    ensures OverDays(events + [e], days, q) == OverDays(events, days, q) + if e.day in days && Hits(e, q) then 1 else 0
  {
    if days != [] {
      OverDaysStep(events, e, days[..|days| - 1], q);
      assert (events + [e])[..|events|] == events;
      assert days == days[..|days| - 1] + [days[|days| - 1]];
    }
  }

  lemma {:induction false} DaysAddUp(events: seq<Event>, days: seq<string>, q: Query)
    requires Distinct(days) && q.day.None? && forall e :: e in events && Hits(e, q) ==> e.day in days
    ensures OverDays(events, days, q) == Count(events, q)
  {
    if events == [] {
      NoneOverDays(days, q);
    } else {
      var front, e := events[..|events| - 1], events[|events| - 1];
      assert front + [e] == events && e in events;
      assert forall x :: x in front ==> x in events;
      DaysAddUp(front, days, q);
      OverDaysStep(front, e, days, q);
    }
  }

  /** The sum of a plugin's daily counts over a list of days. */
  function DailySum(b: BatchCounts, days: seq<string>, id: int, download: bool): nat {
    if days == [] then 0
    else DailySum(b, days[..|days| - 1], id, download) +
         CountAt(b.dailyPlugins, PluginDay(days[|days| - 1], id, download))
  }

  function DailyVersionSum(b: BatchCounts, days: seq<string>, id: int, version: int, download: bool): nat {
    if days == [] then 0
    else DailyVersionSum(b, days[..|days| - 1], id, version, download) +
         CountAt(b.dailyVersions, VersionDay(days[|days| - 1], id, version, download))
  }

  lemma {:induction false} DailySumCounts(b: BatchCounts, events: seq<Event>, days: seq<string>, id: int, version: int,
                                          download: bool)
    requires Counted(b, events)
    ensures DailySum(b, days, id, download) == OverDays(events, days, OfPlugin(id, download))
    ensures version > 0 ==>
      DailyVersionSum(b, days, id, version, download) == OverDays(events, days, OfKey(Key(id, version), download))
    decreases |days|
  {
    hide Count;
    if days != [] {
      DailySumCounts(b, events, days[..|days| - 1], id, version, download);
      var day := days[|days| - 1];
      assert CountAt(b.dailyPlugins, PluginDay(day, id, download)) == Count(events, OnDay(day, id, download));
      assert version > 0 ==>
        CountAt(b.dailyVersions, VersionDay(day, id, version, download)) ==
          Count(events, VersionOnDay(day, id, version, download));
    }
  }

  /** Over any list of distinct days that covers the batch, a plugin's daily counts sum to its totals. */
  lemma DailyCountsSumToTotals(b: BatchCounts, events: seq<Event>, days: seq<string>, id: int)
    requires Counted(b, events) && Distinct(days) && forall e :: e in events ==> e.day in days
    ensures Counters(DailySum(b, days, id, false), DailySum(b, days, id, true)) == CountersAt(b.plugins, id)
  {
    hide Count;
    DailySumCounts(b, events, days, id, 0, false);
    DailySumCounts(b, events, days, id, 0, true);
    DaysAddUp(events, days, OfPlugin(id, false));
    DaysAddUp(events, days, OfPlugin(id, true));
  }

  /** And so do a version's, when its events all name the plugin it belongs to. */
  lemma DailyVersionCountsSumToTotals(b: BatchCounts, events: seq<Event>, days: seq<string>, id: int, version: int)
    requires Counted(b, events) && Distinct(days) && version > 0
    requires forall e :: e in events ==> e.day in days && (e.versionId == version ==> e.pluginId == id)
    ensures Counters(DailyVersionSum(b, days, id, version, false), DailyVersionSum(b, days, id, version, true)) ==
      CountersAt(b.versions, version)
  {
    hide Count;
    DailySumCounts(b, events, days, id, version, false);
    DailySumCounts(b, events, days, id, version, true);
    DaysAddUp(events, days, OfKey(Key(id, version), false));
    DaysAddUp(events, days, OfKey(Key(id, version), true));
    SameHits(events, OfVersion(version, false), OfKey(Key(id, version), false));
    SameHits(events, OfVersion(version, true), OfKey(Key(id, version), true));
  }

  lemma {:induction false} SameHits(events: seq<Event>, q: Query, r: Query)
    requires forall e :: e in events ==> (Hits(e, q) <==> Hits(e, r))
    ensures Count(events, q) == Count(events, r)
  {
    if events != [] {
      assert events[|events| - 1] in events && forall e :: e in events[..|events| - 1] ==> e in events;
      SameHits(events[..|events| - 1], q, r);
    }
  }

  // ----- what is counted --------------------------------------------------------------------------------------

  /** Counting is counting the positions of the events that a query hits. */
  lemma {:induction false} CountExactly(events: seq<Event>, q: Query)
    ensures Count(events, q) == |set i | 0 <= i < |events| && Hits(events[i], q)|
  {
    var all := set i | 0 <= i < |events| && Hits(events[i], q);
    if events == [] {
      assert all == {};
    } else {
      var front, n := events[..|events| - 1], |events| - 1;
      CountExactly(front, q);
      var before := set i | 0 <= i < |front| && Hits(front[i], q);
      assert all == before + if Hits(events[n], q) then {n} else {};
    }
  }

  /** And which events the queries hit. */
  lemma HitsExactly(e: Event, id: int, version: int, day: string, download: bool)
    ensures var kind := (e.kind == Download) == download;
      (Hits(e, OfPlugin(id, download)) <==> e.pluginId == id && kind) &&
      (Hits(e, OfKey(Key(id, version), download)) <==> e.pluginId == id && e.versionId == version && kind) &&
      (Hits(e, OfVersion(version, download)) <==> e.versionId == version && kind) &&
      (Hits(e, OnDay(day, id, download)) <==> e.pluginId == id && e.day == day && kind) &&
      (Hits(e, VersionOnDay(day, id, version, download)) <==>
         e.pluginId == id && e.versionId == version && e.day == day && kind)
  {
  }
}
