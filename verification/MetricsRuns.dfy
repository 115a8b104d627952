/** The recorder's queue and its flushes together: what a whole run of the recorder adds to the stored counters
    (run and flushBatch of fileMetricsRecorder, api/service/metrics.go). */
module MetricsRuns {
  import opened Sorting
  import opened Models
  import opened FileStore
  import opened StoreInvariant
  import opened MetricsRecorder
  import opened MetricsFlush

  /** How one batch is written: the order in which the map yields its keys, and the keys whose write fails. */
  datatype Flush = Flush(keys: seq<Key>, failing: set<Key>)

  ghost predicate Orders(flushes: seq<Flush>, batches: seq<seq<Event>>) {
    |flushes| == |batches| && forall i :: 0 <= i < |batches| ==> IsKeyOrder(flushes[i].keys, batches[i])
  }

  function FlushedAll(s: Store, batches: seq<seq<Event>>, flushes: seq<Flush>): Store
    requires |flushes| == |batches|
  {
    var n := |batches|;
    if n == 0 then s
    else
      var before, last := FlushedAll(s, batches[..n - 1], flushes[..n - 1]), flushes[n - 1];
      FlushedTo(before, batches[n - 1], last.keys, last.failing)
  }

  /** The events of all batches whose write goes through. */
  function AllLanded(batches: seq<seq<Event>>, flushes: seq<Flush>): seq<Event>
    requires |flushes| == |batches|
  {
    var n := |batches|;
    if n == 0 then []
    else AllLanded(batches[..n - 1], flushes[..n - 1]) + Landed(batches[n - 1], flushes[n - 1].failing)
  }

  lemma {:induction false} NothingFails(batches: seq<seq<Event>>, flushes: seq<Flush>)
    requires |flushes| == |batches| && forall i :: 0 <= i < |flushes| ==> flushes[i].failing == {}
    ensures AllLanded(batches, flushes) == Joined(batches)
  {
    var n := |batches|;
    if n > 0 {
      NothingFails(batches[..n - 1], flushes[..n - 1]);
      AllLand(batches[n - 1]);
    }
  }

  lemma {:induction false} CountJoined(a: seq<Event>, b: seq<Event>, q: Query)
    ensures Count(a + b, q) == Count(a, q) + Count(b, q)
  {
    if b == [] {
      assert a + b == a;
    } else {
      assert (a + b)[..|a + b| - 1] == a + b[..|b| - 1];
      CountJoined(a, b[..|b| - 1], q);
    }
  }

  lemma RaisedTwice(p: Plugin, q: Plugin, r: Plugin, a: seq<Event>, b: seq<Event>)
    requires RaisedBy(p, q, a) && RaisedBy(q, r, b)
    ensures RaisedBy(p, r, a + b)
  {
    hide Count;
    CountJoined(a, b, OfPlugin(p.id, false));
    CountJoined(a, b, OfPlugin(p.id, true));
    forall v | v in p.versions
      ensures Raised(v, KeyCounters(a + b, Key(p.id, v.id))) in r.versions
    {
      var k := Key(p.id, v.id);
      CountJoined(a, b, OfKey(k, false));
      CountJoined(a, b, OfKey(k, true));
      var w := Raised(v, KeyCounters(a, k));
      assert w in q.versions && w.id == v.id;
      assert Raised(w, KeyCounters(b, k)) == Raised(v, KeyCounters(a + b, k));
    }
  }

  lemma RaisedByNothing(p: Plugin)
    ensures RaisedBy(p, p, [])
  {
    assert forall v :: Raised(v, NOTHING) == v;
  }

  lemma {:induction false} FlushesKeepInv(s: Store, batches: seq<seq<Event>>, flushes: seq<Flush>)
    requires Inv(s) && |flushes| == |batches|
    ensures Inv(FlushedAll(s, batches, flushes))
  {
    hide Inv, FlushedTo;
    var n := |batches|;
    if n > 0 {
      FlushesKeepInv(s, batches[..n - 1], flushes[..n - 1]);
      var t := FlushedAll(s, batches[..n - 1], flushes[..n - 1]);
      FlushKeepsInv(t, batches[n - 1], flushes[n - 1].keys, flushes[n - 1].failing);
    }
  }

  lemma {:induction false} FlushesRaise(s: Store, batches: seq<seq<Event>>, flushes: seq<Flush>, id: int)
    requires Inv(s) && IsLive(s, id) && Orders(flushes, batches)
    ensures var t := FlushedAll(s, batches, flushes);
      s.plugins[id].id == id && IsLive(t, id) && RaisedBy(s.plugins[id], t.plugins[id], AllLanded(batches, flushes))
  {
    var n := |batches|;
    assert s.plugins[id].id == id;
    hide Inv, FlushedTo, RaisedBy, IsKeyOrder, Landed;
    if n == 0 {
      RaisedByNothing(s.plugins[id]);
    } else {
      FlushesRaise(s, batches[..n - 1], flushes[..n - 1], id);
      FlushesKeepInv(s, batches[..n - 1], flushes[..n - 1]);
      var t := FlushedAll(s, batches[..n - 1], flushes[..n - 1]);
      var last := flushes[n - 1];
      FlushRaises(t, batches[n - 1], last.keys, last.failing, id);
      RaisedTwice(s.plugins[id], t.plugins[id], FlushedAll(s, batches, flushes).plugins[id],
                  AllLanded(batches[..n - 1], flushes[..n - 1]), Landed(batches[n - 1], last.failing));
    }
  }

  /** At any point of any run of the recorder, with any failing writes, the flushes so far have raised every live
      plugin's counters, and each of its versions', by exactly the flushed events whose write went through. Without a
      failing write those are all admitted events but the ones still buffered or queued. */
  lemma RunRaises(states: seq<State>, steps: seq<Step>, n: nat, s: Store, flushes: seq<Flush>, id: int)
    requires Run(states, steps) && n <= |steps| && Orders(flushes, states[n].flushed) && Inv(s) && IsLive(s, id)
    ensures var t := FlushedAll(s, states[n].flushed, flushes); var landed := AllLanded(states[n].flushed, flushes);
      s.plugins[id].id == id && IsLive(t, id) && RaisedBy(s.plugins[id], t.plugins[id], landed) &&
      ((forall i :: 0 <= i < |flushes| ==> flushes[i].failing == {}) ==>
         landed + states[n].buffer + states[n].queue == Admitted(states, steps, n))
  {
    hide Next, Inv, FlushedAll, RaisedBy, Admitted;
    FlushesRaise(s, states[n].flushed, flushes, id);
    RunConserves(states, steps, n);
    if forall i :: 0 <= i < |flushes| ==> flushes[i].failing == {} {
      NothingFails(states[n].flushed, flushes);
    }
  }

  /** Whatever batch a run hands over, its tables hold its counts, and over any distinct days that cover it a plugin's
      daily counts sum to its totals. */
  lemma RunBatchesAddUp(states: seq<State>, steps: seq<Step>, n: nat, i: nat, days: seq<string>, id: int)
    requires Run(states, steps) && n <= |steps| && i < |states[n].flushed| && Distinct(days)
    requires forall k :: 0 <= k < n && steps[k].Offer? ==> steps[k].today != UNSET
    requires forall e :: e in states[n].flushed[i] ==> e.day in days
    ensures var b := Tables(states[n].flushed[i]);
      Counted(b, states[n].flushed[i]) && UNSET !in SeenDays(states[n].flushed[i]) &&
      Counters(DailySum(b, days, id, false), DailySum(b, days, id, true)) == CountersAt(b.plugins, id)
  {
    hide Next, Counted, DailySum, Tables;
    BatchesAreValid(states, steps, n, i);
    TablesCount(states[n].flushed[i]);
    DailyCountsSumToTotals(Tables(states[n].flushed[i]), states[n].flushed[i], days, id);
  }

  function SeenDays(events: seq<Event>): set<string> {
    set e | e in events :: e.day
  }

  /** Stopped quietly and without a failing write, the recorder has counted every admitted event exactly once. */
  lemma QuietStopCountsAll(states: seq<State>, steps: seq<Step>, i: nat, n: nat, s: Store, flushes: seq<Flush>, id: int)
    requires Run(states, steps) && i <= n <= |steps| && !states[i].done && states[n].done
    requires forall k :: i <= k < n ==> !steps[k].Offer?
    requires Orders(flushes, states[n].flushed) && forall k :: 0 <= k < |flushes| ==> flushes[k].failing == {}
    requires Inv(s) && IsLive(s, id)
    ensures var t := FlushedAll(s, states[n].flushed, flushes);
      s.plugins[id].id == id && IsLive(t, id) && RaisedBy(s.plugins[id], t.plugins[id], Admitted(states, steps, n))
  {
    hide Inv, FlushedAll, RaisedBy, Admitted, Next;
    QuietStopFlushesAll(states, steps, i, n);
    RunRaises(states, steps, n, s, flushes, id);
    NothingFails(states[n].flushed, flushes);
  }
}
