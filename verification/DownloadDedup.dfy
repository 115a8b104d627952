/** The download deduplicator of api/service/download_dedup.go: a table of last-counted times that is
    garbage-collected, shed under pressure and, as a last resort, cleared.
    Times and the window are integer nanoseconds; a key stands for its salted hash. */
module DownloadDedup {

  const MAX_ENTRIES: nat := 200_000

  datatype Key = Key(clientIP: string, userAgent: string, versionID: int)

  type Seen = map<Key, int>

  datatype State = State(seen: Seen, lastGC: int)

  // ----- what one call does -------------------------------------------------------------

  function KeepYoungerThan(seen: Seen, age: int, now: int): Seen {
    map k | k in seen && now - seen[k] < age :: seen[k]
  }

  function AfterGC(s: State, window: int, now: int): State {
    if now - s.lastGC >= window / 2 then State(KeepYoungerThan(s.seen, window, now), now) else s
  }

  predicate Sheds(s: State, window: int, now: int) {
    |AfterGC(s, window, now).seen| > MAX_ENTRIES
  }

  /** The emergency shed keeps everything no older than half the window. */
  function AfterShed(seen: Seen, window: int, now: int): Seen {
    KeepYoungerThan(seen, window / 2 + 1, now)
  }

  predicate Clears(s: State, window: int, now: int) {
    Sheds(s, window, now) && |AfterShed(AfterGC(s, window, now).seen, window, now)| > MAX_ENTRIES
  }

  function Collected(s: State, window: int, now: int): State {
    var g := AfterGC(s, window, now);
    if Clears(s, window, now) then g.(seen := map[])
    else if Sheds(s, window, now) then g.(seen := AfterShed(g.seen, window, now))
    else g
  }

  /** The rule both the table and its ideal apply. */
  predicate Fresh(seen: Seen, window: int, k: Key, now: int) {
    k !in seen || now - seen[k] >= window
  }

  function Step(s: State, window: int, q: Request): (State, bool) {
    var c := Collected(s, window, q.now);
    if Fresh(c.seen, window, q.key, q.now) then (c.(seen := c.seen[q.key := q.now]), true) else (c, false)
  }

  class DownloadDeduplicator {
    var seen: Seen
    const window: int
    var lastGC: int

    /** A non-positive window means the one-hour default. */
    constructor (window: int, now: int)
      ensures this.window == (if window <= 0 then 3_600_000_000_000 else window)
      ensures View() == State(map[], now)
    {
      this.seen, this.lastGC := map[], now;
      this.window := if window <= 0 then 3_600_000_000_000 else window;
    }

    ghost function View(): State
      reads this
    {
      State(seen, lastGC)
    }

    /** Deletes every entry whose age at `now` is at least `age`. */
    method DeleteOlder(age: int, now: int)
      modifies this`seen
      ensures seen == KeepYoungerThan(old(seen), age, now)
    {
      ghost var before := seen;
      var pending := seen.Keys;
      while pending != {}
        invariant pending <= before.Keys && seen.Keys <= before.Keys
        invariant forall k :: k in seen ==> seen[k] == before[k]
        invariant forall k :: k in before ==> (k in seen <==> k in pending || now - before[k] < age)
        decreases |pending|
      {
        var k :| k in pending;
        pending := pending - {k};
        if now - seen[k] >= age {
          seen := seen - {k};
        }
      }
    }

    method CollectLocked(now: int)
      modifies this
      ensures View() == Collected(old(View()), window, now)
    {
      if now - lastGC >= window / 2 {
        DeleteOlder(window, now);
        lastGC := now;
      }
      if |seen| <= MAX_ENTRIES {
        return;
      }
      // Before the cutoff now - window/2 means an age of more than window/2.
      DeleteOlder(window / 2 + 1, now);
      if |seen| > MAX_ENTRIES {
        seen := map[];
      }
    }

    method ShouldCount(key: Key, now: int) returns (count: bool)
      modifies this
      ensures (View(), count) == Step(old(View()), window, Request(key, now))
    {
      CollectLocked(now);
      if key in seen && now - seen[key] < window {
        return false;
      }
      seen := seen[key := now];
      return true;
    }
  }

  // ----- runs ---------------------------------------------------------------------------

  datatype Request = Request(key: Key, now: int)

  predicate Timely(qs: seq<Request>) {
    forall i, j :: 0 <= i < j < |qs| ==> qs[i].now <= qs[j].now
  }

  /** The answers of the run `qs` from `s`: true where a download was counted. */
  function Answers(s: State, window: int, qs: seq<Request>): (bs: seq<bool>)
    ensures |bs| == |qs|
    decreases |qs|
  {
    if qs == [] then [] else var (s', b) := Step(s, window, qs[0]); [b] + Answers(s', window, qs[1..])
  }

  /** The ideal: a log of counted downloads that nothing is ever deleted from. */
  function IdealAnswers(counted: Seen, window: int, qs: seq<Request>): (bs: seq<bool>)
    ensures |bs| == |qs|
    decreases |qs|
  {
    if qs == [] then []
    else if Fresh(counted, window, qs[0].key, qs[0].now)
    then [true] + IdealAnswers(counted[qs[0].key := qs[0].now], window, qs[1..])
    else [false] + IdealAnswers(counted, window, qs[1..])
  }

  /** `bad` holds at no call of the run. */
  ghost predicate Never(bad: (State, int, int) -> bool, s: State, window: int, qs: seq<Request>)
    decreases |qs|
  {
    qs == [] || (!bad(s, window, qs[0].now) && Never(bad, Step(s, window, qs[0]).0, window, qs[1..]))
  }

  /** Memory bound: one more than the cap, in every reachable state. */
  lemma {:induction false} TableBound(s: State, window: int, q: Request)
    ensures |Step(s, window, q).0.seen| <= 200_001
  {
  }

  // ----- while the table is at most the cap -----------------------------------------------

  /** The table is the ideal log, less entries that no longer matter. */
  ghost predicate Mirrors(s: State, counted: Seen, window: int, now: int) {
    && s.seen.Keys <= counted.Keys
    && (forall k :: k in s.seen ==> s.seen[k] == counted[k])
    && (forall k :: k in counted && k !in s.seen ==> now - counted[k] >= window)
  }

  /** Without a shed the deduplicator counts a download if and only if no counted download of its key
      lies within the window. */
  lemma {:induction false} RefinesIdeal(s: State, counted: Seen, window: int, now: int, qs: seq<Request>)
    requires Timely(qs) && (qs != [] ==> now <= qs[0].now)
    requires Mirrors(s, counted, window, now) && Never(Sheds, s, window, qs)
    ensures Answers(s, window, qs) == IdealAnswers(counted, window, qs)
    decreases |qs|
  {
    if qs != [] {
      var q := qs[0];
      var c := Collected(s, window, q.now);
      assert Mirrors(c, counted, window, q.now);
      assert Fresh(c.seen, window, q.key, q.now) == Fresh(counted, window, q.key, q.now);
      var counted' := if Fresh(counted, window, q.key, q.now) then counted[q.key := q.now] else counted;
      RefinesIdeal(Step(s, window, q).0, counted', window, q.now, qs[1..]);
    }
  }

  // ----- any run --------------------------------------------------------------------------

  /** Every entry is the time of a counted download among `past`, which are answered by `bs`. */
  ghost predicate Witnessed(seen: Seen, past: seq<Request>, bs: seq<bool>)
    requires |past| == |bs|
  {
    forall k :: k in seen ==> exists i :: Counted(past, bs, i, k) && past[i].now == seen[k]
  }

  predicate Counted(past: seq<Request>, bs: seq<bool>, i: int, k: Key)
    requires |past| == |bs|
  {
    0 <= i < |past| && bs[i] && past[i].key == k
  }

  lemma StepWitnessed(s: State, window: int, past: seq<Request>, bs: seq<bool>, q: Request)
    requires |past| == |bs| && Witnessed(s.seen, past, bs)
    ensures var (s', b) := Step(s, window, q); Witnessed(s'.seen, past + [q], bs + [b])
    ensures !Step(s, window, q).1 ==>
      exists i :: Counted(past, bs, i, q.key) && q.now - past[i].now < window
  {
    var (s', b) := Step(s, window, q);
    var past', bs' := past + [q], bs + [b];
    forall k | k in s'.seen
      ensures exists i :: Counted(past', bs', i, k) && past'[i].now == s'.seen[k]
    {
      if b && k == q.key {
        assert Counted(past', bs', |past|, k);
      } else {
        var i :| Counted(past, bs, i, k) && past[i].now == s.seen[k];
        assert Counted(past', bs', i, k);
      }
    }
  }

  /** Before the request at `j`, a download of its key was counted less than a window ago. */
  ghost predicate HasCause(qs: seq<Request>, bs: seq<bool>, j: nat, window: int)
    requires |qs| == |bs| && j < |qs|
  {
    exists i :: i < j && Counted(qs, bs, i, qs[j].key) && qs[j].now - qs[i].now < window
  }

  /** A download is suppressed only when a counted one of the same key lies within the window before it,
      sheds and clears notwithstanding. */
  lemma {:induction false} SuppressionHasACause(s: State, window: int, past: seq<Request>, bs: seq<bool>,
                                                qs: seq<Request>, j: nat)
    requires |past| == |bs| && Witnessed(s.seen, past, bs) && j < |qs|
    requires !Answers(s, window, qs)[j]
    ensures HasCause(past + qs, bs + Answers(s, window, qs), |past| + j, window)
    decreases |qs|
  {
    hide Step, Witnessed;
    var (s', b) := Step(s, window, qs[0]);
    var all, answers := past + qs, bs + Answers(s, window, qs);
    StepWitnessed(s, window, past, bs, qs[0]);
    if j == 0 {
      var i :| Counted(past, bs, i, qs[0].key) && qs[0].now - past[i].now < window;
      assert Counted(all, answers, i, qs[0].key) && all[i] == past[i];
    } else {
      var past', bs' := past + [qs[0]], bs + [b];
      assert past' + qs[1..] == all && bs' + Answers(s', window, qs[1..]) == answers;
      SuppressionHasACause(s', window, past', bs', qs[1..], j - 1);
    }
  }

  // ----- runs without a full clear ---------------------------------------------------------

  /** Every counted download of `past` is still in the table, or a later one of its key is, or it is more
      than half a window old. */
  ghost predicate Retained(seen: Seen, window: int, past: seq<Request>, bs: seq<bool>, now: int)
    requires |past| == |bs|
  {
    forall i :: 0 <= i < |past| && bs[i] ==>
      now - past[i].now > window / 2 || (past[i].key in seen && seen[past[i].key] >= past[i].now)
  }

  lemma StepRetained(s: State, window: int, past: seq<Request>, bs: seq<bool>, now: int, q: Request)
    requires 0 < window && |past| == |bs| && now <= q.now
    requires Retained(s.seen, window, past, bs, now) && !Clears(s, window, q.now)
    requires forall i :: 0 <= i < |past| ==> past[i].now <= now
    ensures var (s', b) := Step(s, window, q); Retained(s'.seen, window, past + [q], bs + [b], q.now)
    ensures Step(s, window, q).1 ==> forall i :: Counted(past, bs, i, q.key) ==> q.now - past[i].now > window / 2
  {
  }

  /** Barring a full clear, two counted downloads of one key are more than half a window apart. */
  lemma {:induction false} HalfWindowApart(s: State, window: int, past: seq<Request>, bs: seq<bool>, now: int,
                                           qs: seq<Request>, i: nat, j: nat)
    requires 0 < window && |past| == |bs| && Timely(past + qs) && (qs != [] ==> now <= qs[0].now)
    requires forall k :: 0 <= k < |past| ==> past[k].now <= now
    requires Retained(s.seen, window, past, bs, now) && Never(Clears, s, window, qs)
    requires i < |past| + j && j < |qs|
    requires Answers(s, window, qs)[j] && Counted(past + qs, bs + Answers(s, window, qs), i, qs[j].key)
    ensures qs[j].now - (past + qs)[i].now > window / 2
    decreases |qs|
  {
    hide Step, Retained, Clears;
    var (s', b) := Step(s, window, qs[0]);
    var all, answers := past + qs, bs + Answers(s, window, qs);
    StepRetained(s, window, past, bs, now, qs[0]);
    if j == 0 {
      assert Counted(past, bs, i, qs[0].key) && all[i] == past[i];
    } else {
      var past', bs' := past + [qs[0]], bs + [b];
      assert past' + qs[1..] == all && bs' + Answers(s', window, qs[1..]) == answers;
      assert all[|past|] == qs[0] && all[|past| + 1] == qs[1];
      HalfWindowApart(s', window, past', bs', qs[0].now, qs[1..], i, j - 1);
    }
  }

  // ----- exactly when shedding shows ---------------------------------------------------------

  /** The entries that a shed or a clear takes away at `now`; collecting expired ones does not count. */
  function Removed(s: State, window: int, now: int): Seen {
    var g, c := AfterGC(s, window, now).seen, Collected(s, window, now).seen;
    map k | k in g && k !in c :: g[k]
  }

  /** A request for a key whose last counted download was shed less than a window after it was counted. */
  predicate Misses(s: State, shed: Seen, window: int, q: Request) {
    var lost := shed + Removed(s, window, q.now);
    q.key in lost && q.now - lost[q.key] < window
  }

  /** What has been shed and not counted again. */
  function ShedAfter(s: State, shed: Seen, window: int, q: Request): Seen {
    var lost := shed + Removed(s, window, q.now);
    if Step(s, window, q).1 then lost - {q.key} else lost
  }

  predicate NeverMisses(s: State, shed: Seen, window: int, qs: seq<Request>)
    decreases |qs|
  {
    qs == [] ||
    (!Misses(s, shed, window, qs[0]) &&
     NeverMisses(Step(s, window, qs[0]).0, ShedAfter(s, shed, window, qs[0]), window, qs[1..]))
  }

  /** The table and the shed entries together are the ideal log, less entries that no longer matter. */
  ghost predicate Accounts(s: State, shed: Seen, counted: Seen, window: int, now: int) {
    && s.seen.Keys !! shed.Keys && s.seen.Keys + shed.Keys <= counted.Keys
    && (forall k :: k in s.seen ==> s.seen[k] == counted[k]) && (forall k :: k in shed ==> shed[k] == counted[k])
    && (forall k :: k in counted && k !in s.seen && k !in shed ==> now - counted[k] >= window)
  }

  lemma CollectedParts(s: State, window: int, now: int)
    ensures var c, lost := Collected(s, window, now).seen, Removed(s, window, now);
      (forall k :: k in c ==> k in s.seen && c[k] == s.seen[k]) &&
      (forall k :: k in lost ==> k in s.seen && lost[k] == s.seen[k] && k !in c) &&
      (forall k :: k in s.seen && k !in c && k !in lost ==> now - s.seen[k] >= window)
  {
    hide Sheds, Clears;
  }

  lemma CollectAccounts(s: State, shed: Seen, counted: Seen, window: int, now: int, later: int)
    requires Accounts(s, shed, counted, window, now) && now <= later
    ensures Accounts(Collected(s, window, later), shed + Removed(s, window, later), counted, window, later)
  {
    hide Collected, Removed;
    CollectedParts(s, window, later);
  }

  lemma CountAccounts(c: State, lost: Seen, counted: Seen, window: int, q: Request)
    requires Accounts(c, lost, counted, window, q.now) && (q.key in lost ==> q.now - lost[q.key] >= window)
    ensures Fresh(c.seen, window, q.key, q.now) == Fresh(counted, window, q.key, q.now)
    ensures if Fresh(c.seen, window, q.key, q.now)
      then Accounts(c.(seen := c.seen[q.key := q.now]), lost - {q.key}, counted[q.key := q.now], window, q.now)
      else Accounts(c, lost, counted, window, q.now)
  {
  }

  lemma StepAccounts(s: State, shed: Seen, counted: Seen, window: int, now: int, q: Request)
    requires Accounts(s, shed, counted, window, now) && now <= q.now
    ensures (Step(s, window, q).1 <==> Fresh(counted, window, q.key, q.now)) <==> !Misses(s, shed, window, q)
    ensures !Misses(s, shed, window, q) ==>
      Accounts(Step(s, window, q).0, ShedAfter(s, shed, window, q),
               if Fresh(counted, window, q.key, q.now) then counted[q.key := q.now] else counted, window, q.now)
  {
    hide Collected, Removed;
    CollectAccounts(s, shed, counted, window, now, q.now);
    var c, lost := Collected(s, window, q.now), shed + Removed(s, window, q.now);
    if Misses(s, shed, window, q) {
      assert q.key !in c.seen && counted[q.key] == lost[q.key];
    } else {
      hide Accounts;
      CountAccounts(c, lost, counted, window, q);
    }
  }

  /** The deduplicator answers as the ideal log if and only if no request falls within the window of a counted
      download of its key that a shed or a clear took away. */
  lemma {:induction false} IdealExactlyWhenNothingShedIsMissed(s: State, shed: Seen, counted: Seen, window: int,
                                                               now: int, qs: seq<Request>)
    requires Timely(qs) && (qs != [] ==> now <= qs[0].now) && Accounts(s, shed, counted, window, now)
    ensures Answers(s, window, qs) == IdealAnswers(counted, window, qs) <==> NeverMisses(s, shed, window, qs)
    decreases |qs|
  {
    if qs != [] {
      var q := qs[0];
      StepAccounts(s, shed, counted, window, now, q);
      hide Step, Misses, Accounts, ShedAfter;
      var due := Fresh(counted, window, q.key, q.now);
      var counted' := if due then counted[q.key := q.now] else counted;
      var (s', answer) := Step(s, window, q);
      assert Answers(s, window, qs) == [answer] + Answers(s', window, qs[1..]);
      assert IdealAnswers(counted, window, qs) == [due] + IdealAnswers(counted', window, qs[1..]);
      if !Misses(s, shed, window, q) {
        IdealExactlyWhenNothingShedIsMissed(s', ShedAfter(s, shed, window, q), counted', window, q.now, qs[1..]);
        SameTails(answer, Answers(s', window, qs[1..]), IdealAnswers(counted', window, qs[1..]));
      } else {
        assert Answers(s, window, qs)[0] != IdealAnswers(counted, window, qs)[0];
      }
    }
  }

  lemma SameTails(b: bool, x: seq<bool>, y: seq<bool>)
    ensures [b] + x == [b] + y <==> x == y
  {
    assert ([b] + x)[1..] == x && ([b] + y)[1..] == y;
  }

  // ----- a run that shows it -------------------------------------------------------------------

  function FloodKey(i: int): Key {
    Key("", "", i)
  }

  function FloodKeys(n: nat): set<Key> {
    set i | 0 <= i < n :: FloodKey(i)
  }

  lemma {:induction false} FloodSize(n: nat)
    ensures |FloodKeys(n)| == n
  {
    if n > 0 {
      FloodSize(n - 1);
      assert FloodKeys(n) == FloodKeys(n - 1) + {FloodKey(n - 1)};
      assert FloodKey(n - 1) !in FloodKeys(n - 1);
    }
  }

  /** Versions i to n - 1, each downloaded once at time 0. */
  function Flood(i: nat, n: nat): (qs: seq<Request>)
    requires i <= n
    ensures |qs| == n - i
  {
    seq(n - i, k requires 0 <= k < n - i => Request(FloodKey(i + k), 0))
  }

  function Flooded(n: nat): Seen {
    map k | k in FloodKeys(n) :: 0
  }

  lemma FloodStep(i: nat, window: int)
    requires i <= MAX_ENTRIES && window >= 4
    ensures Step(State(Flooded(i), 0), window, Request(FloodKey(i), 0)) == (State(Flooded(i + 1), 0), true)
    ensures Fresh(Flooded(i), window, FloodKey(i), 0) && Flooded(i)[FloodKey(i) := 0] == Flooded(i + 1)
  {
    FloodSize(i);
    assert Flooded(i).Keys == FloodKeys(i);
    assert FloodKeys(i + 1) == FloodKeys(i) + {FloodKey(i)};
    assert FloodKey(i) !in FloodKeys(i);
    assert Flooded(i)[FloodKey(i) := 0] == Flooded(i + 1);
  }

  lemma {:induction false} FloodRun(i: nat, n: nat, window: int, last: Request)
    requires i <= n <= MAX_ENTRIES + 1 && window >= 4
    ensures var qs := Flood(i, n) + [last];
      Answers(State(Flooded(i), 0), window, qs)[n - i] == Step(State(Flooded(n), 0), window, last).1 &&
      IdealAnswers(Flooded(i), window, qs)[n - i] == Fresh(Flooded(n), window, last.key, last.now)
    decreases n - i
  {
    hide Step, Fresh, Flooded;
    var qs := Flood(i, n) + [last];
    if i < n {
      FloodStep(i, window);
      assert qs[0] == Request(FloodKey(i), 0) && qs[1..] == Flood(i + 1, n) + [last];
      FloodRun(i + 1, n, window, last);
    } else {
      assert qs == [last] && qs[1..] == [];
    }
  }

  /** A flood of one download more than the cap makes the table forget a download of a moment ago: it is counted
      twice, where the ideal log counts it once. */
  lemma FloodCountsTwice(window: int) returns (qs: seq<Request>)
    requires window >= 4
    ensures Timely(qs) && |qs| == MAX_ENTRIES + 2 && qs[0].key == qs[MAX_ENTRIES + 1].key
    ensures Answers(State(map[], 0), window, qs)[MAX_ENTRIES + 1]
    ensures !IdealAnswers(map[], window, qs)[MAX_ENTRIES + 1]
  {
    var n: nat := MAX_ENTRIES + 1;
    var last := Request(FloodKey(0), 1);
    qs := Flood(0, n) + [last];
    assert Flooded(0) == map[];
    FloodRun(0, n, window, last);
    FloodSize(n);
    assert Flooded(n).Keys == FloodKeys(n) && FloodKey(0) in FloodKeys(n);
    assert AfterShed(Flooded(n), window, 1) == Flooded(n);
    assert Clears(State(Flooded(n), 0), window, 1);
  }

  // ----- the rule, exactly ------------------------------------------------------------------------

  /** The ideal log counts a download if and only if it counted none of its key within the window before. */
  lemma {:induction false} IdealExactly(counted: Seen, window: int, past: seq<Request>, bs: seq<bool>, qs: seq<Request>,
                                        j: nat)
    requires |past| == |bs| && LastCounted(counted, past, bs) && j < |qs| && Timely(past + qs)
    ensures Rules(window, past + qs, bs + IdealAnswers(counted, window, qs), |past| + j)
    decreases |qs|
  {
    hide LastCounted, Fresh, Timely;
    var q := qs[0];
    var b := Fresh(counted, window, q.key, q.now);
    var counted' := if b then counted[q.key := q.now] else counted;
    assert IdealAnswers(counted, window, qs) == [b] + IdealAnswers(counted', window, qs[1..]);
    if j == 0 {
      FreshIsIdeal(counted, window, past, bs, q);
      FirstRules(window, past, bs, qs, [b] + IdealAnswers(counted', window, qs[1..]));
    } else {
      InTime(past, qs);
      LastCountedOn(counted, window, past, bs, q);
      assert past + [q] + qs[1..] == past + qs;
      assert bs + [b] + IdealAnswers(counted', window, qs[1..]) == bs + ([b] + IdealAnswers(counted', window, qs[1..]));
      IdealExactly(counted', window, past + [q], bs + [b], qs[1..], j - 1);
    }
  }

  /** The answer at `n` is true exactly if no earlier true one of its key lies within the window. */
  predicate Rules(window: int, qs: seq<Request>, bs: seq<bool>, n: nat)
    requires |qs| == |bs| && n < |qs|
  {
    bs[n] <==> forall i :: 0 <= i < n && bs[i] && qs[i].key == qs[n].key ==> qs[n].now - qs[i].now >= window
  }

  lemma FirstRules(window: int, past: seq<Request>, bs: seq<bool>, qs: seq<Request>, answers: seq<bool>)
    requires |past| == |bs| && |qs| == |answers| && qs != []
    requires answers[0] <==>
      forall i :: 0 <= i < |past| && bs[i] && past[i].key == qs[0].key ==> qs[0].now - past[i].now >= window
    ensures Rules(window, past + qs, bs + answers, |past|)
  {
    var all, n := past + qs, |past|;
    assert all[n] == qs[0] && (bs + answers)[n] == answers[0];
    assert forall i :: 0 <= i < n ==> all[i] == past[i] && (bs + answers)[i] == bs[i];
  }

  lemma InTime(past: seq<Request>, qs: seq<Request>)
    requires Timely(past + qs) && qs != []
    ensures forall i :: 0 <= i < |past| ==> past[i].now <= qs[0].now
  {
    var all := past + qs;
    assert all[|past|] == qs[0] && forall i :: 0 <= i < |past| ==> all[i] == past[i];
  }

  /** The log holds the time of the last counted download of each key. */
  ghost predicate LastCounted(counted: Seen, past: seq<Request>, bs: seq<bool>)
    requires |past| == |bs|
  {
    && (forall k :: k in counted ==> exists i :: Counted(past, bs, i, k) && past[i].now == counted[k])
    && (forall i :: 0 <= i < |past| && bs[i] ==> past[i].key in counted && past[i].now <= counted[past[i].key])
  }

  lemma FreshIsIdeal(counted: Seen, window: int, past: seq<Request>, bs: seq<bool>, q: Request)
    requires |past| == |bs| && LastCounted(counted, past, bs)
    ensures Fresh(counted, window, q.key, q.now) <==>
      forall i :: 0 <= i < |past| && bs[i] && past[i].key == q.key ==> q.now - past[i].now >= window
  {
    if q.key in counted {
      var i :| Counted(past, bs, i, q.key) && past[i].now == counted[q.key];
    }
  }

  lemma LastCountedOn(counted: Seen, window: int, past: seq<Request>, bs: seq<bool>, q: Request)
    requires |past| == |bs| && LastCounted(counted, past, bs) && forall i :: 0 <= i < |past| ==> past[i].now <= q.now
    ensures var b := Fresh(counted, window, q.key, q.now);
      LastCounted(if b then counted[q.key := q.now] else counted, past + [q], bs + [b])
  {
    var b := Fresh(counted, window, q.key, q.now);
    var after, all, answers := if b then counted[q.key := q.now] else counted, past + [q], bs + [b];
    forall k | k in after
      ensures exists i :: Counted(all, answers, i, k) && all[i].now == after[k]
    {
      if b && k == q.key {
        assert Counted(all, answers, |past|, k);
      } else {
        var i :| Counted(past, bs, i, k) && past[i].now == counted[k];
        assert Counted(all, answers, i, k);
      }
    }
  }

  /** Collecting, exactly: once half a window has passed since the last time, downloads a window old go; where more than
      200,000 remain, those older than half a window go as well, and all of them if that leaves as many. */
  lemma CollectedExactly(s: State, window: int, now: int)
    ensures var due := now - s.lastGC >= window / 2;
      var young := map k | k in s.seen && !(due && now - s.seen[k] >= window) :: s.seen[k];
      var recent := map k | k in young && now - young[k] <= window / 2 :: young[k];
      Collected(s, window, now) ==
      State(if |young| <= 200_000 then young else if |recent| <= 200_000 then recent else map[],
            if due then now else s.lastGC)
  {
    var young := AfterGC(s, window, now).seen;
    var due := now - s.lastGC >= window / 2;
    assert young == map k | k in s.seen && !(due && now - s.seen[k] >= window) :: s.seen[k];
    assert AfterShed(young, window, now) == map k | k in young && now - young[k] <= window / 2 :: young[k];
  }
}
