/** The per-client token bucket of api/middleware/ratelimit.go and the table that forgets idle buckets.
    Time is a real number of seconds and token arithmetic is exact. */
module RateLimit {
  import opened Text

  const MAX_BUCKETS: nat := 50_000
  const MINUTE: real := 60.0

  // ----- one bucket -------------------------------------------------------------------

  datatype BucketState = BucketState(tokens: real, lastRefill: real)

  datatype Verdict = Verdict(allowed: bool, remaining: int)

  function Min(a: real, b: real): real {
    if a <= b then a else b
  }

  /** Tokens earned in `elapsed` seconds. */
  function Gain(elapsed: real, rate: real): real {
    elapsed * (rate / MINUTE)
  }

  /** The token level seen by a call at `now`, before that call takes its token. */
  function Level(b: BucketState, rate: real, now: real): real {
    Min(b.tokens + Gain(now - b.lastRefill, rate), rate)
  }

  function Take(b: BucketState, rate: real, now: real): (BucketState, Verdict) {
    var level := Level(b, rate, now);
    if level < 1.0
    then (BucketState(level, now), Verdict(false, 0))
    else (BucketState(level - 1.0, now), Verdict(true, (level - 1.0).Floor))
  }

  class Bucket {
    var tokens: real
    var lastRefill: real

    constructor (tokens: real, lastRefill: real)
      ensures View() == BucketState(tokens, lastRefill)
    {
      this.tokens, this.lastRefill := tokens, lastRefill;
    }

    ghost function View(): BucketState
      reads this
    {
      BucketState(tokens, lastRefill)
    }

    method AllowWithRemaining(ratePerMin: real, now: real) returns (allowed: bool, remaining: int)
      modifies this
      ensures (View(), Verdict(allowed, remaining)) == Take(old(View()), ratePerMin, now)
    {
      var elapsed := now - lastRefill;
      lastRefill := now;
      GainPerSecond(elapsed, ratePerMin);
      hide Gain;
      tokens := tokens + elapsed * ratePerMin / 60.0;
      if tokens > ratePerMin {
        tokens := ratePerMin;
      }
      if tokens < 1.0 {
        return false, 0;
      }
      tokens := tokens - 1.0;
      return true, tokens.Floor;
    }
  }

  /** What every bucket satisfies after every call. */
  predicate Sane(b: BucketState, rate: real, now: real) {
    0.0 <= b.tokens <= rate && b.lastRefill <= now
  }

  predicate NonDecreasing(times: seq<real>) {
    forall i, j :: 0 <= i < j < |times| ==> times[i] <= times[j]
  }

  function Verdicts(b: BucketState, rate: real, times: seq<real>): (bs: seq<bool>)
    ensures |bs| == |times|
    decreases |times|
  {
    if times == [] then []
    else
      var (b', v) := Take(b, rate, times[0]);
      [v.allowed] + Verdicts(b', rate, times[1..])
  }

  function CountTrue(bs: seq<bool>): nat {
    if bs == [] then 0 else (if bs[0] then 1 else 0) + CountTrue(bs[1..])
  }

  lemma GainMonotone(x: real, y: real, rate: real)
    requires x <= y && 0.0 <= rate
    ensures Gain(x, rate) <= Gain(y, rate)
  {
  }

  lemma GainAdds(x: real, y: real, rate: real)
    ensures Gain(x, rate) + Gain(y, rate) == Gain(x + y, rate)
  {
  }

  lemma GainPerSecond(elapsed: real, rate: real)
    ensures Gain(elapsed, rate) == elapsed * rate / 60.0
  {
  }

  /** One call, exactly: what it finds is what was left plus a sixtieth of the rate for every second since, at most a
      full burst; it is allowed exactly if that is a whole token, which it takes, and it reports the whole tokens
      left. */
  lemma CallExactly(b: BucketState, rate: real, now: real)
    ensures var (b', v) := Take(b, rate, now);
      var earned := b.tokens + (now - b.lastRefill) * rate / 60.0;
      var level := if earned > rate then rate else earned;
      (v.allowed <==> level >= 1.0) && v.remaining == (if v.allowed then level.Floor - 1 else 0) &&
      b'.tokens == (if v.allowed then level - 1.0 else level) && b'.lastRefill == now
  {
    hide Gain;
    GainPerSecond(now - b.lastRefill, rate);
    var level := Level(b, rate, now);
    assert (level - 1.0).Floor == level.Floor - 1;
  }

  lemma TakeKeepsSane(b: BucketState, rate: real, now: real)
    requires 0.0 <= rate && Sane(b, rate, now)
    ensures Sane(Take(b, rate, now).0, rate, now)
    ensures Take(b, rate, now).1.remaining >= 0
  {
    GainMonotone(0.0, now - b.lastRefill, rate);
  }

  /** One call: what it spends plus what the next call finds is at most what it found plus the gain between. */
  lemma TakeSpends(b: BucketState, rate: real, now: real, next: real)
    ensures var (b', v) := Take(b, rate, now);
      (if v.allowed then 1.0 else 0.0) + Level(b', rate, next) <= Level(b, rate, now) + Gain(next - now, rate)
  {
  }

  /** Allowed calls are paid for by the tokens present at the first one plus the refill since. */
  lemma {:induction false} PrefixBound(b: BucketState, rate: real, times: seq<real>, j: nat)
    requires 0.0 <= rate && j < |times| && NonDecreasing(times)
    requires Sane(b, rate, times[0])
    ensures CountTrue(Verdicts(b, rate, times)[..j + 1]) as real
            <= Level(b, rate, times[0]) + Gain(times[j] - times[0], rate)
    decreases j
  {
    var all := Verdicts(b, rate, times);
    var (b', v) := Take(b, rate, times[0]);
    TakeKeepsSane(b, rate, times[0]);
    if j == 0 {
      assert all[..1] == [v.allowed];
    } else {
      var rest := Verdicts(b', rate, times[1..]);
      assert all[..j + 1] == [v.allowed] + rest[..j];
      PrefixBound(b', rate, times[1..], j - 1);
      TakeSpends(b, rate, times[0], times[1]);
      GainAdds(times[1] - times[0], times[j] - times[1], rate);
    }
  }

  lemma {:induction false} WindowGain(b: BucketState, rate: real, times: seq<real>, i: nat, j: nat)
    requires 0.0 <= rate && i <= j < |times| && NonDecreasing(times)
    requires Sane(b, rate, times[0])
    ensures CountTrue(Verdicts(b, rate, times)[i..j + 1]) as real <= rate + Gain(times[j] - times[i], rate)
    decreases i
  {
    if i == 0 {
      PrefixBound(b, rate, times, j);
    } else {
      var (b', v) := Take(b, rate, times[0]);
      TakeKeepsSane(b, rate, times[0]);
      assert Verdicts(b, rate, times)[i..j + 1] == Verdicts(b', rate, times[1..])[i - 1..j];
      WindowGain(b', rate, times[1..], i - 1, j - 1);
    }
  }

  /** Sliding window: between two calls on one bucket at `times[i]` and `times[j]`, at most a full burst
      plus a sixtieth of the rate for every second of that window is allowed, whatever happened before. */
  lemma WindowBound(b: BucketState, rate: real, times: seq<real>, i: nat, j: nat)
    requires 0.0 <= rate && i <= j < |times| && NonDecreasing(times)
    requires 0.0 <= b.tokens <= rate && b.lastRefill <= times[0]
    ensures CountTrue(Verdicts(b, rate, times)[i..j + 1]) as real <= rate + (times[j] - times[i]) * rate / 60.0
  {
    hide Gain, Verdicts, CountTrue;
    WindowGain(b, rate, times, i, j);
    GainPerSecond(times[j] - times[i], rate);
  }

  // ----- the table --------------------------------------------------------------------

  type Table = map<string, BucketState>

  datatype Limiter = Limiter(table: Table, lastCleanup: real)

  function EvictIdle(table: Table, idleFor: real, now: real): Table {
    map ip | ip in table && !(now - table[ip].lastRefill > idleFor) :: table[ip]
  }

  function Cleaned(s: Limiter, now: real): Limiter {
    if now - s.lastCleanup > MINUTE then Limiter(EvictIdle(s.table, 5.0 * MINUTE, now), now) else s
  }

  /** The wholesale drop fires: a new client finds the table full even after the aggressive eviction. */
  predicate Drops(s: Limiter, ip: string, now: real) {
    var t := Cleaned(s, now).table;
    ip !in t && |t| >= MAX_BUCKETS && |EvictIdle(t, MINUTE, now)| >= MAX_BUCKETS
  }

  function Admit(s: Limiter, rate: real, ip: string, now: real): (r: Limiter)
    ensures ip in r.table
  {
    var c := Cleaned(s, now);
    if ip in c.table then c
    else
      var kept :=
        if |c.table| < MAX_BUCKETS then c.table
        else if Drops(s, ip, now) then map[]
        else EvictIdle(c.table, MINUTE, now);
      c.(table := kept[ip := BucketState(rate, now)])
  }

  /** Finding a client's bucket, exactly. Once a minute, buckets idle for more than five minutes go. A new client that
      finds 50,000 buckets makes those idle for more than one minute go as well, and all of them if that leaves as
      many. It gets a full bucket; nobody else's bucket changes. */
  lemma AdmitExactly(s: Limiter, rate: real, ip: string, now: real)
    ensures var due := now - s.lastCleanup > 60.0;
      var kept := map k | k in s.table && !(due && now - s.table[k].lastRefill > 300.0) :: s.table[k];
      var young := map k | k in kept && now - kept[k].lastRefill <= 60.0 :: kept[k];
      var room := if |kept| < 50_000 then kept else if |young| < 50_000 then young else map[];
      Admit(s, rate, ip, now) ==
      Limiter(if ip in kept then kept else room[ip := BucketState(rate, now)], if due then now else s.lastCleanup)
  {
    var kept := Cleaned(s, now).table;
    var due := now - s.lastCleanup > 60.0;
    assert kept == map k | k in s.table && !(due && now - s.table[k].lastRefill > 300.0) :: s.table[k];
    assert EvictIdle(kept, MINUTE, now) == map k | k in kept && now - kept[k].lastRefill <= 60.0 :: kept[k];
  }

  class RateLimiter {
    var buckets: map<string, Bucket>
    const ratePerMin: real
    var lastCleanup: real

    constructor (ratePerMin: real, now: real)
      ensures Valid() && this.ratePerMin == ratePerMin
      ensures View() == Limiter(map[], now)
    {
      this.buckets, this.ratePerMin, this.lastCleanup := map[], ratePerMin, now;
    }

    /** No two clients share a bucket object. */
    ghost predicate Valid()
      reads this
    {
      forall a, b :: a in buckets && b in buckets && a != b ==> buckets[a] != buckets[b]
    }

    ghost function View(): Limiter
      reads this, buckets.Values
    {
      Limiter(map ip | ip in buckets :: buckets[ip].View(), lastCleanup)
    }

    method EvictIdleLocked(idleFor: real, now: real)
      requires Valid()
      modifies this`buckets
      ensures Valid() && buckets.Values <= old(buckets.Values)
      ensures View() == old(View()).(table := EvictIdle(old(View()).table, idleFor, now))
    {
      var pending := buckets.Keys;
      ghost var before := buckets;
      while pending != {}
        invariant pending <= before.Keys
        invariant buckets.Keys <= before.Keys
        invariant forall ip :: ip in buckets ==> buckets[ip] == before[ip]
        invariant forall ip :: ip in before ==>
          (ip in buckets <==> ip in pending || !(now - before[ip].lastRefill > idleFor))
        decreases |pending|
      {
        var ip :| ip in pending;
        pending := pending - {ip};
        if now - buckets[ip].lastRefill > idleFor {
          buckets := buckets - {ip};
        }
      }
    }

    method GetBucket(ip: string, now: real) returns (b: Bucket)
      requires Valid()
      modifies this
      ensures Valid() && ip in buckets && buckets[ip] == b
      ensures b in old(buckets.Values) || fresh(b)
      ensures View() == Admit(old(View()), ratePerMin, ip, now)
    {
      CleanUp(now);
      SameSize();
      if ip in buckets {
        return buckets[ip];
      }
      if |buckets| >= MAX_BUCKETS {
        MakeRoom(now);
      }
      b := Insert(ip, now);
    }

    /** Once a minute: evict what has been idle for five. */
    method CleanUp(now: real)
      requires Valid()
      modifies this
      ensures Valid() && buckets.Values <= old(buckets.Values)
      ensures View() == Cleaned(old(View()), now)
    {
      hide EvictIdle;
      if now - lastCleanup > MINUTE {
        EvictIdleLocked(5.0 * MINUTE, now);
        lastCleanup := now;
      }
    }

    method Insert(ip: string, now: real) returns (b: Bucket)
      requires Valid()
      modifies this`buckets
      ensures Valid() && fresh(b) && ip in buckets && buckets[ip] == b
      ensures View() == old(View()).(table := old(View()).table[ip := BucketState(ratePerMin, now)])
    {
      b := new Bucket(ratePerMin, now);
      buckets := buckets[ip := b];
    }

    /** Under pressure: evict aggressively, and drop the whole table if that is not enough. */
    method MakeRoom(now: real)
      requires Valid()
      modifies this`buckets
      ensures Valid() && buckets.Values <= old(buckets.Values)
      ensures var kept := EvictIdle(old(View()).table, MINUTE, now);
        View() == old(View()).(table := if |kept| >= MAX_BUCKETS then map[] else kept)
    {
      hide EvictIdle;
      EvictIdleLocked(MINUTE, now);
      SameSize();
      if |buckets| >= MAX_BUCKETS {
        buckets := map[];
      }
    }

    lemma SameSize()
      ensures |View().table| == |buckets|
    {
      assert View().table.Keys == buckets.Keys;
    }

    /** One request: find the bucket at `enter`, spend from it at `take`. */
    method Handle(ip: string, enter: real, take: real) returns (allowed: bool, remaining: int)
      requires Valid()
      modifies this, buckets.Values
      ensures Valid()
      ensures (View(), Verdict(allowed, remaining)) == Step(old(View()), ratePerMin, Request(ip, enter, take))
    {
      hide Take, Admit;
      var b := GetBucket(ip, enter);
      ghost var admitted := View();
      allowed, remaining := b.AllowWithRemaining(ratePerMin, take);
      assert View().table == admitted.table[ip := b.View()];
    }
  }

  // ----- runs -------------------------------------------------------------------------

  datatype Request = Request(ip: string, enter: real, take: real)

  function Step(s: Limiter, rate: real, q: Request): (Limiter, Verdict) {
    var a := Admit(s, rate, q.ip, q.enter);
    var (b, v) := Take(a.table[q.ip], rate, q.take);
    (a.(table := a.table[q.ip := b]), v)
  }

  /** The reference: a table that is never cleaned. */
  function IdealStep(table: Table, rate: real, q: Request): (Table, Verdict) {
    var b := if q.ip in table then table[q.ip] else BucketState(rate, q.enter);
    var (b', v) := Take(b, rate, q.take);
    (table[q.ip := b'], v)
  }

  function Serve(s: Limiter, rate: real, qs: seq<Request>): (vs: seq<Verdict>)
    ensures |vs| == |qs|
    decreases |qs|
  {
    if qs == [] then [] else var (s', v) := Step(s, rate, qs[0]); [v] + Serve(s', rate, qs[1..])
  }

  function IdealServe(table: Table, rate: real, qs: seq<Request>): (vs: seq<Verdict>)
    ensures |vs| == |qs|
    decreases |qs|
  {
    if qs == [] then []
    else var (table', v) := IdealStep(table, rate, qs[0]); [v] + IdealServe(table', rate, qs[1..])
  }

  predicate NeverDrops(s: Limiter, rate: real, qs: seq<Request>)
    decreases |qs|
  {
    qs == [] || (!Drops(s, qs[0].ip, qs[0].enter) && NeverDrops(Step(s, rate, qs[0]).0, rate, qs[1..]))
  }

  /** Requests are served one after another by a clock that never runs backwards. */
  predicate Timely(qs: seq<Request>) {
    (forall i :: 0 <= i < |qs| ==> qs[i].enter <= qs[i].take) &&
    (forall i, j :: 0 <= i < j < |qs| ==> qs[i].take <= qs[j].enter)
  }

  lemma {:induction false} TableNeverExceedsCap(s: Limiter, rate: real, q: Request)
    requires |s.table| <= 50_000
    ensures |Step(s, rate, q).0.table| <= 50_000
  {
    EvictShrinks(s.table, 5.0 * MINUTE, q.enter);
    var c := Cleaned(s, q.enter).table;
    EvictShrinks(c, MINUTE, q.enter);
    var a := Admit(s, rate, q.ip, q.enter).table;
    assert |a| <= MAX_BUCKETS by {
      if q.ip !in c {
        var kept := a - {q.ip};
        assert a.Keys == kept.Keys + {q.ip};
      }
    }
    assert Step(s, rate, q).0.table.Keys == a.Keys;
  }

  lemma EvictShrinks(table: Table, idleFor: real, now: real)
    ensures |EvictIdle(table, idleFor, now)| <= |table|
  {
    var e := EvictIdle(table, idleFor, now);
    assert e.Keys <= table.Keys;
    SubsetSize(e.Keys, table.Keys);
  }

  lemma {:induction false} SubsetSize<T>(a: set<T>, b: set<T>)
    requires a <= b
    ensures |a| <= |b|
  {
    assert b == a + (b - a);
  }

  /** The limiter and the ideal table agree on every bucket the limiter still has, and every bucket it
      has forgotten is idle for over a minute and so has refilled. */
  ghost predicate Simulates(s: Limiter, ideal: Table, rate: real, now: real) {
    && s.table.Keys <= ideal.Keys
    && (forall ip :: ip in s.table ==> s.table[ip] == ideal[ip])
    && (forall ip :: ip in ideal ==> Sane(ideal[ip], rate, now))
    && (forall ip :: ip in ideal && ip !in s.table ==> now - ideal[ip].lastRefill > MINUTE)
  }

  lemma IdleIsFull(b: BucketState, rate: real, now: real)
    requires 0.0 <= rate && Sane(b, rate, now) && now - b.lastRefill > MINUTE
    ensures Level(b, rate, now) == rate
  {
    GainMonotone(MINUTE, now - b.lastRefill, rate);
  }

  lemma FreshIsFull(rate: real, enter: real, take: real)
    requires 0.0 <= rate && enter <= take
    ensures Level(BucketState(rate, enter), rate, take) == rate
  {
    GainMonotone(0.0, take - enter, rate);
  }

  lemma StepSimulates(s: Limiter, ideal: Table, rate: real, now: real, q: Request)
    requires 0.0 <= rate && now <= q.enter <= q.take
    requires Simulates(s, ideal, rate, now) && !Drops(s, q.ip, q.enter)
    ensures Step(s, rate, q).1 == IdealStep(ideal, rate, q).1
    ensures Simulates(Step(s, rate, q).0, IdealStep(ideal, rate, q).0, rate, q.take)
  {
    hide Take, Admit, Drops;
    AdmitForgetsIdle(s, ideal, rate, now, q);
    AdmitSimulates(s, ideal, rate, now, q);
    TakeKeepsSane(if q.ip in ideal then ideal[q.ip] else BucketState(rate, q.enter), rate, q.take);
  }

  /** Admission forgets only idle buckets, and a client without its old bucket gets a full one. */
  lemma AdmitForgetsIdle(s: Limiter, ideal: Table, rate: real, now: real, q: Request)
    requires now <= q.enter && Simulates(s, ideal, rate, now) && !Drops(s, q.ip, q.enter)
    ensures var a := Admit(s, rate, q.ip, q.enter).table;
      (forall ip :: ip in a && ip != q.ip ==> ip in ideal && a[ip] == ideal[ip]) &&
      (forall ip :: ip in ideal && ip !in a ==> q.enter - ideal[ip].lastRefill > MINUTE) &&
      if q.ip in ideal && a[q.ip] == ideal[q.ip] then true
      else a[q.ip] == BucketState(rate, q.enter) && (q.ip in ideal ==> q.enter - ideal[q.ip].lastRefill > MINUTE)
  {
    hide Drops;
  }

  /** And a full bucket is as good as the client's own. */
  lemma AdmitSimulates(s: Limiter, ideal: Table, rate: real, now: real, q: Request)
    requires 0.0 <= rate && now <= q.enter <= q.take
    requires Simulates(s, ideal, rate, now) && !Drops(s, q.ip, q.enter)
    ensures Take(Admit(s, rate, q.ip, q.enter).table[q.ip], rate, q.take) ==
            Take(if q.ip in ideal then ideal[q.ip] else BucketState(rate, q.enter), rate, q.take)
  {
    hide Level, Admit, Drops;
    AdmitForgetsIdle(s, ideal, rate, now, q);
    FreshIsFull(rate, q.enter, q.take);
    if q.ip in ideal && Admit(s, rate, q.ip, q.enter).table[q.ip] != ideal[q.ip] {
      IdleIsFull(ideal[q.ip], rate, q.take);
    }
  }

  /** Forgetting idle buckets is invisible: while the wholesale drop does not fire, the bounded table
      gives exactly the verdicts (and advertised budgets) of a table that never forgets. */
  lemma {:induction false} EvictionIsInvisible(s: Limiter, ideal: Table, rate: real, now: real, qs: seq<Request>)
    requires 0.0 <= rate && Timely(qs) && (qs != [] ==> now <= qs[0].enter)
    requires Simulates(s, ideal, rate, now) && NeverDrops(s, rate, qs)
    ensures Serve(s, rate, qs) == IdealServe(ideal, rate, qs)
    decreases |qs|
  {
    if qs != [] {
      StepSimulates(s, ideal, rate, now, qs[0]);
      EvictionIsInvisible(Step(s, rate, qs[0]).0, IdealStep(ideal, rate, qs[0]).0, rate, qs[0].take, qs[1..]);
    }
  }

  // ----- exactly when a wholesale drop shows -------------------------------------------------

  /** The token level that each request finds, before it takes its token. */
  function LevelsServed(s: Limiter, rate: real, qs: seq<Request>): (levels: seq<real>)
    ensures |levels| == |qs|
    decreases |qs|
  {
    if qs == [] then []
    else [LevelFound(s, rate, qs[0])] + LevelsServed(Step(s, rate, qs[0]).0, rate, qs[1..])
  }

  function IdealLevels(ideal: Table, rate: real, qs: seq<Request>): (levels: seq<real>)
    ensures |levels| == |qs|
    decreases |qs|
  {
    if qs == [] then []
    else [IdealLevelFound(ideal, rate, qs[0])] + IdealLevels(IdealStep(ideal, rate, qs[0]).0, rate, qs[1..])
  }

  function LevelFound(s: Limiter, rate: real, q: Request): real {
    Level(Admit(s, rate, q.ip, q.enter).table[q.ip], rate, q.take)
  }

  function IdealLevelFound(ideal: Table, rate: real, q: Request): real {
    Level(if q.ip in ideal then ideal[q.ip] else BucketState(rate, q.enter), rate, q.take)
  }

  /** The buckets lost to wholesale drops, with those that this request's admission drops. */
  function Lost(s: Limiter, dropped: Table, q: Request): Table {
    if Drops(s, q.ip, q.enter) then dropped + EvictIdle(Cleaned(s, q.enter).table, MINUTE, q.enter) else dropped
  }

  /** A request of a client whose bucket was dropped and would not have refilled by now. */
  predicate Misses(s: Limiter, dropped: Table, rate: real, q: Request) {
    var lost := Lost(s, dropped, q);
    q.ip in lost && Level(lost[q.ip], rate, q.take) < rate
  }

  predicate NeverMisses(s: Limiter, dropped: Table, rate: real, qs: seq<Request>)
    decreases |qs|
  {
    qs == [] ||
    (!Misses(s, dropped, rate, qs[0]) &&
     NeverMisses(Step(s, rate, qs[0]).0, Lost(s, dropped, qs[0]) - {qs[0].ip}, rate, qs[1..]))
  }

  /** The table and the dropped buckets together are the ideal table, less buckets idle for over a minute. */
  ghost predicate Accounts(table: Table, dropped: Table, ideal: Table, rate: real, now: real) {
    && table.Keys !! dropped.Keys && table.Keys + dropped.Keys <= ideal.Keys
    && (forall ip :: ip in table ==> table[ip] == ideal[ip])
    && (forall ip :: ip in dropped ==> dropped[ip] == ideal[ip])
    && (forall ip :: ip in ideal ==> Sane(ideal[ip], rate, now))
    && (forall ip :: ip in ideal && ip !in table && ip !in dropped ==> now - ideal[ip].lastRefill > MINUTE)
  }

  lemma EvictAccounts(table: Table, dropped: Table, ideal: Table, rate: real, now: real, idleFor: real, later: real)
    requires Accounts(table, dropped, ideal, rate, now) && now <= later && MINUTE <= idleFor
    ensures Accounts(EvictIdle(table, idleFor, later), dropped, ideal, rate, later)
  {
  }

  lemma WaitAccounts(table: Table, dropped: Table, ideal: Table, rate: real, now: real, later: real)
    requires Accounts(table, dropped, ideal, rate, now) && now <= later
    ensures Accounts(table, dropped, ideal, rate, later)
  {
  }

  lemma DropAccounts(table: Table, dropped: Table, ideal: Table, rate: real, now: real)
    requires Accounts(table, dropped, ideal, rate, now)
    ensures Accounts(map[], dropped + table, ideal, rate, now)
  {
  }

  /** The account of every client but `ip`, and what `ip` has: its own bucket, or a full one in its stead. */
  ghost predicate AccountsFor(ip: string, table: Table, lost: Table, ideal: Table, rate: real, now: real) {
    && ip in table && Accounts(table - {ip}, lost - {ip}, ideal - {ip}, rate, now)
    && (ip in ideal ==> Sane(ideal[ip], rate, now)) && (ip in lost ==> ip in ideal && lost[ip] == ideal[ip])
    && (table[ip] == BucketState(rate, now) || (ip in ideal && ip !in lost && table[ip] == ideal[ip]))
    && (ip in ideal && ip !in lost && table[ip] != ideal[ip] ==> now - ideal[ip].lastRefill > MINUTE)
  }

  lemma FoundAccounts(table: Table, lost: Table, ideal: Table, rate: real, now: real, ip: string)
    requires Accounts(table, lost, ideal, rate, now) && ip in table
    ensures AccountsFor(ip, table, lost, ideal, rate, now)
  {
  }

  lemma InsertAccounts(table: Table, lost: Table, ideal: Table, rate: real, now: real, ip: string)
    requires Accounts(table, lost, ideal, rate, now) && ip !in table
    ensures AccountsFor(ip, table[ip := BucketState(rate, now)], lost, ideal, rate, now)
  {
    assert table[ip := BucketState(rate, now)] - {ip} == table;
  }

  lemma AdmitAccounts(s: Limiter, dropped: Table, ideal: Table, rate: real, now: real, q: Request)
    requires now <= q.enter && Accounts(s.table, dropped, ideal, rate, now)
    ensures AccountsFor(q.ip, Admit(s, rate, q.ip, q.enter).table, Lost(s, dropped, q), ideal, rate, q.enter)
  {
    hide Accounts, AccountsFor, EvictIdle;
    var c := Cleaned(s, q.enter).table;
    EvictAccounts(s.table, dropped, ideal, rate, now, 5.0 * MINUTE, q.enter);
    WaitAccounts(s.table, dropped, ideal, rate, now, q.enter);
    if q.ip in c {
      FoundAccounts(c, dropped, ideal, rate, q.enter, q.ip);
    } else if |c| < MAX_BUCKETS {
      InsertAccounts(c, dropped, ideal, rate, q.enter, q.ip);
    } else {
      var e := EvictIdle(c, MINUTE, q.enter);
      EvictAccounts(c, dropped, ideal, rate, q.enter, MINUTE, q.enter);
      if |e| < MAX_BUCKETS {
        EvictedAbsent(c, MINUTE, q.enter, q.ip);
        InsertAccounts(e, dropped, ideal, rate, q.enter, q.ip);
      } else {
        DropAccounts(e, dropped, ideal, rate, q.enter);
        InsertAccounts(map[], dropped + e, ideal, rate, q.enter, q.ip);
      }
    }
  }

  lemma EvictedAbsent(table: Table, idleFor: real, now: real, ip: string)
    requires ip !in table
    ensures ip !in EvictIdle(table, idleFor, now)
  {
  }

  lemma StepAccounts(s: Limiter, dropped: Table, ideal: Table, rate: real, now: real, q: Request)
    requires 0.0 <= rate && now <= q.enter <= q.take && Accounts(s.table, dropped, ideal, rate, now)
    ensures LevelFound(s, rate, q) == IdealLevelFound(ideal, rate, q) <==> !Misses(s, dropped, rate, q)
    ensures !Misses(s, dropped, rate, q) ==>
      Accounts(Step(s, rate, q).0.table, Lost(s, dropped, q) - {q.ip}, IdealStep(ideal, rate, q).0, rate, q.take)
  {
    hide Admit, Lost, Level, Drops, Accounts, Sane;
    AdmitAccounts(s, dropped, ideal, rate, now, q);
    var a, lost := Admit(s, rate, q.ip, q.enter).table, Lost(s, dropped, q);
    var b := if q.ip in ideal then ideal[q.ip] else BucketState(rate, q.enter);
    LevelsAgree(a, lost, ideal, rate, q);
    if !Misses(s, dropped, rate, q) {
      OwnIsSane(a, lost, ideal, rate, q);
      TakeKeepsSane(b, rate, q.take);
      hide Misses;
      TableStep(a - {q.ip}, lost - {q.ip}, ideal - {q.ip}, rate, q, Take(b, rate, q.take).0);
      assert a[q.ip := Take(a[q.ip], rate, q.take).0] == (a - {q.ip})[q.ip := Take(b, rate, q.take).0];
      assert IdealStep(ideal, rate, q).0 == (ideal - {q.ip})[q.ip := Take(b, rate, q.take).0];
    }
  }

  lemma LevelsAgree(table: Table, lost: Table, ideal: Table, rate: real, q: Request)
    requires 0.0 <= rate && q.enter <= q.take && AccountsFor(q.ip, table, lost, ideal, rate, q.enter)
    ensures var b := if q.ip in ideal then ideal[q.ip] else BucketState(rate, q.enter);
      Level(table[q.ip], rate, q.take) == Level(b, rate, q.take) <==>
        !(q.ip in lost && Level(lost[q.ip], rate, q.take) < rate)
  {
    hide Level, Accounts;
    FreshIsFull(rate, q.enter, q.take);
    if q.ip in ideal {
      LevelAtMostRate(ideal[q.ip], rate, q.take);
      if q.enter - ideal[q.ip].lastRefill > MINUTE {
        IdleIsFull(ideal[q.ip], rate, q.take);
      }
    }
  }

  lemma OwnIsSane(table: Table, lost: Table, ideal: Table, rate: real, q: Request)
    requires 0.0 <= rate && q.enter <= q.take && AccountsFor(q.ip, table, lost, ideal, rate, q.enter)
    ensures Sane(if q.ip in ideal then ideal[q.ip] else BucketState(rate, q.enter), rate, q.take)
  {
    hide Accounts;
  }

  lemma TableStep(table: Table, lost: Table, ideal: Table, rate: real, q: Request, b: BucketState)
    requires Accounts(table, lost, ideal, rate, q.enter) && q.enter <= q.take && Sane(b, rate, q.take) && q.ip !in lost
    ensures Accounts(table[q.ip := b], lost, ideal[q.ip := b], rate, q.take)
  {
  }

  lemma LevelAtMostRate(b: BucketState, rate: real, now: real)
    ensures Level(b, rate, now) <= rate
  {
  }

  /** Every request finds the level it would find in a table that never forgets if and only if no request comes
      from a client whose bucket a wholesale drop took away before it had refilled. */
  lemma {:induction false} IdealExactlyWhenNoDropIsMissed(s: Limiter, dropped: Table, ideal: Table, rate: real,
                                                          now: real, qs: seq<Request>)
    requires 0.0 <= rate && Timely(qs) && (qs != [] ==> now <= qs[0].enter)
    requires Accounts(s.table, dropped, ideal, rate, now)
    ensures LevelsServed(s, rate, qs) == IdealLevels(ideal, rate, qs) <==> NeverMisses(s, dropped, rate, qs)
    decreases |qs|
  {
    if qs != [] {
      var q := qs[0];
      StepAccounts(s, dropped, ideal, rate, now, q);
      hide Step, IdealStep, Misses, Accounts, Lost, LevelFound, IdealLevelFound;
      var s', ideal' := Step(s, rate, q).0, IdealStep(ideal, rate, q).0;
      var served, wanted := LevelsServed(s', rate, qs[1..]), IdealLevels(ideal', rate, qs[1..]);
      OneLevelMore(s, ideal, rate, qs);
      LaterRequests(qs);
      hide LevelsServed, IdealLevels, Timely;
      SameTails(LevelFound(s, rate, q), IdealLevelFound(ideal, rate, q), served, wanted);
      if !Misses(s, dropped, rate, q) {
        IdealExactlyWhenNoDropIsMissed(s', Lost(s, dropped, q) - {q.ip}, ideal', rate, q.take, qs[1..]);
      }
    }
  }

  lemma LaterRequests(qs: seq<Request>)
    requires qs != [] && Timely(qs)
    ensures Timely(qs[1..]) && qs[0].enter <= qs[0].take && (qs[1..] != [] ==> qs[0].take <= qs[1..][0].enter)
  {
  }

  lemma OneLevelMore(s: Limiter, ideal: Table, rate: real, qs: seq<Request>)
    requires qs != []
    ensures LevelsServed(s, rate, qs) ==
      [LevelFound(s, rate, qs[0])] + LevelsServed(Step(s, rate, qs[0]).0, rate, qs[1..])
    ensures IdealLevels(ideal, rate, qs) ==
      [IdealLevelFound(ideal, rate, qs[0])] + IdealLevels(IdealStep(ideal, rate, qs[0]).0, rate, qs[1..])
  {
  }

  lemma SameTails(a: real, b: real, x: seq<real>, y: seq<real>)
    ensures [a] + x == [b] + y <==> a == b && x == y
  {
    assert ([a] + x)[1..] == x && ([b] + y)[1..] == y && ([a] + x)[0] == a && ([b] + y)[0] == b;
  }

  /** The whole tokens of a level, as far as a verdict shows them. */
  function Whole(level: real): int {
    if level < 1.0 then 0 else level.Floor
  }

  lemma VerdictShowsWhole(b: BucketState, c: BucketState, rate: real, now: real)
    ensures Take(b, rate, now).1 == Take(c, rate, now).1 <==> Whole(Level(b, rate, now)) == Whole(Level(c, rate, now))
  {
    hide Level;
  }

  /** A client dropped before its bucket refilled gets another verdict than in the ideal table if and only if its
      own bucket would hold fewer whole tokens than a full one. */
  lemma DroppedClientSeesAnother(s: Limiter, dropped: Table, ideal: Table, rate: real, now: real, q: Request)
    requires 0.0 <= rate && now <= q.enter <= q.take && Accounts(s.table, dropped, ideal, rate, now)
    requires q.ip in Lost(s, dropped, q)
    ensures q.ip in ideal
    ensures Step(s, rate, q).1 != IdealStep(ideal, rate, q).1 <==> Whole(Level(ideal[q.ip], rate, q.take)) < Whole(rate)
  {
    hide Admit, Lost, Level, Drops, Take, Accounts;
    AdmitAccounts(s, dropped, ideal, rate, now, q);
    FreshIsFull(rate, q.enter, q.take);
    LevelAtMostRate(ideal[q.ip], rate, q.take);
    VerdictShowsWhole(BucketState(rate, q.enter), ideal[q.ip], rate, q.take);
  }

  // ----- a run that shows it -------------------------------------------------------------------

  function FloodIPs(n: nat): set<string> {
    set i: nat | 0 <= i < n :: Digits(i)
  }

  lemma {:induction false} FloodSize(n: nat)
    ensures |FloodIPs(n)| == n && Digits(n) !in FloodIPs(n) && FloodIPs(n + 1) == FloodIPs(n) + {Digits(n)}
  {
    hide Digits, NatValue;
    forall i: nat | i < n
      ensures Digits(i) != Digits(n)
    {
      assert NatValue(Digits(i)) == i && NatValue(Digits(n)) == n;
    }
    if n > 0 {
      FloodSize(n - 1);
    }
  }

  /** Clients i to n - 1, one request each at time 0. */
  function Flood(i: nat, n: nat): (qs: seq<Request>)
    requires i <= n
    ensures |qs| == n - i
  {
    seq(n - i, k requires 0 <= k < n - i => Request(Digits(i + k), 0.0, 0.0))
  }

  function Spent(n: nat): Table {
    map ip | ip in FloodIPs(n) :: BucketState(0.0, 0.0)
  }

  lemma FullAtOnce()
    ensures Take(BucketState(1.0, 0.0), 1.0, 0.0) == (BucketState(0.0, 0.0), Verdict(true, 0))
    ensures Take(BucketState(0.0, 0.0), 1.0, 0.0).1 == Verdict(false, 0)
  {
    hide Gain;
    NoGain();
  }

  lemma NoGain()
    ensures Gain(0.0, 1.0) == 0.0
  {
  }

  lemma FloodStep(i: nat)
    requires i < MAX_BUCKETS
    ensures var q := Request(Digits(i), 0.0, 0.0);
      Step(Limiter(Spent(i), 0.0), 1.0, q).0 == Limiter(Spent(i + 1), 0.0) &&
      IdealStep(Spent(i), 1.0, q).0 == Spent(i + 1)
  {
    hide Take, Digits, Spent, Admit;
    FullAtOnce();
    OneMoreSpent(i);
    FloodAdmits(i);
    var t := Spent(i);
    assert t[Digits(i) := BucketState(1.0, 0.0)][Digits(i) := BucketState(0.0, 0.0)] == Spent(i + 1);
  }

  lemma OneMoreSpent(i: nat)
    ensures Digits(i) !in Spent(i) && |Spent(i)| == i && Spent(i)[Digits(i) := BucketState(0.0, 0.0)] == Spent(i + 1)
  {
    hide Digits;
    FloodSize(i);
    assert Spent(i).Keys == FloodIPs(i);
  }

  lemma FloodAdmits(i: nat)
    requires i < MAX_BUCKETS
    ensures Admit(Limiter(Spent(i), 0.0), 1.0, Digits(i), 0.0) ==
            Limiter(Spent(i)[Digits(i) := BucketState(1.0, 0.0)], 0.0)
  {
    hide Digits, Spent, Drops;
    OneMoreSpent(i);
  }

  lemma {:induction false} FloodRun(i: nat, n: nat, last: seq<Request>)
    requires i <= n <= MAX_BUCKETS
    ensures var qs := Flood(i, n) + last;
      Serve(Limiter(Spent(i), 0.0), 1.0, qs)[n - i..] == Serve(Limiter(Spent(n), 0.0), 1.0, last) &&
      IdealServe(Spent(i), 1.0, qs)[n - i..] == IdealServe(Spent(n), 1.0, last)
    decreases n - i
  {
    hide Step, IdealStep, Spent, Digits;
    var qs := Flood(i, n) + last;
    if i < n {
      FloodStep(i);
      assert qs[0] == Request(Digits(i), 0.0, 0.0) && qs[1..] == Flood(i + 1, n) + last;
      FloodRun(i + 1, n, last);
      OneVerdictMore(Limiter(Spent(i), 0.0), Spent(i), qs, n - i);
    } else {
      assert qs == last;
    }
  }

  lemma OneVerdictMore(s: Limiter, ideal: Table, qs: seq<Request>, k: nat)
    requires qs != [] && 1 <= k <= |qs|
    ensures Serve(s, 1.0, qs)[k..] == Serve(Step(s, 1.0, qs[0]).0, 1.0, qs[1..])[k - 1..]
    ensures IdealServe(ideal, 1.0, qs)[k..] == IdealServe(IdealStep(ideal, 1.0, qs[0]).0, 1.0, qs[1..])[k - 1..]
  {
    hide Step, IdealStep;
  }

  lemma AllAtOnce(qs: seq<Request>)
    requires forall i :: 0 <= i < |qs| ==> qs[i].enter == qs[i].take == 0.0
    ensures Timely(qs)
  {
  }

  /** At one request a minute, a flood of one client more than the cap drops everybody: the first client, its only
      token spent a moment ago, is allowed again, where a table that never forgets refuses it. */
  lemma FloodAllowsTwice() returns (qs: seq<Request>)
    ensures Timely(qs) && |qs| == MAX_BUCKETS + 2 && qs[0].ip == qs[MAX_BUCKETS + 1].ip
    ensures Serve(Limiter(map[], 0.0), 1.0, qs)[MAX_BUCKETS + 1].allowed
    ensures !IdealServe(map[], 1.0, qs)[MAX_BUCKETS + 1].allowed
  {
    hide Serve, IdealServe, Digits, Spent, Timely, Flood;
    var extra, again := Request(Digits(MAX_BUCKETS), 0.0, 0.0), Request(Digits(0), 0.0, 0.0);
    qs := Flood(0, MAX_BUCKETS) + [extra, again];
    FloodShape(extra, again);
    NobodyYet();
    FloodRun(0, MAX_BUCKETS, [extra, again]);
    AfterTheFlood(extra, again);
    SecondOfTail(Serve(Limiter(map[], 0.0), 1.0, qs), MAX_BUCKETS);
    SecondOfTail(IdealServe(map[], 1.0, qs), MAX_BUCKETS);
  }

  lemma FloodShape(extra: Request, again: Request)
    requires extra == Request(Digits(MAX_BUCKETS), 0.0, 0.0) && again == Request(Digits(0), 0.0, 0.0)
    ensures var qs := Flood(0, MAX_BUCKETS) + [extra, again];
      Timely(qs) && |qs| == MAX_BUCKETS + 2 && qs[0] == again && qs[MAX_BUCKETS + 1] == again
  {
    hide Digits, Timely;
    AllAtOnce(Flood(0, MAX_BUCKETS) + [extra, again]);
  }

  lemma NobodyYet()
    ensures Spent(0) == map[]
  {
  }

  lemma SecondOfTail(vs: seq<Verdict>, n: nat)
    requires n + 1 < |vs|
    ensures vs[n..][1] == vs[n + 1]
  {
  }

  lemma AfterTheFlood(extra: Request, again: Request)
    requires extra == Request(Digits(MAX_BUCKETS), 0.0, 0.0) && again == Request(Digits(0), 0.0, 0.0)
    ensures Serve(Limiter(Spent(MAX_BUCKETS), 0.0), 1.0, [extra, again])[1].allowed
    ensures !IdealServe(Spent(MAX_BUCKETS), 1.0, [extra, again])[1].allowed
  {
    hide Take, Digits, Step, IdealStep;
    var n: nat := MAX_BUCKETS;
    var full := Spent(n);
    FullAtOnce();
    DropStep(extra, again);
    var s1, ideal := Step(Limiter(full, 0.0), 1.0, extra).0, IdealStep(full, 1.0, extra).0;
    assert [extra, again][1..] == [again] && [again][1..] == [];
    assert Serve(s1, 1.0, [again])[0] == Step(s1, 1.0, again).1;
    assert IdealServe(ideal, 1.0, [again])[0] == IdealStep(ideal, 1.0, again).1;
  }

  lemma DropStep(extra: Request, again: Request)
    requires extra == Request(Digits(MAX_BUCKETS), 0.0, 0.0) && again == Request(Digits(0), 0.0, 0.0)
    ensures Step(Step(Limiter(Spent(MAX_BUCKETS), 0.0), 1.0, extra).0, 1.0, again).1.allowed
    ensures !IdealStep(IdealStep(Spent(MAX_BUCKETS), 1.0, extra).0, 1.0, again).1.allowed
  {
    hide Take, Digits;
    var n: nat := MAX_BUCKETS;
    FloodSize(n);
    FullAtOnce();
    var full := Spent(n);
    assert full.Keys == FloodIPs(n) && Digits(0) in FloodIPs(n);
    assert EvictIdle(full, MINUTE, 0.0) == full;
    assert Drops(Limiter(full, 0.0), extra.ip, 0.0);
    var s1 := Step(Limiter(full, 0.0), 1.0, extra).0;
    assert s1.table.Keys == {extra.ip} && again.ip != extra.ip;
    assert |s1.table.Keys| == 1;
    var ideal := IdealStep(full, 1.0, extra).0;
    assert ideal[again.ip] == BucketState(0.0, 0.0);
  }

  function Times(qs: seq<Request>, ip: string): (times: seq<real>) {
    if qs == [] then [] else (if qs[0].ip == ip then [qs[0].take] else []) + Times(qs[1..], ip)
  }

  function Answers(qs: seq<Request>, vs: seq<Verdict>, ip: string): (bs: seq<bool>)
    requires |vs| == |qs|
    decreases |qs|
  {
    if qs == [] then [] else (if qs[0].ip == ip then [vs[0].allowed] else []) + Answers(qs[1..], vs[1..], ip)
  }

  lemma {:induction false} TimesOrdered(qs: seq<Request>, ip: string, start: real)
    requires Timely(qs) && (qs != [] ==> start <= qs[0].enter)
    ensures NonDecreasing(Times(qs, ip))
    ensures forall k :: 0 <= k < |Times(qs, ip)| ==> start <= Times(qs, ip)[k]
  {
    if qs != [] {
      TimesOrdered(qs[1..], ip, qs[0].take);
    }
  }

  lemma TakeFromFull(b: BucketState, rate: real, enter: real, now: real)
    requires 0.0 <= rate && enter <= now && b.tokens == rate && b.lastRefill <= now
    ensures Take(b, rate, now) == Take(BucketState(rate, enter), rate, now)
  {
    GainMonotone(0.0, now - b.lastRefill, rate);
    FreshIsFull(rate, enter, now);
  }

  /** In the ideal table a client's verdicts are those of one bucket that starts full, whoever else calls. */
  lemma {:induction false} ClientSeesOneBucket(ideal: Table, rate: real, qs: seq<Request>, ip: string, b: BucketState)
    requires 0.0 <= rate && Timely(qs)
    requires if ip in ideal then b == ideal[ip] else b.tokens == rate && (qs != [] ==> b.lastRefill <= qs[0].take)
    ensures Answers(qs, IdealServe(ideal, rate, qs), ip) == Verdicts(b, rate, Times(qs, ip))
    decreases |qs|
  {
    if qs != [] {
      var (ideal', v) := IdealStep(ideal, rate, qs[0]);
      var vs := IdealServe(ideal, rate, qs);
      assert vs[1..] == IdealServe(ideal', rate, qs[1..]) && vs[0] == v;
      if qs[0].ip == ip {
        if ip !in ideal {
          TakeFromFull(b, rate, qs[0].enter, qs[0].take);
        }
        assert (ideal'[ip], v) == Take(b, rate, qs[0].take);
        ClientSeesOneBucket(ideal', rate, qs[1..], ip, ideal'[ip]);
        assert Times(qs, ip)[1..] == Times(qs[1..], ip);
      } else {
        ClientSeesOneBucket(ideal', rate, qs[1..], ip, b);
        assert Times(qs, ip) == Times(qs[1..], ip);
        assert Answers(qs, vs, ip) == Answers(qs[1..], vs[1..], ip);
      }
    }
  }

  /** End to end: starting from an empty table, and while the wholesale drop does not fire, every client
      gets at most a burst plus the refill of the window, between any two of its requests. */
  lemma ClientWindowBound(rate: real, start: real, qs: seq<Request>, ip: string, i: nat, j: nat)
    requires 0.0 <= rate && Timely(qs) && (qs != [] ==> start <= qs[0].enter)
    requires NeverDrops(Limiter(map[], start), rate, qs)
    requires i <= j < |Times(qs, ip)|
    ensures var answers := Answers(qs, Serve(Limiter(map[], start), rate, qs), ip);
      |answers| == |Times(qs, ip)| &&
      CountTrue(answers[i..j + 1]) as real <= rate + (Times(qs, ip)[j] - Times(qs, ip)[i]) * rate / 60.0
  {
    hide Serve, IdealServe, Verdicts, Gain, NeverDrops, NonDecreasing, Answers, CountTrue;
    var b, times := BucketState(rate, start), Times(qs, ip);
    EvictionIsInvisible(Limiter(map[], start), map[], rate, start, qs);
    assert Answers(qs, Serve(Limiter(map[], start), rate, qs), ip) == Verdicts(b, rate, times) by {
      if qs != [] { assert start <= qs[0].take; }
      ClientSeesOneBucket(map[], rate, qs, ip, b);
    }
    TimesOrdered(qs, ip, start);
    WindowBound(b, rate, times, i, j);
  }

  // ----- a client that paces itself ----------------------------------------------------

  /** Every bucket in the table was last touched by its client's latest request among `past`. */
  ghost predicate Dated(s: Limiter, rate: real, past: seq<Request>) {
    forall ip :: ip in s.table ==>
      0.0 <= s.table[ip].tokens <= rate &&
      exists k :: 0 <= k < |past| && past[k].ip == ip && past[k].take == s.table[ip].lastRefill
  }

  predicate Paced(past: seq<Request>, q: Request, rate: real)
    requires rate > 0.0
  {
    forall k :: 0 <= k < |past| && past[k].ip == q.ip ==> q.take - past[k].take >= MINUTE / rate
  }

  lemma PacedLevel(b: BucketState, rate: real, take: real)
    requires 1.0 <= rate && 0.0 <= b.tokens && take - b.lastRefill >= MINUTE / rate
    ensures Level(b, rate, take) >= 1.0
  {
    GainMonotone(MINUTE / rate, take - b.lastRefill, rate);
    assert (MINUTE / rate) * (rate / MINUTE) == 1.0;
  }

  lemma PacedIsAllowed(s: Limiter, rate: real, past: seq<Request>, q: Request)
    requires 1.0 <= rate && Dated(s, rate, past) && q.enter <= q.take && Paced(past, q, rate)
    ensures Step(s, rate, q).1.allowed
  {
    var b := Admit(s, rate, q.ip, q.enter).table[q.ip];
    if q.ip in s.table && b == s.table[q.ip] {
      PacedLevel(b, rate, q.take);
    } else {
      FreshIsFull(rate, q.enter, q.take);
    }
  }

  lemma StepDated(s: Limiter, rate: real, past: seq<Request>, q: Request)
    requires 1.0 <= rate && Dated(s, rate, past) && q.enter <= q.take
    requires forall k :: 0 <= k < |past| ==> past[k].take <= q.enter
    ensures Dated(Step(s, rate, q).0, rate, past + [q])
  {
    var now := past + [q];
    assert now[|past|] == q;
    TakeKeepsSane(Admit(s, rate, q.ip, q.enter).table[q.ip], rate, q.take);
    var t := Step(s, rate, q).0.table;
    forall ip | ip in t && ip != q.ip
      ensures exists k :: 0 <= k < |now| && now[k].ip == ip && now[k].take == t[ip].lastRefill
    {
      var k :| 0 <= k < |past| && past[k].ip == ip && past[k].take == s.table[ip].lastRefill;
      assert now[k] == past[k];
    }
  }

  /** For a rate of at least one per minute, a request that comes at least 60/rate seconds after every
      earlier request of its client is allowed, across evictions and wholesale drops alike. */
  lemma {:induction false} PacedIsNeverRefused(s: Limiter, rate: real, past: seq<Request>, qs: seq<Request>, j: nat)
    requires 1.0 <= rate && j < |qs| && Dated(s, rate, past) && Timely(past + qs)
    requires Paced(past + qs[..j], qs[j], rate)
    ensures Serve(s, rate, qs)[j].allowed
    decreases |qs|
  {
    var all := past + qs;
    var now := past + [qs[0]];
    assert all[|past|] == qs[0];
    assert forall k :: 0 <= k < |past| ==> past[k] == all[k];
    if j == 0 {
      assert past + qs[..0] == past;
      PacedIsAllowed(s, rate, past, qs[0]);
    } else {
      assert now + qs[1..] == all;
      assert now + qs[1..][..j - 1] == past + qs[..j];
      StepDated(s, rate, past, qs[0]);
      PacedIsNeverRefused(Step(s, rate, qs[0]).0, rate, now, qs[1..], j - 1);
    }
  }
}
