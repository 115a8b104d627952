/** The order of a plugin's versions and the "latest" fields derived from it on every read:
    sortPluginVersions, latestStable and refreshLatest of api/repository/file_repo.go. */
module Releases {
  import opened Text
  import opened Sorting
  import opened Models

  /** The comparison that every load sorts by. Two different versions with one release date each come before
      the other. */
  predicate Precedes(left: PluginVersion, right: PluginVersion) {
    if left.releaseDate.Some? && right.releaseDate.Some? && left.releaseDate != right.releaseDate
    then left.releaseDate.value > right.releaseDate.value
    else if left.releaseDate.Some? then true
    else if right.releaseDate.Some? then false
    else if left.createdAt != right.createdAt then left.createdAt > right.createdAt
    else Less(right.version, left.version)
  }

  function ByRelease(): (PluginVersion, PluginVersion) -> bool {
    (l, r) => Precedes(l, r)
  }

  function SortVersions(vs: seq<PluginVersion>): (r: seq<PluginVersion>)
    ensures |r| == |vs|
  {
    Sort(ByRelease(), vs)
  }

  method SortPluginVersions(versions: array<PluginVersion>)
    modifies versions
    ensures versions[..] == SortVersions(old(versions[..]))
  {
    SortInPlace(ByRelease(), versions);
  }

  /** A client may be offered this version by default. */
  predicate Installable(v: PluginVersion) {
    !v.prerelease && v.deletedAt == None && v.yankedAt == None
  }

  /** The first installable version of a list. */
  function FirstInstallable(vs: seq<PluginVersion>): (r: Option<PluginVersion>)
    ensures r.Some? ==> r.value in vs && Installable(r.value)
    ensures r.None? ==> forall v :: v in vs ==> !Installable(v)
  {
    if vs == [] then None else if Installable(vs[0]) then Some(vs[0]) else FirstInstallable(vs[1..])
  }

  method LatestStable(versions: seq<PluginVersion>) returns (r: Option<PluginVersion>)
    ensures r == FirstInstallable(versions)
  {
    for i := 0 to |versions|
      invariant FirstInstallable(versions) == FirstInstallable(versions[i..])
    {
      var version := versions[i];
      if version.prerelease || version.deletedAt != None || version.yankedAt != None {
        continue;
      }
      return Some(version);
    }
    return None;
  }

  /** What a read makes of a stored plugin. */
  function Refreshed(p: Plugin): Plugin {
    var vs := SortVersions(p.versions);
    match FirstInstallable(vs)
    case Some(v) => p.(versions := vs, latestVersion := v.version, latestSemrelCore := v.semrelCore)
    case None => p.(versions := vs, latestVersion := "", latestSemrelCore := "")
  }

  method RefreshLatest(p: Plugin) returns (r: Plugin)
    ensures r == Refreshed(p)
  {
    var versions := new PluginVersion[|p.versions|](i requires 0 <= i < |p.versions| => p.versions[i]);
    assert versions[..] == p.versions;
    SortPluginVersions(versions);
    r := p.(versions := versions[..]);
    var latest := LatestStable(r.versions);
    if latest.Some? {
      return r.(latestVersion := latest.value.version, latestSemrelCore := latest.value.semrelCore);
    }
    return r.(latestVersion := "", latestSemrelCore := "");
  }

  // ----- distinct release dates ---------------------------------------------------------------

  predicate DistinctNames(vs: seq<PluginVersion>) {
    forall i, j :: 0 <= i < j < |vs| ==> vs[i].version != vs[j].version
  }

  predicate DistinctDates(vs: seq<PluginVersion>) {
    forall i, j :: 0 <= i < j < |vs| ==> vs[i].releaseDate.None? || vs[i].releaseDate != vs[j].releaseDate
  }

  lemma NamesAreDistinct(vs: seq<PluginVersion>)
    requires DistinctNames(vs)
    ensures Distinct(vs)
  {
  }

  lemma ReleaseOrderIsLinear(vs: seq<PluginVersion>)
    requires DistinctNames(vs) && DistinctDates(vs)
    ensures Linear(ByRelease(), vs)
  {
    forall x, y | x in vs && y in vs && x != y
      ensures Precedes(x, y) != Precedes(y, x)
    {
      Apart(vs, x, y);
      OneWay(x, y);
    }
    forall x, y, z | x in vs && y in vs && z in vs && x != y && y != z && x != z && Precedes(x, y) && Precedes(y, z)
      ensures Precedes(x, z)
    {
      Apart(vs, x, y);
      Apart(vs, y, z);
      Apart(vs, x, z);
      Onward(x, y, z);
    }
  }

  predicate Differ(x: PluginVersion, y: PluginVersion) {
    x.version != y.version && (x.releaseDate.None? || x.releaseDate != y.releaseDate)
  }

  lemma Apart(vs: seq<PluginVersion>, x: PluginVersion, y: PluginVersion)
    requires DistinctNames(vs) && DistinctDates(vs) && x in vs && y in vs && x != y
    ensures Differ(x, y)
  {
  }

  lemma OneWay(x: PluginVersion, y: PluginVersion)
    requires Differ(x, y)
    ensures Precedes(x, y) != Precedes(y, x)
  {
    LessTotal(x.version, y.version);
    if Less(x.version, y.version) && Less(y.version, x.version) {
      LessTransitive(x.version, y.version, x.version);
      LessIrreflexive(x.version);
    }
  }

  lemma Onward(x: PluginVersion, y: PluginVersion, z: PluginVersion)
    requires Differ(x, y) && Differ(y, z) && Differ(x, z) && Precedes(x, y) && Precedes(y, z)
    ensures Precedes(x, z)
  {
    if Less(y.version, x.version) && Less(z.version, y.version) {
      LessTransitive(z.version, y.version, x.version);
    }
  }

  /** Dated versions come first, the latest date foremost; undated ones follow, the latest created foremost, and of
      those created together the greatest version string foremost. */
  predicate ShownBefore(v: PluginVersion, w: PluginVersion) {
    match (v.releaseDate, w.releaseDate)
    case (Some(a), Some(b)) => a > b
    case (Some(_), None) => true
    case (None, Some(_)) => false
    case (None, None) => v.createdAt > w.createdAt || (v.createdAt == w.createdAt && Less(w.version, v.version))
  }

  predicate Offered(v: PluginVersion) {
    v.prerelease == false && v.deletedAt == None && v.yankedAt == None
  }

  lemma PrecedesExactly(v: PluginVersion, w: PluginVersion)
    requires Differ(v, w)
    ensures Precedes(v, w) <==> ShownBefore(v, w)
  {
  }

  /** With distinct dates, the version a read advertises is on offer and comes before every other that is, however the
      file lists them; it advertises none only if none is on offer. */
  lemma LatestIsNewest(p: Plugin)
    requires DistinctNames(p.versions) && DistinctDates(p.versions)
    ensures match FirstInstallable(SortVersions(p.versions))
      case None =>
        Refreshed(p).latestVersion == "" && Refreshed(p).latestSemrelCore == "" &&
        forall v :: v in p.versions ==> !Offered(v)
      case Some(v) =>
        Refreshed(p).latestVersion == v.version && Refreshed(p).latestSemrelCore == v.semrelCore && v in p.versions &&
        Offered(v) && forall w :: w in p.versions && Offered(w) && w != v ==> ShownBefore(v, w)
  {
    var vs := p.versions;
    forall v, w | v in vs && w in vs && v != w
      ensures Precedes(v, w) <==> ShownBefore(v, w)
    {
      Apart(vs, v, w);
      PrecedesExactly(v, w);
    }
    hide Precedes, ShownBefore;
    NamesAreDistinct(vs);
    ReleaseOrderIsLinear(vs);
    SortOrders(ByRelease(), vs);
    SortMembers(ByRelease(), vs);
    FirstIsEarliest(SortVersions(vs));
  }

  lemma {:induction false} FirstIsEarliest(vs: seq<PluginVersion>)
    requires Ordered(ByRelease(), vs)
    ensures match FirstInstallable(vs)
      case None => true
      case Some(v) => forall w :: w in vs && Installable(w) && w != v ==> Precedes(v, w)
  {
    if vs != [] {
      if Installable(vs[0]) {
        forall w | w in vs && w != vs[0]
          ensures Precedes(vs[0], w)
        {
          var i :| 0 <= i < |vs| && vs[i] == w;
          assert ByRelease()(vs[0], vs[i]);
        }
      } else {
        assert Ordered(ByRelease(), vs[1..]);
        FirstIsEarliest(vs[1..]);
      }
    }
  }

  /** Reading what a read produced changes nothing. */
  lemma RefreshedTwice(p: Plugin)
    requires DistinctNames(p.versions) && DistinctDates(p.versions)
    ensures Refreshed(Refreshed(p)) == Refreshed(p)
  {
    NamesAreDistinct(p.versions);
    ReleaseOrderIsLinear(p.versions);
    SortTwice(ByRelease(), p.versions);
  }

  // ----- equal release dates --------------------------------------------------------------------

  /** `b` stands before `a` in `s`. */
  ghost predicate StandsBefore<T(!new)>(s: seq<T>, b: T, a: T) {
    exists p, q :: 0 <= p < q < |s| && s[p] == b && s[q] == a
  }

  /** Dated versions before undated ones, dates never rising. */
  predicate NotNewer(left: PluginVersion, right: PluginVersion) {
    if right.releaseDate.Some?
    then left.releaseDate.Some? && left.releaseDate.value >= right.releaseDate.value
    else true
  }

  predicate Falling(s: seq<PluginVersion>) {
    forall i, j :: 0 <= i < j < |s| ==> NotNewer(s[i], s[j])
  }

  lemma {:induction false} InsertFalling(s: seq<PluginVersion>, x: PluginVersion)
    requires Falling(s)
    ensures Falling(Insert(ByRelease(), s, x))
  {
    if s != [] && Precedes(x, s[|s| - 1]) {
      var front, last := s[..|s| - 1], s[|s| - 1];
      InsertFalling(front, x);
      InsertMembers(ByRelease(), front, x);
      var r := Insert(ByRelease(), front, x);
      forall i | 0 <= i < |r|
        ensures NotNewer(r[i], last)
      {
        assert r[i] in r;
      }
    } else if s != [] {
      forall i | 0 <= i < |s|
        ensures NotNewer(s[i], x)
      {
        assert NotNewer(s[|s| - 1], x);
      }
    }
  }

  lemma {:induction false} SortFalling(s: seq<PluginVersion>)
    ensures Falling(SortVersions(s))
  {
    if s != [] {
      SortFalling(s[..|s| - 1]);
      InsertFalling(SortVersions(s[..|s| - 1]), s[|s| - 1]);
    }
  }

  lemma {:induction false} FirstIsUnbeaten(vs: seq<PluginVersion>, w: PluginVersion)
    requires Falling(vs) && w in vs && Installable(w)
    ensures FirstInstallable(vs).Some? && (FirstInstallable(vs).value == w || NotNewer(FirstInstallable(vs).value, w))
  {
    if !Installable(vs[0]) {
      assert Falling(vs[1..]);
      FirstIsUnbeaten(vs[1..], w);
    }
  }

  /** Newest-dated, shared dates or not: no installable version has a later date than the advertised one, and an
      undated one is advertised only when every installable version is undated. */
  lemma LatestHasNewestDate(p: Plugin, v: PluginVersion, w: PluginVersion)
    requires FirstInstallable(SortVersions(p.versions)) == Some(v) && w in p.versions && Installable(w)
    ensures w.releaseDate.Some? ==> v.releaseDate.Some? && v.releaseDate.value >= w.releaseDate.value
  {
    SortFalling(p.versions);
    SortMembers(ByRelease(), p.versions);
    FirstIsUnbeaten(SortVersions(p.versions), w);
  }

  lemma {:induction false} InsertKeepsOrder<T(!new)>(before: (T, T) -> bool, s: seq<T>, x: T, b: T, a: T)
    requires StandsBefore(s, b, a)
    ensures StandsBefore(Insert(before, s, x), b, a)
  {
    var p, q :| 0 <= p < q < |s| && s[p] == b && s[q] == a;
    var r := Insert(before, s, x);
    if before(x, s[|s| - 1]) {
      var front := s[..|s| - 1];
      InsertStep(before, s, x);
      if q < |s| - 1 {
        assert front[p] == b && front[q] == a;
        InsertKeepsOrder(before, front, x, b, a);
        var inner := Insert(before, front, x);
        var p', q' :| 0 <= p' < q' < |inner| && inner[p'] == b && inner[q'] == a;
        assert r[p'] == b && r[q'] == a;
      } else {
        assert front[p] == b && b in front;
        InsertMembers(before, front, x);
        var p' :| 0 <= p' < |Insert(before, front, x)| && Insert(before, front, x)[p'] == b;
        assert r[p'] == b && r[|r| - 1] == a;
      }
    } else {
      assert r[p] == b && r[q] == a;
    }
  }

  /** A version inserted behind one of the same date overtakes it. */
  lemma {:induction false} InsertOvertakes(s: seq<PluginVersion>, x: PluginVersion, a: PluginVersion)
    requires Falling(s) && a in s && a.releaseDate.Some? && x.releaseDate == a.releaseDate
    ensures StandsBefore(Insert(ByRelease(), s, x), x, a)
  {
    hide Less;
    var front, last := s[..|s| - 1], s[|s| - 1];
    var i :| 0 <= i < |s| && s[i] == a;
    assert NotNewer(a, last) || i == |s| - 1;
    assert Precedes(x, last);
    InsertStep(ByRelease(), s, x);
    var r := Insert(ByRelease(), front, x);
    InsertMembers(ByRelease(), front, x);
    if i < |s| - 1 {
      assert front[i] == a;
      InsertOvertakes(front, x, a);
      var p, q :| 0 <= p < q < |r| && r[p] == x && r[q] == a;
      assert (r + [last])[p] == x && (r + [last])[q] == a;
    } else {
      assert x in r;
      var p :| 0 <= p < |r| && r[p] == x;
      assert (r + [last])[p] == x && (r + [last])[|r|] == a;
    }
  }

  /** Every load reverses versions of equal date. */
  lemma {:induction false} SortReversesTies(s: seq<PluginVersion>, i: nat, j: nat)
    requires i < j < |s| && s[i].releaseDate.Some? && s[i].releaseDate == s[j].releaseDate
    ensures StandsBefore(SortVersions(s), s[j], s[i])
  {
    var front := s[..|s| - 1];
    var sorted := SortVersions(front);
    if j == |s| - 1 {
      SortMembers(ByRelease(), front);
      SortFalling(front);
      assert front[i] in front;
      InsertOvertakes(sorted, s[j], s[i]);
    } else {
      SortReversesTies(front, i, j);
      InsertKeepsOrder(ByRelease(), sorted, s[|s| - 1], s[j], s[i]);
    }
  }

  lemma StandsOneWay<T(!new)>(s: seq<T>, b: T, a: T)
    requires Distinct(s) && StandsBefore(s, b, a)
    ensures !StandsBefore(s, a, b)
  {
  }

  /** A second sort leaves the list alone if and only if no two versions share a release date. So with a shared
      date every save and load swaps the versions that share it, and with them what is advertised. */
  lemma SortIsStableExactlyOnDistinctDates(vs: seq<PluginVersion>)
    requires DistinctNames(vs)
    ensures SortVersions(SortVersions(vs)) == SortVersions(vs) <==> DistinctDates(vs)
  {
    NamesAreDistinct(vs);
    if DistinctDates(vs) {
      ReleaseOrderIsLinear(vs);
      SortTwice(ByRelease(), vs);
    } else {
      var i, j :| 0 <= i < j < |vs| && vs[i].releaseDate.Some? && vs[i].releaseDate == vs[j].releaseDate;
      var once := SortVersions(vs);
      SortReversesTies(vs, i, j);
      var p, q :| 0 <= p < q < |once| && once[p] == vs[j] && once[q] == vs[i];
      SortReversesTies(once, p, q);
      SortDistinct(ByRelease(), vs);
      StandsOneWay(once, vs[j], vs[i]);
    }
  }

  // ----- an odd number of sorts is one sort ---------------------------------------------------------

  /** Versions that the comparison puts in one order only stand in that order. */
  ghost predicate Arranged(s: seq<PluginVersion>) {
    forall p, q :: 0 <= p < q < |s| && Differ(s[p], s[q]) ==> Precedes(s[p], s[q])
  }

  lemma EndsArranged(s: seq<PluginVersion>, x: PluginVersion, p: nat)
    requires Arranged(s) && Falling(s) && DistinctNames(s + [x]) && p < |s|
    requires Differ(s[p], x) && !Precedes(x, s[|s| - 1])
    ensures Precedes(s[p], x)
  {
    var last := s[|s| - 1];
    assert (s + [x])[p].version != (s + [x])[|s|].version && (s + [x])[|s| - 1].version != (s + [x])[|s|].version;
    OneWay(s[p], x);
    if p < |s| - 1 {
      assert NotNewer(s[p], last) && (s + [x])[p].version != (s + [x])[|s| - 1].version;
      if x.releaseDate.None? && s[p].releaseDate.None? {
        OneWay(last, x);
        Onward(s[p], last, x);
      }
    }
  }

  lemma {:induction false} InsertArranged(s: seq<PluginVersion>, x: PluginVersion)
    requires Arranged(s) && Falling(s) && DistinctNames(s + [x])
    ensures Arranged(Insert(ByRelease(), s, x))
  {
    if s != [] {
      var front, last := s[..|s| - 1], s[|s| - 1];
      if Precedes(x, last) {
        FrontNames(s, x);
        InsertArranged(front, x);
        InsertMembers(ByRelease(), front, x);
        var r := Insert(ByRelease(), front, x);
        forall p | 0 <= p < |r| && Differ(r[p], last)
          ensures Precedes(r[p], last)
        {
          assert r[p] in r;
        }
      } else {
        forall p | 0 <= p < |s| && Differ(s[p], x)
          ensures Precedes(s[p], x)
        {
          EndsArranged(s, x, p);
        }
      }
    }
  }

  lemma FrontNames(s: seq<PluginVersion>, x: PluginVersion)
    requires s != [] && DistinctNames(s + [x])
    ensures DistinctNames(s[..|s| - 1] + [x])
  {
    var all, r := s + [x], s[..|s| - 1] + [x];
    forall i, j | 0 <= i < j < |r|
      ensures r[i].version != r[j].version
    {
      var k := if j == |r| - 1 then |s| else j;
      assert all[i] == r[i] && all[k] == r[j];
    }
  }

  lemma {:induction false} SortArranged(s: seq<PluginVersion>)
    requires DistinctNames(s)
    ensures Arranged(SortVersions(s))
  {
    hide Insert;
    if s != [] {
      var front, x := s[..|s| - 1], s[|s| - 1];
      SortArranged(front);
      SortFalling(front);
      SortKeepsNames(front);
      SortMembers(ByRelease(), front);
      var sorted := SortVersions(front);
      forall i | 0 <= i < |sorted|
        ensures sorted[i].version != x.version
      {
        assert sorted[i] in sorted;
        var k :| 0 <= k < |front| && front[k] == sorted[i];
        assert s[k].version != s[|s| - 1].version;
      }
      InsertArranged(sorted, x);
    }
  }

  lemma SortKeepsNames(s: seq<PluginVersion>)
    requires DistinctNames(s)
    ensures DistinctNames(SortVersions(s)) && Distinct(SortVersions(s))
  {
    NamesAreDistinct(s);
    SortDistinct(ByRelease(), s);
    SortMembers(ByRelease(), s);
    var r := SortVersions(s);
    forall i, j | 0 <= i < j < |r|
      ensures r[i].version != r[j].version
    {
      assert r[i] in r && r[j] in r;
      var m :| 0 <= m < |s| && s[m] == r[i];
      var n :| 0 <= n < |s| && s[n] == r[j];
    }
  }

  /** Lists of the same distinct members in the same pairwise order are one list. */
  lemma SameOrderSameList<T(!new)>(a: seq<T>, b: seq<T>)
    requires Distinct(a) && Distinct(b) && forall x :: x in a <==> x in b
    requires forall p, q :: 0 <= p < q < |a| ==> StandsBefore(b, a[p], a[q])
    ensures a == b
  {
    var before := (x: T, y: T) => StandsBefore(b, x, y);
    forall x, y | x in b && y in b && x != y
      ensures before(x, y) != before(y, x)
    {
      var p :| 0 <= p < |b| && b[p] == x;
      var q :| 0 <= q < |b| && b[q] == y;
    }
    forall x, y, z | x in b && y in b && z in b && before(x, y) && before(y, z)
      ensures before(x, z)
    {
      var p, q :| 0 <= p < q < |b| && b[p] == x && b[q] == y;
      var m, n :| 0 <= m < n < |b| && b[m] == y && b[n] == z;
    }
    OrderedUnique(before, b, a);
  }

  lemma TieReversed(vs: seq<PluginVersion>, b: PluginVersion, a: PluginVersion)
    requires StandsBefore(vs, b, a) && a.releaseDate.Some? && a.releaseDate == b.releaseDate
    ensures StandsBefore(SortVersions(vs), a, b)
  {
    var p, q :| 0 <= p < q < |vs| && vs[p] == b && vs[q] == a;
    SortReversesTies(vs, p, q);
  }

  /** Three sorts are one: a sort arranges what it can tell apart and exactly reverses the rest. */
  lemma ThreeSortsAreOne(vs: seq<PluginVersion>)
    requires DistinctNames(vs)
    ensures SortVersions(SortVersions(SortVersions(vs))) == SortVersions(vs)
  {
    hide SortVersions, Precedes;
    var once := SortVersions(vs);
    var twice := SortVersions(once);
    var thrice := SortVersions(twice);
    SortKeepsNames(vs);
    SortKeepsNames(once);
    SortKeepsNames(twice);
    SortArranged(vs);
    SortArranged(twice);
    SameMembers(vs);
    SameMembers(once);
    SameMembers(twice);
    forall p, q | 0 <= p < q < |once|
      ensures StandsBefore(thrice, once[p], once[q])
    {
      var x, y := once[p], once[q];
      if x.releaseDate.Some? && x.releaseDate == y.releaseDate {
        assert StandsBefore(once, x, y);
        TieReversed(once, x, y);
        TieReversed(twice, y, x);
      } else {
        ArrangedOnce(once, thrice, p, q);
      }
    }
    SameOrderSameList(once, thrice);
  }

  lemma SameMembers(vs: seq<PluginVersion>)
    ensures forall v :: v in SortVersions(vs) <==> v in vs
  {
    SortMembers(ByRelease(), vs);
  }

  lemma ArrangedOnce(a: seq<PluginVersion>, b: seq<PluginVersion>, p: nat, q: nat)
    requires Arranged(a) && Arranged(b) && DistinctNames(a) && p < q < |a| && (forall x :: x in a <==> x in b)
    requires Differ(a[p], a[q])
    ensures StandsBefore(b, a[p], a[q])
  {
    hide Precedes;
    assert a[p] in b && a[q] in b;
    var m :| 0 <= m < |b| && b[m] == a[p];
    var n :| 0 <= n < |b| && b[n] == a[q];
    OneWay(a[p], a[q]);
    assert Differ(a[q], a[p]);
  }
}
