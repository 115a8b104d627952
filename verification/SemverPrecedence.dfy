/** Sections 9 and 11 of Semantic Versioning 2.0.0, written down independently of the code, and where the
    registry's comparison agrees with them. */
module SemverPrecedence {
  import opened Text
  import opened Semver

  predicate IdentifierChar(c: char) {
    IsDigit(c) || 'A' <= c <= 'Z' || 'a' <= c <= 'z' || c == '-'
  }

  /** Section 9: not empty, ASCII letters, digits and hyphens, and no leading zeros on a number. */
  predicate ValidIdentifier(x: string) {
    x != "" && (forall c :: c in x ==> IdentifierChar(c)) && (AllDigits(x) && |x| > 1 ==> x[0] != '0')
  }

  /** Section 11.4: precedence of two different identifiers. */
  predicate IdentifierPrecedes(x: string, y: string) {
    if AllDigits(x) && AllDigits(y) then NatValue(x) < NatValue(y)
    else if AllDigits(x) then true
    else if AllDigits(y) then false
    else Less(x, y)
  }

  /** Section 11.4: the first difference decides; with none, the shorter list comes first. */
  ghost predicate ListPrecedes(l: seq<string>, r: seq<string>) {
    exists k :: 0 <= k <= |l| && k <= |r| && l[..k] == r[..k] && DecidesAt(l, r, k)
  }

  predicate DecidesAt(l: seq<string>, r: seq<string>, k: nat)
    requires k <= |l| && k <= |r|
  {
    if k == |l| then k < |r| else k < |r| && l[k] != r[k] && IdentifierPrecedes(l[k], r[k])
  }

  /** Sections 11.2 to 11.4. */
  ghost predicate Precedes(a: Version, b: Version) {
    || a.major < b.major
    || (a.major == b.major && a.minor < b.minor)
    || (a.major == b.major && a.minor == b.minor && a.patch < b.patch)
    || (SameCore(a, b) && a.prerelease != "" && b.prerelease == "")
    || (SameCore(a, b) && a.prerelease != "" && b.prerelease != "" &&
        ListPrecedes(Split(a.prerelease, '.'), Split(b.prerelease, '.')))
  }

  predicate ValidList(l: seq<string>) {
    forall x :: x in l ==> ValidIdentifier(x)
  }

  /** A prerelease, if there is one, of identifiers valid by section 9. */
  predicate ValidVersion(v: Version) {
    v.prerelease == "" || ValidList(Split(v.prerelease, '.'))
  }

  /** How the code and the specification read an identifier: a number to both, a number too big for the code, a
      word that the code takes for a signed number, or a word to both. */
  datatype Kind = Number | Huge | Signed | Word

  function KindOf(x: string): Kind {
    if AllDigits(x) then if Atoi(x).Some? then Number else Huge
    else if Atoi(x).Some? then Signed
    else Word
  }

  /** The pairs of different identifiers that the code puts in the wrong order. */
  predicate Misordered(x: string, y: string) {
    match (KindOf(x), KindOf(y))
    case (Number, Signed) => true
    case (Signed, Number) => Atoi(x).value < Atoi(y).value
    case (Signed, Signed) => Less(x, y) != (Atoi(x).value < Atoi(y).value)
    case (Huge, Huge) => |x| != |y| && (Less(x, y) <==> |x| > |y|)
    case (Huge, Signed) => true
    case (Signed, Huge) => true
    case (Huge, Word) => !Less(x, y)
    case (Word, Huge) => Less(x, y)
    case (Signed, Word) => !Less(x, y)
    case (Word, Signed) => Less(x, y)
    case _ => false
  }

  /** The first identifiers that differ are a misordered pair. */
  predicate MisorderedLists(l: seq<string>, r: seq<string>) {
    l != [] && r != [] && if l[0] == r[0] then MisorderedLists(l[1..], r[1..]) else Misordered(l[0], r[0])
  }

  predicate MisorderedVersions(a: Version, b: Version) {
    SameCore(a, b) && a.prerelease != "" && b.prerelease != "" &&
    MisorderedLists(Split(a.prerelease, '.'), Split(b.prerelease, '.'))
  }

  // ----- single identifiers -----------------------------------------------------------------

  lemma ReadsAsNumber(x: string)
    requires ValidIdentifier(x)
    ensures AllDigits(x) ==> Atoi(x) == if NatValue(x) <= MAX_INT64 then Some(NatValue(x)) else None
    ensures KindOf(x).Signed? ==> x[0] == '-' && Atoi(x).value <= 0
  {
    assert x[0] in x;
  }

  lemma SameTensAndUnits(a: nat, b: nat, c: nat, d: nat)
    requires b < 10 && d < 10 && 10 * a + b == 10 * c + d
    ensures a == c && b == d
  {
  }

  /** Without leading zeros a number has one spelling. */
  lemma {:induction false} NatValueInjective(x: string, y: string)
    requires x != "" && y != "" && AllDigits(x) && AllDigits(y)
    requires (|x| > 1 ==> x[0] != '0') && (|y| > 1 ==> y[0] != '0')
    requires NatValue(x) == NatValue(y)
    ensures x == y
  {
    var xs, ys := x[..|x| - 1], y[..|y| - 1];
    var cx, cy := x[|x| - 1], y[|y| - 1];
    assert x == xs + [cx] && y == ys + [cy];
    assert cx in x && cy in y;
    assert forall c :: c in xs ==> c in x;
    assert forall c :: c in ys ==> c in y;
    SameTensAndUnits(NatValue(xs), DigitValue(cx), NatValue(ys), DigitValue(cy));
    assert cx == cy;
    if xs == "" {
      PositiveUnlessEmpty(ys);
    } else if ys == "" {
      PositiveUnlessEmpty(xs);
    } else {
      NatValueInjective(xs, ys);
    }
  }

  lemma {:induction false} PositiveUnlessEmpty(s: string)
    requires AllDigits(s) && (s != "" ==> s[0] != '0')
    ensures s != "" ==> NatValue(s) > 0
  {
    if |s| > 1 {
      assert forall c :: c in s[..|s| - 1] ==> c in s;
      PositiveUnlessEmpty(s[..|s| - 1]);
    } else if |s| == 1 {
      assert s[0] in s;
      assert s[..0] == "";
    }
  }

  /** Of two numbers of one length the byte order decides; otherwise the longer one is greater. */
  lemma {:induction false} DigitsCompare(x: string, y: string)
    requires AllDigits(x) && AllDigits(y) && |x| == |y|
    ensures NatValue(x) < NatValue(y) <==> Less(x, y)
    decreases |x|
  {
    if x != "" {
      var xs, ys := x[..|x| - 1], y[..|y| - 1];
      var cx, cy := x[|x| - 1], y[|y| - 1];
      assert x == xs + [cx] && y == ys + [cy];
      assert cx in x && cy in y;
      assert forall c :: c in xs ==> c in x;
      assert forall c :: c in ys ==> c in y;
      DigitsCompare(xs, ys);
      DigitsCompare(ys, xs);
      LessTotal(xs, ys);
      LessAppend(xs, ys, cx, cy);
    }
  }

  lemma {:induction false} LessAppend(xs: string, ys: string, cx: char, cy: char)
    requires |xs| == |ys|
    ensures Less(xs + [cx], ys + [cy]) <==> Less(xs, ys) || (xs == ys && cx < cy)
  {
    if xs != "" {
      assert (xs + [cx])[1..] == xs[1..] + [cx] && (ys + [cy])[1..] == ys[1..] + [cy];
      LessAppend(xs[1..], ys[1..], cx, cy);
      assert xs == [xs[0]] + xs[1..] && ys == [ys[0]] + ys[1..];
    }
  }

  function Tens(n: nat): (p: nat)
    ensures p >= 1
  {
    if n == 0 then 1 else 10 * Tens(n - 1)
  }

  /** A number without leading zeros lies between the powers of ten of its length. */
  lemma {:induction false} DigitsBound(x: string)
    requires x != "" && AllDigits(x) && x[0] != '0'
    ensures Tens(|x| - 1) <= NatValue(x) < Tens(|x|)
  {
    var xs, c := x[..|x| - 1], x[|x| - 1];
    assert c in x && forall d :: d in xs ==> d in x;
    if xs != "" {
      DigitsBound(xs);
    } else {
      assert Tens(1) == 10;
    }
  }

  lemma {:induction false} TensMonotone(m: nat, n: nat)
    requires m <= n
    ensures Tens(m) <= Tens(n)
  {
    if m < n {
      TensMonotone(m, n - 1);
    }
  }

  lemma LongerIsGreater(x: string, y: string)
    requires x != "" && AllDigits(x) && AllDigits(y) && |x| < |y| && (|x| > 1 ==> x[0] != '0') && y[0] != '0'
    ensures NatValue(x) < NatValue(y)
  {
    DigitsBound(y);
    TensMonotone(|x|, |y| - 1);
    if x[0] != '0' {
      DigitsBound(x);
    } else {
      assert x[..0] == "";
    }
  }

  lemma HugeCompare(x: string, y: string)
    requires ValidIdentifier(x) && ValidIdentifier(y) && AllDigits(x) && AllDigits(y) && NatValue(x) > 9
    requires NatValue(y) > 9
    ensures NatValue(x) < NatValue(y) <==> |x| < |y| || (|x| == |y| && Less(x, y))
  {
    assert |x| == 1 ==> x[..0] == "";
    assert |y| == 1 ==> y[..0] == "";
    if |x| == |y| {
      DigitsCompare(x, y);
    } else if |x| < |y| {
      LongerIsGreater(x, y);
    } else {
      LongerIsGreater(y, x);
    }
  }

  /** The code orders two different identifiers by section 11.4 exactly when they are not a misordered pair. */
  lemma IdentifiersAgreeExactly(x: string, y: string)
    requires ValidIdentifier(x) && ValidIdentifier(y) && x != y
    ensures (CompareIdentifiers(x, y) < 0 <==> IdentifierPrecedes(x, y)) <==> !Misordered(x, y)
  {
    ReadsAsNumber(x);
    ReadsAsNumber(y);
    hide Atoi, NatValue, Less;
    if AllDigits(x) && AllDigits(y) && NatValue(x) > MAX_INT64 && NatValue(y) > MAX_INT64 {
      HugeCompare(x, y);
      if |x| == |y| {
        LessEitherWay(x, y);
      }
    }
  }

  lemma LessEitherWay(x: string, y: string)
    requires x != y
    ensures Less(x, y) != Less(y, x)
  {
    LessTotal(x, y);
    if Less(x, y) && Less(y, x) {
      LessTransitive(x, y, x);
      LessIrreflexive(x);
    }
  }

  /** By section 11.4 exactly one of two different identifiers precedes the other. */
  lemma IdentifiersTotal(x: string, y: string)
    requires ValidIdentifier(x) && ValidIdentifier(y) && x != y
    ensures IdentifierPrecedes(x, y) != IdentifierPrecedes(y, x)
  {
    hide NatValue, Less;
    LessEitherWay(x, y);
    if AllDigits(x) && AllDigits(y) && NatValue(x) == NatValue(y) {
      NatValueInjective(x, y);
    }
  }

  lemma PrecedesShift(x: string, l: seq<string>, r: seq<string>)
    ensures ListPrecedes([x] + l, [x] + r) <==> ListPrecedes(l, r)
  {
    hide IdentifierPrecedes;
    var xl, xr := [x] + l, [x] + r;
    if ListPrecedes(l, r) {
      var k :| 0 <= k <= |l| && k <= |r| && l[..k] == r[..k] && DecidesAt(l, r, k);
      assert xl[..k + 1] == [x] + l[..k] && xr[..k + 1] == [x] + r[..k];
      assert k < |l| ==> xl[k + 1] == l[k];
      assert k < |r| ==> xr[k + 1] == r[k];
      assert DecidesAt(xl, xr, k + 1);
    }
    if ListPrecedes(xl, xr) {
      var k :| 0 <= k <= |xl| && k <= |xr| && xl[..k] == xr[..k] && DecidesAt(xl, xr, k);
      assert k > 0;
      assert k < |xl| ==> xl[k] == l[k - 1];
      assert k < |xr| ==> xr[k] == r[k - 1];
      assert l[..k - 1] == xl[..k][1..] && r[..k - 1] == xr[..k][1..];
      assert DecidesAt(l, r, k - 1);
    }
  }

  lemma PrefixHead(l: seq<string>, r: seq<string>, k: nat)
    requires k <= |l| && k <= |r| && l[..k] == r[..k]
    ensures k > 0 ==> l[0] == r[0]
  {
  }

  /** The list precedence, unrolled by one place. */
  lemma ListPrecedesHead(l: seq<string>, r: seq<string>)
    ensures ListPrecedes(l, r) <==>
      if l == [] || r == [] then |l| < |r|
      else if l[0] == r[0] then ListPrecedes(l[1..], r[1..])
      else IdentifierPrecedes(l[0], r[0])
  {
    hide IdentifierPrecedes;
    if l != [] && r != [] && l[0] == r[0] {
      PrecedesShift(l[0], l[1..], r[1..]);
      assert l == [l[0]] + l[1..] && r == [l[0]] + r[1..];
    } else {
      assert l[..0] == r[..0];
      if DecidesAt(l, r, 0) {
        assert ListPrecedes(l, r);
      }
      if ListPrecedes(l, r) {
        var k :| 0 <= k <= |l| && k <= |r| && l[..k] == r[..k] && DecidesAt(l, r, k);
        PrefixHead(l, r, k);
      }
    }
  }

  lemma {:induction false} ListsAgreeExactly(l: seq<string>, r: seq<string>)
    requires ValidList(l) && ValidList(r)
    ensures (CompareLists(l, r) < 0 <==> ListPrecedes(l, r)) <==> !MisorderedLists(l, r)
  {
    hide CompareIdentifiers, IdentifierPrecedes, Misordered, ListPrecedes, ValidIdentifier;
    ListPrecedesHead(l, r);
    if l != [] && r != [] {
      if l[0] == r[0] {
        ListsAgreeExactly(l[1..], r[1..]);
      } else {
        assert l[0] in l && r[0] in r;
        IdentifiersAgreeExactly(l[0], r[0]);
      }
    }
  }

  lemma {:induction false} ListsTotal(l: seq<string>, r: seq<string>)
    requires ValidList(l) && ValidList(r)
    ensures l == r ==> !ListPrecedes(l, r)
    ensures l != r ==> ListPrecedes(l, r) != ListPrecedes(r, l)
  {
    hide IdentifierPrecedes, ListPrecedes, ValidIdentifier;
    ListPrecedesHead(l, r);
    ListPrecedesHead(r, l);
    if l != [] && r != [] {
      if l[0] == r[0] {
        ListsTotal(l[1..], r[1..]);
        assert l == [l[0]] + l[1..] && r == [l[0]] + r[1..];
      } else {
        assert l[0] in l && r[0] in r;
        IdentifiersTotal(l[0], r[0]);
      }
    }
  }

  // ----- versions ---------------------------------------------------------------------------------

  /** By section 11 exactly one of two different versions precedes the other. */
  lemma PrecedenceIsTotal(a: Version, b: Version)
    requires ValidVersion(a) && ValidVersion(b)
    ensures a == b ==> !Precedes(a, b)
    ensures a != b ==> Precedes(a, b) != Precedes(b, a)
  {
    hide ListPrecedes;
    if SameCore(a, b) && a.prerelease != "" && b.prerelease != "" {
      ListsTotal(Split(a.prerelease, '.'), Split(b.prerelease, '.'));
      JoinSplit(a.prerelease, '.');
      JoinSplit(b.prerelease, '.');
    }
  }

  /** The comparison answers as section 11 does: below, above or equal. */
  ghost predicate FollowsSpecification(a: Version, b: Version) {
    && (CompareVersions(a, b) < 0 <==> Precedes(a, b))
    && (CompareVersions(a, b) > 0 <==> Precedes(b, a))
    && (CompareVersions(a, b) == 0 <==> a == b)
  }

  /** On versions valid by section 9 the comparison is the precedence of section 11 if and only if their first
      differing identifiers are not a misordered pair. */
  lemma FollowsExactly(a: Version, b: Version)
    requires ValidVersion(a) && ValidVersion(b)
    ensures FollowsSpecification(a, b) <==> !MisorderedVersions(a, b)
  {
    hide ListPrecedes, CompareLists, MisorderedLists, ValidList;
    ZeroOnlyOnEqual(a, b);
    PrecedenceIsTotal(a, b);
    if SameCore(a, b) && a.prerelease != "" && b.prerelease != "" {
      ListsAgreeExactly(Split(a.prerelease, '.'), Split(b.prerelease, '.'));
    }
  }

  // ----- where they never part ---------------------------------------------------------------------

  /** A minus sign followed by digits: a word to the specification, a number to the code. */
  predicate SignedNumber(x: string) {
    |x| > 1 && x[0] == '-' && AllDigits(x[1..])
  }

  predicate Ordinary(x: string) {
    ValidIdentifier(x) && !SignedNumber(x) && (AllDigits(x) ==> NatValue(x) <= MAX_INT64)
  }

  predicate OrdinaryVersion(v: Version) {
    v.prerelease == "" || forall x :: x in Split(v.prerelease, '.') ==> Ordinary(x)
  }

  lemma OrdinaryKind(x: string)
    requires Ordinary(x)
    ensures KindOf(x) in {Number, Word}
  {
    ReadsAsNumber(x);
    assert x[0] in x;
    if x[0] == '-' && |x| > 1 {
      assert !AllDigits(x[1..]);
    }
  }

  lemma {:induction false} OrdinaryListsAgree(l: seq<string>, r: seq<string>)
    requires (forall x :: x in l ==> Ordinary(x)) && (forall x :: x in r ==> Ordinary(x))
    ensures !MisorderedLists(l, r)
  {
    hide Ordinary, KindOf;
    if l != [] && r != [] {
      assert l[0] in l && r[0] in r;
      OrdinaryKind(l[0]);
      OrdinaryKind(r[0]);
      if l[0] == r[0] {
        OrdinaryListsAgree(l[1..], r[1..]);
      }
    }
  }

  /** In particular on identifiers that fit 64 bits and are not signed numbers. */
  lemma AgreesWithSpecification(a: Version, b: Version)
    requires OrdinaryVersion(a) && OrdinaryVersion(b)
    ensures FollowsSpecification(a, b)
  {
    hide MisorderedLists, FollowsSpecification;
    FollowsExactly(a, b);
    if a.prerelease != "" && b.prerelease != "" {
      OrdinaryListsAgree(Split(a.prerelease, '.'), Split(b.prerelease, '.'));
    }
  }

  /** Signed numbers are misordered in earnest: the code puts -1 below 0, the specification puts every word above
      every number. */
  lemma SignedNumberDisagrees()
    ensures var a, b := Version(1, 0, 0, "-1"), Version(1, 0, 0, "0");
      ValidVersion(a) && ValidVersion(b) && CompareVersions(a, b) < 0 && !Precedes(a, b)
  {
    var a, b := Version(1, 0, 0, "-1"), Version(1, 0, 0, "0");
    SplitNone("-1", '.');
    SplitNone("0", '.');
    assert "-1"[1..] == "1" && "1"[..0] == "" && "0"[..0] == "";
    assert Atoi("-1") == Some(-1) && Atoi("0") == Some(0);
    assert '-' in "-1";
    hide Precedes, CompareVersions;
    ListPrecedesHead(["-1"], ["0"]);
    hide ListPrecedes;
    NotBelowByPrerelease(a, b);
  }

  lemma NotBelowByPrerelease(a: Version, b: Version)
    requires SameCore(a, b) && a.prerelease != "" && b.prerelease != ""
    ensures Precedes(a, b) <==> ListPrecedes(Split(a.prerelease, '.'), Split(b.prerelease, '.'))
    ensures CompareVersions(a, b) == CompareLists(Split(a.prerelease, '.'), Split(b.prerelease, '.'))
  {
  }

  /** And so are numbers beyond 64 bits, words to the code: the longer one can come first. */
  lemma HugeNumberDisagrees() returns (a: Version, b: Version)
    ensures ValidVersion(a) && ValidVersion(b) && CompareVersions(a, b) < 0 && !Precedes(a, b)
  {
    var y := GrowPast("9", '9', MAX_INT64);
    var x := GrowPast("1", '0', NatValue(y));
    assert x[0] in x && y[0] in y;
    SplitNone(x, '.');
    SplitNone(y, '.');
    a, b := Version(1, 0, 0, x), Version(1, 0, 0, y);
    hide NatValue, Precedes, CompareVersions, ListPrecedes;
    ListPrecedesHead([x], [y]);
    NotBelowByPrerelease(a, b);
    assert CompareIdentifiers(x, y) < 0;
  }

  lemma GrowPast(start: string, digit: char, bound: int) returns (s: string)
    requires AllDigits(start) && IsDigit(digit) && start != "" && start[0] != '0'
    requires NatValue(start) > 0
    ensures AllDigits(s) && s != "" && s[0] == start[0] && NatValue(s) > bound
  {
    s := start;
    while NatValue(s) <= bound
      invariant AllDigits(s) && s != "" && s[0] == start[0] && NatValue(s) > 0
      decreases bound - NatValue(s)
    {
      assert (s + [digit])[..|s|] == s;
      s := s + [digit];
    }
  }
}
