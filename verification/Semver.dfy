/** Version parsing, printing and precedence: the first half of api/service/semver.go. */
module Semver {
  import opened Text

  datatype Version = Version(major: int, minor: int, patch: int, prerelease: string)

  datatype Result<+T> = Ok(value: T) | Err

  // ----- printing and parsing -----------------------------------------------------------

  function Core(v: Version): string {
    Itoa(v.major) + "." + Itoa(v.minor) + "." + Itoa(v.patch)
  }

  function String(v: Version): string {
    Core(v) + if v.prerelease != "" then "-" + v.prerelease else ""
  }

  /** What is left of a version text once white space, a leading v and build metadata are gone. */
  function Stripped(raw: string): Option<string> {
    var text := Trim(raw);
    var text := if text != "" && text[0] == 'v' then text[1..] else text;
    if text == "" then None else Some(Before(text, '+'))
  }

  function Component(part: string): Option<int> {
    match Atoi(part)
    case Some(n) => if n < 0 then None else Some(n)
    case None => None
  }

  predicate ValidCore(parts: seq<string>) {
    |parts| == 3 && forall i :: 0 <= i < 3 ==> Component(parts[i]).Some?
  }

  /** What ParseVersion returns. */
  function Parsed(raw: string): Result<Version> {
    match Stripped(raw)
    case None => Err
    case Some(text) =>
      var parts := Split(Before(text, '-'), '.');
      if ValidCore(parts)
      then Ok(Version(Component(parts[0]).value, Component(parts[1]).value, Component(parts[2]).value,
                      After(text, '-')))
      else Err
  }

  method ParseVersion(raw: string) returns (r: Result<Version>)
    ensures r == Parsed(raw)
  {
    var text := Trim(raw);
    if text != "" && text[0] == 'v' {
      text := text[1..];
    }
    if text == "" {
      return Err;
    }
    text := Before(text, '+');
    var core, prerelease := Before(text, '-'), After(text, '-');
    var parts := Split(core, '.');
    if |parts| != 3 {
      return Err;
    }
    var numbers := new int[3];
    for i := 0 to 3
      invariant forall k :: 0 <= k < i ==> Component(parts[k]) == Some(numbers[k])
    {
      var n := Atoi(parts[i]);
      if n == None || n.value < 0 {
        return Err;
      }
      numbers[i] := n.value;
    }
    return Ok(Version(numbers[0], numbers[1], numbers[2], prerelease));
  }

  predicate InRange(n: int) {
    0 <= n <= MAX_INT64
  }

  predicate NumbersInRange(v: Version) {
    InRange(v.major) && InRange(v.minor) && InRange(v.patch)
  }

  /** The versions that survive printing and parsing. */
  predicate Printable(v: Version) {
    NumbersInRange(v) && '+' !in v.prerelease &&
    (v.prerelease == "" || !IsSpace(v.prerelease[|v.prerelease| - 1]))
  }

  lemma ItoaChars(n: int)
    ensures Itoa(n) != "" && !IsSpace(Itoa(n)[0]) && Itoa(n)[0] != 'v'
    ensures forall c :: c in Itoa(n) ==> IsDigit(c) || c == '-'
    ensures 0 <= n ==> AllDigits(Itoa(n)) && '-' !in Itoa(n) && '.' !in Itoa(n)
    ensures n < 0 ==> Itoa(n)[0] == '-'
    ensures Component(Itoa(n)) == if InRange(n) then Some(n) else None
  {
    if n >= 0 {
      assert Digits(n)[0] in Digits(n);
      assert MIN_INT64 <= n;
      if n <= MAX_INT64 {
        AtoiItoa(n);
      }
    } else {
      assert Itoa(n)[1..] == Digits(-n);
    }
  }

  lemma {:induction false} TrimRightAppend(a: string, b: string)
    requires a != "" && !IsSpace(a[|a| - 1])
    ensures TrimRight(a + b) == a + TrimRight(b)
  {
    if b == "" {
      assert a + b == a;
    } else if IsSpace(b[|b| - 1]) {
      TrimRightAppend(a, b[..|b| - 1]);
      assert (a + b)[..|a + b| - 1] == a + b[..|b| - 1];
    }
  }

  lemma DottedSplits(a: string, b: string, c: string)
    requires '.' !in a && '.' !in b && '.' !in c
    ensures Split(a + "." + b + "." + c, '.') == [a, b, c]
  {
    var bc := b + "." + c;
    assert a + "." + b + "." + c == a + "." + bc;
    SplitFirst(a, '.', bc);
    SplitFirst(b, '.', c);
    SplitNone(c, '.');
  }

  lemma DottedChars(a: string, b: string, c: string)
    requires a != "" && b != "" && c != ""
    requires AllDigits(a) && AllDigits(b) && AllDigits(c)
    ensures var s := a + "." + b + "." + c;
      '-' !in s && '+' !in s && s != "" && !IsSpace(s[0]) && s[0] != 'v' && !IsSpace(s[|s| - 1])
  {
    assert a[0] in a && c[|c| - 1] in c;
  }

  lemma CoreShape(v: Version)
    requires NumbersInRange(v)
    ensures Split(Core(v), '.') == [Itoa(v.major), Itoa(v.minor), Itoa(v.patch)]
    ensures ValidCore(Split(Core(v), '.'))
    ensures '-' !in Core(v) && '+' !in Core(v)
    ensures Core(v) != "" && Trimmed(Core(v)) && Core(v)[0] != 'v'
  {
    hide Itoa, Split, Component, AllDigits, IsSpace;
    ItoaChars(v.major);
    ItoaChars(v.minor);
    ItoaChars(v.patch);
    DottedSplits(Itoa(v.major), Itoa(v.minor), Itoa(v.patch));
    DottedChars(Itoa(v.major), Itoa(v.minor), Itoa(v.patch));
  }

  lemma StrippedPrinted(core: string, tail: string)
    requires core != "" && Trimmed(core) && core[0] != 'v' && '+' !in core
    ensures Stripped(core + tail) == Some(core + Before(TrimRight(tail), '+'))
  {
    TrimLeftShape(core + tail);
    TrimRightAppend(core, tail);
    BeforeAppend(core, TrimRight(tail), '+');
  }

  /** Printing and parsing again keeps the numbers and loses only trailing white space and build metadata
      from the prerelease. */
  lemma PrintThenParse(v: Version)
    requires NumbersInRange(v)
    ensures Parsed(String(v)) == Ok(v.(prerelease := Before(TrimRight(v.prerelease), '+')))
  {
    hide Core, Stripped, Before, After, Trim, TrimRight, Split, Component, Itoa;
    CoreShape(v);
    NumbersBack(v);
    var core, pre := Core(v), v.prerelease;
    StrippedPrinted(core, if pre == "" then "" else "-" + pre);
    TailSurvives(pre);
    if pre == "" {
      assert core + "" == core;
      Uncut(core, '-');
    } else {
      var kept := Before(TrimRight(pre), '+');
      assert core + ("-" + kept) == core + "-" + kept;
      CutAt(core, '-', kept);
    }
  }

  lemma TailSurvives(pre: string)
    ensures Before(TrimRight(""), '+') == ""
    ensures Before(TrimRight("-" + pre), '+') == "-" + Before(TrimRight(pre), '+')
  {
    TrimRightAppend("-", pre);
    BeforeAppend("-", TrimRight(pre), '+');
  }

  lemma NumbersBack(v: Version)
    requires NumbersInRange(v)
    ensures Component(Itoa(v.major)) == Some(v.major)
    ensures Component(Itoa(v.minor)) == Some(v.minor)
    ensures Component(Itoa(v.patch)) == Some(v.patch)
  {
    ItoaChars(v.major);
    ItoaChars(v.minor);
    ItoaChars(v.patch);
  }

  lemma ParsedInRange(raw: string)
    ensures Parsed(raw).Ok? ==> NumbersInRange(Parsed(raw).value)
  {
  }

  lemma CutIsWhole(s: string)
    ensures Before(TrimRight(s), '+') == s <==> '+' !in s && (s == "" || !IsSpace(s[|s| - 1]))
  {
    TrimRightShape(s);
    hide TrimRight, IsSpace, Before;
    var t := TrimRight(s);
    BeforeShortens(t, '+');
    assert |Before(t, '+')| == |s| ==> t == s;
  }

  lemma BeforeShortens(s: string, c: char)
    ensures if c in s then |Before(s, c)| < |s| else Before(s, c) == s
  {
  }

  /** Round trip, exactly: a version parses back from its printed form if and only if its numbers are in
      range and its prerelease has no plus sign and no trailing white space. */
  lemma RoundTrip(v: Version)
    ensures Parsed(String(v)) == Ok(v) <==> Printable(v)
  {
    if NumbersInRange(v) {
      PrintThenParse(v);
      CutIsWhole(v.prerelease);
    } else {
      ParsedInRange(String(v));
    }
  }

  // ----- precedence ----------------------------------------------------------------------

  function Order(less: bool): int {
    if less then -1 else 1
  }

  /** Two different identifiers: numbers as numbers, numbers below words, words by byte order. */
  function CompareIdentifiers(x: string, y: string): (r: int)
    ensures r == -1 || r == 1
  {
    match (Atoi(x), Atoi(y))
    case (Some(m), Some(n)) => Order(m < n)
    case (Some(_), None) => -1
    case (None, Some(_)) => 1
    case (None, None) => Order(Less(x, y))
  }

  function CompareLists(left: seq<string>, right: seq<string>): int {
    if left == [] || right == [] then
      if |left| == |right| then 0 else Order(|left| < |right|)
    else if left[0] == right[0] then CompareLists(left[1..], right[1..])
    else CompareIdentifiers(left[0], right[0])
  }

  function ComparePrereleases(a: string, b: string): int {
    CompareLists(Split(a, '.'), Split(b, '.'))
  }

  method ComparePrerelease(a: string, b: string) returns (r: int)
    ensures r == ComparePrereleases(a, b)
  {
    var left, right := Split(a, '.'), Split(b, '.');
    var i := 0;
    while i < |left| && i < |right|
      invariant 0 <= i <= |left| && i <= |right|
      invariant ComparePrereleases(a, b) == CompareLists(left[i..], right[i..])
    {
      if left[i] != right[i] {
        var leftNum, rightNum := Atoi(left[i]), Atoi(right[i]);
        if leftNum.Some? && rightNum.Some? {
          return if leftNum.value < rightNum.value then -1 else 1;
        } else if leftNum.Some? {
          return -1;
        } else if rightNum.Some? {
          return 1;
        } else if Less(left[i], right[i]) {
          return -1;
        } else {
          return 1;
        }
      }
      i := i + 1;
    }
    return if |left| == |right| then 0 else if |left| < |right| then -1 else 1;
  }

  function CompareVersions(a: Version, b: Version): int {
    if a.major != b.major then Order(a.major < b.major)
    else if a.minor != b.minor then Order(a.minor < b.minor)
    else if a.patch != b.patch then Order(a.patch < b.patch)
    else if a.prerelease == "" && b.prerelease == "" then 0
    else if a.prerelease == "" then 1
    else if b.prerelease == "" then -1
    else ComparePrereleases(a.prerelease, b.prerelease)
  }

  predicate SameCore(a: Version, b: Version) {
    a.major == b.major && a.minor == b.minor && a.patch == b.patch
  }

  lemma {:induction false} ListsReflexive(left: seq<string>, right: seq<string>)
    ensures CompareLists(left, right) == 0 <==> left == right
    ensures CompareLists(left, right) in {-1, 0, 1}
  {
    if left != [] && right != [] && left[0] == right[0] {
      ListsReflexive(left[1..], right[1..]);
      assert left == [left[0]] + left[1..] && right == [right[0]] + right[1..];
    }
  }

  /** The comparison answers 0 only for equal versions. */
  lemma ZeroOnlyOnEqual(a: Version, b: Version)
    ensures CompareVersions(a, b) == 0 <==> a == b
    ensures CompareVersions(a, b) in {-1, 0, 1}
  {
    ListsReflexive(Split(a.prerelease, '.'), Split(b.prerelease, '.'));
    JoinSplit(a.prerelease, '.');
    JoinSplit(b.prerelease, '.');
  }

  /** The first place where the lists differ holds two spellings of one number, such as 1 and 01. */
  predicate TwinLists(left: seq<string>, right: seq<string>) {
    left != [] && right != [] &&
    if left[0] == right[0] then TwinLists(left[1..], right[1..])
    else Atoi(left[0]).Some? && Atoi(left[0]) == Atoi(right[0])
  }

  predicate NumericTwins(a: Version, b: Version) {
    SameCore(a, b) && a.prerelease != "" && b.prerelease != "" &&
    TwinLists(Split(a.prerelease, '.'), Split(b.prerelease, '.'))
  }

  lemma {:induction false} ListsAntisymmetric(left: seq<string>, right: seq<string>)
    ensures CompareLists(left, right) == -CompareLists(right, left) <==> !TwinLists(left, right)
  {
    if left != [] && right != [] {
      if left[0] == right[0] {
        ListsAntisymmetric(left[1..], right[1..]);
      } else {
        LessTotal(left[0], right[0]);
        if Less(left[0], right[0]) && Less(right[0], left[0]) {
          LessTransitive(left[0], right[0], left[0]);
          LessIrreflexive(left[0]);
        }
      }
    }
  }

  /** Swapping the arguments flips the sign except, exactly, on numeric twins. */
  lemma AntisymmetricExceptTwins(a: Version, b: Version)
    ensures CompareVersions(a, b) == -CompareVersions(b, a) <==> !NumericTwins(a, b)
  {
    ListsAntisymmetric(Split(a.prerelease, '.'), Split(b.prerelease, '.'));
  }

  /** Twins are real: each of 1.0.0-1 and 1.0.0-01 claims to outrank the other. */
  lemma TwinsBreakAntisymmetry()
    ensures CompareVersions(Version(1, 0, 0, "1"), Version(1, 0, 0, "01")) == 1
    ensures CompareVersions(Version(1, 0, 0, "01"), Version(1, 0, 0, "1")) == 1
  {
    SplitNone("1", '.');
    SplitNone("01", '.');
    assert "1"[..0] == "" && "01"[..1] == "0" && "0"[..0] == "";
    assert NatValue("0") == 0;
  }

  // ----- the order ---------------------------------------------------------------------------

  lemma IdentifiersTransitive(x: string, y: string, z: string)
    requires x != y && y != z && CompareIdentifiers(x, y) < 0 && CompareIdentifiers(y, z) < 0
    ensures x != z && CompareIdentifiers(x, z) < 0
  {
    if Atoi(x).None? && Atoi(y).None? && Atoi(z).None? {
      LessTransitive(x, y, z);
      LessIrreflexive(x);
    }
  }

  lemma {:induction false} ListsTransitive(a: seq<string>, b: seq<string>, c: seq<string>)
    requires CompareLists(a, b) <= 0 && CompareLists(b, c) <= 0
    ensures CompareLists(a, c) <= 0
    decreases |a|
  {
    hide CompareIdentifiers;
    if a != [] && b != [] && c != [] {
      if a[0] == b[0] && b[0] == c[0] {
        ListsTransitive(a[1..], b[1..], c[1..]);
      } else if a[0] != b[0] && b[0] != c[0] {
        IdentifiersTransitive(a[0], b[0], c[0]);
      }
    }
  }

  /** "Not above" is transitive on all versions, twins included. */
  lemma Transitive(a: Version, b: Version, c: Version)
    requires CompareVersions(a, b) <= 0 && CompareVersions(b, c) <= 0
    ensures CompareVersions(a, c) <= 0
  {
    hide CompareLists;
    var x, y, z := Split(a.prerelease, '.'), Split(b.prerelease, '.'), Split(c.prerelease, '.');
    if CompareLists(x, y) <= 0 && CompareLists(y, z) <= 0 {
      ListsTransitive(x, y, z);
    }
  }

  lemma {:induction false} ListsNeverBothBelow(l: seq<string>, r: seq<string>)
    ensures !(CompareLists(l, r) < 0 && CompareLists(r, l) < 0)
    decreases |l|
  {
    if l != [] && r != [] {
      if l[0] == r[0] {
        ListsNeverBothBelow(l[1..], r[1..]);
      } else if Less(l[0], r[0]) && Less(r[0], l[0]) {
        LessTransitive(l[0], r[0], l[0]);
        LessIrreflexive(l[0]);
      }
    }
  }

  /** No two versions each rank below the other. */
  lemma NeverBothBelow(a: Version, b: Version)
    ensures !(CompareVersions(a, b) < 0 && CompareVersions(b, a) < 0)
  {
    ListsNeverBothBelow(Split(a.prerelease, '.'), Split(b.prerelease, '.'));
  }

  /** An identifier that reads as a number is that number's own decimal form. */
  predicate CanonicalIdentifier(x: string) {
    Atoi(x).Some? ==> x == Itoa(Atoi(x).value)
  }

  predicate CanonicalList(l: seq<string>) {
    forall x :: x in l ==> CanonicalIdentifier(x)
  }

  predicate Canonical(v: Version) {
    CanonicalList(Split(v.prerelease, '.'))
  }

  lemma {:induction false} CanonicalHasNoTwins(left: seq<string>, right: seq<string>)
    requires CanonicalList(left) && CanonicalList(right)
    ensures !TwinLists(left, right)
  {
    if left != [] && right != [] {
      assert left[0] in left && right[0] in right;
      CanonicalHasNoTwins(left[1..], right[1..]);
    }
  }

  /** On canonical versions the comparison is a total order. */
  lemma TotalOrder(a: Version, b: Version, c: Version)
    requires Canonical(a) && Canonical(b) && Canonical(c)
    ensures CompareVersions(a, b) == -CompareVersions(b, a)
    ensures CompareVersions(a, b) <= 0 && CompareVersions(b, c) <= 0 ==> CompareVersions(a, c) <= 0
    ensures CompareVersions(a, b) == 0 <==> a == b
  {
    CanonicalHasNoTwins(Split(a.prerelease, '.'), Split(b.prerelease, '.'));
    AntisymmetricExceptTwins(a, b);
    ZeroOnlyOnEqual(a, b);
    hide CompareVersions;
    if CompareVersions(a, b) <= 0 && CompareVersions(b, c) <= 0 {
      Transitive(a, b, c);
    }
  }
}
