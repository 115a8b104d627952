/** The range language of api/service/semver.go: parsing, the tilde and caret shorthands, and what a range
    denotes. */
module VersionRange {
  import opened Text
  import opened Semver

  datatype Constraint = Constraint(operator: string, version: Version)

  function Allows(c: Constraint, v: Version): bool {
    var cmp := CompareVersions(v, c.version);
    if c.operator in {"", "=", "=="} then cmp == 0
    else if c.operator == ">" then cmp > 0
    else if c.operator == ">=" then cmp >= 0
    else if c.operator == "<" then cmp < 0
    else if c.operator == "<=" then cmp <= 0
    else false
  }

  function AllowsAll(cs: seq<Constraint>, v: Version): bool {
    forall c :: c in cs ==> Allows(c, v)
  }

  predicate IsOperatorChar(c: char) {
    c in "<>=~^"
  }

  function OperatorLength(term: string): (n: nat)
    ensures n <= |term|
    ensures forall k :: 0 <= k < n ==> IsOperatorChar(term[k])
    ensures n < |term| ==> !IsOperatorChar(term[n])
  {
    if term == "" || !IsOperatorChar(term[0]) then 0 else 1 + OperatorLength(term[1..])
  }

  method SplitOperator(term: string) returns (operator: string, version: string)
    ensures operator == term[..OperatorLength(term)]
    ensures version == Trim(term[OperatorLength(term)..])
  {
    var i := 0;
    while i < |term| && IsOperatorChar(term[i])
      invariant 0 <= i <= |term|
      invariant OperatorLength(term) == i + OperatorLength(term[i..])
    {
      i := i + 1;
    }
    return term[..i], Trim(term[i..]);
  }

  function TildeUpper(v: Version): Version {
    Version(v.major, v.minor + 1, 0, "")
  }

  function CaretUpper(v: Version): Version {
    if v.major == 0 then Version(0, v.minor + 1, 0, "") else Version(v.major + 1, 0, 0, "")
  }

  function Desugar(operator: string, v: Version): Result<seq<Constraint>> {
    if operator == "~" then Ok([Constraint(">=", v), Constraint("<", TildeUpper(v))])
    else if operator == "^" then Ok([Constraint(">=", v), Constraint("<", CaretUpper(v))])
    else if operator in {"", "=", "==", ">", ">=", "<", "<="} then Ok([Constraint(operator, v)])
    else Err
  }

  function TermMeaning(term: string): Result<seq<Constraint>> {
    var i := OperatorLength(term);
    match Parsed(Trim(term[i..]))
    case Err => Err
    case Ok(v) => Desugar(term[..i], v)
  }

  function Both(a: Result<seq<Constraint>>, b: Result<seq<Constraint>>): Result<seq<Constraint>> {
    if a.Ok? && b.Ok? then Ok(a.value + b.value) else Err
  }

  function TermsMeaning(terms: seq<string>): Result<seq<Constraint>> {
    if terms == [] then Ok([]) else Both(TermMeaning(terms[0]), TermsMeaning(terms[1..]))
  }

  /** What ParseRange returns. */
  function RangeMeaning(raw: string): Result<seq<Constraint>> {
    TermsMeaning(Fields(raw))
  }

  lemma BothUnit(a: Result<seq<Constraint>>)
    ensures Both(Ok([]), a) == a == Both(a, Ok([]))
  {
    if a.Ok? {
      assert [] + a.value == a.value == a.value + [];
    }
  }

  lemma BothAssociative(a: Result<seq<Constraint>>, b: Result<seq<Constraint>>, c: Result<seq<Constraint>>)
    ensures Both(a, Both(b, c)) == Both(Both(a, b), c)
  {
    if a.Ok? && b.Ok? && c.Ok? {
      assert a.value + (b.value + c.value) == (a.value + b.value) + c.value;
    }
  }

  lemma {:induction false} TermsAppend(a: seq<string>, b: seq<string>)
    ensures TermsMeaning(a + b) == Both(TermsMeaning(a), TermsMeaning(b))
  {
    hide TermMeaning, Both;
    if a == [] {
      assert a + b == b;
      BothUnit(TermsMeaning(b));
    } else {
      TermsAppend(a[1..], b);
      assert (a + b)[1..] == a[1..] + b;
      BothAssociative(TermMeaning(a[0]), TermsMeaning(a[1..]), TermsMeaning(b));
    }
  }

  lemma TermsStep(terms: seq<string>, i: nat)
    requires i < |terms|
    ensures TermsMeaning(terms[..i + 1]) == Both(TermsMeaning(terms[..i]), TermMeaning(terms[i]))
    ensures TermsMeaning(terms[..i + 1]).Err? ==> TermsMeaning(terms).Err?
  {
    hide TermMeaning;
    TermsAppend(terms[..i], [terms[i]]);
    assert terms[..i + 1] == terms[..i] + [terms[i]];
    TermsAppend(terms[..i + 1], terms[i + 1..]);
    assert terms == terms[..i + 1] + terms[i + 1..];
    BothUnit(TermMeaning(terms[i]));
    assert [terms[i]][1..] == [];
    assert TermsMeaning([terms[i]]) == Both(TermMeaning(terms[i]), TermsMeaning([]));
  }

  /** One turn of the loop: the constraints of one term. */
  method ParseTerm(term: string) returns (r: Result<seq<Constraint>>)
    ensures r == TermMeaning(term)
  {
    hide Parsed;
    var operator, rest := SplitOperator(term);
    var version := ParseVersion(rest);
    if version.Err? {
      return Err;
    }
    var v := version.value;
    if operator == "~" {
      return Ok([Constraint(">=", v), Constraint("<", Version(v.major, v.minor + 1, 0, ""))]);
    } else if operator == "^" {
      var upper := Version(v.major + 1, 0, 0, "");
      if v.major == 0 {
        upper := Version(0, v.minor + 1, 0, "");
      }
      return Ok([Constraint(">=", v), Constraint("<", upper)]);
    } else if operator in {"", "=", "==", ">", ">=", "<", "<="} {
      return Ok([Constraint(operator, v)]);
    } else {
      return Err;
    }
  }

  method ParseRange(raw: string) returns (r: Result<seq<Constraint>>)
    ensures r == RangeMeaning(raw)
  {
    hide TermMeaning;
    var terms := Fields(raw);
    var constraints: seq<Constraint> := [];
    for i := 0 to |terms|
      invariant TermsMeaning(terms[..i]) == Ok(constraints)
    {
      TermsStep(terms, i);
      var more := ParseTerm(terms[i]);
      if more.Err? {
        return Err;
      }
      constraints := constraints + more.value;
    }
    assert terms[..|terms|] == terms;
    return Ok(constraints);
  }

  function SatisfiesRange(version: string, range: string): Result<bool> {
    if Trim(range) == "" then Ok(true)
    else match (Parsed(version), RangeMeaning(range))
      case (Ok(v), Ok(cs)) => Ok(AllowsAll(cs, v))
      case _ => Err
  }

  // ----- what ranges denote ---------------------------------------------------------------

  lemma ConstraintIsConvex(c: Constraint, low: Version, mid: Version, high: Version)
    requires CompareVersions(low, mid) <= 0 && CompareVersions(mid, high) <= 0
    requires Allows(c, low) && Allows(c, high)
    ensures Allows(c, mid)
  {
    hide CompareVersions;
    var v := c.version;
    ZeroOnlyOnEqual(mid, v);
    ZeroOnlyOnEqual(v, mid);
    ZeroOnlyOnEqual(low, v);
    ZeroOnlyOnEqual(v, high);
    NeverBothBelow(mid, v);
    NeverBothBelow(v, high);
    if CompareVersions(mid, v) <= 0 {
      Transitive(low, mid, v);
    }
    if CompareVersions(high, v) <= 0 {
      Transitive(mid, high, v);
    }
  }

  /** Every range denotes a convex set: a version between two members is a member. No version is excluded, twins
      included. */
  lemma RangesAreConvex(cs: seq<Constraint>, low: Version, mid: Version, high: Version)
    requires CompareVersions(low, mid) <= 0 && CompareVersions(mid, high) <= 0
    requires AllowsAll(cs, low) && AllowsAll(cs, high)
    ensures AllowsAll(cs, mid)
  {
    hide CompareVersions;
    forall c | c in cs
      ensures Allows(c, mid)
    {
      ConstraintIsConvex(c, low, mid, high);
    }
  }

  /** And so does every range text, for version texts. */
  lemma SatisfactionIsConvex(range: string, low: string, mid: string, high: string)
    requires Parsed(low).Ok? && Parsed(mid).Ok? && Parsed(high).Ok?
    requires CompareVersions(Parsed(low).value, Parsed(mid).value) <= 0
    requires CompareVersions(Parsed(mid).value, Parsed(high).value) <= 0
    requires SatisfiesRange(low, range) == Ok(true) && SatisfiesRange(high, range) == Ok(true)
    ensures SatisfiesRange(mid, range) == Ok(true)
  {
    hide Parsed, CompareVersions, RangeMeaning, AllowsAll;
    if Trim(range) != "" {
      RangesAreConvex(RangeMeaning(range).value, Parsed(low).value, Parsed(mid).value, Parsed(high).value);
    }
  }

  /** A space between two ranges means "and"; an error in either is an error of both. */
  lemma SpaceIsConjunction(version: string, a: string, b: string)
    ensures SatisfiesRange(version, a + " " + b) ==
            match (SatisfiesRange(version, a), SatisfiesRange(version, b))
            case (Ok(p), Ok(q)) => Ok(p && q)
            case _ => Err
  {
    FieldsConcat(a, b);
    TermsAppend(Fields(a), Fields(b));
    FieldsBlank(a);
    FieldsBlank(b);
    FieldsBlank(a + " " + b);
    if RangeMeaning(a).Ok? && RangeMeaning(b).Ok? && Parsed(version).Ok? {
      AllowsBoth(RangeMeaning(a).value, RangeMeaning(b).value, Parsed(version).value);
    }
  }

  lemma AllowsBoth(cs: seq<Constraint>, ds: seq<Constraint>, v: Version)
    ensures AllowsAll(cs + ds, v) <==> AllowsAll(cs, v) && AllowsAll(ds, v)
  {
    assert forall c :: c in cs + ds <==> c in cs || c in ds;
  }

  lemma OperatorSplits(operator: string, s: string)
    requires s != "" && !IsOperatorChar(s[0])
    requires forall c :: c in operator ==> IsOperatorChar(c)
    ensures OperatorLength(operator + s) == |operator|
    ensures (operator + s)[..|operator|] == operator && (operator + s)[|operator|..] == s
  {
  }

  /** A printed version behind an operator is a term that means what it says. */
  lemma PrintedTerm(operator: string, x: Version)
    requires Printable(x) && NoSpace(x.prerelease)
    requires forall c :: c in operator ==> IsOperatorChar(c)
    ensures TermMeaning(operator + String(x)) == Desugar(operator, x)
  {
    hide Parsed, String, Desugar;
    StringIsWord(x);
    OperatorSplits(operator, String(x));
    TrimIsTrimmed(String(x));
    RoundTrip(x);
  }

  lemma WordIsOneField(w: string)
    requires IsWord(w)
    ensures Fields(w) == [w] && Trim(w) != ""
  {
    FieldsWord(w, "");
    assert w + "" == w;
    FieldsBlank(w);
  }

  /** A printed version without white space, behind an operator, is one term. */
  lemma OneTerm(operator: string, x: Version)
    requires Printable(x) && NoSpace(x.prerelease)
    requires forall c :: c in operator ==> IsOperatorChar(c)
    ensures RangeMeaning(operator + String(x)) == Desugar(operator, x) && Trim(operator + String(x)) != ""
  {
    hide TermMeaning, String, Desugar;
    var term := operator + String(x);
    StringIsWord(x);
    assert NoSpace(term);
    WordIsOneField(term);
    PrintedTerm(operator, x);
    assert [term][1..] == [];
    assert TermsMeaning([term]) == Both(TermMeaning(term), TermsMeaning([]));
    BothUnit(TermMeaning(term));
  }

  lemma StringIsWord(x: Version)
    requires NumbersInRange(x) && NoSpace(x.prerelease)
    ensures IsWord(String(x)) && Trimmed(String(x)) && !IsOperatorChar(String(x)[0])
  {
    ItoaChars(x.major);
    ItoaChars(x.minor);
    ItoaChars(x.patch);
    var s := String(x);
    assert s[0] == Itoa(x.major)[0] && Itoa(x.major)[0] in Itoa(x.major);
    assert s[0] in s && s[|s| - 1] in s;
  }

  lemma ReleaseAbove(v: Version, u: Version)
    requires u.prerelease == ""
    ensures CompareVersions(v, u) < 0 <==>
      v.major < u.major || (v.major == u.major && (v.minor < u.minor || (v.minor == u.minor &&
        (v.patch < u.patch || (v.patch == u.patch && v.prerelease != "")))))
  {
  }

  /** Membership in a shorthand range, for a version text that parses. */
  lemma ShorthandMeaning(operator: string, version: string, x: Version)
    requires operator in {"~", "^"} && Printable(x) && NoSpace(x.prerelease)
    ensures SatisfiesRange(version, operator + String(x)) ==
      match Parsed(version)
      case Err => Err
      case Ok(v) => Ok(CompareVersions(v, x) >= 0 &&
                       CompareVersions(v, if operator == "~" then TildeUpper(x) else CaretUpper(x)) < 0)
  {
    hide RangeMeaning, Parsed, String, CompareVersions;
    OneTerm(operator, x);
    var cs := Desugar(operator, x).value;
    assert cs[0] in cs && cs[1] in cs;
    assert forall c :: c in cs ==> c == cs[0] || c == cs[1];
  }

  /** Every version satisfies its own tilde and caret range. */
  lemma OwnShorthands(x: Version)
    requires Printable(x) && NoSpace(x.prerelease)
    ensures SatisfiesRange(String(x), "~" + String(x)) == Ok(true)
    ensures SatisfiesRange(String(x), "^" + String(x)) == Ok(true)
  {
    hide SatisfiesRange, Parsed, String, CompareVersions;
    ShorthandMeaning("~", String(x), x);
    ShorthandMeaning("^", String(x), x);
    RoundTrip(x);
    ZeroOnlyOnEqual(x, x);
    ReleaseAbove(x, TildeUpper(x));
    ReleaseAbove(x, CaretUpper(x));
  }

  /** Whatever ~x allows, ^x allows. */
  lemma TildeInsideCaret(version: string, x: Version)
    requires Printable(x) && NoSpace(x.prerelease)
    requires SatisfiesRange(version, "~" + String(x)) == Ok(true)
    ensures SatisfiesRange(version, "^" + String(x)) == Ok(true)
  {
    hide SatisfiesRange, Parsed, String, CompareVersions;
    ShorthandMeaning("~", version, x);
    ShorthandMeaning("^", version, x);
    var v := Parsed(version).value;
    ReleaseAbove(v, TildeUpper(x));
    ReleaseAbove(v, CaretUpper(x));
  }

  /** For a major version above zero, ^x is exactly the versions from x on with the same major, plus the
      prereleases of the next major's first release. */
  lemma CaretIsSameMajor(version: string, x: Version)
    requires Printable(x) && NoSpace(x.prerelease) && x.major > 0
    requires Parsed(version).Ok?
    ensures SatisfiesRange(version, "^" + String(x)) ==
      var v := Parsed(version).value;
      Ok(CompareVersions(v, x) >= 0 &&
         (v.major == x.major ||
          (v.major == x.major + 1 && v.minor == 0 && v.patch == 0 && v.prerelease != "")))
  {
    ShorthandMeaning("^", version, x);
    FromMajor(Parsed(version).value, x);
    ParsedInRange(version);
    ReleaseAbove(Parsed(version).value, CaretUpper(x));
  }

  lemma FromMajor(v: Version, x: Version)
    ensures CompareVersions(v, x) >= 0 ==> v.major >= x.major
  {
  }

  // ----- single operators, exactly ------------------------------------------------------------

  /** What each operator before a printed version asks of a version text. */
  lemma OperatorExactly(operator: string, version: string, x: Version)
    requires Printable(x) && NoSpace(x.prerelease) && operator in {"", "=", "==", ">", ">=", "<", "<="}
    ensures SatisfiesRange(version, operator + String(x)) ==
      match Parsed(version)
      case Err => Err
      case Ok(v) =>
        var c := CompareVersions(v, x);
        Ok(if operator == ">" then c == 1 else if operator == ">=" then c == 1 || v == x
           else if operator == "<" then c == -1 else if operator == "<=" then c == -1 || v == x else v == x)
  {
    hide RangeMeaning, Parsed, String, CompareVersions;
    OneTerm(operator, x);
    var cs := Desugar(operator, x).value;
    assert cs == [Constraint(operator, x)] && cs[0] in cs;
    assert forall c :: c in cs ==> c == cs[0];
    if Parsed(version).Ok? {
      ZeroOnlyOnEqual(Parsed(version).value, x);
    }
  }

  /** Any other run of operator characters is an error. */
  lemma NoOtherOperator(operator: string, version: string, x: Version)
    requires Printable(x) && NoSpace(x.prerelease)
    requires forall i :: 0 <= i < |operator| ==> OperatorSign(operator[i])
    requires operator !in {"", "=", "==", ">", ">=", "<", "<=", "~", "^"}
    ensures SatisfiesRange(version, operator + String(x)) == Err
  {
    hide RangeMeaning, Parsed, String;
    OneTerm(operator, x);
  }

  /** And a constraint with any other operator would allow nothing. */
  lemma NoOtherConstraint(c: Constraint, v: Version)
    requires c.operator !in {"", "=", "==", ">", ">=", "<", "<="}
    ensures !Allows(c, v)
  {
  }

  /** The operator of a term is its longest run of the five characters. */
  lemma OperatorLengthExactly(term: string)
    ensures var n := OperatorLength(term);
      (forall k :: 0 <= k < n ==> OperatorSign(term[k])) && (n < |term| ==> !OperatorSign(term[n]))
  {
    hide OperatorLength;
  }

  predicate OperatorSign(c: char) {
    c == '<' || c == '>' || c == '=' || c == '~' || c == '^'
  }

  /** A blank range allows every text, a version or not. */
  lemma BlankExactly(version: string, range: string)
    requires Blank(range)
    ensures SatisfiesRange(version, range) == Ok(true)
  {
    hide RangeMeaning, Parsed, Trim;
    TrimOf(range, "", "");
    assert range + "" + "" == range;
  }

  lemma FromMinor(v: Version, x: Version)
    requires v.major == x.major
    ensures CompareVersions(v, x) >= 0 ==> v.minor >= x.minor
  {
  }

  /** ~x is exactly the versions from x on with the same major and minor, plus the prereleases of the next minor's first
      release, and so is ^x below 1.0.0. */
  lemma TildeIsSameMinor(operator: string, version: string, x: Version)
    requires operator == "~" || (operator == "^" && x.major == 0)
    requires Printable(x) && NoSpace(x.prerelease) && Parsed(version).Ok?
    ensures SatisfiesRange(version, operator + String(x)) ==
      var v := Parsed(version).value;
      Ok(CompareVersions(v, x) >= 0 && v.major == x.major &&
         (v.minor == x.minor || (v.minor == x.minor + 1 && v.patch == 0 && v.prerelease != "")))
  {
    hide CompareVersions, Parsed, String, SatisfiesRange;
    var v := Parsed(version).value;
    ShorthandMeaning(operator, version, x);
    ParsedInRange(version);
    FromMajor(v, x);
    if v.major == x.major {
      FromMinor(v, x);
    }
    ReleaseAbove(v, TildeUpper(x));
  }
}
