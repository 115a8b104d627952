/** Security-advisory ranges of api/handlers/advisories.go: the converter from GitHub's comma syntax and
    the question whether an advisory affects a version. */
module Advisories {
  import opened Text
  import opened Semver
  import opened VersionRange

  /** A part of a comma-separated range, with its white space removed. */
  function Squeezed(part: string): string {
    Concat(Fields(part))
  }

  /** At most one term: nothing for a blank part. */
  function Term(part: string): seq<string> {
    if Squeezed(part) != "" then [Squeezed(part)] else []
  }

  function SqueezedParts(parts: seq<string>): (terms: seq<string>) {
    if parts == [] then [] else Term(parts[0]) + SqueezedParts(parts[1..])
  }

  /** The non-empty parts of a comma-separated range, white space removed. */
  function Terms(raw: string): seq<string> {
    SqueezedParts(Split(raw, ','))
  }

  function Converted(raw: string): string {
    Join(Terms(raw), " ")
  }

  lemma {:induction false} SqueezedAppend(a: seq<string>, b: seq<string>)
    ensures SqueezedParts(a + b) == SqueezedParts(a) + SqueezedParts(b)
  {
    hide Term;
    if a == [] {
      assert a + b == b;
    } else {
      SqueezedAppend(a[1..], b);
      assert (a + b)[1..] == a[1..] + b && (a + b)[0] == a[0];
      var x, y, z := Term(a[0]), SqueezedParts(a[1..]), SqueezedParts(b);
      assert x + (y + z) == x + y + z;
    }
  }

  lemma OnePartMore(parts: seq<string>, i: nat)
    requires i < |parts|
    ensures SqueezedParts(parts[..i + 1]) == SqueezedParts(parts[..i]) + Term(parts[i])
  {
    hide Term;
    SqueezedAppend(parts[..i], [parts[i]]);
    assert parts[..i + 1] == parts[..i] + [parts[i]];
    assert SqueezedParts([parts[i]]) == Term(parts[i]) + SqueezedParts([parts[i]][1..]);
  }

  method ConvertGHSARange(raw: string) returns (r: string)
    ensures r == Converted(raw)
  {
    hide SqueezedParts, Split, Fields, Join;
    var parts := Split(raw, ',');
    var terms: seq<string> := [];
    assert parts[..0] == [] && terms == SqueezedParts([]) by { NoParts(); }
    for i := 0 to |parts|
      invariant terms == SqueezedParts(parts[..i])
    {
      var term := Join(Fields(parts[i]), "");
      JoinNothing(Fields(parts[i]));
      OnePartMore(parts, i);
      if term != "" {
        terms := terms + [term];
      }
    }
    assert parts[..|parts|] == parts;
    return Join(terms, " ");
  }

  lemma NoParts()
    ensures SqueezedParts([]) == []
  {
  }

  lemma {:induction false} JoinNothing(words: seq<string>)
    ensures Join(words, "") == Concat(words)
  {
    if |words| == 1 {
      assert words[1..] == [];
      assert words[0] + "" == words[0];
    } else if |words| > 1 {
      JoinNothing(words[1..]);
      assert words[0] + "" + Join(words[1..], "") == words[0] + Join(words[1..], "");
    }
  }

  lemma {:induction false} ConcatChars(words: seq<string>, c: char)
    ensures c in Concat(words) <==> exists w :: w in words && c in w
  {
    if words != [] {
      ConcatChars(words[1..], c);
      assert words == [words[0]] + words[1..];
    }
  }

  lemma {:induction false} FieldChars(s: string, c: char)
    ensures (exists w :: w in Fields(s) && c in w) ==> c in s
    decreases |s|
  {
    if s != "" {
      if IsSpace(s[0]) {
        FieldChars(s[1..], c);
      } else {
        FieldChars(s[WordLength(s)..], c);
      }
    }
  }

  lemma {:induction false} PartsAreWords(parts: seq<string>)
    requires forall p :: p in parts ==> ',' !in p
    ensures forall t :: t in SqueezedParts(parts) ==> IsWord(t) && ',' !in t
  {
    if parts != [] {
      PartsAreWords(parts[1..]);
      var t := Squeezed(parts[0]);
      forall c | c in t
        ensures !IsSpace(c) && c != ','
      {
        ConcatChars(Fields(parts[0]), c);
        FieldChars(parts[0], c);
        assert parts[0] in parts;
      }
    }
  }

  lemma TermsAreWords(raw: string)
    ensures forall t :: t in Terms(raw) ==> IsWord(t) && ',' !in t
  {
    PartsAreWords(Split(raw, ','));
  }

  /** Splitting the converted range on white space yields exactly the non-empty comma parts with their
      white space removed, so the range parser sees one term per part. */
  lemma OneTermPerPart(raw: string)
    ensures Fields(Converted(raw)) == Terms(raw)
    ensures RangeMeaning(Converted(raw)) == TermsMeaning(Terms(raw))
  {
    TermsAreWords(raw);
    FieldsJoin(Terms(raw));
  }

  lemma {:induction false} JoinChars(words: seq<string>, c: char)
    requires c != ' ' && forall w :: w in words ==> c !in w
    ensures c !in Join(words, " ")
  {
    if |words| > 1 {
      JoinChars(words[1..], c);
    }
  }

  lemma {:induction false} JoinLonger(words: seq<string>)
    ensures |Join(words, " ")| == |Concat(words)| + if |words| > 1 then |words| - 1 else 0
  {
    if |words| == 1 {
      assert words[1..] == [];
    } else if |words| > 1 {
      JoinLonger(words[1..]);
    }
  }

  lemma ConvertOnePart(c: string)
    requires ',' !in c
    ensures Converted(c) == Squeezed(c)
  {
    hide Squeezed;
    SplitNone(c, ',');
    assert [c][1..] == [];
    assert SqueezedParts([c]) == Term(c) + SqueezedParts([]);
  }

  /** Converting a converted range glues its terms together: converting twice is converting once if and
      only if there is at most one term. */
  lemma ConversionIsIdempotentOnSingles(raw: string)
    ensures Converted(Converted(raw)) == Converted(raw) <==> |Terms(raw)| <= 1
  {
    hide Terms;
    var words := Terms(raw);
    TermsAreWords(raw);
    OneTermPerPart(raw);
    JoinChars(words, ',');
    ConvertOnePart(Converted(raw));
    JoinLonger(words);
    if |words| == 1 {
      assert words[1..] == [];
      assert words[0] + "" == words[0];
    }
  }

  // ----- whether an advisory affects a version -----------------------------------------------

  datatype Advisory = Advisory(vulnerableRange: string, withdrawn: bool)

  function AdvisoryAffects(a: Advisory, version: string): bool {
    if a.withdrawn then false
    else if a.vulnerableRange == "" then true
    else match SatisfiesRange(version, a.vulnerableRange)
      case Err => true
      case Ok(affected) => affected
  }

  /** A range can be read if and only if each of its terms can. */
  lemma {:induction false} ReadableTermByTerm(terms: seq<string>)
    ensures TermsMeaning(terms).Ok? <==> forall t :: t in terms ==> TermMeaning(t).Ok?
  {
    hide TermMeaning;
    if terms != [] {
      ReadableTermByTerm(terms[1..]);
      assert terms == [terms[0]] + terms[1..];
    }
  }

  /** The constraints of a range are those of its terms. */
  lemma {:induction false} ConstraintsComeFromTerms(terms: seq<string>, c: Constraint)
    requires TermsMeaning(terms).Ok?
    ensures c in TermsMeaning(terms).value <==>
      exists t :: t in terms && TermMeaning(t).Ok? && c in TermMeaning(t).value
  {
    hide TermMeaning;
    if terms != [] {
      ConstraintsComeFromTerms(terms[1..], c);
      assert terms == [terms[0]] + terms[1..];
    }
  }

  /** A comma part, with its white space removed, does not allow the version. */
  predicate Excludes(term: string, v: Version)
    requires TermMeaning(term).Ok?
  {
    !AllowsAll(TermMeaning(term).value, v)
  }

  lemma AllowedTermByTerm(terms: seq<string>, v: Version)
    requires TermsMeaning(terms).Ok?
    ensures forall t :: t in terms ==> TermMeaning(t).Ok?
    ensures AllowsAll(TermsMeaning(terms).value, v) <==> forall t :: t in terms ==> !Excludes(t, v)
  {
    hide TermMeaning, TermsMeaning, Allows;
    ReadableTermByTerm(terms);
    forall c
      ensures c in TermsMeaning(terms).value <==> exists t :: t in terms && c in TermMeaning(t).value
    {
      ConstraintsComeFromTerms(terms, c);
    }
  }

  /** A live advisory imported from GitHub spares a version if and only if the version and every comma part can be
      read and some comma part excludes the version. */
  lemma SparedOnlyWhenExcluded(raw: string, version: string)
    ensures !AdvisoryAffects(Advisory(Converted(raw), false), version) <==>
      Parsed(version).Ok? && (forall t :: t in Terms(raw) ==> TermMeaning(t).Ok?) &&
      exists t :: t in Terms(raw) && Excludes(t, Parsed(version).value)
  {
    hide Parsed, Allows, TermMeaning, TermsMeaning, Excludes, Terms, Converted;
    OneTermPerPart(raw);
    FieldsBlank(Converted(raw));
    ReadableTermByTerm(Terms(raw));
    if TermsMeaning(Terms(raw)).Ok? && Parsed(version).Ok? {
      AllowedTermByTerm(Terms(raw), Parsed(version).value);
    }
  }

  // ----- parts and advisories, exactly ----------------------------------------------------------

  function WithoutWhite(s: string): string {
    if s == "" then "" else (if White(s[0]) then "" else [s[0]]) + WithoutWhite(s[1..])
  }

  lemma {:induction false} WithoutWhiteJoins(a: string, b: string)
    ensures WithoutWhite(a + b) == WithoutWhite(a) + WithoutWhite(b)
  {
    hide White;
    if a == "" {
      assert a + b == b;
    } else {
      WithoutWhiteJoins(a[1..], b);
      assert (a + b)[1..] == a[1..] + b && (a + b)[0] == a[0];
    }
  }

  lemma {:induction false} WordWithoutWhite(w: string)
    requires NoSpace(w)
    ensures WithoutWhite(w) == w
  {
    if w != "" {
      assert w[0] in w && forall c :: c in w[1..] ==> c in w;
      WordWithoutWhite(w[1..]);
      assert w == [w[0]] + w[1..];
    }
  }

  /** A part loses exactly its white space. */
  lemma {:induction false} SqueezedExactly(part: string)
    ensures Squeezed(part) == WithoutWhite(part)
    decreases |part|
  {
    hide Squeezed, WithoutWhite, WordLength, IsSpace, White;
    if part == "" {
      NothingSqueezed();
    } else {
      if IsSpace(part[0]) {
        SqueezedExactly(part[1..]);
        FirstSpaceSqueezed(part);
      } else {
        var n := WordLength(part);
        FirstWordSqueezed(part);
        SqueezedExactly(part[n..]);
        WordWithoutWhite(part[..n]);
        WithoutWhiteJoins(part[..n], part[n..]);
        assert part == part[..n] + part[n..];
      }
    }
  }

  lemma NothingSqueezed()
    ensures Squeezed("") == WithoutWhite("")
  {
  }

  lemma FirstSpaceSqueezed(part: string)
    requires part != "" && IsSpace(part[0])
    ensures Squeezed(part) == Squeezed(part[1..]) && WithoutWhite(part) == WithoutWhite(part[1..])
  {
  }

  lemma FirstWordSqueezed(part: string)
    requires part != "" && !IsSpace(part[0])
    ensures var n := WordLength(part); Squeezed(part) == part[..n] + Squeezed(part[n..]) && NoSpace(part[..n])
    ensures WordLength(part) > 0
  {
    var n := WordLength(part);
    assert Fields(part) == [part[..n]] + Fields(part[n..]);
    assert Fields(part)[1..] == Fields(part[n..]);
  }

  /** The terms of a range are those of its comma parts, in order: what is left of each without white space, if anything
      is. */
  lemma TermsExactly(part: string, rest: string)
    requires ',' !in part
    ensures var term := WithoutWhite(part);
      Terms(part) == (if term == "" then [] else [term]) && Terms(part + "," + rest) == Terms(part) + Terms(rest)
  {
    hide Squeezed, Split;
    SqueezedExactly(part);
    SplitNone(part, ',');
    SplitFirst(part, ',', rest);
    assert [part][1..] == [];
    assert SqueezedParts([part]) == Term(part) + SqueezedParts([]);
    SqueezedAppend([part], Split(rest, ','));
  }

  /** An advisory spares a version if and only if it is withdrawn, or its range is not empty, can be read together with
      the version, and excludes it. */
  lemma SparesExactly(a: Advisory, version: string)
    ensures !AdvisoryAffects(a, version) <==>
      a.withdrawn || (a.vulnerableRange != "" && SatisfiesRange(version, a.vulnerableRange) == Ok(false))
  {
    hide SatisfiesRange;
  }
}
