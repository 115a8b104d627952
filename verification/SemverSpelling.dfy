/** Which texts are versions: ParseVersion of api/service/semver.go against a grammar of its own. */
module SemverSpelling {
  import opened Text
  import opened Semver

  /** A spelling of a version: white space, an optional v, three decimals, an optional prerelease, optional build
      metadata, white space. */
  datatype Spelling = Spelling(left: string, lead: string, major: string, minor: string, patch: string, pre: string,
                               build: string, right: string)
  {
    function Numbers(): string {
      major + "." + minor + "." + patch
    }

    function Text(): string {
      left + lead + Numbers() + (pre + build + right)
    }
  }

  predicate Decimal(s: string, n: int) {
    s != "" && AllDigits(s) && NatValue(s) == n && n <= 0x7FFF_FFFF_FFFF_FFFF
  }

  ghost predicate SpellsAs(p: Spelling, v: Version) {
    && Blank(p.left) && Blank(p.right) && p.lead in {"", "v"}
    && Decimal(p.major, v.major) && Decimal(p.minor, v.minor) && Decimal(p.patch, v.patch)
    && (if p.pre == "" then v.prerelease == "" else p.pre == "-" + v.prerelease && '+' !in v.prerelease)
    && (p.build == "" || p.build[0] == '+')
    && (p.pre + p.build == "" || !White((p.pre + p.build)[|p.pre + p.build| - 1]))
  }

  ghost predicate Spells(raw: string, v: Version) {
    exists p: Spelling :: raw == p.Text() && SpellsAs(p, v)
  }

  // ----- a spelling is read ---------------------------------------------------------------------

  lemma StrippedSpelling(left: string, lead: string, core: string, tail: string)
    requires Blank(left) && lead in {"", "v"}
    requires core != "" && Trimmed(core) && core[0] != 'v' && '+' !in core
    ensures Stripped(left + lead + core + tail) == Some(core + Before(TrimRight(tail), '+'))
  {
    hide Before, TrimRight, TrimLeft;
    var led := lead + core;
    assert led[0] == if lead == "" then core[0] else 'v';
    assert left + lead + core + tail == left + (led + tail);
    TrimLeftOf(left, led + tail);
    TrimRightAppend(led, tail);
    assert Trim(left + (led + tail)) == led + TrimRight(tail);
    var text := led + TrimRight(tail);
    if lead == "v" {
      assert text[1..] == core + TrimRight(tail);
    } else {
      assert led == core;
    }
    assert left + lead + core + tail == left + (led + tail);
    BeforeAppend(core, TrimRight(tail), '+');
  }

  lemma DecimalComponent(s: string, n: int)
    requires Decimal(s, n)
    ensures Component(s) == Some(n)
  {
    assert s[0] in s;
  }

  lemma NumbersShape(p: Spelling, v: Version)
    requires Decimal(p.major, v.major) && Decimal(p.minor, v.minor) && Decimal(p.patch, v.patch)
    ensures var core := p.Numbers();
      core != "" && Trimmed(core) && core[0] != 'v' && '+' !in core && '-' !in core &&
      Split(core, '.') == [p.major, p.minor, p.patch] &&
      ValidCore(Split(core, '.'))
  {
    hide Split, Component, NatValue;
    assert forall c :: c in p.major || c in p.minor || c in p.patch ==> c != '.';
    DottedSplits(p.major, p.minor, p.patch);
    DottedChars(p.major, p.minor, p.patch);
    DecimalComponent(p.major, v.major);
    DecimalComponent(p.minor, v.minor);
    DecimalComponent(p.patch, v.patch);
  }

  lemma TailRead(pre: string, build: string, right: string)
    requires Blank(right) && '+' !in pre && (build == "" || build[0] == '+')
    requires pre + build == "" || !White((pre + build)[|pre + build| - 1])
    ensures Before(TrimRight(pre + build + right), '+') == pre
  {
    TrimRightOf(pre + build, right);
    BeforeAppend(pre, build, '+');
  }

  lemma SpellingIsRead(p: Spelling, v: Version)
    requires SpellsAs(p, v)
    ensures Parsed(p.Text()) == Ok(v)
  {
    hide Stripped, Before, After, TrimRight, Split, Component, NatValue, Blank;
    var core := p.Numbers();
    NumbersShape(p, v);
    DecimalComponent(p.major, v.major);
    DecimalComponent(p.minor, v.minor);
    DecimalComponent(p.patch, v.patch);
    TailRead(p.pre, p.build, p.right);
    StrippedSpelling(p.left, p.lead, core, p.pre + p.build + p.right);
    if p.pre == "" {
      assert core + "" == core;
      Uncut(core, '-');
    } else {
      assert core + p.pre == core + "-" + v.prerelease;
      CutAt(core, '-', v.prerelease);
    }
  }

  // ----- what is read is spelled ----------------------------------------------------------------

  lemma CutJoins(s: string, c: char)
    ensures s == Before(s, c) + if c in s then [c] + After(s, c) else ""
    ensures c !in Before(s, c)
  {
  }

  lemma ComponentIsDecimal(s: string, n: int)
    requires Component(s) == Some(n) && '+' !in s && '-' !in s
    ensures Decimal(s, n)
  {
    assert s[0] in s;
  }

  lemma {:induction false} ThreeJoined(s: string, parts: seq<string>)
    requires Split(s, '.') == parts && |parts| == 3
    ensures s == parts[0] + "." + parts[1] + "." + parts[2]
  {
    JoinSplit(s, '.');
    hide Split, Join;
    var rest := [parts[1]] + [parts[2]];
    assert parts == [parts[0]] + rest;
    JoinCons(parts[0], rest, ".");
    JoinCons(parts[1], [parts[2]], ".");
    JoinOne(parts[2], ".");
    assert s == parts[0] + "." + (parts[1] + "." + parts[2]);
  }

  lemma NumbersJoined(core: string, v: Version)
    requires '+' !in core && '-' !in core && ValidCore(Split(core, '.'))
    requires var parts := Split(core, '.');
      Component(parts[0]) == Some(v.major) && Component(parts[1]) == Some(v.minor) &&
      Component(parts[2]) == Some(v.patch)
    ensures var parts := Split(core, '.');
      Decimal(parts[0], v.major) && Decimal(parts[1], v.minor) && Decimal(parts[2], v.patch) &&
      core == parts[0] + "." + parts[1] + "." + parts[2]
  {
    hide Split, Component, NatValue;
    var parts := Split(core, '.');
    ThreeJoined(core, parts);
    assert forall c :: c in parts[0] || c in parts[1] || c in parts[2] ==> c in core;
    ComponentIsDecimal(parts[0], v.major);
    ComponentIsDecimal(parts[1], v.minor);
    ComponentIsDecimal(parts[2], v.patch);
  }

  /** What remains of a text once white space and the v are gone, cut at the first plus sign. */
  lemma StrippedCuts(raw: string) returns (left: string, lead: string, kept: string, build: string, right: string)
    requires Stripped(raw).Some?
    ensures raw == left + lead + kept + build + right && Blank(left) && Blank(right) && lead in {"", "v"}
    ensures Stripped(raw) == Some(kept) && '+' !in kept && (build == "" || build[0] == '+')
    ensures lead + kept + build != "" && !White((lead + kept + build)[|lead + kept + build| - 1])
  {
    var text := Trim(raw);
    TrimExactly(raw, text);
    hide Before, After, Trim, Blank;
    left, right :| Blank(left) && Blank(right) && raw == left + text + right;
    lead := if text[0] == 'v' then "v" else "";
    var rest := if text[0] == 'v' then text[1..] else text;
    CutJoins(rest, '+');
    kept := Before(rest, '+');
    build := if '+' in rest then "+" + After(rest, '+') else "";
    assert rest == kept + build;
    assert text == lead + rest;
    JoinsText(left, lead, kept, build, right, text);
  }

  lemma JoinsText(left: string, lead: string, kept: string, build: string, right: string, text: string)
    requires text == lead + (kept + build)
    ensures left + text + right == left + lead + kept + build + right && text == lead + kept + build
  {
  }

  lemma ReadIsSpelled(raw: string, v: Version)
    requires Parsed(raw) == Ok(v)
    ensures Spells(raw, v)
  {
    hide Stripped, Before, After, Split, Component, NatValue, Blank, AllDigits;
    var left, lead, kept, build, right := StrippedCuts(raw);
    CutJoins(kept, '-');
    NoDash(kept);
    var core := Before(kept, '-');
    var pre := if '-' in kept then "-" + After(kept, '-') else "";
    InParts(kept, core, pre);
    NumbersJoined(core, v);
    var parts := Split(core, '.');
    hide Parsed, Decimal, ValidCore;
    Assembled(raw, v, Spelling(left, lead, parts[0], parts[1], parts[2], pre, build, right), kept);
  }

  lemma Assembled(raw: string, v: Version, p: Spelling, kept: string)
    requires Blank(p.left) && Blank(p.right) && p.lead in {"", "v"} && (p.build == "" || p.build[0] == '+')
    requires Decimal(p.major, v.major) && Decimal(p.minor, v.minor) && Decimal(p.patch, v.patch)
    requires if p.pre == "" then v.prerelease == "" else p.pre == "-" + v.prerelease && '+' !in p.pre
    requires kept == p.Numbers() + p.pre && raw == p.left + p.lead + kept + p.build + p.right
    requires var text := p.lead + kept + p.build; text != "" && !White(text[|text| - 1])
    ensures Spells(raw, v)
  {
    hide Decimal, Blank, White;
    TextOf(p, kept);
    var text := p.lead + kept + p.build;
    LastOfTail(text, p.lead + p.Numbers(), p.pre + p.build);
    PreWithoutPlus(p.pre, v.prerelease);
    assert SpellsAs(p, v);
    hide SpellsAs;
    assert raw == p.Text();
  }

  lemma PreWithoutPlus(pre: string, prerelease: string)
    requires pre == "" || (pre == "-" + prerelease && '+' !in pre)
    ensures pre != "" ==> '+' !in prerelease
  {
    assert pre != "" ==> forall c :: c in prerelease ==> c in pre;
  }

  lemma TextOf(p: Spelling, kept: string)
    requires kept == p.Numbers() + p.pre
    ensures p.left + p.lead + kept + p.build + p.right == p.Text()
    ensures p.lead + kept + p.build == p.lead + p.Numbers() + (p.pre + p.build)
  {
  }

  lemma NoDash(kept: string)
    ensures '-' !in kept ==> After(kept, '-') == ""
  {
  }

  lemma InParts(kept: string, core: string, pre: string)
    requires kept == core + pre && '+' !in kept
    ensures '+' !in core && '+' !in pre
  {
    assert forall c :: c in core || c in pre ==> c in kept;
  }

  lemma LastOfTail(text: string, head: string, tail: string)
    requires text == head + tail && (text != "" ==> !White(text[|text| - 1]))
    ensures tail == "" || !White(tail[|tail| - 1])
  {
  }

  /** Parsing, exactly: a text is read as a version if and only if it spells that version. */
  lemma SpelledExactly(raw: string, v: Version)
    ensures Parsed(raw) == Ok(v) <==> Spells(raw, v)
  {
    hide SpellsAs, Parsed;
    if Parsed(raw) == Ok(v) {
      ReadIsSpelled(raw, v);
    }
    if p: Spelling :| raw == p.Text() && SpellsAs(p, v) {
      SpellingIsRead(p, v);
    }
  }

  /** A printed version is read back with a v in front, build metadata behind, and white space around. */
  lemma AcceptedSpellings(v: Version, build: string, left: string, right: string)
    requires Printable(v) && Blank(left) && Blank(right)
    ensures Parsed(left + "v" + String(v) + right) == Ok(v) == Parsed(left + String(v) + right)
    ensures Parsed(left + "v" + String(v) + "+" + build + right) == Ok(v)
    ensures Parsed(left + String(v) + "+" + build + right) == Ok(v)
  {
    hide Parsed, String, Printable, Blank;
    Accepted(v, "v", "", left, right);
    Accepted(v, "", "", left, right);
    Accepted(v, "v", "+" + build, left, right);
    Accepted(v, "", "+" + build, left, right);
    var text := String(v);
    assert left + "" == left;
    assert left + "v" + text + "" == left + "v" + text && left + text + "" == left + text;
    assert left + "v" + text + ("+" + build) == left + "v" + text + "+" + build;
    assert left + text + ("+" + build) == left + text + "+" + build;
  }

  lemma Accepted(v: Version, lead: string, build: string, left: string, right: string)
    requires Printable(v) && Blank(left) && Blank(right) && lead in {"", "v"} && (build == "" || build[0] == '+')
    ensures Parsed(left + lead + String(v) + build + right) == Ok(v)
  {
    hide Core, Stripped, Before, After, Trim, TrimRight, Split, Component, Itoa;
    CoreShape(v);
    NumbersBack(v);
    var core := Core(v);
    var pre := if v.prerelease == "" then "" else "-" + v.prerelease;
    assert left + lead + String(v) + build + right == left + lead + core + (pre + (build + right));
    StrippedSpelling(left, lead, core, pre + (build + right));
    PrintedTail(pre, build, right);
    if v.prerelease == "" {
      assert core + "" == core;
      Uncut(core, '-');
    } else {
      assert core + pre == core + "-" + v.prerelease;
      CutAt(core, '-', v.prerelease);
    }
  }

  lemma PlusIsNoSpace()
    ensures !IsSpace('+') && forall s :: Before("+" + s, '+') == ""
  {
  }

  lemma PrintedTail(pre: string, build: string, right: string)
    requires Blank(right) && '+' !in pre && (build == "" || build[0] == '+')
    requires pre == "" || !IsSpace(pre[|pre| - 1])
    ensures Before(TrimRight(pre + (build + right)), '+') == pre
  {
    hide TrimRight, Before, Blank, IsSpace;
    if build == "" {
      assert build + right == right;
      TrimRightOf(pre, right);
      Uncut(pre, '+');
    } else {
      var rest := build[1..] + right;
      assert pre + (build + right) == (pre + "+") + rest;
      PlusIsNoSpace();
      TrimRightAppend(pre + "+", rest);
      assert pre + "+" + TrimRight(rest) == pre + ("+" + TrimRight(rest));
      BeforeAppend(pre, "+" + TrimRight(rest), '+');
      assert pre + "" == pre;
    }
  }
}
