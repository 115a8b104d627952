/** The parts of Go's strings and strconv packages that the registry relies on, for ASCII text. */
module Text {

  datatype Option<+T> = None | Some(value: T)

  // ----- white space ------------------------------------------------------------------

  predicate IsSpace(c: char) {
    c == ' ' || '\t' <= c <= '\r'
  }

  predicate NoSpace(s: string) {
    forall c :: c in s ==> !IsSpace(c)
  }

  function TrimLeft(s: string): string {
    if s != "" && IsSpace(s[0]) then TrimLeft(s[1..]) else s
  }

  function TrimRight(s: string): string {
    if s != "" && IsSpace(s[|s| - 1]) then TrimRight(s[..|s| - 1]) else s
  }

  function Trim(s: string): string {
    TrimRight(TrimLeft(s))
  }

  predicate Trimmed(s: string) {
    s == "" || (!IsSpace(s[0]) && !IsSpace(s[|s| - 1]))
  }

  lemma {:induction false} TrimRightShape(s: string)
    ensures TrimRight(s) <= s
    ensures TrimRight(s) != "" ==> !IsSpace(TrimRight(s)[|TrimRight(s)| - 1])
    ensures s == "" || !IsSpace(s[|s| - 1]) ==> TrimRight(s) == s
  {
    if s != "" && IsSpace(s[|s| - 1]) {
      TrimRightShape(s[..|s| - 1]);
    }
  }

  lemma {:induction false} TrimLeftShape(s: string)
    ensures TrimLeft(s) != "" ==> !IsSpace(TrimLeft(s)[0])
    ensures s == "" || !IsSpace(s[0]) ==> TrimLeft(s) == s
    ensures |TrimLeft(s)| <= |s|
  {
    if s != "" && IsSpace(s[0]) {
      TrimLeftShape(s[1..]);
    }
  }

  lemma TrimIsTrimmed(s: string)
    ensures Trimmed(Trim(s))
    ensures Trim(s) == s <==> Trimmed(s)
  {
    TrimLeftShape(s);
    TrimRightShape(TrimLeft(s));
    var t := Trim(s);
    if t != "" {
      assert t[0] == TrimLeft(s)[0];
    }
  }

  /** Blank, tab, line feed, vertical tab, form feed or carriage return. */
  predicate White(c: char) {
    c == ' ' || 9 <= c as int <= 13
  }

  predicate Blank(s: string) {
    forall i :: 0 <= i < |s| ==> White(s[i])
  }

  lemma {:induction false} TrimLeftOf(left: string, s: string)
    requires Blank(left) && (s == "" || !IsSpace(s[0]))
    ensures TrimLeft(left + s) == s
  {
    if left == "" {
      assert left + s == s;
    } else {
      TrimLeftOf(left[1..], s);
      assert (left + s)[1..] == left[1..] + s;
    }
  }

  lemma {:induction false} TrimRightOf(s: string, right: string)
    requires Blank(right) && (s == "" || !IsSpace(s[|s| - 1]))
    ensures TrimRight(s + right) == s
  {
    if right == "" {
      assert s + right == s;
    } else {
      TrimRightOf(s, right[..|right| - 1]);
      assert (s + right)[..|s + right| - 1] == s + right[..|right| - 1];
    }
  }

  lemma {:induction false} TrimLeftCuts(s: string) returns (left: string)
    ensures Blank(left) && s == left + TrimLeft(s)
  {
    left := "";
    if s != "" && IsSpace(s[0]) {
      left := TrimLeftCuts(s[1..]);
      left := [s[0]] + left;
    }
  }

  lemma {:induction false} TrimRightCuts(s: string) returns (right: string)
    ensures Blank(right) && s == TrimRight(s) + right
  {
    right := "";
    if s != "" && IsSpace(s[|s| - 1]) {
      right := TrimRightCuts(s[..|s| - 1]);
      right := right + [s[|s| - 1]];
    }
  }

  lemma TrimOf(left: string, t: string, right: string)
    requires Blank(left) && Blank(right) && Trimmed(t)
    ensures Trim(left + t + right) == t
  {
    if t == "" {
      TrimLeftOf(left + right, "");
      assert left + t + right == left + right + "";
    } else {
      assert left + t + right == left + (t + right);
      TrimLeftOf(left, t + right);
      TrimRightOf(t, right);
    }
  }

  /** Trimming, exactly: a text loses all white space at both ends and nothing else. */
  lemma TrimExactly(s: string, t: string)
    ensures t == Trim(s) <==>
      (exists left, right :: Blank(left) && Blank(right) && s == left + t + right) &&
      (t != "" ==> !White(t[0]) && !White(t[|t| - 1]))
  {
    TrimIsTrimmed(s);
    if t == Trim(s) {
      var left := TrimLeftCuts(s);
      var right := TrimRightCuts(TrimLeft(s));
      assert s == left + t + right;
    }
    if left, right :| Blank(left) && Blank(right) && s == left + t + right && Trimmed(t) {
      TrimOf(left, t, right);
    }
  }

  // ----- splitting and joining ----------------------------------------------------------

  function IndexOf(s: string, c: char): (i: nat)
    ensures i <= |s|
    ensures i < |s| ==> s[i] == c
    ensures forall k :: 0 <= k < i ==> s[k] != c
    ensures i < |s| <==> c in s
  {
    if s == "" || s[0] == c then 0 else 1 + IndexOf(s[1..], c)
  }

  /** strings.Split for a one-character separator. */
  function Split(s: string, c: char): (parts: seq<string>)
    ensures parts != []
    ensures forall p :: p in parts ==> c !in p
    decreases |s|
  {
    var i := IndexOf(s, c);
    if i == |s| then [s] else [s[..i]] + Split(s[i + 1..], c)
  }

  /** The text before the first `c`, or all of it. */
  function Before(s: string, c: char): string {
    s[..IndexOf(s, c)]
  }

  /** The text after the first `c`, or none. */
  function After(s: string, c: char): string {
    if c in s then s[IndexOf(s, c) + 1..] else ""
  }

  function Join(parts: seq<string>, sep: string): string {
    if parts == [] then "" else if |parts| == 1 then parts[0] else parts[0] + sep + Join(parts[1..], sep)
  }

  function Concat(parts: seq<string>): string {
    if parts == [] then "" else parts[0] + Concat(parts[1..])
  }

  lemma {:induction false} JoinSplit(s: string, c: char)
    ensures Join(Split(s, c), [c]) == s
    decreases |s|
  {
    hide IndexOf, Join;
    var i := IndexOf(s, c);
    if i < |s| {
      JoinSplit(s[i + 1..], c);
      JoinCons(s[..i], Split(s[i + 1..], c), [c]);
      assert s == s[..i] + [c] + s[i + 1..];
    } else {
      JoinOne(s, [c]);
    }
  }

  lemma JoinCons(first: string, rest: seq<string>, sep: string)
    requires rest != []
    ensures Join([first] + rest, sep) == first + sep + Join(rest, sep)
  {
    assert ([first] + rest)[1..] == rest;
  }

  lemma JoinOne(part: string, sep: string)
    ensures Join([part], sep) == part
  {
  }

  lemma SplitFirst(a: string, c: char, b: string)
    requires c !in a
    ensures IndexOf(a + [c] + b, c) == |a|
    ensures Split(a + [c] + b, c) == [a] + Split(b, c)
  {
    var s := a + [c] + b;
    assert s[|a|] == c;
    assert forall k :: 0 <= k < |a| ==> s[k] == a[k] && a[k] in a;
    assert s[..|a|] == a && s[|a| + 1..] == b;
  }

  lemma SplitNone(a: string, c: char)
    requires c !in a
    ensures Split(a, c) == [a]
  {
  }

  lemma BeforeAppend(a: string, b: string, c: char)
    requires c !in a
    ensures Before(a + b, c) == a + Before(b, c)
  {
    var i := IndexOf(a + b, c);
    assert forall k :: 0 <= k < |a| ==> (a + b)[k] == a[k] && a[k] in a;
    assert forall k :: 0 <= k < |b| ==> (a + b)[|a| + k] == b[k];
    assert i == |a| + IndexOf(b, c);
  }

  lemma CutAt(a: string, c: char, b: string)
    requires c !in a
    ensures Before(a + [c] + b, c) == a && After(a + [c] + b, c) == b
  {
    SplitFirst(a, c, b);
    assert (a + [c] + b)[|a|] == c;
  }

  lemma Uncut(a: string, c: char)
    requires c !in a
    ensures Before(a, c) == a && After(a, c) == ""
  {
  }

  /** The length of the leading word: everything before the first white space. */
  function WordLength(s: string): (n: nat)
    ensures n <= |s|
    ensures forall k :: 0 <= k < n ==> !IsSpace(s[k])
    ensures n < |s| ==> IsSpace(s[n])
    ensures n == 0 ==> s == "" || IsSpace(s[0])
  {
    if s == "" || IsSpace(s[0]) then 0 else 1 + WordLength(s[1..])
  }

  /** strings.Fields */
  function Fields(s: string): (words: seq<string>)
    ensures forall w :: w in words ==> w != "" && NoSpace(w)
    decreases |s|
  {
    if s == "" then []
    else if IsSpace(s[0]) then Fields(s[1..])
    else var n := WordLength(s); [s[..n]] + Fields(s[n..])
  }

  predicate IsWord(w: string) {
    w != "" && NoSpace(w)
  }

  lemma FieldsWord(w: string, rest: string)
    requires IsWord(w) && (rest == "" || IsSpace(rest[0]))
    ensures Fields(w + rest) == [w] + Fields(rest)
  {
    var s := w + rest;
    var n := WordLength(s);
    assert forall k :: 0 <= k < |w| ==> s[k] == w[k] && w[k] in w;
    assert rest != "" ==> s[|w|] == rest[0];
    assert s[..n] == w && s[n..] == rest;
    assert s[0] == w[0] && w[0] in w;
  }

  /** Words joined by single spaces come back unchanged. */
  lemma {:induction false} FieldsJoin(words: seq<string>)
    requires forall w :: w in words ==> IsWord(w)
    ensures Fields(Join(words, " ")) == words
  {
    if |words| == 1 {
      FieldsWord(words[0], "");
      assert words[0] + "" == words[0];
    } else if |words| > 1 {
      FieldsJoin(words[1..]);
      var rest := " " + Join(words[1..], " ");
      FieldsWord(words[0], rest);
      assert rest[1..] == Join(words[1..], " ");
      assert words[0] + rest == Join(words, " ");
    }
  }

  /** A space between two texts keeps their fields apart. */
  lemma {:induction false} FieldsConcat(a: string, b: string)
    ensures Fields(a + " " + b) == Fields(a) + Fields(b)
    decreases |a|
  {
    hide WordLength;
    var s := a + " " + b;
    if a == "" {
      assert s[1..] == b;
    } else if IsSpace(a[0]) {
      FieldsConcat(a[1..], b);
      assert s[1..] == a[1..] + " " + b;
    } else {
      var n := WordLength(a);
      FieldsConcat(a[n..], b);
      assert a == a[..n] + a[n..];
      assert s == a[..n] + (a[n..] + " " + b);
      var rest := a[n..] + " " + b;
      assert IsSpace(rest[0]);
      FieldsWord(a[..n], rest);
    }
  }

  lemma {:induction false} FieldsBlank(s: string)
    ensures Fields(s) == [] <==> Trim(s) == ""
    decreases |s|
  {
    if s != "" && IsSpace(s[0]) {
      FieldsBlank(s[1..]);
    } else if s != "" {
      TrimRightShape(s);
      AllSpaceRight(s);
    }
  }

  lemma {:induction false} AllSpaceRight(s: string)
    requires s != "" && !IsSpace(s[0])
    ensures TrimRight(s) != ""
  {
    if IsSpace(s[|s| - 1]) {
      AllSpaceRight(s[..|s| - 1]);
    }
  }

  // ----- case folding -------------------------------------------------------------------

  function LowerChar(c: char): char {
    if 'A' <= c <= 'Z' then ((c as int) + 32) as char else c
  }

  function Lower(s: string): (r: string)
    ensures |r| == |s|
    ensures forall i :: 0 <= i < |s| ==> r[i] == LowerChar(s[i])
  {
    seq(|s|, i requires 0 <= i < |s| => LowerChar(s[i]))
  }

  predicate EqualFold(a: string, b: string) {
    Lower(a) == Lower(b)
  }

  lemma LowerConcat(a: string, b: string)
    ensures Lower(a + b) == Lower(a) + Lower(b)
  {
  }

  /** Folding, exactly: texts are equal but for the case of the letters A to Z. */
  lemma EqualFoldExactly(a: string, b: string)
    ensures EqualFold(a, b) <==>
      |a| == |b| && forall i :: 0 <= i < |a| ==>
        a[i] == b[i] ||
        ('A' <= a[i] <= 'Z' && b[i] as int == a[i] as int + 32) ||
        ('A' <= b[i] <= 'Z' && a[i] as int == b[i] as int + 32)
    ensures Lower(Lower(a)) == Lower(a)
  {
    if EqualFold(a, b) {
      assert |Lower(a)| == |Lower(b)|;
      forall i | 0 <= i < |a|
        ensures LowerChar(a[i]) == LowerChar(b[i])
      {
        assert Lower(a)[i] == Lower(b)[i];
      }
    }
  }

  // ----- byte order ---------------------------------------------------------------------

  predicate Less(a: string, b: string) {
    b != "" && (a == "" || a[0] < b[0] || (a[0] == b[0] && Less(a[1..], b[1..])))
  }

  lemma {:induction false} LessIrreflexive(a: string)
    ensures !Less(a, a)
  {
    if a != "" {
      LessIrreflexive(a[1..]);
    }
  }

  lemma {:induction false} LessTotal(a: string, b: string)
    ensures a == b || Less(a, b) || Less(b, a)
  {
    if a != "" && b != "" && a[0] == b[0] {
      LessTotal(a[1..], b[1..]);
      assert a == [a[0]] + a[1..] && b == [b[0]] + b[1..];
    }
  }

  lemma {:induction false} LessTransitive(a: string, b: string, c: string)
    requires Less(a, b) && Less(b, c)
    ensures Less(a, c)
  {
    if a != "" && a[0] == b[0] == c[0] {
      LessTransitive(a[1..], b[1..], c[1..]);
    }
  }

  /** The byte order, exactly: at the first difference the lower byte, or the end, comes first. */
  lemma {:induction false} LessExactly(a: string, b: string)
    ensures Less(a, b) <==> exists n: nat :: n <= |a| && n < |b| && FirstDifference(a, b, n)
  {
    if a != "" && b != "" && a[0] == b[0] {
      LessExactly(a[1..], b[1..]);
      forall n: nat | n <= |a[1..]| && n < |b[1..]|
        ensures FirstDifference(a[1..], b[1..], n) <==> FirstDifference(a, b, n + 1)
      {
        assert a[..n + 1] == [a[0]] + a[1..][..n] && b[..n + 1] == [b[0]] + b[1..][..n];
        assert a[..n + 1][1..] == a[1..][..n] && b[..n + 1][1..] == b[1..][..n];
      }
      if n: nat :| n <= |a| && n < |b| && FirstDifference(a, b, n) {
        assert n > 0;
        assert FirstDifference(a[1..], b[1..], n - 1);
      }
    } else if b != "" {
      assert a[..0] == b[..0] && (FirstDifference(a, b, 0) <==> Less(a, b));
      assert forall n: nat :: 1 <= n <= |a| && n < |b| ==> a[..n][0] != b[..n][0];
    }
  }

  /** The texts agree up to `n`, where the first one ends or has the lower byte. */
  predicate FirstDifference(a: string, b: string, n: nat)
    requires n <= |a| && n < |b|
  {
    a[..n] == b[..n] && (n == |a| || a[n] < b[n])
  }

  // ----- decimal numbers ------------------------------------------------------------------

  const MAX_INT64: int := 9_223_372_036_854_775_807
  const MIN_INT64: int := -9_223_372_036_854_775_808

  predicate IsDigit(c: char) {
    '0' <= c <= '9'
  }

  predicate AllDigits(s: string) {
    forall c :: c in s ==> IsDigit(c)
  }

  function DigitValue(c: char): nat
    requires IsDigit(c)
  {
    (c as int) - ('0' as int)
  }

  function NatValue(s: string): nat
    requires AllDigits(s)
  {
    if s == "" then 0
    else
      assert s[|s| - 1] in s;
      assert forall c :: c in s[..|s| - 1] ==> c in s;
      10 * NatValue(s[..|s| - 1]) + DigitValue(s[|s| - 1])
  }

  /** strconv.Itoa for a non-negative number. */
  function Digits(n: nat): (s: string)
    ensures s != "" && AllDigits(s)
    ensures NatValue(s) == n
    ensures s == "0" || s[0] != '0'
  {
    var last := ((n % 10) + ('0' as int)) as char;
    if n < 10 then
      assert [last][..0] == "";
      [last]
    else
      var front := Digits(n / 10);
      var s := front + [last];
      assert s[..|s| - 1] == front;
      assert front[0] != '0';
      s
  }

  function Itoa(n: int): string {
    if n < 0 then "-" + Digits(-n) else Digits(n)
  }

  /** strconv.Atoi: an optional sign, then digits, within 64 bits. */
  function Atoi(s: string): Option<int> {
    if s == "" then None
    else
      var signed := s[0] == '-' || s[0] == '+';
      var digits := if signed then s[1..] else s;
      if digits == "" || !AllDigits(digits) then None
      else
        var m: int := NatValue(digits);
        var n := if s[0] == '-' then -m else m;
        if MIN_INT64 <= n <= MAX_INT64 then Some(n) else None
  }

  lemma DigitsExactly(s: string)
    ensures AllDigits(s) <==> forall i :: 0 <= i < |s| ==> '0' <= s[i] <= '9'
  {
    assert forall i :: 0 <= i < |s| ==> s[i] in s;
  }

  /** Reading a number, exactly: an optional sign and at least one digit, within 64 bits. */
  lemma AtoiExactly(s: string, n: int)
    ensures Atoi(s) == Some(n) <==>
      -0x8000_0000_0000_0000 <= n <= 0x7FFF_FFFF_FFFF_FFFF &&
      exists d :: d != "" && AllDigits(d) &&
        (((s == d || s == "+" + d) && n == NatValue(d)) || (s == "-" + d && -n == NatValue(d)))
  {
    if Atoi(s) == Some(n) {
      var d := if s[0] == '-' || s[0] == '+' then s[1..] else s;
      assert s == d || s == "+" + d || s == "-" + d;
    }
    hide Atoi, NatValue;
    if d :| d != "" && AllDigits(d) && (s == d || s == "+" + d) && n == NatValue(d) {
      AtoiOf("", d);
      AtoiOf("+", d);
      assert "" + d == d;
    }
    if d :| d != "" && AllDigits(d) && s == "-" + d && -n == NatValue(d) {
      AtoiOf("-", d);
    }
  }

  lemma AtoiOf(sign: string, d: string)
    requires sign in {"", "+", "-"} && d != "" && AllDigits(d)
    ensures var m: int := NatValue(d); var n := if sign == "-" then -m else m;
      Atoi(sign + d) == if MIN_INT64 <= n <= MAX_INT64 then Some(n) else None
  {
    assert d[0] in d;
    if sign == "" {
      assert sign + d == d;
    } else {
      assert (sign + d)[1..] == d;
    }
  }

  lemma AtoiItoa(n: int)
    requires MIN_INT64 <= n <= MAX_INT64
    ensures Atoi(Itoa(n)) == Some(n)
  {
    if n < 0 {
      assert Itoa(n)[1..] == Digits(-n);
    } else {
      assert Digits(n)[0] in Digits(n);
    }
  }
}
