/** Who owns which reference: alias normalisation, the uniqueness check and the claim map they maintain
    (normalizeAliases and ensureUniqueIdentity of api/repository/file_repo.go; the service's
    normalizeAliases is the same function). */
module Identity {
  import opened Text
  import opened Sorting

  // ----- alias lists --------------------------------------------------------------------------

  function Fold(alias: string): string {
    Lower(Trim(alias))
  }

  function Folds(aliases: seq<string>): (keys: seq<string>)
    ensures |keys| == |aliases|
    ensures forall i :: 0 <= i < |aliases| ==> keys[i] == Fold(aliases[i])
  {
    seq(|aliases|, i requires 0 <= i < |aliases| => Fold(aliases[i]))
  }

  /** Trimmed, without blanks, and only the first of aliases that differ in case. */
  function Deduplicated(aliases: seq<string>): seq<string> {
    if aliases == [] then []
    else
      var before, last := Deduplicated(aliases[..|aliases| - 1]), Trim(aliases[|aliases| - 1]);
      if last == "" || Lower(last) in Folds(before) then before else before + [last]
  }

  function ByText(): (string, string) -> bool {
    (a, b) => Less(a, b)
  }

  function Normalized(aliases: seq<string>): seq<string> {
    Sort(ByText(), Deduplicated(aliases))
  }

  method NormalizeAliases(aliases: seq<string>) returns (result: seq<string>)
    ensures result == Normalized(aliases)
  {
    hide Trim, Lower;
    result := [];
    var seen: set<string> := {};
    for i := 0 to |aliases|
      invariant result == Deduplicated(aliases[..i])
      invariant forall k :: k in seen <==> k in Folds(result)
    {
      assert aliases[..i + 1][..i] == aliases[..i];
      var alias := Trim(aliases[i]);
      var key := Lower(alias);
      if alias == "" || key in seen {
        continue;
      }
      seen := seen + {key};
      TrimIsTrimmed(aliases[i]);
      TrimIsTrimmed(alias);
      assert Folds(result + [alias]) == Folds(result) + [key];
      result := result + [alias];
    }
    assert aliases[..|aliases|] == aliases;
    var list := new string[|result|](i requires 0 <= i < |result| => result[i]);
    assert list[..] == result;
    SortInPlace(ByText(), list);
    result := list[..];
  }

  /** Aliases that need no clean-up. */
  ghost predicate Clean(aliases: seq<string>) {
    (forall a :: a in aliases ==> a != "" && Trimmed(a)) && Distinct(Folds(aliases))
  }

  /** `x` is the first alias of its folding in the list. */
  predicate Leads(aliases: seq<string>, i: nat, x: string)
    requires i < |aliases|
  {
    x == Trim(aliases[i]) && x != "" && forall k :: 0 <= k < i ==> Fold(aliases[k]) != Lower(x)
  }

  lemma FoldOfTrimmed(a: string)
    ensures Fold(Trim(a)) == Fold(a)
  {
    TrimIsTrimmed(a);
    TrimIsTrimmed(Trim(a));
  }

  lemma {:induction false} DeduplicatedKeys(aliases: seq<string>)
    ensures Clean(Deduplicated(aliases))
    ensures forall k :: k in Folds(Deduplicated(aliases)) <==> k in Folds(aliases) && k != ""
  {
    hide Trim, Lower, Trimmed;
    if aliases != [] {
      var front, last := aliases[..|aliases| - 1], aliases[|aliases| - 1];
      var before := Deduplicated(front);
      DeduplicatedKeys(front);
      TrimIsTrimmed(last);
      FoldOfTrimmed(last);
      assert aliases == front + [last];
      assert Folds(aliases) == Folds(front) + [Fold(last)];
      assert Folds(before + [Trim(last)]) == Folds(before) + [Fold(last)];
      BlankFold(last);
    }
  }

  lemma BlankFold(a: string)
    ensures Fold(a) == "" <==> Trim(a) == ""
  {
    assert |Fold(a)| == |Trim(a)|;
  }

  lemma {:induction false} DeduplicatedMembers(aliases: seq<string>, x: string)
    ensures x in Deduplicated(aliases) <==> exists i :: 0 <= i < |aliases| && Leads(aliases, i, x)
  {
    hide Trim, Lower;
    if aliases != [] {
      var front, last := aliases[..|aliases| - 1], |aliases| - 1;
      DeduplicatedMembers(front, x);
      DeduplicatedKeys(front);
      assert forall i :: 0 <= i < last ==> (Leads(front, i, x) <==> Leads(aliases, i, x));
      LeadsLast(aliases, x);
    }
  }

  lemma LeadsLast(aliases: seq<string>, x: string)
    requires aliases != []
    ensures Leads(aliases, |aliases| - 1, x) <==>
      x == Trim(aliases[|aliases| - 1]) && x != "" && Lower(x) !in Folds(Deduplicated(aliases[..|aliases| - 1]))
  {
    hide Trim, Lower, Deduplicated;
    var front := aliases[..|aliases| - 1];
    DeduplicatedKeys(front);
    if x == Trim(aliases[|aliases| - 1]) && x != "" {
      BlankFold(aliases[|aliases| - 1]);
      assert Lower(x) in Folds(front) <==> exists k :: 0 <= k < |front| && Folds(front)[k] == Lower(x);
    }
  }

  lemma TextOrderIsLinear(s: seq<string>)
    ensures Linear(ByText(), s)
  {
    forall x, y | x in s && y in s && x != y
      ensures Less(x, y) != Less(y, x)
    {
      LessTotal(x, y);
      if Less(x, y) && Less(y, x) {
        LessTransitive(x, y, x);
        LessIrreflexive(x);
      }
    }
    forall x, y, z | x in s && y in s && z in s && Less(x, y) && Less(y, z)
      ensures Less(x, z)
    {
      LessTransitive(x, y, z);
    }
  }

  lemma CleanIsDistinct(s: seq<string>)
    requires Distinct(Folds(s))
    ensures Distinct(s)
  {
  }

  /** Lists with the same cleaned-up members normalise to the same list. */
  lemma NormalizedByMembers(a: seq<string>, b: seq<string>)
    requires forall x :: x in Deduplicated(a) <==> x in Deduplicated(b)
    ensures Normalized(a) == Normalized(b)
  {
    hide Deduplicated;
    DeduplicatedKeys(a);
    DeduplicatedKeys(b);
    CleanIsDistinct(Deduplicated(a));
    CleanIsDistinct(Deduplicated(b));
    TextOrderIsLinear(Deduplicated(a));
    SortIgnoresArrangement(ByText(), Deduplicated(a), Deduplicated(b));
  }

  lemma NormalizedMembers(aliases: seq<string>)
    ensures forall x :: x in Normalized(aliases) <==> x in Deduplicated(aliases)
  {
    SortMembers(ByText(), Deduplicated(aliases));
  }

  lemma FoldsByMembers(a: seq<string>, b: seq<string>, k: string)
    requires forall x :: x in a ==> x in b
    ensures k in Folds(a) ==> k in Folds(b)
  {
    hide Fold;
    if k in Folds(a) {
      var i :| 0 <= i < |a| && Folds(a)[i] == k;
      assert a[i] in b;
      var j :| 0 <= j < |b| && b[j] == a[i];
      assert Folds(b)[j] == k;
    }
  }

  lemma {:induction false} SortKeepsFoldsApart(s: seq<string>)
    requires Distinct(Folds(s))
    ensures Distinct(Folds(Sort(ByText(), s)))
  {
    hide Fold;
    CleanIsDistinct(s);
    SortMembers(ByText(), s);
    SortDistinct(ByText(), s);
    var r := Sort(ByText(), s);
    forall i, j | 0 <= i < j < |r|
      ensures Folds(r)[i] != Folds(r)[j]
    {
      assert r[i] in s && r[j] in s;
      var i' :| 0 <= i' < |s| && s[i'] == r[i];
      var j' :| 0 <= j' < |s| && s[j'] == r[j];
      assert Folds(s)[i'] == Folds(r)[i] && Folds(s)[j'] == Folds(r)[j];
    }
  }

  /** Normalised aliases are clean, and cover exactly the non-blank foldings of the input. */
  lemma NormalizedIsClean(aliases: seq<string>)
    ensures Clean(Normalized(aliases))
    ensures forall k :: k in Folds(Normalized(aliases)) <==> k in Folds(aliases) && k != ""
  {
    hide Deduplicated;
    DeduplicatedKeys(aliases);
    NormalizedMembers(aliases);
    SortKeepsFoldsApart(Deduplicated(aliases));
    forall k
      ensures k in Folds(Normalized(aliases)) <==> k in Folds(Deduplicated(aliases))
    {
      FoldsByMembers(Normalized(aliases), Deduplicated(aliases), k);
      FoldsByMembers(Deduplicated(aliases), Normalized(aliases), k);
    }
  }

  /** Putting a preferred list in front of an already normalised one that covers it changes nothing: what the
      preferred list decides has been decided. */
  lemma NormalizedAgain(first: seq<string>, rest: seq<string>)
    ensures var once := Normalized(first + rest); Normalized(first + once) == once
  {
    var all := first + rest;
    var once := Normalized(all);
    NormalizedMembers(all);
    NormalizedIsClean(all);
    forall x
      ensures x in Deduplicated(first + once) <==> x in Deduplicated(all)
    {
      SettledMember(first, rest, x);
    }
    NormalizedByMembers(first + once, all);
  }

  lemma SettledMember(first: seq<string>, rest: seq<string>, x: string)
    ensures x in Deduplicated(first + Normalized(first + rest)) <==> x in Deduplicated(first + rest)
  {
    hide Trim, Lower, Deduplicated, Normalized;
    var all := first + rest;
    var once := Normalized(all);
    var again := first + once;
    NormalizedMembers(all);
    NormalizedIsClean(all);
    DeduplicatedMembers(all, x);
    DeduplicatedMembers(again, x);
    forall i | 0 <= i < |first|
      ensures Leads(all, i, x) <==> Leads(again, i, x)
    {
      assert forall k :: 0 <= k <= i ==> all[k] == first[k] == again[k];
    }
    if x in Deduplicated(all) {
      if i :| 0 <= i < |first| && Leads(all, i, x) {
        assert Leads(again, i, x);
      } else {
        LaterMemberStays(first, rest, x);
      }
    }
    if x in Deduplicated(again) {
      if i :| 0 <= i < |first| && Leads(again, i, x) {
        assert Leads(all, i, x);
      } else {
        var i :| 0 <= i < |again| && Leads(again, i, x);
        assert i >= |first| && again[i] == once[i - |first|];
        assert once[i - |first|] in once;
        TrimIsTrimmed(again[i]);
      }
    }
  }

  lemma LaterMemberStays(first: seq<string>, rest: seq<string>, x: string)
    requires x in Deduplicated(first + rest)
    requires forall i :: 0 <= i < |first| ==> !Leads(first + rest, i, x)
    ensures x in Deduplicated(first + Normalized(first + rest))
  {
    hide Trim, Lower, Deduplicated, Normalized;
    var all := first + rest;
    var once := Normalized(all);
    var again := first + once;
    DeduplicatedMembers(all, x);
    var i :| 0 <= i < |all| && Leads(all, i, x);
    assert forall k :: 0 <= k < |first| ==> all[k] == first[k] == again[k];
    NormalizedMembers(all);
    NormalizedIsClean(all);
    var j :| 0 <= j < |once| && once[j] == x;
    TrimIsTrimmed(x);
    assert again[|first| + j] == x;
    forall k | 0 <= k < |first| + j
      ensures Fold(again[k]) != Lower(x)
    {
      if k >= |first| {
        assert again[k] == once[k - |first|];
        assert Folds(once)[k - |first|] != Folds(once)[j];
      }
    }
    assert Leads(again, |first| + j, x);
    DeduplicatedMembers(again, x);
  }

  /** Normalising twice is normalising once. */
  lemma NormalizedTwice(aliases: seq<string>)
    ensures Normalized(Normalized(aliases)) == Normalized(aliases)
  {
    NormalizedAgain([], aliases);
    assert [] + aliases == aliases && [] + Normalized(aliases) == Normalized(aliases);
  }

  // ----- normalisation, exactly -----------------------------------------------------------------

  /** Cleaning aliases up, exactly: the trimmed, non-blank ones, of those that differ in case the first, in byte
      order. */
  lemma NormalizedExactly(aliases: seq<string>)
    ensures var r := Normalized(aliases);
      (forall x :: x in r <==> exists i :: FirstSpelling(aliases, i, x)) &&
      forall i, j :: 0 <= i < j < |r| ==> Less(r[i], r[j])
  {
    hide Trim, Lower, Deduplicated, Less;
    var d := Deduplicated(aliases);
    NormalizedMembers(aliases);
    forall x
      ensures x in d <==> exists i :: FirstSpelling(aliases, i, x)
    {
      DeduplicatedMembers(aliases, x);
      assert forall i :: 0 <= i < |aliases| ==> (Leads(aliases, i, x) <==> FirstSpelling(aliases, i, x));
    }
    DeduplicatedKeys(aliases);
    CleanIsDistinct(d);
    TextOrderIsLinear(d);
    SortOrders(ByText(), d);
    var r := Normalized(aliases);
    forall i, j | 0 <= i < j < |r|
      ensures Less(r[i], r[j])
    {
      assert ByText()(r[i], r[j]);
    }
  }

  predicate FirstSpelling(aliases: seq<string>, i: int, x: string) {
    && 0 <= i < |aliases| && x == Trim(aliases[i]) && x != ""
    && forall k :: 0 <= k < i ==> Lower(Trim(aliases[k])) != Lower(x)
  }

  lemma FoldsExactly(aliases: seq<string>, k: string)
    ensures k in Folds(aliases) <==> exists a :: a in aliases && k == Lower(Trim(a))
  {
    hide Trim, Lower;
    if k in Folds(aliases) {
      var i :| 0 <= i < |aliases| && Folds(aliases)[i] == k;
      assert aliases[i] in aliases;
    }
    if a :| a in aliases && k == Lower(Trim(a)) {
      var i :| 0 <= i < |aliases| && aliases[i] == a;
      assert Folds(aliases)[i] == k;
    }
  }
}
