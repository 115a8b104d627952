/** Resolving a reference to a plugin: lookupPlugin of api/service/plugin_service.go over GetByID, GetByName and
    GetByNamespacedName of api/repository/file_repo.go, and its refinement of the claim map. */
module Lookup {
  import opened Text
  import opened Models
  import opened Releases
  import opened Identity
  import opened Ownership
  import opened FileStore
  import opened StoreInvariant
  import opened SeedInvariant

  // ----- the two-phase search ---------------------------------------------------------------------------

  predicate Named(p: Plugin, namespace: string, name: string) {
    p.Live() && EqualFold(p.namespace, namespace) && EqualFold(p.name, name)
  }

  predicate Aliased(p: Plugin, ref: string) {
    p.Live() && Fold(ref) in Folds(p.aliases)
  }

  /** The first plugin of that name, or the length of the list. */
  function FirstNamed(all: seq<Plugin>, namespace: string, name: string): (i: nat)
    ensures i <= |all|
    ensures i < |all| ==> Named(all[i], namespace, name)
    ensures forall k :: 0 <= k < i ==> !Named(all[k], namespace, name)
  {
    if all == [] || Named(all[0], namespace, name) then 0 else 1 + FirstNamed(all[1..], namespace, name)
  }

  function FirstAliased(all: seq<Plugin>, ref: string): (i: nat)
    ensures i <= |all|
    ensures i < |all| ==> Aliased(all[i], ref)
    ensures forall k :: 0 <= k < i ==> !Aliased(all[k], ref)
  {
    if all == [] || Aliased(all[0], ref) then 0 else 1 + FirstAliased(all[1..], ref)
  }

  /** Names win over aliases; within a phase the directory order decides. */
  function Found(all: seq<Plugin>, namespace: string, name: string, ref: string): Result<Plugin> {
    var i, j := FirstNamed(all, namespace, name), FirstAliased(all, ref);
    if i < |all| then Ok(all[i]) else if j < |all| then Ok(all[j]) else Err(NotFound)
  }

  method ContainsFold(values: seq<string>, value: string) returns (found: bool)
    ensures found <==> Fold(value) in Folds(values)
  {
    hide Fold;
    for i := 0 to |values|
      invariant forall k :: 0 <= k < i ==> Fold(values[k]) != Fold(value)
    {
      if Fold(values[i]) == Fold(value) {
        assert Folds(values)[i] == Fold(value);
        return true;
      }
    }
    return false;
  }

  /** The alias phase, shared by both searches. */
  method FindAliased(all: seq<Plugin>, ref: string) returns (r: Result<Plugin>)
    ensures var j := FirstAliased(all, ref); r == if j < |all| then Ok(all[j]) else Err(NotFound)
  {
    hide Fold, Folds;
    for i := 0 to |all|
      invariant FirstAliased(all, ref) == i + FirstAliased(all[i..], ref)
    {
      if all[i].Live() {
        var found := ContainsFold(all[i].aliases, ref);
        if found {
          return Ok(all[i]);
        }
      }
    }
    return Err(NotFound);
  }

  method GetByName(repo: FileRepository, order: seq<int>, name: string) returns (r: Result<Plugin>)
    requires IsListing(order, repo.plugins)
    ensures r == Found(Loaded(repo.plugins, order), "", name, name)
  {
    hide Loaded, Lower;
    var all := repo.LoadAll(order);
    for i := 0 to |all|
      invariant FirstNamed(all, "", name) == i + FirstNamed(all[i..], "", name)
    {
      assert Lower(all[i].namespace) == Lower("") <==> all[i].namespace == ""
        by { OnlyEmptyFoldsEmpty(all[i].namespace); }
      if all[i].Live() && all[i].namespace == "" && EqualFold(all[i].name, name) {
        return Ok(all[i]);
      }
    }
    r := FindAliased(all, name);
  }

  method GetByNamespacedName(repo: FileRepository, order: seq<int>, namespace: string,
                             name: string) returns (r: Result<Plugin>)
    requires IsListing(order, repo.plugins)
    ensures r == Found(Loaded(repo.plugins, order), namespace, name, namespace + "/" + name)
  {
    hide Loaded, Lower;
    var all := repo.LoadAll(order);
    for i := 0 to |all|
      invariant FirstNamed(all, namespace, name) == i + FirstNamed(all[i..], namespace, name)
    {
      if all[i].Live() && EqualFold(all[i].namespace, namespace) && EqualFold(all[i].name, name) {
        return Ok(all[i]);
      }
    }
    r := FindAliased(all, namespace + "/" + name);
  }

  lemma OnlyEmptyFoldsEmpty(a: string)
    ensures Lower(a) == Lower("") <==> a == ""
  {
    assert |Lower(a)| == |a|;
  }

  // ----- the dispatcher -----------------------------------------------------------------------------------

  datatype Route = ById(id: int) | ByName(namespace: string, name: string)

  /** "@namespace/name" splits at the first slash; anything else is a bare name. */
  function SplitRef(ref: string): (route: Route)
    ensures route.ByName?
  {
    if ref != "" && ref[0] == '@' && '/' in ref && After(ref, '/') != "" then ByName(Before(ref, '/'), After(ref, '/'))
    else ByName("", ref)
  }

  /** A 64-bit integer is an id, whatever plugin may bear it as a name. */
  function RouteOf(ref: string): Route {
    match Atoi(ref)
    case Some(id) => ById(id)
    case None => SplitRef(ref)
  }

  ghost function LookedUp(s: Store, order: seq<int>, ref: string): Result<Plugin>
    requires forall i :: 0 <= i < |order| ==> order[i] in s.plugins
  {
    match RouteOf(Trim(ref))
    case ById(id) => if IsLive(s, id) then Ok(Refreshed(s.plugins[id])) else Err(NotFound)
    case ByName(namespace, name) => Found(Loaded(s.plugins, order), namespace, name, Trim(ref))
  }

  method LookupPlugin(repo: FileRepository, order: seq<int>, ref: string) returns (r: Result<Plugin>)
    requires IsListing(order, repo.plugins)
    ensures r == LookedUp(repo.View(), order, ref)
  {
    hide Loaded, Refreshed, Found, Atoi, Trim;
    var text := Trim(ref);
    var id := Atoi(text);
    if id.Some? {
      r := repo.LoadLive(id.value);
      return;
    }
    if text != "" && text[0] == '@' {
      var slash := IndexOf(text, '/');
      if 0 < slash < |text| {
        var namespace, name := text[..slash], text[slash + 1..];
        if name != "" {
          assert text == namespace + "/" + name;
          r := GetByNamespacedName(repo, order, namespace, name);
          return;
        }
      }
    }
    r := GetByName(repo, order, text);
  }

  // ----- references and routes --------------------------------------------------------------------------------

  lemma SplitJoins(ref: string)
    ensures var route := SplitRef(ref);
      ref == if route.namespace != "" then route.namespace + "/" + route.name else route.name
  {
  }

  /** Folding a reference folds the parts it splits into. */
  lemma SplitFolds(ref: string)
    ensures SplitRef(Lower(ref)) == ByName(Lower(SplitRef(ref).namespace), Lower(SplitRef(ref).name))
  {
    var low := Lower(ref);
    var i, j := IndexOf(ref, '/'), IndexOf(low, '/');
    assert forall k :: 0 <= k < |ref| ==> (low[k] == '/' <==> ref[k] == '/');
    assert i == j;
    if i < |ref| {
      assert Lower(ref[..i]) == low[..i] && Lower(ref[i + 1..]) == low[i + 1..];
    }
  }

  lemma RefFolds(p: Plugin, namespace: string, name: string)
    ensures EqualFold(p.namespace, namespace) && EqualFold(p.name, name) ==>
      Lower(p.Ref()) == Lower(if namespace != "" then namespace + "/" + name else name)
  {
  }

  /** The plugin's own reference splits back into its namespace and name. */
  predicate Addressable(p: Plugin) {
    SplitRef(Lower(p.Ref())) == ByName(Lower(p.namespace), Lower(p.name))
  }

  /** A search by a reference finds a plugin by name exactly when the plugin is addressable and the reference is
      its own. */
  lemma NamedExactly(p: Plugin, ref: string)
    ensures var route := SplitRef(ref);
      EqualFold(p.namespace, route.namespace) && EqualFold(p.name, route.name) <==>
      Addressable(p) && Lower(p.Ref()) == Lower(ref)
  {
    hide Lower;
    var route := SplitRef(ref);
    SplitJoins(ref);
    SplitFolds(ref);
    RefFolds(p, route.namespace, route.name);
  }

  /** The plugin answers to the reference and the search can see it. */
  predicate Reaches(plugins: Plugins, ref: string, id: int) {
    id in plugins && plugins[id].Live() &&
    (Fold(ref) in Folds(plugins[id].aliases) || (Lower(plugins[id].Ref()) == Fold(ref) && Addressable(plugins[id])))
  }

  lemma ReachesIsOwnership(plugins: Plugins, ref: string, id: int)
    ensures Reaches(plugins, ref, id) ==> Owns(plugins, Fold(ref), id)
    ensures Owns(plugins, Fold(ref), id) ==> (Reaches(plugins, ref, id) <==>
              Fold(ref) in Folds(plugins[id].aliases) || Addressable(plugins[id]))
  {
    hide Addressable, Lower, Trim;
  }

  // ----- the search refines the claim map -----------------------------------------------------------------------

  predicate Answers(p: Plugin, ref: string) {
    Named(p, SplitRef(ref).namespace, SplitRef(ref).name) || Aliased(p, ref)
  }

  lemma AnswersExactly(p: Plugin, ref: string)
    requires Trimmed(ref)
    ensures Answers(p, ref) <==>
      p.Live() && (Fold(ref) in Folds(p.aliases) || (Lower(p.Ref()) == Fold(ref) && Addressable(p)))
  {
    hide Lower, Addressable, SplitRef;
    TrimIsTrimmed(ref);
    NamedExactly(p, ref);
  }

  lemma FoundAnswers(all: seq<Plugin>, ref: string)
    ensures var route := SplitRef(ref); match Found(all, route.namespace, route.name, ref)
      case Ok(p) => p in all && Answers(p, ref)
      case Err(e) => e == NotFound && forall p :: p in all ==> !Answers(p, ref)
  {
  }

  lemma ReadKeepsAnswers(p: Plugin, ref: string)
    ensures Answers(Refreshed(p), ref) <==> Answers(p, ref)
  {
  }

  lemma LoadedAnswers(s: Store, order: seq<int>, ref: string)
    requires Identified(s) && IsListing(order, s.plugins) && Trimmed(ref)
    ensures forall p :: p in Loaded(s.plugins, order) && Answers(p, ref) ==>
      Reaches(s.plugins, ref, p.id) && p == Refreshed(s.plugins[p.id])
    ensures forall id :: Reaches(s.plugins, ref, id) ==>
      Refreshed(s.plugins[id]) in Loaded(s.plugins, order) && Answers(Refreshed(s.plugins[id]), ref)
  {
    hide Identified, Answers, Refreshed, Lower, Fold, Addressable;
    var all := Loaded(s.plugins, order);
    LoadedIds(s, order);
    forall i | 0 <= i < |order|
      ensures Answers(all[i], ref) <==> Reaches(s.plugins, ref, order[i])
    {
      ReadKeepsAnswers(s.plugins[order[i]], ref);
      AnswersExactly(s.plugins[order[i]], ref);
    }
    hide Reaches;
    forall p | p in all && Answers(p, ref)
      ensures Reaches(s.plugins, ref, p.id) && p == Refreshed(s.plugins[p.id])
    {
      var i :| 0 <= i < |all| && all[i] == p;
    }
    forall id | Reaches(s.plugins, ref, id)
      ensures Refreshed(s.plugins[id]) in all && Answers(Refreshed(s.plugins[id]), ref)
    {
      assert id in s.plugins by { ReachesStored(s.plugins, ref, id); }
      var i :| 0 <= i < |order| && order[i] == id;
      assert all[i] in all;
    }
  }

  lemma ReachesStored(plugins: Plugins, ref: string, id: int)
    requires Reaches(plugins, ref, id)
    ensures id in plugins
  {
  }

  /** Whatever the directory order, a reference that is not an integer resolves to a plugin exactly when the plugin
      owns it and shows it to the search, and to nothing exactly when no plugin does. */
  lemma LookupIsOwnership(s: Store, order: seq<int>, ref: string)
    requires Identified(s) && IsListing(order, s.plugins) && RouteOf(Trim(ref)).ByName?
    ensures match LookedUp(s, order, ref)
      case Ok(p) => Reaches(s.plugins, Trim(ref), p.id) && p == Refreshed(s.plugins[p.id]) &&
        (forall id :: Reaches(s.plugins, Trim(ref), id) ==> id == p.id)
      case Err(e) => e == NotFound && (forall id :: !Reaches(s.plugins, Trim(ref), id))
  {
    hide Found, Answers, Refreshed, Reaches, Loaded, Atoi, UniqueIdentities, SplitRef, Fold, Trim;
    var text := Trim(ref);
    TrimIsTrimmed(ref);
    FoundAnswers(Loaded(s.plugins, order), text);
    LoadedAnswers(s, order, text);
    var r := LookedUp(s, order, ref);
    if r.Ok? {
      forall id | Reaches(s.plugins, text, id)
        ensures id == r.value.id
      {
        ReachesIsOwnership(s.plugins, text, id);
        ReachesIsOwnership(s.plugins, text, r.value.id);
        OneOwner(s.plugins, Fold(text), id, r.value.id);
      }
    }
  }

  /** Two listings of one directory resolve every reference alike. */
  lemma LookupIgnoresOrder(s: Store, order: seq<int>, other: seq<int>, ref: string)
    requires Identified(s) && IsListing(order, s.plugins) && IsListing(other, s.plugins)
    ensures LookedUp(s, order, ref) == LookedUp(s, other, ref)
  {
    hide Identified, Reaches, Refreshed, IsListing;
    if RouteOf(Trim(ref)).ByName? {
      LookupIsOwnership(s, order, ref);
      LookupIsOwnership(s, other, ref);
      hide LookedUp;
    }
  }

  // ----- well-formed identities ------------------------------------------------------------------------------------

  predicate LowerAlnum(c: char) {
    'a' <= c <= 'z' || IsDigit(c)
  }

  /** ^@[a-z0-9]+(?:[a-z0-9-]*[a-z0-9])?$ */
  predicate NamespacePattern(s: string) {
    |s| >= 2 && s[0] == '@' && LowerAlnum(s[1]) && LowerAlnum(s[|s| - 1]) &&
    forall i :: 1 <= i < |s| ==> LowerAlnum(s[i]) || s[i] == '-'
  }

  predicate Alnum(c: char) {
    LowerAlnum(c) || 'A' <= c <= 'Z'
  }

  /** ^[A-Za-z0-9][A-Za-z0-9._-]*$ */
  predicate NamePattern(s: string) {
    s != "" && Alnum(s[0]) && forall i :: 0 <= i < |s| ==> Alnum(s[i]) || s[i] in "._-"
  }

  /** What validatePlugin demands of a namespace and a name. */
  predicate ValidIdentity(p: Plugin) {
    (p.namespace == "" || NamespacePattern(p.namespace)) && NamePattern(p.name)
  }

  lemma PatternsHaveNoSlash(s: string)
    requires NamespacePattern(s) || NamePattern(s)
    ensures '/' !in s && Trimmed(s)
  {
  }

  /** A validated plugin is addressable, and its reference needs no trimming. */
  lemma ValidIsAddressable(p: Plugin)
    requires ValidIdentity(p)
    ensures Addressable(p) && Trim(p.Ref()) == p.Ref()
  {
    hide Lower, Atoi;
    PatternsHaveNoSlash(p.name);
    if p.namespace != "" {
      PatternsHaveNoSlash(p.namespace);
      CutAt(p.namespace, '/', p.name);
      assert p.Ref() == p.namespace + ['/'] + p.name && p.Ref()[|p.namespace|] == '/';
    }
    assert SplitRef(p.Ref()) == ByName(p.namespace, p.name);
    SplitFolds(p.Ref());
    assert Trimmed(p.Ref());
    TrimIsTrimmed(p.Ref());
  }

  /** A namespaced reference is never an integer; a bare valid name is one exactly when it is a 64-bit decimal. */
  lemma ValidRouting(p: Plugin)
    requires ValidIdentity(p)
    ensures RouteOf(p.Ref()).ById? <==> p.namespace == "" && AllDigits(p.name) && NatValue(p.name) <= MAX_INT64
  {
    var ref := p.Ref();
    assert ref[0] != '-' && ref[0] != '+';
    assert ref[0] in ref;
  }

  /** Every live plugin resolves from each alias, and every validated one from its own reference, in any letter
      case and any directory order, unless the reference reads as an integer. */
  lemma OwnersAreFound(s: Store, order: seq<int>, ref: string, id: int)
    requires Identified(s) && IsListing(order, s.plugins) && RouteOf(Trim(ref)).ByName?
    requires IsLive(s, id)
    requires (Fold(ref) == Lower(s.plugins[id].Ref()) && ValidIdentity(s.plugins[id])) ||
      Fold(ref) in Folds(s.plugins[id].aliases)
    ensures LookedUp(s, order, ref) == Ok(Refreshed(s.plugins[id]))
  {
    hide Identified, LookedUp, Refreshed, Lower, Trim, RouteOf, ValidIdentity, Addressable;
    FoldOfTrimmed(ref);
    if ValidIdentity(s.plugins[id]) {
      ValidIsAddressable(s.plugins[id]);
    }
    assert Reaches(s.plugins, Trim(ref), id);
    LookupIsOwnership(s, order, ref);
  }

  /** A reference that nobody owns resolves to nothing. */
  lemma UnownedIsNotFound(s: Store, order: seq<int>, ref: string)
    requires Identified(s) && IsListing(order, s.plugins) && RouteOf(Trim(ref)).ByName?
    requires Fold(ref) !in Owners(s.plugins)
    ensures LookedUp(s, order, ref) == Err(NotFound)
  {
    hide LookedUp, Refreshed, Fold, Reaches, Owners, UniqueIdentities, VersionIdsGlobal, RouteOf;
    FoldOfTrimmed(ref);
    LookupIsOwnership(s, order, ref);
    var r := LookedUp(s, order, ref);
    if r.Ok? {
      ReachesIsOwnership(s.plugins, Trim(ref), r.value.id);
      OwnersAreOwns(s.plugins, Fold(ref), r.value.id);
    }
  }

  /** A plugin named by a number is shadowed: its own name is taken for an id. */
  lemma NumberIsAnId(s: Store, order: seq<int>, p: Plugin)
    requires IsListing(order, s.plugins) && ValidIdentity(p) && p.namespace == ""
    requires AllDigits(p.name) && NatValue(p.name) <= MAX_INT64
    ensures var id := NatValue(p.name);
      LookedUp(s, order, p.Ref()) == if IsLive(s, id) then Ok(Refreshed(s.plugins[id])) else Err(NotFound)
  {
    hide Refreshed, SplitRef;
    ValidIsAddressable(p);
    ValidRouting(p);
    assert p.name[0] in p.name;
  }

  // ----- single searches, exactly ----------------------------------------------------------------

  /** "@namespace/name", split at its first slash. */
  predicate Scoped(ref: string, namespace: string, name: string) {
    namespace != "" && namespace[0] == '@' && '/' !in namespace && name != "" && ref == namespace + "/" + name
  }

  lemma SplitRefExactly(ref: string)
    ensures forall namespace, name :: Scoped(ref, namespace, name) ==> SplitRef(ref) == ByName(namespace, name)
    ensures (forall namespace, name :: !Scoped(ref, namespace, name)) ==> SplitRef(ref) == ByName("", ref)
  {
    forall namespace, name | Scoped(ref, namespace, name)
      ensures SplitRef(ref) == ByName(namespace, name)
    {
      CutAt(namespace, '/', name);
      assert ref == namespace + ['/'] + name && ref[|namespace|] == '/';
    }
    if SplitRef(ref) != ByName("", ref) {
      assert ref == Before(ref, '/') + "/" + After(ref, '/');
      assert Scoped(ref, Before(ref, '/'), After(ref, '/'));
    }
  }

  /** A number is an id. */
  lemma LookupByIdExactly(s: Store, order: seq<int>, ref: string, id: int)
    requires IsListing(order, s.plugins) && Atoi(Trim(ref)) == Some(id)
    ensures LookedUp(s, order, ref) ==
      if id in s.plugins && s.plugins[id].deletedAt == None then Ok(Refreshed(s.plugins[id])) else Err(NotFound)
  {
    hide Trim, Refreshed;
  }

  predicate BearsName(p: Plugin, namespace: string, name: string) {
    p.deletedAt == None && Lower(p.namespace) == Lower(namespace) && Lower(p.name) == Lower(name)
  }

  ghost predicate BearsAlias(p: Plugin, ref: string) {
    p.deletedAt == None && exists a :: a in p.aliases && Lower(Trim(a)) == Lower(Trim(ref))
  }

  /** A search finds the first live plugin of the name, or else the first with the alias, or else nothing. */
  lemma FoundExactly(all: seq<Plugin>, namespace: string, name: string, ref: string)
    ensures match Found(all, namespace, name, ref)
      case Err(e) => e == NotFound && forall p :: p in all ==> !BearsName(p, namespace, name) && !BearsAlias(p, ref)
      case Ok(q) =>
        if exists p :: p in all && BearsName(p, namespace, name)
        then exists i :: 0 <= i < |all| && all[i] == q && BearsName(q, namespace, name) &&
                         forall k :: 0 <= k < i ==> !BearsName(all[k], namespace, name)
        else exists i :: 0 <= i < |all| && all[i] == q && BearsAlias(q, ref) &&
                         forall k :: 0 <= k < i ==> !BearsAlias(all[k], ref)
  {
    hide Lower, Trim, FirstNamed, FirstAliased, Folds;
    forall p
      ensures Aliased(p, ref) <==> BearsAlias(p, ref)
    {
      FoldsExactly(p.aliases, Fold(ref));
    }
    assert forall p :: Named(p, namespace, name) <==> BearsName(p, namespace, name);
    hide BearsAlias, BearsName, Named, Aliased;
    var i, j := FirstNamed(all, namespace, name), FirstAliased(all, ref);
    assert i < |all| ==> all[i] in all;
    assert j < |all| ==> all[j] in all;
    assert forall p :: p in all ==> exists k :: 0 <= k < |all| && all[k] == p;
  }
}
