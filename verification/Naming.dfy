/** First-party plugin identities: api/naming/firstparty.go. */
module Naming {
  import opened Text
  import opened Claims

  const NAMESPACE := "@semrel"

  const REPOSITORIES: seq<string> := [
    "analyzer-conventional", "analyzer-default", "condition-bitbucket-pipelines", "condition-circleci",
    "condition-generic", "condition-gitea-actions", "condition-github-actions", "condition-gitlab-ci",
    "generator-changelog-html", "generator-changelog-md", "generator-release-notes", "hook-discord",
    "hook-email", "hook-exec", "hook-gitplugin", "hook-jira",
    "hook-matrix", "hook-slack", "hook-teams", "packager-nfpm",
    "provider-bitbucket", "provider-git", "provider-gitea", "provider-github",
    "provider-gitlab", "publisher-crates", "publisher-docker", "publisher-generic-http",
    "publisher-npm", "publisher-oci", "publisher-pypi", "updater-cargo",
    "updater-composer", "updater-docker", "updater-go", "updater-gradle",
    "updater-helm", "updater-homebrew", "updater-maven", "updater-npm",
    "updater-nuget", "updater-pubspec", "updater-python", "updater-replace",
    "updater-terraform"
  ]

  /** The historical owner of every short first-party reference. */
  const LEGACY_SHORT_TARGETS: map<string, string> := map[
    "conventional" := "analyzer-conventional", "default" := "analyzer-default",
    "bitbucket-pipelines" := "condition-bitbucket-pipelines", "circleci" := "condition-circleci",
    "generic" := "condition-generic", "gitea-actions" := "condition-gitea-actions",
    "github-actions" := "condition-github-actions", "gitlab-ci" := "condition-gitlab-ci",
    "changelog-html" := "generator-changelog-html", "changelog-md" := "generator-changelog-md",
    "release-notes" := "generator-release-notes", "discord" := "hook-discord",
    "email" := "hook-email", "exec" := "hook-exec",
    "gitplugin" := "hook-gitplugin", "jira" := "hook-jira",
    "matrix" := "hook-matrix", "slack" := "hook-slack",
    "teams" := "hook-teams", "nfpm" := "packager-nfpm",
    "bitbucket" := "provider-bitbucket", "git" := "provider-git",
    "gitea" := "provider-gitea", "github" := "provider-github",
    "gitlab" := "provider-gitlab", "crates" := "publisher-crates",
    "generic-http" := "publisher-generic-http", "oci" := "publisher-oci",
    "pypi" := "publisher-pypi", "cargo" := "updater-cargo",
    "composer" := "updater-composer", "docker" := "updater-docker",
    "go" := "updater-go", "gradle" := "updater-gradle",
    "helm" := "updater-helm", "homebrew" := "updater-homebrew",
    "maven" := "updater-maven", "npm" := "updater-npm",
    "nuget" := "updater-nuget", "pubspec" := "updater-pubspec",
    "python" := "updater-python", "replace" := "updater-replace",
    "terraform" := "updater-terraform"
  ]

  datatype FirstPartyPlugin = FirstPartyPlugin(repository: string, category: string, name: string, aliases: seq<string>)

  /** The historical owner of a short reference; none reads as the empty string. */
  function LegacyTarget(short: string): string {
    if short in LEGACY_SHORT_TARGETS then LEGACY_SHORT_TARGETS[short] else ""
  }

  /** The index entry of a repository name such as provider-github. */
  function Entry(repository: string): FirstPartyPlugin {
    var short := After(repository, '-');
    FirstPartyPlugin(repository, Before(repository, '-'), repository,
      [repository] + if LegacyTarget(short) == repository then [NAMESPACE + "/" + short, short] else [])
  }

  /** Builds the index; a repository without a hyphen is a programming error, reported by `ok`. */
  method BuildFirstPartyIndex(repositories: seq<string>) returns (index: map<string, FirstPartyPlugin>, ok: bool)
    ensures ok <==> forall r :: r in repositories ==> '-' in r
    ensures ok ==> index == map r | r in repositories :: Entry(r)
  {
    hide LegacyTarget, Before, After;
    index := map[];
    for i := 0 to |repositories|
      invariant forall k :: 0 <= k < i ==> '-' in repositories[k]
      invariant index == map r | r in repositories[..i] :: Entry(r)
    {
      var repository := repositories[i];
      if '-' !in repository {
        return index, false;
      }
      var category, short := Before(repository, '-'), After(repository, '-');
      var aliases := [repository];
      if LegacyTarget(short) == repository {
        aliases := aliases + [NAMESPACE + "/" + short, short];
      }
      var entry := FirstPartyPlugin(repository, category, repository, aliases);
      assert entry == Entry(repository);
      index := index[repository := entry];
      assert forall r :: r in repositories[..i + 1] <==> r in repositories[..i] || r == repository;
    }
    assert repositories[..|repositories|] == repositories;
    ok := true;
  }

  function Refs(p: FirstPartyPlugin): seq<string> {
    [NAMESPACE + "/" + p.name] + p.aliases
  }

  function RefClaims(p: FirstPartyPlugin): (cs: seq<Claim<string, string>>)
    ensures |cs| == |Refs(p)|
  {
    seq(|Refs(p)|, i requires 0 <= i < |Refs(p)| => Claim(Lower(Refs(p)[i]), p.name))
  }

  /** A folded reference belongs to a plugin: its name in the namespace, or one of its aliases. */
  ghost predicate Refers(p: FirstPartyPlugin, ref: string) {
    ref == Lower("@semrel/" + p.name) || exists a :: a in p.aliases && ref == Lower(a)
  }

  lemma RefClaimsExactly(p: FirstPartyPlugin, c: Claim<string, string>)
    ensures c in RefClaims(p) <==> c.owner == p.name && Refers(p, c.ref)
  {
    hide Lower;
    assert NAMESPACE + "/" + p.name == "@semrel/" + p.name;
    var refs := Refs(p);
    if c.owner == p.name && Refers(p, c.ref) {
      var r :| r in refs && c.ref == Lower(r);
      var i :| 0 <= i < |refs| && refs[i] == r;
      assert RefClaims(p)[i] == c;
    }
    if c in RefClaims(p) {
      var i :| 0 <= i < |refs| && RefClaims(p)[i] == c;
      assert refs[i] in refs;
    }
  }

  lemma {:induction false} AllRefClaimsExactly(plugins: seq<FirstPartyPlugin>, c: Claim<string, string>)
    ensures c in AllRefClaims(plugins) <==> exists p :: p in plugins && c.owner == p.name && Refers(p, c.ref)
  {
    hide RefClaims, Refers;
    if plugins != [] {
      var front, last := plugins[..|plugins| - 1], plugins[|plugins| - 1];
      assert plugins == front + [last];
      AllRefClaimsExactly(front, c);
      RefClaimsExactly(last, c);
    }
  }

  /** No folded reference belongs to plugins of two names. */
  ghost predicate RefsApart(plugins: seq<FirstPartyPlugin>) {
    forall p, q, ref :: p in plugins && q in plugins && Refers(p, ref) && Refers(q, ref) ==> p.name == q.name
  }

  /** The index has exactly the references, each under its plugin's name. */
  ghost predicate IndexesRefs(index: map<string, FirstPartyPlugin>, plugins: seq<FirstPartyPlugin>) {
    && (forall ref :: ref in index ==> exists p :: p in plugins && Refers(p, ref))
    && (forall p, ref :: p in plugins && Refers(p, ref) ==> ref in index && index[ref].name == p.name)
  }

  lemma RefsApartExactly(plugins: seq<FirstPartyPlugin>)
    ensures Consistent(AllRefClaims(plugins)) <==> RefsApart(plugins)
  {
    hide AllRefClaims, Refers;
    forall c: Claim<string, string>
      ensures c in AllRefClaims(plugins) <==> exists p :: p in plugins && c.owner == p.name && Refers(p, c.ref)
    {
      AllRefClaimsExactly(plugins, c);
    }
    if Consistent(AllRefClaims(plugins)) {
      forall p, q, ref | p in plugins && q in plugins && Refers(p, ref) && Refers(q, ref)
        ensures p.name == q.name
      {
        assert Claim(ref, p.name) in AllRefClaims(plugins) && Claim(ref, q.name) in AllRefClaims(plugins);
      }
    }
  }

  lemma IndexedExactly(index: map<string, FirstPartyPlugin>, plugins: seq<FirstPartyPlugin>)
    requires IndexOfClaims(index, AllRefClaims(plugins)) && RefsApart(plugins)
    ensures IndexesRefs(index, plugins)
  {
    hide AllRefClaims, Refers;
    var cs := AllRefClaims(plugins);
    forall c: Claim<string, string>
      ensures c in cs <==> exists p :: p in plugins && c.owner == p.name && Refers(p, c.ref)
    {
      AllRefClaimsExactly(plugins, c);
    }
    forall ref | ref in index
      ensures exists p :: p in plugins && Refers(p, ref) && index[ref].name == p.name
    {
      assert Claim(ref, Table(cs)[ref]) in cs;
    }
    forall p, ref | p in plugins && Refers(p, ref)
      ensures ref in index && index[ref].name == p.name
    {
      assert Claim(ref, p.name) in cs;
    }
  }

  function AllRefClaims(plugins: seq<FirstPartyPlugin>): seq<Claim<string, string>> {
    if plugins == [] then []
    else AllRefClaims(plugins[..|plugins| - 1]) + RefClaims(plugins[|plugins| - 1])
  }

  ghost predicate IndexOfClaims(index: map<string, FirstPartyPlugin>, cs: seq<Claim<string, string>>) {
    index.Keys == Table(cs).Keys && forall k :: k in index ==> index[k].name == Table(cs)[k]
  }

  lemma {:induction false} ClaimsGrow(plugins: seq<FirstPartyPlugin>, i: nat)
    requires i <= |plugins|
    ensures AllRefClaims(plugins[..i]) <= AllRefClaims(plugins)
    decreases |plugins| - i
  {
    if i < |plugins| {
      assert plugins[..i + 1][..i] == plugins[..i];
      ClaimsGrow(plugins, i + 1);
    } else {
      assert plugins[..i] == plugins;
    }
  }

  /** Builds the reference index, claim by claim; a folded reference of two plugin names is a programming
      error, reported by `ok`. */
  method BuildFirstPartyRefIndex(plugins: seq<FirstPartyPlugin>)
    returns (index: map<string, FirstPartyPlugin>, ok: bool)
    ensures ok <==> RefsApart(plugins)
    ensures ok ==> IndexesRefs(index, plugins)
  {
    hide RefsApart, IndexesRefs;
    RefsApartExactly(plugins);
    index := map[];
    for i := 0 to |plugins|
      invariant Consistent(AllRefClaims(plugins[..i])) && IndexOfClaims(index, AllRefClaims(plugins[..i]))
    {
      assert plugins[..i + 1][..i] == plugins[..i];
      index, ok := ClaimRefs(index, AllRefClaims(plugins[..i]), plugins[i]);
      if !ok {
        ClaimsGrow(plugins, i + 1);
        ConflictStays(AllRefClaims(plugins[..i + 1]), AllRefClaims(plugins));
        return;
      }
    }
    assert plugins[..|plugins|] == plugins;
    IndexedExactly(index, plugins);
    ok := true;
  }

  method ClaimRefs(index: map<string, FirstPartyPlugin>, ghost before: seq<Claim<string, string>>,
                   plugin: FirstPartyPlugin)
    returns (r: map<string, FirstPartyPlugin>, ok: bool)
    requires Consistent(before) && IndexOfClaims(index, before)
    ensures ok <==> Consistent(before + RefClaims(plugin))
    ensures ok ==> IndexOfClaims(r, before + RefClaims(plugin))
  {
    hide Refs, Consistent, Table, IndexOfClaims;
    r := index;
    var refs := Refs(plugin);
    ghost var cs := RefClaims(plugin);
    assert before + cs[..0] == before;
    for j := 0 to |refs|
      invariant Consistent(before + cs[..j]) && IndexOfClaims(r, before + cs[..j])
    {
      assert before + cs[..j] + [cs[j]] == before + cs[..j + 1];
      r, ok := ClaimRef(r, before + cs[..j], Lower(refs[j]), plugin);
      if !ok {
        assert before + cs[..j + 1] <= before + cs;
        ConflictStays(before + cs[..j + 1], before + cs);
        return;
      }
    }
    assert cs[..|refs|] == cs;
    ok := true;
  }

  method ClaimRef(index: map<string, FirstPartyPlugin>, ghost before: seq<Claim<string, string>>, key: string,
                  plugin: FirstPartyPlugin)
    returns (r: map<string, FirstPartyPlugin>, ok: bool)
    requires Consistent(before) && IndexOfClaims(index, before)
    ensures ok <==> Consistent(before + [Claim(key, plugin.name)])
    ensures ok ==> IndexOfClaims(r, before + [Claim(key, plugin.name)])
  {
    hide Consistent, Table;
    ConsistentStep(before, Claim(key, plugin.name));
    if key in index && index[key].name != plugin.name {
      return index, false;
    }
    return index[key := plugin], true;
  }

  // ----- from a repository URL to an identity -----------------------------------------------

  /** What net/url reads from a URL. */
  datatype Url = Url(scheme: string, host: string, hasUser: bool, rawQuery: string, forceQuery: bool,
                     fragment: string, rawPath: string, escapedPath: string)

  /** The URL parser, which belongs to Go's library. */
  type UrlParser = string -> Option<Url>

  function TrimSlashes(s: string): string {
    if s != "" && s[0] == '/' then TrimSlashes(s[1..])
    else if s != "" && s[|s| - 1] == '/' then TrimSlashes(s[..|s| - 1])
    else s
  }

  function TrimSuffix(s: string, suffix: string): string {
    if |suffix| <= |s| && s[|s| - |suffix|..] == suffix then s[..|s| - |suffix|] else s
  }

  function FirstPartyByName(name: string): Option<FirstPartyPlugin> {
    if name in REPOSITORIES then Some(Entry(name)) else None
  }

  /** Accepts only an exact GitHub URL of an allow-listed SemRels repository. An escaped path without a
      percent sign unescapes to itself. */
  function FirstPartyByRepositoryURL(repository: string, parse: UrlParser): Option<FirstPartyPlugin> {
    match parse(Trim(repository))
    case None => None
    case Some(url) =>
      if !EqualFold(url.scheme, "https") || !EqualFold(url.host, "github.com") || url.hasUser ||
         url.rawQuery != "" || url.forceQuery || url.fragment != "" || url.rawPath != "" || '%' in url.escapedPath
      then None
      else
        var parts := Split(TrimSlashes(url.escapedPath), '/');
        if |parts| != 2 || !EqualFold(parts[0], "SemRels") then None
        else FirstPartyByName(TrimSuffix(Lower(parts[1]), ".git"))
  }

  /** Whatever the URL, a first-party answer is the index entry of an allow-listed repository. */
  lemma AnswersComeFromTheIndex(repository: string, parse: UrlParser)
    ensures match FirstPartyByRepositoryURL(repository, parse)
      case None => true
      case Some(e) => e.name in REPOSITORIES && e == Entry(e.name)
  {
  }

  // ----- which URLs, exactly ------------------------------------------------------------------

  predicate Slashes(s: string) {
    forall i :: 0 <= i < |s| ==> s[i] == '/'
  }

  /** The path is an owner and a repository, between any slashes, and the folded repository, less one ".git", is
      `name`. */
  ghost predicate PathNames(path: string, name: string) {
    exists left, owner, repository, right ::
      Slashes(left) && Slashes(right) && path == left + owner + "/" + repository + right &&
      '/' !in owner && '/' !in repository && repository != "" && Lower(owner) == "semrels" &&
      if |Lower(repository)| >= 4 && Lower(repository)[|repository| - 4..] == ".git"
      then Lower(repository) == name + ".git" else Lower(repository) == name
  }

  /** A URL names a first-party plugin exactly if it is a plain GitHub URL of the SemRels organisation and an
      allow-listed repository, in any letter case, with or without ".git". */
  lemma UrlExactly(text: string, parse: UrlParser, name: string)
    requires name in REPOSITORIES && name != ""
    ensures FirstPartyByRepositoryURL(text, parse) == Some(Entry(name)) <==>
      match parse(Trim(text))
      case None => false
      case Some(url) =>
        Lower(url.scheme) == "https" && Lower(url.host) == "github.com" && !url.hasUser && url.rawQuery == "" &&
        !url.forceQuery && url.fragment == "" && url.rawPath == "" && '%' !in url.escapedPath &&
        PathNames(url.escapedPath, name)
  {
    hide Entry, Trim, TrimSlashes, Split, Lower, PathNames, TrimSuffix, REPOSITORIES;
    LowerWords();
    match parse(Trim(text))
    case None =>
    case Some(url) =>
      PathExactly(url.escapedPath, name);
      var parts := Split(TrimSlashes(url.escapedPath), '/');
      if |parts| == 2 {
        EntryNames(TrimSuffix(Lower(parts[1]), ".git"), name);
      }
  }

  lemma EntryNames(a: string, b: string)
    ensures Entry(a) == Entry(b) <==> a == b
    ensures Entry(a).name == a
  {
    hide LegacyTarget, Before, After;
  }

  lemma LowerWords()
    ensures Lower("https") == "https" && Lower("github.com") == "github.com" && Lower("SemRels") == "semrels"
  {
  }

  lemma {:induction false} SlashesTrimmed(left: string, m: string, right: string)
    requires Slashes(left) && Slashes(right) && m != "" && m[0] != '/' && m[|m| - 1] != '/'
    ensures TrimSlashes(left + m + right) == m
    decreases |left| + |right|
  {
    var s := left + m + right;
    if left != "" {
      SlashesTrimmed(left[1..], m, right);
      assert s[1..] == left[1..] + m + right;
    } else if right != "" {
      SlashesTrimmed(left, m, right[..|right| - 1]);
      assert s[..|s| - 1] == left + m + right[..|right| - 1];
      assert s[0] == m[0];
    } else {
      assert s == m;
    }
  }

  lemma {:induction false} SlashesAround(s: string) returns (left: string, right: string)
    ensures Slashes(left) && Slashes(right) && s == left + TrimSlashes(s) + right
    ensures var m := TrimSlashes(s); m != "" ==> m[0] != '/' && m[|m| - 1] != '/'
    decreases |s|
  {
    left, right := "", "";
    if s != "" && s[0] == '/' {
      left, right := SlashesAround(s[1..]);
      left := "/" + left;
    } else if s != "" && s[|s| - 1] == '/' {
      left, right := SlashesAround(s[..|s| - 1]);
      right := right + "/";
    }
  }

  predicate RepositoryNamed(repository: string, name: string) {
    if |Lower(repository)| >= 4 && Lower(repository)[|repository| - 4..] == ".git"
    then Lower(repository) == name + ".git" else Lower(repository) == name
  }

  lemma SuffixExactly(repository: string, name: string)
    ensures TrimSuffix(Lower(repository), ".git") == name <==> RepositoryNamed(repository, name)
  {
    hide Lower;
    var low := Lower(repository);
    if |low| >= 4 && low[|low| - 4..] == ".git" {
      assert low == low[..|low| - 4] + ".git";
    }
  }

  lemma PathExactly(path: string, name: string)
    requires name != ""
    ensures PathNames(path, name) <==>
      var parts := Split(TrimSlashes(path), '/');
      |parts| == 2 && Lower(parts[0]) == "semrels" && TrimSuffix(Lower(parts[1]), ".git") == name
  {
    hide Lower, TrimSuffix, Slashes, TrimSlashes, Split;
    var parts := Split(TrimSlashes(path), '/');
    if PathNames(path, name) {
      var left, owner, repository, right :| Slashes(left) && Slashes(right) &&
        path == left + owner + "/" + repository + right && '/' !in owner && '/' !in repository && repository != "" &&
        Lower(owner) == "semrels" && RepositoryNamed(repository, name);
      PathParts(left, owner, repository, right);
      SuffixExactly(repository, name);
    }
    if |parts| == 2 && Lower(parts[0]) == "semrels" && TrimSuffix(Lower(parts[1]), ".git") == name {
      var left, right := PartsOfPath(path);
      SuffixExactly(parts[1], name);
      NotBlank(parts[1], name);
    }
  }

  lemma PathParts(left: string, owner: string, repository: string, right: string)
    requires Slashes(left) && Slashes(right) && '/' !in owner && '/' !in repository && repository != ""
    requires Lower(owner) == "semrels"
    ensures Split(TrimSlashes(left + owner + "/" + repository + right), '/') == [owner, repository]
  {
    hide Lower, TrimSlashes, Split, Slashes;
    var m := owner + "/" + repository;
    assert |Lower(owner)| == |owner|;
    assert owner[0] in owner && repository[|repository| - 1] in repository;
    assert left + owner + "/" + repository + right == left + m + right;
    SlashesTrimmed(left, m, right);
    SplitFirst(owner, '/', repository);
    SplitNone(repository, '/');
    assert [owner] + [repository] == [owner, repository];
  }

  lemma PartsOfPath(path: string) returns (left: string, right: string)
    requires |Split(TrimSlashes(path), '/')| == 2
    ensures var parts := Split(TrimSlashes(path), '/');
      Slashes(left) && Slashes(right) && path == left + parts[0] + "/" + parts[1] + right &&
      '/' !in parts[0] && '/' !in parts[1]
  {
    left, right := SlashesAround(path);
    hide TrimSlashes, Split, Slashes, Join;
    var m := TrimSlashes(path);
    var parts := Split(m, '/');
    JoinSplit(m, '/');
    JoinCons(parts[0], [parts[1]], "/");
    JoinOne(parts[1], "/");
    assert parts == [parts[0]] + [parts[1]];
    assert m == parts[0] + "/" + parts[1];
  }

  lemma NotBlank(repository: string, name: string)
    requires RepositoryNamed(repository, name) && name != ""
    ensures repository != ""
  {
  }

  /** The entry of a repository name: its category is what stands before the first hyphen, and it answers to itself and,
      if it is the historical owner of what stands behind, to that, with and without the namespace. */
  lemma EntryExactly(category: string, short: string)
    requires '-' !in category
    ensures var repository := category + "-" + short; var e := Entry(repository);
      e.repository == repository && e.name == repository && e.category == category &&
      e.aliases == [repository] +
        if short in LEGACY_SHORT_TARGETS && LEGACY_SHORT_TARGETS[short] == repository
        then ["@semrel/" + short, short] else []
  {
    hide LEGACY_SHORT_TARGETS;
    CutAt(category, '-', short);
    assert category + "-" + short == category + ['-'] + short;
    assert NAMESPACE + "/" == "@semrel/";
    assert NAMESPACE + "/" + short == "@semrel/" + short;
  }
}
