/** What the service stores and when it refuses: the writes of api/service/plugin_service.go against a description of
    their own. */
module ServiceEffects {
  import opened Text
  import opened Sorting
  import opened Models
  import opened Releases
  import opened Identity
  import opened Ownership
  import opened Naming
  import opened FileStore
  import opened StoreInvariant
  import opened StoreEffects
  import opened Lookup
  import opened PluginService
  import opened ServiceRuns

  // ----- lists ------------------------------------------------------------------------------------

  /** Tags, exactly: every non-blank trimmed tag once, in the order of first appearance. */
  predicate LeadsTags(tags: seq<string>, i: int, tag: string) {
    0 <= i < |tags| && tag == Trim(tags[i]) && tag != "" && forall k :: 0 <= k < i ==> Trim(tags[k]) != tag
  }

  ghost predicate InOrder(tags: seq<string>, r: seq<string>) {
    forall a, b, i, j :: 0 <= a < b < |r| && LeadsTags(tags, i, r[a]) && LeadsTags(tags, j, r[b]) ==> i < j
  }

  lemma {:induction false} TagsExactly(tags: seq<string>)
    ensures forall t :: t in CleanTags(tags) <==> exists i :: LeadsTags(tags, i, t)
    ensures Distinct(CleanTags(tags)) && InOrder(tags, CleanTags(tags))
  {
    hide Trim;
    if tags != [] {
      var front, n := tags[..|tags| - 1], |tags| - 1;
      TagsExactly(front);
      forall i, t
        ensures LeadsTags(front, i, t) ==> LeadsTags(tags, i, t)
        ensures LeadsTags(tags, i, t) && i < n ==> LeadsTags(front, i, t)
      {
      }
      LastTag(tags);
      forall t
        ensures t in CleanTags(tags) <==> exists i :: LeadsTags(tags, i, t)
      {
        if i :| LeadsTags(tags, i, t) && i == n {
          assert t in CleanTags(tags);
        }
      }
    }
  }

  lemma LastTag(tags: seq<string>)
    requires tags != []
    requires var front := tags[..|tags| - 1]; forall t :: t in CleanTags(front) <==> exists i :: LeadsTags(front, i, t)
    ensures var front, t := tags[..|tags| - 1], Trim(tags[|tags| - 1]);
      LeadsTags(tags, |tags| - 1, t) <==> t != "" && t !in CleanTags(front)
  {
    hide Trim, CleanTags;
    var front, t := tags[..|tags| - 1], Trim(tags[|tags| - 1]);
    if k :| 0 <= k < |front| && Trim(front[k]) == t && t != "" {
      FirstLeads(front, k, t);
    }
  }

  lemma {:induction false} FirstLeads(tags: seq<string>, k: nat, t: string)
    requires k < |tags| && Trim(tags[k]) == t && t != ""
    ensures exists i :: LeadsTags(tags, i, t)
  {
    hide Trim;
    if j :| 0 <= j < k && Trim(tags[j]) == t {
      FirstLeads(tags, j, t);
    } else {
      assert LeadsTags(tags, k, t);
    }
  }

  // ----- drafts -----------------------------------------------------------------------------------

  /** Ranging over a map yields exactly its keys. */
  ghost predicate Ranges(rules: VersionRules) {
    forall m, k :: k in rules.ranging(m) <==> k in m
  }

  /** Every key and value trimmed; where keys trim alike, the value of one of them. */
  ghost predicate TrimmedEntries(m: map<string, string>, tidy: map<string, string>) {
    && (forall k :: k in m ==> Trim(k) in tidy)
    && (forall t :: t in tidy ==> exists k :: k in m && Trim(k) == t && tidy[t] == Trim(m[k]))
  }

  lemma TidyEntries(v: PluginVersion, rules: VersionRules)
    requires Ranges(rules)
    ensures TrimmedEntries(v.checksums, TidyVersion(v, rules).checksums)
  {
    hide Trim, TidyChecksums;
    TidyChecksumsCover(v.checksums, rules.ranging(v.checksums));
  }

  /** A version with its texts and checksums trimmed and nothing else changed. */
  ghost predicate TidiedVersion(v: PluginVersion, w: PluginVersion) {
    && w.version == Trim(v.version) && w.changelog == Trim(v.changelog) && w.downloadUrl == Trim(v.downloadUrl)
    && TrimmedEntries(v.checksums, w.checksums) && w.id == v.id && w.pluginId == v.pluginId
    && w.releaseDate == v.releaseDate && w.prerelease == v.prerelease && w.semrelCore == v.semrelCore
    && SameVisits(v, w) && SameYank(v, w) && w.createdAt == v.createdAt && w.deletedAt == v.deletedAt
  }

  /** A draft with every text trimmed, its lists cleaned up and its versions tidied, and nothing else changed. */
  ghost predicate TidiedPlugin(p: Plugin, q: Plugin) {
    && q.namespace == Trim(p.namespace) && q.name == Trim(p.name) && q.description == Trim(p.description)
    && q.author == Trim(p.author) && q.category == Trim(p.category) && q.repository == Trim(p.repository)
    && q.license == Trim(p.license) && q.aliases == Normalized(p.aliases) && q.tags == CleanTags(p.tags)
    && q.id == p.id && q.status == p.status && q.createdAt == p.createdAt && q.deletedAt == p.deletedAt
    && SameCounters(p, q) && |q.versions| == |p.versions|
    && forall i :: 0 <= i < |p.versions| ==> TidiedVersion(p.versions[i], q.versions[i])
  }

  lemma TidyVersionExactly(v: PluginVersion, rules: VersionRules)
    requires Ranges(rules)
    ensures TidiedVersion(v, TidyVersion(v, rules))
  {
    hide Trim, TidyChecksums, TrimmedEntries;
    TidyEntries(v, rules);
  }

  lemma TidyExactly(p: Plugin, rules: VersionRules)
    requires Ranges(rules)
    ensures TidiedPlugin(p, Tidy(p, rules))
  {
    hide Trim, Normalized, CleanTags, TidyVersion, TidiedVersion;
    var q := Tidy(p, rules);
    forall i | 0 <= i < |p.versions|
      ensures TidiedVersion(p.versions[i], q.versions[i])
    {
      TidyVersionExactly(p.versions[i], rules);
    }
  }

  /** A plugin of a first-party repository takes its identity and answers to its aliases and its own; any other is left
      alone. */
  ghost predicate TakesIdentity(p: Plugin, q: Plugin, parse: UrlParser) {
    match FirstPartyByRepositoryURL(p.repository, parse)
    case None => q == p
    case Some(c) =>
      && q.namespace == "@semrel" && q.name == c.name && q.category == c.category
      && (forall k :: k in Folds(q.aliases) <==> k != "" && (k in Folds(c.aliases) || k in Folds(p.aliases)))
      && q.id == p.id && q.description == p.description && q.author == p.author && q.repository == p.repository
      && q.license == p.license && q.status == p.status && q.tags == p.tags && q.versions == p.versions
      && q.createdAt == p.createdAt && q.deletedAt == p.deletedAt && SameCounters(p, q)
  }

  lemma FirstPartyExactly(p: Plugin, parse: UrlParser)
    ensures TakesIdentity(p, FirstParty(p, parse), parse)
  {
    hide FirstPartyByRepositoryURL, Normalized, Fold;
    match FirstPartyByRepositoryURL(p.repository, parse)
    case None =>
    case Some(c) =>
      NormalizedIsClean(c.aliases + p.aliases);
      assert Folds(c.aliases + p.aliases) == Folds(c.aliases) + Folds(p.aliases);
  }

  /** The record stored of a draft: tidied, with its repository's identity, this status, a new id and the time. */
  ghost predicate StoredDraft(draft: Plugin, q: Plugin, parse: UrlParser, status: string, id: int, now: int) {
    exists tidy, p :: TidiedPlugin(draft, tidy) && TakesIdentity(tidy, p, parse) &&
      SameMetadata(p.(id := id, createdAt := now, status := status, aliases := Normalized(p.aliases)), q) &&
      SameCounters(p, q) && q.versions == p.versions
  }

  lemma DraftExactly(s: Store, draft: Plugin, p: Plugin, parse: UrlParser, rules: VersionRules, now: int, fault: Fault)
    requires Ranges(rules) && p == Prepared(draft, parse, rules).(status := p.status)
    ensures var (t, r) := Created(s, p, now, fault);
      r.Ok? ==> r.value in t.plugins && StoredDraft(draft, t.plugins[r.value], parse, p.status, r.value, now)
  {
    hide Tidy, FirstParty, TidiedPlugin, TakesIdentity, Normalized, MayClaim;
    TidyExactly(draft, rules);
    FirstPartyExactly(Tidy(draft, rules), parse);
    CreateExactly(s, p, now, fault);
    var tidy := Tidy(draft, rules);
    var q := FirstParty(tidy, parse);
    assert TidiedPlugin(draft, tidy) && TakesIdentity(tidy, q, parse);
  }

  /** CreatePlugin: at most one record is new, the draft's under the next id, with status "active" if it has none. On
      success it is what is answered, as a read shows it. */
  lemma CreatePluginExactly(s: Store, draft: Plugin, parse: UrlParser, rules: VersionRules, now: int, fault: Fault)
    requires Identified(s) && Ranges(rules)
    ensures var (t, r) := PluginCreated(s, draft, parse, rules, now, fault); var id := s.nextPluginId;
      var status := if draft.status == "" then "active" else draft.status;
      (t.plugins == s.plugins || NewDraft(s, t, draft, parse, status, now)) &&
      (r.Ok? ==> id in t.plugins && id !in s.plugins && r.value == Refreshed(t.plugins[id]))
  {
    hide Identified, ValidPlugin, Refreshed, Prepared, StoredDraft, VersionAdded, MayClaim;
    var p := ActiveDraft(draft, parse, rules);
    CreateStores(s, draft, parse, rules, now, fault);
    CreateExactly(s, p, now, fault);
    PreparedStatus(draft, parse, rules);
    DraftExactly(s, draft, p, parse, rules, now, fault);
    NobodyIs(s, s.nextPluginId);
  }

  lemma PreparedStatus(draft: Plugin, parse: UrlParser, rules: VersionRules)
    ensures Prepared(draft, parse, rules).status == draft.status
  {
    hide FirstPartyByRepositoryURL, Trim, Normalized, CleanTags, TidyVersion;
  }

  ghost predicate NewDraft(s: Store, t: Store, draft: Plugin, parse: UrlParser, status: string, now: int) {
    var id := s.nextPluginId;
    && id in t.plugins && t.plugins == s.plugins[id := t.plugins[id]]
    && StoredDraft(draft, t.plugins[id], parse, status, id, now)
  }

  /** SubmitPlugin: the same with status "pending", whatever the draft says. It succeeds if and only if the draft is
      live and valid, no write fails, and its references are distinct and unowned. */
  lemma SubmitPluginExactly(s: Store, draft: Plugin, parse: UrlParser, rules: VersionRules, now: int, fault: Fault)
    requires Identified(s) && Ranges(rules)
    ensures var (t, r) := PluginSubmitted(s, draft, parse, rules, now, fault); var id := s.nextPluginId;
      (t.plugins == s.plugins || NewDraft(s, t, draft, parse, "pending", now)) &&
      (r.Ok? ==> id in t.plugins && id !in s.plugins && r.value == Refreshed(t.plugins[id]))
    ensures var p := Prepared(draft, parse, rules).(status := "pending");
      var keys := Keys(p.(aliases := Normalized(p.aliases)));
      PluginSubmitted(s, draft, parse, rules, now, fault).1.Ok? <==>
        draft.deletedAt == None && ValidPlugin(p, rules) && fault == NoFault && Distinct(keys) &&
        forall k :: k in keys ==> k !in Owners(s.plugins)
  {
    hide Identified, ValidPlugin, Refreshed, StoredDraft, MayClaim, Keys, Owners, Normalized;
    var p := Prepared(draft, parse, rules).(status := PENDING);
    DraftLives(draft, parse, rules);
    hide Prepared;
    CreateExactly(s, p, now, fault);
    CreateClaims(s, p, now, fault);
    DraftExactly(s, draft, p, parse, rules, now, fault);
    NobodyIs(s, s.nextPluginId);
  }

  lemma DraftLives(draft: Plugin, parse: UrlParser, rules: VersionRules)
    ensures Prepared(draft, parse, rules).deletedAt == draft.deletedAt
  {
    hide FirstPartyByRepositoryURL, Trim, Normalized, CleanTags, TidyVersion;
  }

  // ----- validation -------------------------------------------------------------------------------

  predicate LowerOrDigit(c: char) {
    'a' <= c <= 'z' || '0' <= c <= '9'
  }

  predicate LetterOrDigit(c: char) {
    'a' <= c <= 'z' || 'A' <= c <= 'Z' || '0' <= c <= '9'
  }

  /** An at sign, then lower-case letters, digits and hyphens, a hyphen neither first nor last. */
  predicate IsNamespace(s: string) {
    && |s| >= 2 && s[0] == '@' && (forall i :: 1 <= i < |s| ==> LowerOrDigit(s[i]) || s[i] == '-')
    && s[1] != '-' && s[|s| - 1] != '-'
  }

  /** A letter or digit, then letters, digits, dots, underscores and hyphens. */
  predicate IsName(s: string) {
    && s != "" && LetterOrDigit(s[0])
    && forall i :: 0 <= i < |s| ==> LetterOrDigit(s[i]) || s[i] == '.' || s[i] == '_' || s[i] == '-'
  }

  /** A name, or a namespace and a name joined by a slash. */
  ghost predicate IsAlias(s: string) {
    IsName(s) || exists namespace, name :: IsNamespace(namespace) && IsName(name) && s == namespace + "/" + name
  }

  lemma PatternsExactly(s: string)
    ensures NamespacePattern(s) <==> IsNamespace(s)
    ensures NamePattern(s) <==> IsName(s)
  {
  }

  lemma AliasExactly(s: string)
    ensures AliasPattern(s) <==> IsAlias(s)
  {
    hide NamespacePattern, NamePattern, IsNamespace, IsName;
    PatternsExactly(s);
    if s != "" && s[0] == '@' {
      NoNameStartsWithAt(s);
      if '/' in s {
        PatternsExactly(Before(s, '/'));
        PatternsExactly(Text.After(s, '/'));
        assert s == Before(s, '/') + "/" + Text.After(s, '/');
      }
    }
    if namespace, name :| IsNamespace(namespace) && IsName(name) && s == namespace + "/" + name {
      NamespaceShape(namespace);
      assert s[|namespace|] == '/' && s[0] == namespace[0];
      CutAt(namespace, '/', name);
    }
  }

  lemma NoNameStartsWithAt(s: string)
    ensures s != "" && s[0] == '@' ==> !IsName(s)
  {
  }

  lemma NamespaceShape(s: string)
    requires IsNamespace(s)
    ensures s != "" && s[0] == '@' && '/' !in s
  {
  }

  /** What validation accepts, exactly. */
  ghost predicate Acceptable(p: Plugin, rules: VersionRules) {
    && (p.namespace != "" ==> |p.namespace| <= 100 && IsNamespace(p.namespace))
    && |p.name| <= 255 && IsName(p.name) && |p.category| <= 50 && IsName(p.category)
    && |p.description| <= 4000 && |p.author| <= 255 && |p.repository| <= 2048 && |p.license| <= 50
    && (forall a :: a in p.aliases ==> |a| <= 356 && IsAlias(a)) && (forall t :: t in p.tags ==> |t| <= 100)
    && (forall v :: v in p.versions ==> rules.accepts(v))
  }

  lemma AliasesExactly(aliases: seq<string>)
    ensures ValidAliases(aliases) <==> forall a :: a in aliases ==> |a| <= 356 && IsAlias(a)
  {
    hide AliasPattern, IsAlias;
    forall a
      ensures AliasPattern(a) <==> IsAlias(a)
    {
      AliasExactly(a);
    }
    assert forall i :: 0 <= i < |aliases| ==> aliases[i] in aliases;
  }

  lemma ValidExactly(p: Plugin, rules: VersionRules)
    ensures ValidPlugin(p, rules) <==> Acceptable(p, rules)
  {
    hide NamespacePattern, NamePattern, ValidAliases, IsNamespace, IsName, IsAlias;
    PatternsExactly(p.namespace);
    PatternsExactly(p.name);
    PatternsExactly(p.category);
    AliasesExactly(p.aliases);
    assert forall i :: 0 <= i < |p.tags| ==> p.tags[i] in p.tags;
    assert forall i :: 0 <= i < |p.versions| ==> p.versions[i] in p.versions;
  }

  // ----- patches ----------------------------------------------------------------------------------

  /** Every field that the patch gives, trimmed or cleaned up, and every other as it was. */
  predicate PatchedAs(p: Plugin, patch: PluginPatch, q: Plugin) {
    && (q.namespace == if patch.namespace == None then p.namespace else Trim(patch.namespace.value))
    && (q.name == if patch.name == None then p.name else Trim(patch.name.value))
    && (q.aliases == if patch.aliases == None then p.aliases else Normalized(patch.aliases.value))
    && (q.description == if patch.description == None then p.description else Trim(patch.description.value))
    && (q.author == if patch.author == None then p.author else Trim(patch.author.value))
    && (q.category == if patch.category == None then p.category else Trim(patch.category.value))
    && (q.repository == if patch.repository == None then p.repository else Trim(patch.repository.value))
    && (q.license == if patch.license == None then p.license else Trim(patch.license.value))
    && (q.tags == if patch.tags == None then p.tags else CleanTags(patch.tags.value))
    && q.id == p.id && q.status == p.status && q.versions == p.versions && q.createdAt == p.createdAt
    && q.deletedAt == p.deletedAt && SameCounters(p, q)
  }

  lemma PatchExactly(p: Plugin, patch: PluginPatch)
    ensures PatchedAs(p, patch, Patched(p, TidyPatch(patch)))
  {
    hide Trim, Normalized, CleanTags;
  }

  ghost predicate WithinLimit(value: Option<string>, limit: nat) {
    value == None || |Trim(value.value)| <= limit
  }

  /** What validation accepts of a patch, exactly: something is given, and each given field is in order on its own. */
  ghost predicate AcceptablePatch(patch: PluginPatch) {
    && patch != PluginPatch(None, None, None, None, None, None, None, None, None)
    && (patch.namespace.Some? && Trim(patch.namespace.value) != "" ==>
          |Trim(patch.namespace.value)| <= 100 && IsNamespace(Trim(patch.namespace.value)))
    && WithinLimit(patch.name, 255) && (patch.name.Some? ==> IsName(Trim(patch.name.value)))
    && WithinLimit(patch.category, 50) && (patch.category.Some? ==> IsName(Trim(patch.category.value)))
    && WithinLimit(patch.description, 4000) && WithinLimit(patch.author, 255)
    && WithinLimit(patch.repository, 2048) && WithinLimit(patch.license, 50)
    && (patch.aliases.Some? ==> forall a :: a in Normalized(patch.aliases.value) ==> |a| <= 356 && IsAlias(a))
    && (patch.tags.Some? ==> forall t :: t in CleanTags(patch.tags.value) ==> |t| <= 100)
  }

  lemma PatchValidExactly(patch: PluginPatch)
    ensures !TidyPatch(patch).Empty() && ValidPatch(TidyPatch(patch)) <==> AcceptablePatch(patch)
  {
    hide Trim, Normalized, CleanTags, NamespacePattern, NamePattern, ValidAliases, IsNamespace, IsName, IsAlias;
    if patch.namespace.Some? {
      PatternsExactly(Trim(patch.namespace.value));
    }
    if patch.name.Some? {
      PatternsExactly(Trim(patch.name.value));
    }
    if patch.category.Some? {
      PatternsExactly(Trim(patch.category.value));
    }
    if patch.aliases.Some? {
      AliasesExactly(Normalized(patch.aliases.value));
    }
    if patch.tags.Some? {
      var tags := CleanTags(patch.tags.value);
      assert forall i :: 0 <= i < |tags| ==> tags[i] in tags;
    }
  }

  predicate TouchesIdentity(patch: PluginPatch) {
    patch.(description := None, author := None, license := None, tags := None) !=
    PluginPatch(None, None, None, None, None, None, None, None, None)
  }

  /** UpdatePlugin, exactly. It succeeds if and only if the reference resolves, the patch is in order, the plugin with
      the patch is in order if the patch touches the identity or the repository is first-party, the write works, and
      its references are distinct and owned by nobody else. */
  lemma UpdateSucceedsExactly(s: Store, order: seq<int>, ref: string, patch: PluginPatch, parse: UrlParser,
                              rules: VersionRules, fault: Fault)
    requires Identified(s) && IsListing(order, s.plugins)
    ensures PluginUpdated(s, order, ref, patch, parse, rules, fault).1.Ok? <==>
      Trim(ref) != "" && AcceptablePatch(patch) && LookedUp(s, order, ref).Ok? &&
      var found := LookedUp(s, order, ref).value;
      var patched := Patched(found, TidyPatch(patch));
      var p := FirstParty(patched, parse); var keys := Keys(p.(aliases := Normalized(p.aliases)));
      (FirstPartyByRepositoryURL(patched.repository, parse).Some? || TouchesIdentity(patch) ==> Acceptable(p, rules)) &&
      !fault.PluginFault? && Distinct(keys) &&
      forall k :: k in keys && k in Owners(s.plugins) ==> Owners(s.plugins)[k] == found.id
  {
    hide LookedUp, Identified, TidyPatch, Patched, FirstParty, FirstPartyByRepositoryURL, ValidPlugin, ValidPatch,
      Updated, Refreshed, Keys, Owners, Normalized, Trim, Acceptable, AcceptablePatch;
    PatchValidExactly(patch);
    Identifies(patch);
    if Trim(ref) != "" && AcceptablePatch(patch) && LookedUp(s, order, ref).Ok? {
      var found := LookedUp(s, order, ref).value;
      FoundIsStored(s, order, ref);
      var p := FirstParty(Patched(found, TidyPatch(patch)), parse);
      ValidExactly(p, rules);
      SameId(found, TidyPatch(patch), parse);
      UpdateClaims(s, p, fault);
      UpdatedLives(s, p, fault);
      var check := FirstPartyByRepositoryURL(Patched(found, TidyPatch(patch)).repository, parse).Some? ||
                   TidyPatch(patch).Identifying();
      assert IsLive(s, p.id);
      assert check && !ValidPlugin(p, rules) ==> PluginUpdated(s, order, ref, patch, parse, rules, fault).1.Err?;
      assert !(check && !ValidPlugin(p, rules)) ==>
        (PluginUpdated(s, order, ref, patch, parse, rules, fault).1.Ok? <==> Updated(s, p, fault).1.Ok?);
    }
  }

  lemma Identifies(patch: PluginPatch)
    ensures TidyPatch(patch).Identifying() <==> TouchesIdentity(patch)
  {
    hide Trim, Normalized, CleanTags;
  }

  lemma SameId(p: Plugin, patch: PluginPatch, parse: UrlParser)
    ensures FirstParty(Patched(p, patch), parse).id == p.id
  {
    hide FirstPartyByRepositoryURL, Normalized;
  }

  lemma UpdatedLives(s: Store, p: Plugin, fault: Fault)
    ensures var (t, r) := Updated(s, p, fault); r.Ok? ==> IsLive(t, p.id)
  {
    hide Refreshed, Normalized, MayClaim;
    UpdateExactly(s, p, fault);
  }

  /** The record stored of a patched plugin. */
  ghost predicate StoredPatch(found: Plugin, patch: PluginPatch, parse: UrlParser, q: Plugin) {
    exists patched, p :: PatchedAs(found, patch, patched) && TakesIdentity(patched, p, parse) &&
      SameMetadata(p.(aliases := Normalized(p.aliases)), q) && SameCounters(p, q) &&
      multiset(q.versions) == multiset(p.versions)
  }

  /** UpdatePlugin writes the patched record or nothing, and answers with what a read of it shows. */
  lemma UpdatePluginExactly(s: Store, order: seq<int>, ref: string, patch: PluginPatch, parse: UrlParser,
                            rules: VersionRules, fault: Fault)
    requires Identified(s) && IsListing(order, s.plugins)
    ensures var (t, r) := PluginUpdated(s, order, ref, patch, parse, rules, fault);
      if r.Err? then t == s
      else
        LookedUp(s, order, ref).Ok? &&
        var found := LookedUp(s, order, ref).value;
        OneRecord(s, t, found.id) && StoredPatch(found, patch, parse, t.plugins[found.id]) &&
        r.value == Refreshed(t.plugins[found.id])
  {
    hide LookedUp, Identified, TidyPatch, Patched, FirstParty, FirstPartyByRepositoryURL, ValidPlugin, ValidPatch,
      Updated, Refreshed, Normalized, Trim, PatchedAs, TakesIdentity;
    var (t, r) := PluginUpdated(s, order, ref, patch, parse, rules, fault);
    if LookedUp(s, order, ref).Ok? {
      var found := LookedUp(s, order, ref).value;
      FoundIsStored(s, order, ref);
      var patched := Patched(found, TidyPatch(patch));
      var p := FirstParty(patched, parse);
      SameId(found, TidyPatch(patch), parse);
      UpdateExactly(s, p, fault);
      UpdatedLives(s, p, fault);
      if r.Ok? {
        PatchExactly(found, patch);
        FirstPartyExactly(patched, parse);
        ReadShape(s.plugins[found.id]);
        PatchStored(s.plugins[found.id], found, patched, p, parse, patch, t.plugins[found.id]);
      }
    }
  }

  lemma PatchStored(stored: Plugin, found: Plugin, patched: Plugin, p: Plugin, parse: UrlParser, patch: PluginPatch,
                    q: Plugin)
    requires PatchedAs(found, patch, patched) && TakesIdentity(patched, p, parse)
    requires SameMetadata(stored, found) && SameCounters(stored, found)
    requires multiset(found.versions) == multiset(stored.versions)
    requires q.namespace == p.namespace && q.name == p.name && q.aliases == Normalized(p.aliases)
    requires q.description == p.description && q.author == p.author && q.category == p.category
    requires q.repository == p.repository && q.license == p.license && q.tags == p.tags
    requires q.id == stored.id && q.status == stored.status && q.createdAt == stored.createdAt
    requires q.deletedAt == None && stored.deletedAt == None
    requires SameCounters(stored, q) && multiset(q.versions) == multiset(stored.versions)
    ensures StoredPatch(found, patch, parse, q)
  {
    hide FirstPartyByRepositoryURL, Normalized, Trim, CleanTags, Folds;
  }

  /** DeletePlugin marks the plugin that the reference resolves to, and nothing else about it. */
  lemma DeletePluginExactly(s: Store, order: seq<int>, ref: string, now: int, fault: Fault)
    requires Identified(s) && IsListing(order, s.plugins)
    ensures var (t, r) := PluginDeleted(s, order, ref, now, fault);
      (r.Ok? <==> Trim(ref) != "" && LookedUp(s, order, ref).Ok? && !fault.PluginFault?) &&
      if r.Err? then t == s
      else
        var id := LookedUp(s, order, ref).value.id;
        OneRecord(s, t, id) && SameMetadata(s.plugins[id].(deletedAt := Some(now)), t.plugins[id]) &&
        SameCounters(s.plugins[id], t.plugins[id]) && t.plugins[id].versions == Refreshed(s.plugins[id]).versions
  {
    hide LookedUp, Identified, Refreshed, Trim;
    if LookedUp(s, order, ref).Ok? {
      FoundIsStored(s, order, ref);
      ReadShape(s.plugins[LookedUp(s, order, ref).value.id]);
    }
  }
}
