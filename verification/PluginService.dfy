/** The service in front of the store: normalisation, first-party identities, validation and the four writes of
    api/service/plugin_service.go. */
module PluginService {
  import opened Text
  import opened Sorting
  import opened Models
  import opened Releases
  import opened Identity
  import opened Naming
  import opened FileStore
  import opened Lookup

  // ----- normalisation ------------------------------------------------------------------------------------

  /** Trimmed tags without blanks or repetitions, in the order of first appearance. */
  function CleanTags(tags: seq<string>): (r: seq<string>) {
    if tags == [] then []
    else
      var before, tag := CleanTags(tags[..|tags| - 1]), Trim(tags[|tags| - 1]);
      if tag == "" || tag in before then before else before + [tag]
  }

  method NormalizeTags(tags: seq<string>) returns (normalized: seq<string>)
    ensures normalized == CleanTags(tags)
  {
    hide Trim;
    normalized := [];
    var seen: set<string> := {};
    for i := 0 to |tags|
      invariant normalized == CleanTags(tags[..i])
      invariant forall t :: t in seen <==> t in normalized
    {
      assert tags[..i + 1][..i] == tags[..i];
      var tag := Trim(tags[i]);
      if tag == "" || tag in seen {
        continue;
      }
      seen := seen + {tag};
      normalized := normalized + [tag];
    }
    assert tags[..|tags|] == tags;
  }

  /** What the library decides about a version: in which order Go ranges over its checksums, and whether its URLs and
      checksums are acceptable. */
  datatype VersionRules = VersionRules(ranging: map<string, string> -> seq<string>, accepts: PluginVersion -> bool)

  /** Trimmed checksums; of keys that trim alike the last one in the order wins. */
  function TidyChecksums(m: map<string, string>, keys: seq<string>): map<string, string> {
    if keys == [] then map[]
    else
      var before, key := TidyChecksums(m, keys[..|keys| - 1]), keys[|keys| - 1];
      if key in m then before[Trim(key) := Trim(m[key])] else before
  }

  method NormalizeChecksums(m: map<string, string>, keys: seq<string>) returns (normalized: map<string, string>)
    ensures normalized == TidyChecksums(m, keys)
  {
    hide Trim;
    normalized := map[];
    for i := 0 to |keys|
      invariant normalized == TidyChecksums(m, keys[..i])
    {
      assert keys[..i + 1][..i] == keys[..i];
      if keys[i] in m {
        normalized := normalized[Trim(keys[i]) := Trim(m[keys[i]])];
      }
    }
    assert keys[..|keys|] == keys;
  }

  /** Every entry survives under its trimmed key, with the trimmed value of an entry of that key, in any order that
      covers the map. */
  lemma {:induction false} TidyChecksumsCover(m: map<string, string>, keys: seq<string>)
    ensures forall k :: k in keys && k in m ==> Trim(k) in TidyChecksums(m, keys)
    ensures forall t :: t in TidyChecksums(m, keys) ==>
      exists k :: k in keys && k in m && Trim(k) == t && TidyChecksums(m, keys)[t] == Trim(m[k])
  {
    hide Trim;
    if keys != [] {
      TidyChecksumsCover(m, keys[..|keys| - 1]);
      assert keys == keys[..|keys| - 1] + [keys[|keys| - 1]];
    }
  }

  function TidyVersion(v: PluginVersion, rules: VersionRules): PluginVersion {
    v.(version := Trim(v.version), changelog := Trim(v.changelog), downloadUrl := Trim(v.downloadUrl),
       checksums := if |v.checksums| > 0 then TidyChecksums(v.checksums, rules.ranging(v.checksums)) else v.checksums)
  }

  method NormalizeVersion(version: PluginVersion, rules: VersionRules) returns (v: PluginVersion)
    ensures v == TidyVersion(version, rules)
  {
    hide Trim, TidyChecksums;
    v := version.(version := Trim(version.version), changelog := Trim(version.changelog));
    v := v.(downloadUrl := Trim(version.downloadUrl));
    if |v.checksums| > 0 {
      var normalized := NormalizeChecksums(v.checksums, rules.ranging(v.checksums));
      v := v.(checksums := normalized);
    }
  }

  function Tidy(p: Plugin, rules: VersionRules): Plugin {
    p.(namespace := Trim(p.namespace), name := Trim(p.name), aliases := Normalized(p.aliases),
       description := Trim(p.description), author := Trim(p.author), category := Trim(p.category),
       repository := Trim(p.repository), license := Trim(p.license),
       tags := CleanTags(p.tags),
       versions := seq(|p.versions|, i requires 0 <= i < |p.versions| => TidyVersion(p.versions[i], rules)))
  }

  method NormalizePlugin(plugin: Plugin, rules: VersionRules) returns (p: Plugin)
    ensures p == Tidy(plugin, rules)
  {
    hide Trim, Normalized, CleanTags, TidyVersion;
    var aliases := NormalizeAliases(plugin.aliases);
    var tags := NormalizeTags(plugin.tags);
    var versions := plugin.versions;
    for i := 0 to |versions|
      invariant |versions| == |plugin.versions|
      invariant forall k :: 0 <= k < |versions| ==>
        versions[k] == if k < i then TidyVersion(plugin.versions[k], rules) else plugin.versions[k]
    {
      var v := NormalizeVersion(versions[i], rules);
      versions := versions[i := v];
    }
    p := plugin.(namespace := Trim(plugin.namespace), name := Trim(plugin.name), aliases := aliases);
    p := p.(description := Trim(plugin.description), author := Trim(plugin.author), category := Trim(plugin.category));
    p := p.(repository := Trim(plugin.repository), license := Trim(plugin.license), tags := tags, versions := versions);
  }

  /** A plugin of an allow-listed repository takes that repository's identity. */
  function FirstParty(p: Plugin, parse: UrlParser): Plugin {
    match FirstPartyByRepositoryURL(p.repository, parse)
    case None => p
    case Some(c) => p.(namespace := NAMESPACE, name := c.name, category := c.category,
                       aliases := Normalized(c.aliases + p.aliases))
  }

  method NormalizeFirstPartyPlugin(plugin: Plugin, parse: UrlParser) returns (p: Plugin, firstParty: bool)
    ensures p == FirstParty(plugin, parse)
    ensures firstParty <==> FirstPartyByRepositoryURL(plugin.repository, parse).Some?
  {
    hide FirstPartyByRepositoryURL, Normalized;
    p := plugin;
    var canonical := FirstPartyByRepositoryURL(plugin.repository, parse);
    if canonical.None? {
      return p, false;
    }
    p := p.(namespace := NAMESPACE, name := canonical.value.name, category := canonical.value.category);
    var aliases := NormalizeAliases(canonical.value.aliases + p.aliases);
    p := p.(aliases := aliases);
    firstParty := true;
  }

  // ----- validation ---------------------------------------------------------------------------------------------

  predicate AliasPattern(a: string) {
    if a != "" && a[0] == '@'
    then '/' in a && NamespacePattern(Before(a, '/')) && NamePattern(After(a, '/'))
    else NamePattern(a)
  }

  predicate ValidAliases(aliases: seq<string>) {
    forall i :: 0 <= i < |aliases| ==> |aliases[i]| <= 356 && AliasPattern(aliases[i])
  }

  predicate ValidTags(tags: seq<string>) {
    forall i :: 0 <= i < |tags| ==> |tags[i]| <= 100
  }

  predicate ValidPlugin(p: Plugin, rules: VersionRules) {
    && (p.namespace != "" ==> |p.namespace| <= 100 && NamespacePattern(p.namespace))
    && |p.name| <= 255 && NamePattern(p.name) && ValidAliases(p.aliases)
    && |p.category| <= 50 && NamePattern(p.category)
    && |p.description| <= 4000 && |p.author| <= 255 && |p.repository| <= 2048 && |p.license| <= 50
    && ValidTags(p.tags) && forall i :: 0 <= i < |p.versions| ==> rules.accepts(p.versions[i])
  }

  method ValidatePlugin(p: Plugin, rules: VersionRules) returns (ok: bool)
    ensures ok <==> ValidPlugin(p, rules)
  {
    hide AliasPattern, NamespacePattern;
    if p.namespace != "" && (|p.namespace| > 100 || !NamespacePattern(p.namespace)) {
      return false;
    }
    if p.name == "" || |p.name| > 255 {
      return false;
    }
    for i := 0 to |p.aliases|
      invariant forall k :: 0 <= k < i ==> |p.aliases[k]| <= 356 && AliasPattern(p.aliases[k])
    {
      if |p.aliases[i]| > 356 || !AliasPattern(p.aliases[i]) {
        return false;
      }
    }
    if !NamePattern(p.name) || p.category == "" || |p.description| > 4000 || |p.author| > 255 {
      return false;
    }
    if |p.category| > 50 || !NamePattern(p.category) || |p.repository| > 2048 || |p.license| > 50 {
      return false;
    }
    for i := 0 to |p.tags|
      invariant forall k :: 0 <= k < i ==> |p.tags[k]| <= 100
    {
      if |p.tags[i]| > 100 {
        return false;
      }
    }
    for i := 0 to |p.versions|
      invariant forall k :: 0 <= k < i ==> rules.accepts(p.versions[k])
    {
      if !rules.accepts(p.versions[i]) {
        return false;
      }
    }
    return true;
  }

  // ----- patches -------------------------------------------------------------------------------------------

  datatype PluginPatch = PluginPatch(namespace: Option<string>, name: Option<string>, aliases: Option<seq<string>>,
                                     description: Option<string>, author: Option<string>, category: Option<string>,
                                     repository: Option<string>, license: Option<string>, tags: Option<seq<string>>)
  {
    predicate Empty() {
      namespace.None? && name.None? && aliases.None? && description.None? && author.None? && category.None? &&
      repository.None? && license.None? && tags.None?
    }

    /** A patch that touches what identifies the plugin has the result validated. */
    predicate Identifying() {
      namespace.Some? || name.Some? || aliases.Some? || category.Some? || repository.Some?
    }
  }

  function TrimPointer(value: Option<string>): Option<string> {
    if value.Some? then Some(Trim(value.value)) else None
  }

  function TidyPatch(patch: PluginPatch): PluginPatch {
    PluginPatch(TrimPointer(patch.namespace), TrimPointer(patch.name),
                if patch.aliases.Some? then Some(Normalized(patch.aliases.value)) else None,
                TrimPointer(patch.description), TrimPointer(patch.author), TrimPointer(patch.category),
                TrimPointer(patch.repository), TrimPointer(patch.license),
                if patch.tags.Some? then Some(CleanTags(patch.tags.value)) else None)
  }

  predicate Within(value: Option<string>, limit: nat) {
    value.Some? ==> |value.value| <= limit
  }

  predicate ValidPatch(patch: PluginPatch) {
    && (patch.namespace.Some? && patch.namespace.value != "" ==>
          |patch.namespace.value| <= 100 && NamespacePattern(patch.namespace.value))
    && Within(patch.name, 255) && (patch.name.Some? ==> NamePattern(patch.name.value))
    && (patch.aliases.Some? ==> ValidAliases(patch.aliases.value))
    && Within(patch.description, 4000) && Within(patch.author, 255)
    && Within(patch.category, 50) && (patch.category.Some? ==> NamePattern(patch.category.value))
    && Within(patch.repository, 2048) && Within(patch.license, 50)
    && (patch.tags.Some? ==> ValidTags(patch.tags.value))
  }

  function Or<T>(value: Option<T>, otherwise: T): T {
    if value.Some? then value.value else otherwise
  }

  function Patched(p: Plugin, patch: PluginPatch): Plugin {
    p.(namespace := Or(patch.namespace, p.namespace), name := Or(patch.name, p.name),
       aliases := Or(patch.aliases, p.aliases),
       description := Or(patch.description, p.description), author := Or(patch.author, p.author),
       category := Or(patch.category, p.category), repository := Or(patch.repository, p.repository),
       license := Or(patch.license, p.license), tags := Or(patch.tags, p.tags))
  }

  // ----- the writes ----------------------------------------------------------------------------------------

  /** A draft as the service would store it. */
  function Prepared(plugin: Plugin, parse: UrlParser, rules: VersionRules): Plugin {
    FirstParty(Tidy(plugin, rules), parse)
  }

  function ActiveDraft(plugin: Plugin, parse: UrlParser, rules: VersionRules): Plugin {
    var p := Prepared(plugin, parse, rules);
    p.(status := if p.status == "" then ACTIVE else p.status)
  }

  /** Publishing the draft's own versions one by one, until one fails. */
  function VersionsAdded(s: Store, vs: seq<PluginVersion>, id: int, now: int): (Store, Result<()>)
    decreases |vs|
  {
    if vs == [] then (s, Ok(()))
    else
      var (s', r) := VersionAdded(s, vs[0].(pluginId := id), now, NoFault);
      if r.Err? then (s', Err(r.error)) else VersionsAdded(s', vs[1..], id, now)
  }

  function LiveOrNot(s: Store, id: int): Result<Plugin> {
    if IsLive(s, id) then Ok(Refreshed(s.plugins[id])) else Err(NotFound)
  }

  ghost function PluginCreated(s: Store, plugin: Plugin, parse: UrlParser, rules: VersionRules, now: int, fault: Fault)
    : (Store, Result<Plugin>)
  {
    var p := ActiveDraft(plugin, parse, rules);
    if !ValidPlugin(p, rules) then (s, Err(Invalid))
    else
      var (s1, created) := Created(s, p, now, fault);
      if created.Err? then (s1, Err(created.error))
      else
        var (s2, added) := VersionsAdded(s1, p.versions, created.value, now);
        if added.Err? then (s2, Err(added.error)) else (s2, LiveOrNot(s2, created.value))
  }

  ghost function PluginSubmitted(s: Store, plugin: Plugin, parse: UrlParser, rules: VersionRules, now: int,
                                 fault: Fault)
    : (Store, Result<Plugin>)
  {
    var p := Prepared(plugin, parse, rules).(status := PENDING);
    if !ValidPlugin(p, rules) then (s, Err(Invalid))
    else
      var (s1, created) := Created(s, p, now, fault);
      if created.Err? then (s1, Err(created.error)) else (s1, LiveOrNot(s1, created.value))
  }

  ghost function PluginUpdated(s: Store, order: seq<int>, ref: string, patch: PluginPatch, parse: UrlParser,
                               rules: VersionRules,
                               fault: Fault): (Store, Result<Plugin>)
    requires forall i :: 0 <= i < |order| ==> order[i] in s.plugins
  {
    var tidy := TidyPatch(patch);
    if Trim(ref) == "" || tidy.Empty() || !ValidPatch(tidy) then (s, Err(Invalid))
    else
      var found := LookedUp(s, order, ref);
      if found.Err? then (s, found)
      else
        var patched := Patched(found.value, tidy);
        var p := FirstParty(patched, parse);
        var check := FirstPartyByRepositoryURL(patched.repository, parse).Some? || tidy.Identifying();
        if check && !ValidPlugin(p, rules) then (s, Err(Invalid))
        else
          var (s', updated) := Updated(s, p, fault);
          if updated.Err? then (s', Err(updated.error)) else (s', LiveOrNot(s', p.id))
  }

  ghost function PluginDeleted(s: Store, order: seq<int>, ref: string, now: int, fault: Fault): (Store, Result<()>)
    requires forall i :: 0 <= i < |order| ==> order[i] in s.plugins
  {
    if Trim(ref) == "" then (s, Err(Invalid))
    else
      var found := LookedUp(s, order, ref);
      if found.Err? then (s, Err(found.error)) else Deleted(s, PluginDeletion(found.value.id, false, false), now, fault)
  }

  class PluginManager {
    const repo: FileRepository
    const parse: UrlParser
    const rules: VersionRules

    constructor (repo: FileRepository, parse: UrlParser, rules: VersionRules)
      ensures this.repo == repo && this.parse == parse && this.rules == rules
    {
      this.repo, this.parse, this.rules := repo, parse, rules;
    }

    method CreatePlugin(plugin: Plugin, order: seq<int>, now: int, fault: Fault) returns (r: Result<Plugin>)
      requires IsListing(order, repo.plugins) && forall id :: id in repo.plugins ==> repo.plugins[id].id == id
      modifies repo
      ensures (repo.View(), r) == PluginCreated(old(repo.View()), plugin, parse, rules, now, fault)
    {
      hide Tidy, FirstParty, ValidPlugin, Created, VersionAdded, Refreshed;
      var p := NormalizePlugin(plugin, rules);
      var firstParty;
      p, firstParty := NormalizeFirstPartyPlugin(p, parse);
      if p.status == "" {
        p := p.(status := ACTIVE);
      }
      var valid := ValidatePlugin(p, rules);
      if !valid {
        return Err(Invalid);
      }
      ghost var s := repo.View();
      CreatedKeepsIds(s, p, now, fault);
      var id := repo.Create(p, order, now, fault);
      if id.Err? {
        return Err(id.error);
      }
      ghost var s1 := repo.View();
      var vs := p.versions;
      for i := 0 to |vs|
        invariant VersionsAdded(s1, vs, id.value, now) == VersionsAdded(repo.View(), vs[i..], id.value, now)
        invariant forall id :: id in repo.plugins ==> repo.plugins[id].id == id
      {
        AddedKeepsIds(repo.View(), vs[i].(pluginId := id.value), now);
        var added := repo.AddVersion(vs[i].(pluginId := id.value), now, NoFault);
        assert vs[i..][1..] == vs[i + 1..];
        if added.Err? {
          return Err(added.error);
        }
      }
      r := repo.LoadLive(id.value);
    }

    method SubmitPlugin(plugin: Plugin, order: seq<int>, now: int, fault: Fault) returns (r: Result<Plugin>)
      requires IsListing(order, repo.plugins) && forall id :: id in repo.plugins ==> repo.plugins[id].id == id
      modifies repo
      ensures (repo.View(), r) == PluginSubmitted(old(repo.View()), plugin, parse, rules, now, fault)
    {
      hide Tidy, FirstParty, ValidPlugin, Created, Refreshed;
      var p := NormalizePlugin(plugin, rules);
      var firstParty;
      p, firstParty := NormalizeFirstPartyPlugin(p, parse);
      p := p.(status := PENDING);
      var valid := ValidatePlugin(p, rules);
      if !valid {
        return Err(Invalid);
      }
      var id := repo.Create(p, order, now, fault);
      if id.Err? {
        return Err(id.error);
      }
      r := repo.LoadLive(id.value);
    }

    method NormalizePatch(patch: PluginPatch) returns (r: PluginPatch)
      ensures r == TidyPatch(patch)
    {
      hide Trim, Normalized, CleanTags;
      r := patch.(namespace := TrimPointer(patch.namespace), name := TrimPointer(patch.name));
      if patch.aliases.Some? {
        var aliases := NormalizeAliases(patch.aliases.value);
        r := r.(aliases := Some(aliases));
      }
      r := r.(description := TrimPointer(patch.description), author := TrimPointer(patch.author));
      r := r.(category := TrimPointer(patch.category), repository := TrimPointer(patch.repository));
      r := r.(license := TrimPointer(patch.license));
      if patch.tags.Some? {
        var tags := NormalizeTags(patch.tags.value);
        r := r.(tags := Some(tags));
      }
    }

    method ApplyPatch(plugin: Plugin, patch: PluginPatch) returns (p: Plugin)
      ensures p == Patched(plugin, patch)
    {
      p := plugin;
      if patch.namespace.Some? { p := p.(namespace := patch.namespace.value); }
      if patch.name.Some? { p := p.(name := patch.name.value); }
      if patch.aliases.Some? { p := p.(aliases := patch.aliases.value); }
      assert p == plugin.(namespace := p.namespace, name := p.name, aliases := p.aliases);
      p := ApplyDetails(p, patch);
    }

    method ApplyDetails(plugin: Plugin, patch: PluginPatch) returns (p: Plugin)
      ensures p == Patched(plugin, patch).(namespace := plugin.namespace, name := plugin.name,
                                           aliases := plugin.aliases)
    {
      p := plugin;
      if patch.description.Some? { p := p.(description := patch.description.value); }
      if patch.author.Some? { p := p.(author := patch.author.value); }
      if patch.category.Some? { p := p.(category := patch.category.value); }
      if patch.repository.Some? { p := p.(repository := patch.repository.value); }
      if patch.license.Some? { p := p.(license := patch.license.value); }
      if patch.tags.Some? { p := p.(tags := patch.tags.value); }
    }

    method UpdatePlugin(ref: string, patch: PluginPatch, order: seq<int>, fault: Fault) returns (r: Result<Plugin>)
      requires IsListing(order, repo.plugins) && forall id :: id in repo.plugins ==> repo.plugins[id].id == id
      modifies repo
      ensures (repo.View(), r) == PluginUpdated(old(repo.View()), order, ref, patch, parse, rules, fault)
    {
      hide TidyPatch, FirstParty, ValidPlugin, ValidPatch, Updated, Refreshed, LookedUp, Patched, Trim,
        FirstPartyByRepositoryURL;
      if Trim(ref) == "" {
        return Err(Invalid);
      }
      var tidy := NormalizePatch(patch);
      if tidy.Empty() || !ValidPatch(tidy) {
        return Err(Invalid);
      }
      r := LookupPlugin(repo, order, ref);
      if r.Err? {
        return;
      }
      var p := ApplyPatch(r.value, tidy);
      var firstParty;
      p, firstParty := NormalizeFirstPartyPlugin(p, parse);
      if firstParty || tidy.namespace.Some? || tidy.name.Some? || tidy.aliases.Some? || tidy.category.Some? ||
         tidy.repository.Some? {
        var valid := ValidatePlugin(p, rules);
        if !valid {
          return Err(Invalid);
        }
      }
      var updated := repo.Update(p, order, fault);
      if updated.Err? {
        return Err(updated.error);
      }
      r := repo.LoadLive(p.id);
    }

    method DeletePlugin(ref: string, order: seq<int>, now: int, fault: Fault) returns (r: Result<()>)
      requires IsListing(order, repo.plugins) && forall id :: id in repo.plugins ==> repo.plugins[id].id == id
      modifies repo
      ensures (repo.View(), r) == PluginDeleted(old(repo.View()), order, ref, now, fault)
    {
      hide Deleted, LookedUp, Trim;
      if Trim(ref) == "" {
        return Err(Invalid);
      }
      var found := LookupPlugin(repo, order, ref);
      if found.Err? {
        return Err(found.error);
      }
      r := repo.Delete(PluginDeletion(found.value.id, false, false), now, fault);
    }
  }

  lemma CreatedKeepsIds(s: Store, p: Plugin, now: int, fault: Fault)
    requires forall id :: id in s.plugins ==> s.plugins[id].id == id
    ensures var t := Created(s, p, now, fault).0; forall id :: id in t.plugins ==> t.plugins[id].id == id
  {
    hide MayClaim, Normalized;
  }

  lemma AddedKeepsIds(s: Store, v: PluginVersion, now: int)
    requires forall id :: id in s.plugins ==> s.plugins[id].id == id
    ensures var t := VersionAdded(s, v, now, NoFault).0; forall id :: id in t.plugins ==> t.plugins[id].id == id
  {
    hide SortVersions, Sort;
  }
}
