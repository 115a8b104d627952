/** Whole runs of the service writes: first-party identities, and every stored plugin reachable by its references. */
module ServiceRuns {
  import opened Text
  import opened Sorting
  import opened Models
  import opened Releases
  import opened Identity
  import opened Ownership
  import opened Naming
  import opened FileStore
  import opened StoreInvariant
  import opened Lookup
  import opened PluginService
  import StoreRuns

  // ----- first-party identities ------------------------------------------------------------------------------

  /** A plugin of an allow-listed repository bears that repository's identity and all its historical aliases. */
  predicate Canonical(p: Plugin, parse: UrlParser) {
    match FirstPartyByRepositoryURL(p.repository, parse)
    case None => true
    case Some(c) =>
      p.namespace == NAMESPACE && p.name == c.name && p.category == c.category && Covers(p.aliases, c.aliases)
  }

  predicate Covers(aliases: seq<string>, required: seq<string>) {
    forall i :: 0 <= i < |required| && Fold(required[i]) != "" ==> Fold(required[i]) in Folds(aliases)
  }

  lemma NormalizedCovers(required: seq<string>, aliases: seq<string>)
    ensures Covers(Normalized(required + aliases), required)
  {
    hide Fold, Normalized;
    var all := required + aliases;
    NormalizedIsClean(all);
    forall i | 0 <= i < |required| && Fold(required[i]) != ""
      ensures Fold(required[i]) in Folds(Normalized(all))
    {
      assert all[i] == required[i] && Folds(all)[i] == Fold(required[i]);
    }
  }

  lemma CoversStill(required: seq<string>, aliases: seq<string>)
    requires Covers(aliases, required)
    ensures Covers(Normalized(aliases), required)
  {
    hide Fold, Normalized;
    NormalizedIsClean(aliases);
  }

  lemma FirstPartyIsCanonical(p: Plugin, parse: UrlParser)
    ensures Canonical(FirstParty(p, parse), parse)
  {
    hide FirstPartyByRepositoryURL, Normalized, Covers;
    match FirstPartyByRepositoryURL(p.repository, parse)
    case None =>
    case Some(c) => NormalizedCovers(c.aliases, p.aliases);
  }

  /** The normaliser is idempotent, aliases included, for any input. */
  lemma FirstPartyTwice(p: Plugin, parse: UrlParser)
    ensures FirstParty(FirstParty(p, parse), parse) == FirstParty(p, parse)
  {
    hide FirstPartyByRepositoryURL, Normalized;
    match FirstPartyByRepositoryURL(p.repository, parse)
    case None =>
    case Some(c) => NormalizedAgain(c.aliases, p.aliases);
  }

  // ----- the invariant ---------------------------------------------------------------------------------------------

  ghost predicate RecordOk(p: Plugin, parse: UrlParser) {
    Canonical(p, parse) && ValidIdentity(p) && ValidAliases(p.aliases)
  }

  ghost predicate ServiceInv(s: Store, parse: UrlParser) {
    Identified(s) && forall id :: id in s.plugins ==> RecordOk(s.plugins[id], parse)
  }

  /** The part of a record that the invariant looks at. */
  predicate SameCore(p: Plugin, q: Plugin) {
    && p.namespace == q.namespace && p.name == q.name && p.aliases == q.aliases
    && p.category == q.category && p.repository == q.repository
  }

  lemma SameCoreOk(p: Plugin, q: Plugin, parse: UrlParser)
    requires RecordOk(p, parse) && SameCore(p, q)
    ensures RecordOk(q, parse)
  {
    hide FirstPartyByRepositoryURL, Covers, NamespacePattern, NamePattern, ValidAliases;
  }

  lemma ReadIsOk(p: Plugin, parse: UrlParser)
    requires RecordOk(p, parse)
    ensures RecordOk(Refreshed(p), parse)
  {
    hide RecordOk, SortVersions;
    RefreshedParts(p);
    SameCoreOk(p, Refreshed(p), parse);
  }

  /** Cleaning valid aliases up keeps them valid: it drops and rearranges them. */
  lemma NormalizedAreValid(aliases: seq<string>)
    requires ValidAliases(aliases)
    ensures ValidAliases(Normalized(aliases))
  {
    hide AliasPattern, Normalized, Lower, Trim, Deduplicated;
    var r := Normalized(aliases);
    NormalizedMembers(aliases);
    forall i | 0 <= i < |r|
      ensures |r[i]| <= 356 && AliasPattern(r[i])
    {
      assert r[i] in r;
      DeduplicatedMembers(aliases, r[i]);
      var k :| 0 <= k < |aliases| && Leads(aliases, k, r[i]);
      AliasIsTrimmed(aliases[k]);
      TrimIsTrimmed(aliases[k]);
    }
  }

  lemma AliasIsTrimmed(a: string)
    requires AliasPattern(a)
    ensures Trimmed(a)
  {
  }

  /** What validation accepts is stored in good order. */
  lemma StoredIsOk(p: Plugin, q: Plugin, parse: UrlParser)
    requires Canonical(p, parse) && ValidIdentity(p) && ValidAliases(p.aliases)
    requires SameCore(q, p.(aliases := Normalized(p.aliases)))
    ensures RecordOk(q, parse)
  {
    hide FirstPartyByRepositoryURL, Covers, NamespacePattern, NamePattern, ValidAliases, Normalized;
    NormalizedAreValid(p.aliases);
    match FirstPartyByRepositoryURL(p.repository, parse)
    case None =>
    case Some(c) => CoversStill(c.aliases, p.aliases);
  }

  lemma ValidatedParts(p: Plugin, rules: VersionRules)
    requires ValidPlugin(p, rules)
    ensures ValidIdentity(p) && ValidAliases(p.aliases)
  {
  }

  lemma OneRecordOk(s: Store, t: Store, id: int, parse: UrlParser)
    requires ServiceInv(s, parse) && Identified(t) && id in t.plugins && RecordOk(t.plugins[id], parse)
    requires t.plugins == s.plugins[id := t.plugins[id]]
    ensures ServiceInv(t, parse)
  {
    hide Identified, RecordOk;
  }

  // ----- the writes ----------------------------------------------------------------------------------------

  lemma CreatedIsOk(s: Store, p: Plugin, parse: UrlParser, rules: VersionRules, now: int, fault: Fault)
    requires ServiceInv(s, parse) && ValidPlugin(p, rules) && Canonical(p, parse)
    ensures ServiceInv(Created(s, p, now, fault).0, parse)
  {
    hide Identified, MayClaim, RecordOk, ValidPlugin, Canonical, ValidAliases, ValidIdentity, Normalized, Owners, Keys;
    var (t, r) := Created(s, p, now, fault);
    CreateClaims(s, p, now, fault);
    if r.Ok? {
      ValidatedParts(p, rules);
      StoredIsOk(p, t.plugins[r.value], parse);
      OneRecordOk(s, t, r.value, parse);
    }
  }

  /** Any draft, with or without versions or a deletion date, keeps the invariant. */
  lemma CreateKeepsInv(s: Store, plugin: Plugin, parse: UrlParser, rules: VersionRules, now: int, fault: Fault)
    requires ServiceInv(s, parse)
    ensures ServiceInv(PluginCreated(s, plugin, parse, rules, now, fault).0, parse)
    ensures ServiceInv(PluginSubmitted(s, plugin, parse, rules, now, fault).0, parse)
  {
    hide ServiceInv, ValidPlugin, Created, Refreshed, FirstPartyByRepositoryURL, Covers, Trim, Normalized, CleanTags,
      Tidy;
    FirstPartyIsCanonical(Tidy(plugin, rules), parse);
    var p := ActiveDraft(plugin, parse, rules);
    var q := Prepared(plugin, parse, rules).(status := PENDING);
    assert Canonical(p, parse) && Canonical(q, parse);
    hide FirstParty, Canonical;
    assert ServiceInv(s, parse) ==> Identified(s) by { ServiceIdentifies(s, parse); }
    CreateStores(s, plugin, parse, rules, now, fault);
    if ValidPlugin(p, rules) {
      CreatedIsOk(s, p, parse, rules, now, fault);
    }
    if ValidPlugin(q, rules) {
      CreatedIsOk(s, q, parse, rules, now, fault);
    }
  }

  lemma ServiceIdentifies(s: Store, parse: UrlParser)
    requires ServiceInv(s, parse)
    ensures Identified(s)
  {
  }

  // ----- drafts that bring versions ------------------------------------------------------------------------

  lemma HasOwnVersion(p: Plugin, v: PluginVersion)
    requires v in p.versions
    ensures HasVersion(Refreshed(p), v.version)
  {
    hide Refreshed;
    StoreRuns.ReadMembers(p);
    assert v in Refreshed(p).versions;
    var i :| 0 <= i < |Refreshed(p).versions| && Refreshed(p).versions[i] == v;
  }

  /** Publishing a draft's versions after storing them fails at the first one. */
  lemma VersionsNeverGoIn(s: Store, p: Plugin, id: int, now: int)
    requires id in s.plugins && s.plugins[id].versions == p.versions && p.versions != []
    ensures var (t, r) := VersionsAdded(s, p.versions, id, now);
      t == s && r.Err? && (IsLive(s, id) ==> r == Err(Duplicate))
  {
    hide Refreshed, HasVersion;
    HasOwnVersion(s.plugins[id], p.versions[0]);
  }

  lemma DraftStays(plugin: Plugin, parse: UrlParser, rules: VersionRules)
    ensures var p := ActiveDraft(plugin, parse, rules); p.Live() == plugin.Live() && |p.versions| == |plugin.versions|
  {
    hide FirstPartyByRepositoryURL, Trim, Normalized, CleanTags, TidyVersion;
  }

  /** Whatever the outcome, creating stores the draft or nothing. */
  lemma CreateStores(s: Store, plugin: Plugin, parse: UrlParser, rules: VersionRules, now: int, fault: Fault)
    requires Identified(s)
    ensures var p := ActiveDraft(plugin, parse, rules);
      PluginCreated(s, plugin, parse, rules, now, fault).0 ==
      if ValidPlugin(p, rules) then Created(s, p, now, fault).0 else s
  {
    hide Identified, ValidPlugin, MayClaim, Refreshed, ActiveDraft, Normalized, VersionAdded;
    var p := ActiveDraft(plugin, parse, rules);
    var (s1, created) := Created(s, p, now, fault);
    if created.Ok? && p.versions != [] {
      VersionsNeverGoIn(s1, p, created.value, now);
    }
  }

  /** Creating a plugin together with versions never succeeds: the record is stored with them, and publishing the
      first one then finds it taken. The stored record stays behind. */
  lemma DraftVersionsAlwaysFail(s: Store, plugin: Plugin, parse: UrlParser, rules: VersionRules, now: int, fault: Fault)
    requires Identified(s) && plugin.versions != []
    ensures var (t, r) := PluginCreated(s, plugin, parse, rules, now, fault);
      var (stored, created) := Created(s, ActiveDraft(plugin, parse, rules), now, fault);
      r.Err? &&
      (ValidPlugin(ActiveDraft(plugin, parse, rules), rules) && created.Ok? ==>
         t == stored && s.nextPluginId in t.plugins && s.nextPluginId !in s.plugins &&
         (plugin.Live() ==> r == Err(Duplicate)))
  {
    hide Identified, ValidPlugin, MayClaim, Refreshed, ActiveDraft, Normalized, VersionAdded;
    var p := ActiveDraft(plugin, parse, rules);
    DraftStays(plugin, parse, rules);
    var (s1, created) := Created(s, p, now, fault);
    if ValidPlugin(p, rules) && created.Ok? {
      NobodyIs(s, created.value);
      VersionsNeverGoIn(s1, p, created.value, now);
    }
  }

  /** CreatePlugin succeeds if and only if the draft brings no versions, is live and valid, no write fails, and its
      references are distinct and unowned. */
  lemma CreateSucceedsExactly(s: Store, plugin: Plugin, parse: UrlParser, rules: VersionRules, now: int, fault: Fault)
    requires Identified(s)
    ensures var p := ActiveDraft(plugin, parse, rules);
      var keys := Keys(p.(aliases := Normalized(p.aliases)));
      PluginCreated(s, plugin, parse, rules, now, fault).1.Ok? <==>
        plugin.versions == [] && plugin.Live() && ValidPlugin(p, rules) && fault.NoFault? && Distinct(keys) &&
        forall k :: k in keys ==> k !in Owners(s.plugins)
  {
    hide Identified, ValidPlugin, MayClaim, Refreshed, ActiveDraft, Normalized, VersionAdded, Keys, Owners;
    var p := ActiveDraft(plugin, parse, rules);
    DraftStays(plugin, parse, rules);
    CreateClaims(s, p, now, fault);
    if plugin.versions != [] {
      DraftVersionsAlwaysFail(s, plugin, parse, rules, now, fault);
    }
  }

  lemma UpdatedIsOk(s: Store, p: Plugin, parse: UrlParser, fault: Fault)
    requires ServiceInv(s, parse) && Canonical(p, parse) && ValidIdentity(p) && ValidAliases(p.aliases)
    ensures ServiceInv(Updated(s, p, fault).0, parse)
  {
    hide Identified, MayClaim, RecordOk, Canonical, ValidAliases, ValidIdentity, Normalized, Owners, Keys, Refreshed;
    var (t, r) := Updated(s, p, fault);
    UpdateClaims(s, p, fault);
    if r.Ok? {
      StoredIsOk(p, t.plugins[p.id], parse);
      OneRecordOk(s, t, p.id, parse);
    }
  }

  /** A patch that leaves the identity alone, of a plugin that is not first-party, leaves a sound record sound. */
  lemma UnidentifyingPatch(p: Plugin, patch: PluginPatch, parse: UrlParser)
    requires RecordOk(p, parse) && !patch.Identifying() && FirstPartyByRepositoryURL(p.repository, parse).None?
    ensures FirstParty(Patched(p, patch), parse) == Patched(p, patch) && RecordOk(Patched(p, patch), parse)
  {
    hide FirstPartyByRepositoryURL, Covers, NamespacePattern, NamePattern, ValidAliases;
  }

  lemma FoundIsStored(s: Store, order: seq<int>, ref: string)
    requires Identified(s) && IsListing(order, s.plugins)
    ensures match LookedUp(s, order, ref)
      case Ok(p) => IsLive(s, p.id) && p == Refreshed(s.plugins[p.id])
      case Err(e) => e == NotFound
  {
    hide UniqueIdentities, VersionIdsGlobal, VersionsOk, Refreshed, Atoi, Found, IsListing, Fold, Folds, Addressable;
    match RouteOf(Trim(ref))
    case ById(id) =>
      if IsLive(s, id) {
        RefreshedIdentity(s.plugins[id]);
      }
    case ByName(namespace, name) => LookupIsOwnership(s, order, ref);
  }

  lemma UpdateKeepsInv(s: Store, order: seq<int>, ref: string, patch: PluginPatch, parse: UrlParser,
                       rules: VersionRules, fault: Fault)
    requires ServiceInv(s, parse) && IsListing(order, s.plugins)
    ensures ServiceInv(PluginUpdated(s, order, ref, patch, parse, rules, fault).0, parse)
  {
    hide Identified, RecordOk, LookedUp, Refreshed, FirstPartyByRepositoryURL, Covers, Updated, ValidPlugin, ValidPatch,
      TidyPatch, FirstParty, Trim, Patched, ValidIdentity, ValidAliases;
    var tidy := TidyPatch(patch);
    FoundIsStored(s, order, ref);
    var found := LookedUp(s, order, ref);
    if found.Ok? {
      var patched := Patched(found.value, tidy);
      var p := FirstParty(patched, parse);
      ReadIsOk(s.plugins[found.value.id], parse);
      FirstPartyIsCanonical(patched, parse);
      if ValidPlugin(p, rules) {
        ValidatedParts(p, rules);
        UpdatedIsOk(s, p, parse, fault);
      }
      if !tidy.Identifying() && FirstPartyByRepositoryURL(patched.repository, parse).None? {
        assert patched.repository == found.value.repository by { UnpatchedRepository(found.value, tidy); }
        UnidentifyingPatch(found.value, tidy, parse);
        SoundParts(p, parse);
        UpdatedIsOk(s, p, parse, fault);
      }
    }
  }

  lemma UnpatchedRepository(p: Plugin, patch: PluginPatch)
    requires !patch.Identifying()
    ensures Patched(p, patch).repository == p.repository
  {
  }

  lemma SoundParts(p: Plugin, parse: UrlParser)
    requires RecordOk(p, parse)
    ensures Canonical(p, parse) && ValidIdentity(p) && ValidAliases(p.aliases)
  {
  }

  // ----- operations that leave identities alone ------------------------------------------------------------

  /** Writes on versions and counters, and deletions, by id. */
  predicate Plain(op: StoreRuns.Op) {
    op.Delete? || op.AddVersion? || op.DeleteVersion? || op.SetYank? || op.IncrCounters?
  }

  /** Nothing but this record differs, and its identity, category and repository do not. */
  predicate OnlyRecord(s: Store, t: Store, id: int) {
    && id in s.plugins && id in t.plugins && t.plugins == s.plugins[id := t.plugins[id]]
    && SameCore(s.plugins[id], t.plugins[id])
  }

  lemma PlainKeepsCore(s: Store, op: StoreRuns.Op)
    requires Plain(op) && StoreRuns.Allowed(s, op)
    ensures var t := StoreRuns.After(s, op);
      t.plugins == s.plugins || exists id :: OnlyRecord(s, t, id)
  {
    hide SortVersions, Sort, LiveVersionIndex, VersionIndex, VersionCounted, Cascaded;
    var t := StoreRuns.After(s, op);
    if t.plugins != s.plugins {
      var id := match op
        case AddVersion(version, now, fault) => version.pluginId
        case SetYank(yank, now, fault) => yank.pluginId
        case Delete(deletion, now, fault) => deletion.pluginId
        case IncrCounters(pluginId, versionId, views, downloads, fault) => pluginId
        case DeleteVersion(pluginId, versionId, now, fault) => pluginId;
      RefreshedParts(s.plugins[id]);
      hide Refreshed;
      assert OnlyRecord(s, t, id);
    }
  }

  lemma PlainKeepsInv(s: Store, op: StoreRuns.Op, parse: UrlParser)
    requires ServiceInv(s, parse) && Plain(op) && StoreRuns.Allowed(s, op)
    ensures ServiceInv(StoreRuns.After(s, op), parse)
  {
    hide Identified, RecordOk, SameCore, StoreRuns.After;
    var t := StoreRuns.After(s, op);
    StoreRuns.StepKeepsIdentities(s, op);
    PlainKeepsCore(s, op);
    if t.plugins != s.plugins {
      var id :| OnlyRecord(s, t, id);
      SameCoreOk(s.plugins[id], t.plugins[id], parse);
      OneRecordOk(s, t, id, parse);
    }
  }

  // ----- whole runs ----------------------------------------------------------------------------------------

  datatype ServiceOp =
    | CreatePlugin(plugin: Plugin, now: int, fault: Fault)
    | SubmitPlugin(plugin: Plugin, now: int, fault: Fault)
    | UpdatePlugin(order: seq<int>, ref: string, patch: PluginPatch, fault: Fault)
    | DeletePlugin(order: seq<int>, ref: string, now: int, fault: Fault)
    | OnStore(op: StoreRuns.Op)

  ghost predicate Allowed(s: Store, op: ServiceOp) {
    match op
    case CreatePlugin(_, _, _) => true
    case SubmitPlugin(_, _, _) => true
    case UpdatePlugin(order, _, _, _) => IsListing(order, s.plugins)
    case DeletePlugin(order, _, _, _) => IsListing(order, s.plugins)
    case OnStore(op) => Plain(op) && StoreRuns.Allowed(s, op)
  }

  ghost function After(s: Store, op: ServiceOp, parse: UrlParser, rules: VersionRules): Store
    requires Allowed(s, op)
  {
    match op
    case CreatePlugin(plugin, now, fault) => PluginCreated(s, plugin, parse, rules, now, fault).0
    case SubmitPlugin(plugin, now, fault) => PluginSubmitted(s, plugin, parse, rules, now, fault).0
    case UpdatePlugin(order, ref, patch, fault) => PluginUpdated(s, order, ref, patch, parse, rules, fault).0
    case DeletePlugin(order, ref, now, fault) => PluginDeleted(s, order, ref, now, fault).0
    case OnStore(op) => StoreRuns.After(s, op)
  }

  ghost predicate Run(states: seq<Store>, ops: seq<ServiceOp>, parse: UrlParser, rules: VersionRules) {
    && |states| == |ops| + 1 && states[0] == EMPTY
    && forall i :: 0 <= i < |ops| ==>
         Allowed(states[i], ops[i]) && states[i + 1] == After(states[i], ops[i], parse, rules)
  }

  lemma DeleteKeepsInv(s: Store, order: seq<int>, ref: string, now: int, fault: Fault, parse: UrlParser)
    requires ServiceInv(s, parse) && IsListing(order, s.plugins)
    ensures ServiceInv(PluginDeleted(s, order, ref, now, fault).0, parse)
  {
    hide ServiceInv, LookedUp, Deleted, Trim;
    var found := LookedUp(s, order, ref);
    if found.Ok? {
      PlainKeepsInv(s, StoreRuns.Delete(PluginDeletion(found.value.id, false, false), now, fault), parse);
    }
  }

  lemma StepKeepsInv(s: Store, op: ServiceOp, parse: UrlParser, rules: VersionRules)
    requires ServiceInv(s, parse) && Allowed(s, op)
    ensures ServiceInv(After(s, op, parse, rules), parse)
  {
    hide ServiceInv, PluginCreated, PluginSubmitted, PluginUpdated, PluginDeleted, StoreRuns.After;
    match op
    case CreatePlugin(plugin, now, fault) => CreateKeepsInv(s, plugin, parse, rules, now, fault);
    case SubmitPlugin(plugin, now, fault) => CreateKeepsInv(s, plugin, parse, rules, now, fault);
    case UpdatePlugin(order, ref, patch, fault) => UpdateKeepsInv(s, order, ref, patch, parse, rules, fault);
    case DeletePlugin(order, ref, now, fault) => DeleteKeepsInv(s, order, ref, now, fault, parse);
    case OnStore(op) => PlainKeepsInv(s, op, parse);
  }

  /** In every state that the service can reach, every stored plugin with a first-party repository URL bears the
      canonical namespace, name and category and covers all canonical aliases, every identity is well-formed, and
      the identity rule holds. */
  lemma {:induction false} RunKeepsInv(states: seq<Store>, ops: seq<ServiceOp>, parse: UrlParser,
                                       rules: VersionRules, i: nat)
    requires Run(states, ops, parse, rules) && i <= |ops|
    ensures ServiceInv(states[i], parse)
  {
    hide After, RecordOk;
    if i == 0 {
      EmptyInv();
    } else {
      RunKeepsInv(states, ops, parse, rules, i - 1);
      StepKeepsInv(states[i - 1], ops[i - 1], parse, rules);
    }
  }

  lemma ValidOwnersAreReached(s: Store, parse: UrlParser, ref: string, id: int)
    requires ServiceInv(s, parse)
    ensures Reaches(s.plugins, ref, id) <==> Owns(s.plugins, Fold(ref), id)
  {
    hide Lower, Trim, Addressable, NamePattern, NamespacePattern, ValidAliases, Canonical, Reaches, Keys, Identified;
    ReachesIsOwnership(s.plugins, ref, id);
    if Owns(s.plugins, Fold(ref), id) {
      assert RecordOk(s.plugins[id], parse);
      ValidIsAddressable(s.plugins[id]);
    }
  }

  /** Lookup is the claim map: a reference that is not an integer resolves to the plugin that owns its folding, and
      to nothing if nobody does, whatever the directory order. */
  lemma LookupIsTheClaimMap(s: Store, parse: UrlParser, order: seq<int>, ref: string)
    requires ServiceInv(s, parse) && IsListing(order, s.plugins) && RouteOf(Trim(ref)).ByName?
    ensures var owners := Owners(s.plugins);
      if Fold(ref) in owners
      then owners[Fold(ref)] in s.plugins && LookedUp(s, order, ref) == Ok(Refreshed(s.plugins[owners[Fold(ref)]]))
      else LookedUp(s, order, ref) == Err(NotFound)
  {
    hide LookedUp, Refreshed, Identified, RouteOf, Owners, Trim, RecordOk, Reaches, Lower;
    FoldOfTrimmed(ref);
    LookupIsOwnership(s, order, ref);
    assert UniqueIdentities(s.plugins) by { UniqueInside(s); }
    if Fold(ref) in Owners(s.plugins) {
      var id := Owners(s.plugins)[Fold(ref)];
      OwnersAreOwns(s.plugins, Fold(ref), id);
      ValidOwnersAreReached(s, parse, Trim(ref), id);
    }
    var r := LookedUp(s, order, ref);
    if r.Ok? {
      ValidOwnersAreReached(s, parse, Trim(ref), r.value.id);
      OwnersAreOwns(s.plugins, Fold(ref), r.value.id);
    }
  }

  lemma UniqueInside(s: Store)
    requires Identified(s)
    ensures UniqueIdentities(s.plugins)
  {
  }

  /** And so it is in every state of every run of the service. */
  lemma EveryRunAnswersFromTheClaimMap(states: seq<Store>, ops: seq<ServiceOp>, parse: UrlParser,
                                       rules: VersionRules, i: nat,
                                       order: seq<int>, ref: string)
    requires Run(states, ops, parse, rules) && i <= |ops|
    requires IsListing(order, states[i].plugins) && RouteOf(Trim(ref)).ByName?
    ensures var owners := Owners(states[i].plugins);
      if Fold(ref) in owners
      then owners[Fold(ref)] in states[i].plugins &&
           LookedUp(states[i], order, ref) == Ok(Refreshed(states[i].plugins[owners[Fold(ref)]]))
      else LookedUp(states[i], order, ref) == Err(NotFound)
  {
    hide After, ServiceInv, LookedUp, Refreshed, Owners, RouteOf, Fold, Trim;
    RunKeepsInv(states, ops, parse, rules, i);
    LookupIsTheClaimMap(states[i], parse, order, ref);
  }

  /** At most one live plugin exists per first-party repository, however the URL is spelled. */
  lemma OneLivePerRepository(s: Store, parse: UrlParser, a: int, b: int)
    requires ServiceInv(s, parse) && IsLive(s, a) && IsLive(s, b)
    requires FirstPartyByRepositoryURL(s.plugins[a].repository, parse).Some?
    requires FirstPartyByRepositoryURL(s.plugins[a].repository, parse) ==
      FirstPartyByRepositoryURL(s.plugins[b].repository, parse)
    ensures a == b
  {
    hide FirstPartyByRepositoryURL, Covers, NamePattern, ValidAliases, Lower, UniqueIdentities, VersionIdsGlobal;
    var p, q := s.plugins[a], s.plugins[b];
    assert RecordOk(p, parse) && RecordOk(q, parse);
    assert p.Ref() == q.Ref();
    assert Lower(p.Ref()) == Keys(p)[0] && Lower(q.Ref()) == Keys(q)[0];
    OneOwner(s.plugins, Lower(p.Ref()), a, b);
  }

  /** A live first-party plugin is what its canonical reference and every historical alias resolve to. */
  lemma CanonicalRefsResolve(s: Store, parse: UrlParser, order: seq<int>, id: int, ref: string)
    requires ServiceInv(s, parse) && IsListing(order, s.plugins) && IsLive(s, id) && RouteOf(Trim(ref)).ByName?
    requires var c := FirstPartyByRepositoryURL(s.plugins[id].repository, parse);
      c.Some? && Fold(ref) != "" &&
      (Fold(ref) == Lower(NAMESPACE + "/" + c.value.name) || Fold(ref) in Folds(c.value.aliases))
    ensures LookedUp(s, order, ref) == Ok(Refreshed(s.plugins[id]))
  {
    hide FirstPartyByRepositoryURL, NamePattern, ValidAliases, LookedUp, Refreshed, IsListing, Fold, Lower, Identified,
      RouteOf, ValidIdentity;
    var p := s.plugins[id];
    var c := FirstPartyByRepositoryURL(p.repository, parse).value;
    assert RecordOk(p, parse);
    if Fold(ref) in Folds(c.aliases) {
      var i :| 0 <= i < |c.aliases| && Folds(c.aliases)[i] == Fold(ref);
      assert Fold(c.aliases[i]) in Folds(p.aliases);
    } else {
      assert p.Ref() == NAMESPACE + "/" + c.name;
    }
    OwnersAreFound(s, order, ref, id);
  }

  /** In every reachable state a live plugin resolves from its own reference if and only if that is namespaced, or not
      a number, or a number beyond 64 bits, or the plugin's own id. */
  lemma ReachableExactly(s: Store, parse: UrlParser, order: seq<int>, id: int)
    requires ServiceInv(s, parse) && IsListing(order, s.plugins) && IsLive(s, id)
    ensures var p := s.plugins[id];
      LookedUp(s, order, p.Ref()) == Ok(Refreshed(p)) <==>
      p.namespace != "" || !AllDigits(p.name) || NatValue(p.name) > MAX_INT64 || NatValue(p.name) == id
  {
    hide LookedUp, Refreshed, IsListing, Lower, Identified, RouteOf, NamePattern, NamespacePattern, Addressable,
      Trim, ValidAliases, Canonical;
    var p := s.plugins[id];
    assert RecordOk(p, parse);
    ValidIsAddressable(p);
    ValidRouting(p);
    if p.namespace != "" || !AllDigits(p.name) || NatValue(p.name) > MAX_INT64 {
      OwnersAreFound(s, order, p.Ref(), id);
    } else {
      NumberIsAnId(s, order, p);
      StoredUnderItsId(s, id);
      RefreshedIdentity(p);
      var other := NatValue(p.name);
      if IsLive(s, other) {
        StoredUnderItsId(s, other);
        RefreshedIdentity(s.plugins[other]);
      }
    }
  }
}
