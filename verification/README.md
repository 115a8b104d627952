# Verification of the registry's core

A Dafny model of the stateful core of the Go API: the file-backed plugin store with its lookup, seed import and
snapshot install; the service writes in front of it; first-party naming; semantic versions, ranges and advisory ranges;
the migration preflight; the rate limiter, the download deduplicator and the session revocation list; the metrics
recorder; and the release sync. `dafny verify dfyconfig.toml` checks everything.

Code that changes state step by step is a class or a method with loops, and each of its methods is proved equal to a
function on values (`Created`, `Applied`, `Take`, `Next`, ...). The properties are lemmas about those functions, over
all inputs, all runs or all interleavings. What each function computes is also said without it: the lemmas named
`...Exactly`, many of them in the modules `StoreEffects`, `ServiceEffects`, `SeedEffects`, `SyncEffects` and
`SemverSpelling`, describe every write field by field, every acceptance by its exact condition and every constant by its
value. The main results:

- **References.** In every state the service can reach, resolving a reference is reading one map from folded references
  to owners, whatever the directory order (`ServiceRuns.EveryRunAnswersFromTheClaimMap`). Over all runs of all writes and
  imports with failing disk writes, the references of live plugins stay pairwise distinct
  (`StoreRuns.RunKeepsIdentities`); nothing is lost, no deletion undone and no id reused if and only if no draft is
  stored that brings versions of its own (`StoreRuns.RunIsSafeExactly`).
- **First party.** Every stored plugin of an allow-listed repository bears its canonical identity, and at most one is live
  per repository (`ServiceRuns`).
- **Seed import.** An import keeps the invariant, every version and every uncatalogued record; importing twice changes
  nothing if and only if no plugin has two versions of one release date (`SeedExact.ImportTwiceExactly`). On a disk where
  any operations fail the import is all-or-nothing except under exactly the listed double faults
  (`SeedInstall.ImportSeedRegistry`).
- **Forgetful tables.** The limiter, the deduplicator and the revocation list delete entries. When each still agrees with
  a table that never forgets is proved exactly (`RateLimit.IdealExactlyWhenNoDropIsMissed`,
  `DownloadDedup.IdealExactlyWhenNothingShedIsMissed`, `Revocation.SignedOutIsAcceptedExactlyAcrossExpiry`), with a run
  of each in which it does not.
- **Versions.** On versions valid by section 9 of Semantic Versioning 2.0.0 the comparison is the precedence of section
  11 if and only if the first differing identifiers are not of the listed kinds (`SemverPrecedence.FollowsExactly`);
  ranges denote convex sets; printing and parsing round-trip exactly where stated, and which texts are versions is an
  if-and-only-if against a grammar (`SemverSpelling.SpelledExactly`).
- **Counting.** From recording to the stored counters every admitted event of a live plugin is counted exactly once,
  unless its write fails (`MetricsRuns`); a second release sync changes nothing.

Some properties one would expect are false of the code. Each is stated with its exact condition or a counterexample:
sorting versions reverses those of equal release date on every load (`Releases.SortIsStableExactlyOnDistinctDates`);
the version comparison is not antisymmetric on two spellings of one number (`Semver.AntisymmetricExceptTwins`) and leaves
the specification on some signed and huge numbers (`SemverPrecedence.FollowsExactly`); a wholesale drop lets a client
through again (`RateLimit.DroppedClientSeesAnother`) and a full table counts a download twice
(`DownloadDedup.FloodCountsTwice`); a signed-out session is accepted when its expiry falls between the two clock
readings of one validation (`Revocation`); the advisory range converter is not idempotent (`Advisories`); a plugin named
by a number is shadowed by an id (`ServiceRuns.ReachableExactly`); creating a plugin together with versions never
succeeds (`ServiceRuns.CreateSucceedsExactly`); and a deleted record can block a catalogue import depending on the
directory order (`SeedTwice.DeletedTwinBlocks`, `SeedTwice.AppliedOkExactly`).

Where code and comments disagree the model follows the code: the deduplicator's comment speaks of dropping the oldest
half of a full table, while the code drops what is older than half the window and, failing that, everything
(api/service/download_dedup.go:21-23, 86-96).

Conventions. Text is ASCII. Times are integers, in the rate limiter reals. A directory listing is any order of the stored
ids, except that a later listing keeps the relative order of an earlier one where two imports are compared, since a
directory is read in file-name order; the order in which Go ranges over a map is any order. Failing writes and clock
readings are inputs.

## Model

| member | source | states |
|---|---|---|
| `FileStore.FileRepository.LoadPlugin` | api/repository/file_repo.go:748-770 | a read answers the stored record with its versions sorted and its advertised release recomputed, or not-found |
| `FileStore.FileRepository.LoadAll` | api/repository/file_repo.go:798-823 | a listing answers one refreshed record per stored file, in directory order |
| `FileStore.FileRepository.SavePlugin` | api/repository/file_repo.go:789-795 | a save replaces one record or, when the write fails, nothing |
| `FileStore.ListingDecides` | api/repository/file_repo.go:964-988 | the uniqueness scan over a loaded listing decides whether references are free among the stored live plugins, in any directory order |
| `FileStore.FileRepository.CheckIdentity` | api/repository/file_repo.go:974-987 | loading the directory and scanning it accepts a candidate exactly when its references are distinct and owned by no other live plugin |
| `FileStore.FileRepository.Create` | api/repository/file_repo.go:181-219 | the whole new state and result of Create under any single failing write: normalise, check identity, take the next id, save metadata, save the record |
| `FileStore.FileRepository.Update` | api/repository/file_repo.go:221-259 | the whole new state and result of Update: not-found, duplicate, or exactly the nine metadata fields replaced |
| `FileStore.FileRepository.Delete` | api/repository/file_repo.go:315-345 | the whole new state and result of Delete: deletion time, optional anonymising and optional cascade to versions not yet deleted |
| `FileStore.FileRepository.Cascade` | api/repository/file_repo.go:333-342 | the cascade marks exactly the versions that were not deleted |
| `FileStore.FileRepository.AddVersion` | api/repository/file_repo.go:452-512 | the whole new state and result of AddVersion: duplicates refused against deleted versions too, next id, newest-first order |
| `FileStore.FileRepository.SetVersionYank` | api/repository/file_repo.go:1017-1051 | the whole new state and result of a yank or its lifting; a repeated yank keeps the first timestamp |
| `FileStore.FileRepository.DeleteVersion` | api/repository/file_repo.go:347-379 | the whole new state and result of deleting a version, including the stop at an already deleted one |
| `FileStore.FileRepository.IncrCounters` | api/repository/file_repo.go:423-450 | the whole new state and result of raising a plugin's counters and, when named, one version's |
| `StoreEffects.CreateExactly` | api/repository/file_repo.go:181-219 | on success the stored record is the draft field by field, its aliases normalised, under the next id and created now; an error changes no record |
| `StoreEffects.UpdateExactly` | api/repository/file_repo.go:221-259 | exactly the nine described fields take the new values; id, status, counters, times and versions stay; an error changes nothing |
| `StoreEffects.DeleteExactly` | api/repository/file_repo.go:315-345 | exactly the deletion time, the author if asked for, and with a cascade the deletion times of the versions not yet deleted |
| `StoreEffects.AddVersionExactly` | api/repository/file_repo.go:452-512 | it goes in if and only if the plugin is live, bears no version of that name and no write fails; then the list gains exactly the given version with the next id and the time |
| `StoreEffects.AddVersionOrders` | api/repository/file_repo.go:485-500 | the list with a new version is written by date, undated ones last, and within a date by creation |
| `StoreEffects.YankExactly` | api/repository/file_repo.go:1017-1051 | it goes through if and only if some version of that id is not deleted; exactly its three yank fields change |
| `StoreEffects.DeleteVersionExactly` | api/repository/file_repo.go:347-379 | it goes through if and only if the first version of that id is not deleted; exactly its deletion time changes |
| `StoreEffects.CountersExactly` | api/repository/file_repo.go:423-450 | exactly the plugin's two counters rise and, if a version is named, those of the first of that id |
| `Identity.NormalizeAliases` | api/repository/file_repo.go:900-917 | the loop computes trimmed, non-blank aliases, first spelling of each folding, in byte order |
| `Identity.NormalizedExactly` | api/repository/file_repo.go:900-917 | the result holds exactly the trimmed, non-blank aliases that no earlier one equals but for case, in byte order |
| `Identity.NormalizedIsClean` | api/repository/file_repo.go:900-917 | normalised aliases are trimmed, non-blank, distinct when folded, and cover exactly the non-blank foldings of the input |
| `Identity.NormalizedTwice` | api/service/plugin_service.go:997-1014 | normalising twice is normalising once |
| `Identity.NormalizedAgain` | api/service/plugin_service.go:1016-1029 | putting a preferred list in front of a list normalised with it changes nothing |
| `Identity.DeduplicatedMembers` | api/repository/file_repo.go:903-914 | an alias survives exactly when it is the first non-blank spelling of its folding |
| `Ownership.EnsureUniqueIdentity` | api/repository/file_repo.go:964-988 | accepts exactly when the candidate's folded references are distinct and no other live plugin of the list answers to any |
| `Ownership.KeysExactly` | api/repository/file_repo.go:964-980 | a plugin answers to exactly its folded namespace/name, or name, and its trimmed and folded aliases |
| `Ownership.OwnersAreOwns` | api/repository/file_repo.go:964-988 | under the identity rule the claim map holds exactly the pairs of folded reference and owning live plugin |
| `Ownership.FreeInOwners` | api/repository/file_repo.go:974-986 | references are free for a plugin exactly when the claim map gives them to nobody else |
| `Ownership.StoreLive` | api/repository/file_repo.go:181-259 | storing a live plugin with distinct, otherwise free references keeps the identity rule and trades exactly its old references for its new ones in the claim map |
| `Ownership.StoreDeleted` | api/repository/file_repo.go:315-345 | storing a deleted record keeps the identity rule and releases exactly its references |
| `StoreInvariant.CreateClaims` | api/repository/file_repo.go:181-219 | Create succeeds, without faults, if and only if the draft's references are distinct and unowned; the claim map gains exactly them if the draft is live, the id is new, an error changes no record and the identity rule holds; without versions of its own the whole invariant holds |
| `StoreInvariant.UpdateClaims` | api/repository/file_repo.go:221-259 | Update succeeds if and only if the plugin is live, the write works and its new references are distinct and owned by nobody else; the claim map trades old for new; an error changes nothing |
| `StoreInvariant.DeleteReleases` | api/repository/file_repo.go:315-345 | Delete succeeds if and only if the plugin is live and the write works; exactly its references are released |
| `StoreInvariant.AddVersionKeepsIdentities` | api/repository/file_repo.go:452-512 | publishing a version keeps the invariant and the claim map and hands out an id never used before; an error leaves every record alone |
| `StoreInvariant.YankKeepsIdentities` | api/repository/file_repo.go:1017-1051 | yanking keeps the invariant and the claim map |
| `StoreInvariant.VersionDeleteKeepsIdentities` | api/repository/file_repo.go:347-379 | deleting a version keeps the invariant and the claim map |
| `StoreInvariant.CountersKeepIdentities` | api/repository/file_repo.go:423-450 | raising counters keeps the invariant and the claim map |
| `StoreInvariant.YankAndLiftRestores` | api/repository/file_repo.go:1029-1048 | yanking an unyanked version and lifting the yank restores everything that is read back, the advertised release and the order of shared dates included |
| `StoreRuns.StepIsSafe` | api/repository/file_repo.go:181-655 | any operation or import, with any fault, keeps the invariant, loses no record or version, undoes no deletion and reuses no id, if and only if it does not store a draft that brings versions |
| `StoreRuns.RunKeepsIdentities` | api/repository/file_repo.go:181-655 | in every state of every run, whatever the drafts bring, the folded references of live plugins are pairwise distinct and every record lies under its id, below the counter |
| `StoreRuns.RunKeepsInv` | api/repository/file_repo.go:181-655 | in runs that store no draft with versions, versions can moreover be told apart, across plugins too, and their ids lie below their counter |
| `StoreRuns.RunIsSafeExactly` | api/repository/file_repo.go:181-655 | and in no other run does every state keep that and every step lose, undo and reuse nothing |
| `StoreRuns.RunNeverGoesBack` | api/repository/file_repo.go:181-655 | between any two points of such a run counters never fall, records and versions never vanish, deletions last and new ids are fresh |
| `StoreRuns.IdsAreNeverReused` | api/repository/file_repo.go:203-214 | an id that such a run hands out for a plugin or version was in use at no earlier point for anything else |
| `Releases.SortPluginVersions` | api/repository/file_repo.go:930-947 | the in-place sort computes the insertion sort by the code's comparison |
| `Sorting.SortInPlace` | api/repository/file_repo.go:930-947 | the array ends as the sort function of its old contents, whatever the comparison |
| `Sorting.SortPermutes` | api/repository/file_repo.go:930-947 | the sort is a permutation, whatever the comparison |
| `Sorting.OrderedUnique` | api/repository/file_repo.go:930-947 | under a linear comparison an ordered list is determined by its members, so any correct sort gives the same list |
| `Sorting.SortIgnoresArrangement` | api/repository/file_repo.go:930-947 | under a linear comparison any two arrangements of the same elements sort to one list |
| `Releases.ReleaseOrderIsLinear` | api/repository/file_repo.go:931-946 | with distinct names and distinct dates the release comparison is a strict linear order |
| `StoreEffects.ReadExactly` | api/repository/file_repo.go:748-787 | with distinct names and dates a read shows the same versions by date, undated ones last by creation and version, and advertises the first that is no prerelease, not deleted and not yanked |
| `Releases.LatestStable` | api/repository/file_repo.go:954-962 | the loop answers the first version that is neither a prerelease, nor deleted, nor yanked |
| `Releases.RefreshLatest` | api/repository/file_repo.go:777-787 | the advertised fields are those of the first installable version after sorting, or empty |
| `Releases.LatestIsNewest` | api/repository/file_repo.go:777-787 | with distinct dates the advertised version is no prerelease, not deleted and not yanked, and comes before every other such by date, creation and version; none is advertised only if there is none |
| `Releases.LatestHasNewestDate` | api/repository/file_repo.go:949-962 | no installable version is dated later than the advertised one, and an undated one is advertised only over undated ones |
| `Releases.ThreeSortsAreOne` | api/repository/file_repo.go:930-947 | with distinct names three sorts give what one gives, shared dates included: the second undoes the reversal of the first |
| `Releases.SortReversesTies` | api/repository/file_repo.go:930-947 | every sort reverses the order of versions that share a release date |
| `Releases.SortIsStableExactlyOnDistinctDates` | api/repository/file_repo.go:930-947 | sorting a second time changes nothing if and only if no two versions share a release date |
| `Releases.RefreshedTwice` | api/repository/file_repo.go:764-787 | with distinct dates reading what a read produced changes nothing |
| `Lookup.ContainsFold` | api/repository/file_repo.go:891-898 | an alias list contains a reference exactly when some alias folds to it |
| `Lookup.GetByName` | api/repository/file_repo.go:117-137 | two phases over the listing: the first live unscoped plugin of that name, else the first live plugin with that alias, else not-found |
| `Lookup.GetByNamespacedName` | api/repository/file_repo.go:139-162 | the same for a namespace and name, with the joined reference as the alias |
| `Lookup.LookupPlugin` | api/service/plugin_service.go:627-643 | trims, sends 64-bit integers to the id lookup, splits @namespace/name at the first slash, and searches |
| `Lookup.SplitRefExactly` | api/service/plugin_service.go:632-642 | a reference splits at its first slash if and only if it starts with an at sign and something follows the slash |
| `Lookup.LookupByIdExactly` | api/service/plugin_service.go:629-631 | a 64-bit integer resolves to the live plugin of that id or to nothing |
| `Lookup.FoundExactly` | api/repository/file_repo.go:117-162 | a search finds the first live plugin of the name, else the first with the alias, else nothing |
| `Lookup.NamedExactly` | api/service/plugin_service.go:632-642 | the name phase finds a plugin exactly when the reference is its own and splits back into its namespace and name |
| `Lookup.LookupIsOwnership` | api/service/plugin_service.go:627-643 | in any state of the invariant and any directory order, a non-integer reference resolves to a plugin exactly when it owns the reference and shows it to the search, to at most one, and to nothing exactly when there is none |
| `Lookup.LookupIgnoresOrder` | api/repository/file_repo.go:117-162 | two listings of one directory resolve every reference alike |
| `Lookup.ValidIsAddressable` | api/service/plugin_service.go:39-42 | a namespace and name that pass validation always split back out of the joined reference |
| `Lookup.ValidRouting` | api/service/plugin_service.go:627-631 | a validated reference is taken for an id exactly when it is an unscoped name of digits that fits 64 bits |
| `Lookup.OwnersAreFound` | api/service/plugin_service.go:627-643 | every live plugin resolves from each alias and every validated one from its own reference, in any letter case, unless the reference reads as an integer |
| `Lookup.UnownedIsNotFound` | api/service/plugin_service.go:627-643 | a reference that the claim map does not hold resolves to not-found |
| `Lookup.NumberIsAnId` | api/service/plugin_service.go:629-631 | a plugin named by a number is shadowed: its own name is looked up as an id |
| `PluginService.NormalizeTags` | api/service/plugin_service.go:974-995 | trimmed tags without blanks or repetitions, in order of first appearance |
| `ServiceEffects.TagsExactly` | api/service/plugin_service.go:974-995 | the result holds exactly the non-blank trimmed tags, each once, in the order of first appearance |
| `ServiceEffects.TidyExactly` | api/service/plugin_service.go:770-817 | exactly the texts, lists and versions of a draft are cleaned up, field by field, and nothing else changes |
| `PluginService.NormalizePlugin` | api/service/plugin_service.go:770-784 | every text field trimmed, aliases and tags normalised, embedded versions tidied, their checksums included |
| `PluginService.NormalizeVersion` | api/service/plugin_service.go:805-817 | texts trimmed, and checksums rebuilt with trimmed keys and values in the order the map yields them |
| `PluginService.TidyChecksumsCover` | api/service/plugin_service.go:809-815 | every checksum survives under its trimmed key, and every result is the trimmed value of an entry with that trimmed key, whatever the order |
| `PluginService.NormalizeFirstPartyPlugin` | api/service/plugin_service.go:1016-1029 | a first-party repository URL imposes the canonical namespace, name, category and aliases; any other plugin is untouched |
| `PluginService.ValidatePlugin` | api/service/plugin_service.go:819-884 | accepts exactly the plugins that meet the name, namespace, alias and category patterns and every length limit |
| `ServiceEffects.FirstPartyExactly` | api/service/plugin_service.go:1016-1029 | a first-party plugin takes namespace, name and category and answers to exactly the canonical aliases and its own; nothing else of it changes |
| `ServiceEffects.ValidExactly` | api/service/plugin_service.go:819-884 | the patterns character by character, and every length limit |
| `ServiceEffects.AliasExactly` | api/service/plugin_service.go:833-845 | an alias is a name, or a namespace and a name joined by a slash |
| `ServiceEffects.CreatePluginExactly` | api/service/plugin_service.go:241-268 | at most one record is new: the draft, cleaned up and with its repository's identity, active unless it says otherwise |
| `ServiceEffects.SubmitPluginExactly` | api/service/plugin_service.go:271-289 | the same, pending whatever the draft says; it succeeds if and only if the draft is live and valid, no write fails, and its references are distinct and unowned |
| `ServiceEffects.PatchExactly` | api/service/plugin_service.go:1051-1079 | exactly the fields the patch gives take the given values, trimmed or cleaned up |
| `ServiceEffects.PatchValidExactly` | api/service/plugin_service.go:886-930 | a patch passes if and only if it gives something and each given field is in order on its own |
| `ServiceEffects.UpdateSucceedsExactly` | api/service/plugin_service.go:323-357 | UpdatePlugin succeeds if and only if the reference resolves, the patch passes, the result is valid where the identity is touched or first-party, the write works and the references are free |
| `ServiceEffects.UpdatePluginExactly` | api/service/plugin_service.go:323-357 | it stores the patched record with its repository's identity and answers with a read of it, or changes nothing |
| `ServiceEffects.DeletePluginExactly` | api/service/plugin_service.go:359-368 | exactly the deletion time of the plugin that the reference resolves to changes |
| `PluginService.PluginManager.CreatePlugin` | api/service/plugin_service.go:241-268 | the whole new state and result of CreatePlugin, including the version loop |
| `PluginService.PluginManager.SubmitPlugin` | api/service/plugin_service.go:271-289 | the whole new state and result of SubmitPlugin |
| `PluginService.PluginManager.ApplyPatch` | api/service/plugin_service.go:1051-1079 | exactly the fields the patch names are replaced |
| `PluginService.PluginManager.NormalizePatch` | api/service/plugin_service.go:786-803 | every given field of a patch is normalised and no absent one appears |
| `PluginService.PluginManager.UpdatePlugin` | api/service/plugin_service.go:323-357 | the whole new state and result of UpdatePlugin: the checks in order, the first-party override and the conditional validation |
| `PluginService.PluginManager.DeletePlugin` | api/service/plugin_service.go:359-368 | the whole new state and result of DeletePlugin |
| `ServiceRuns.FirstPartyIsCanonical` | api/service/plugin_service.go:1016-1029 | the normaliser leaves a plugin with its repository's identity and all historical aliases covered |
| `ServiceRuns.FirstPartyTwice` | api/service/plugin_service.go:1016-1029 | the first-party normaliser is idempotent, aliases included |
| `ServiceRuns.CreateKeepsInv` | api/service/plugin_service.go:241-289 | creating or submitting any draft keeps the first-party invariant, well-formed identities and the identity rule |
| `ServiceRuns.UpdateKeepsInv` | api/service/plugin_service.go:323-357 | so does every update, although validation is skipped for some patches |
| `ServiceRuns.PlainKeepsInv` | api/repository/file_repo.go:315-512 | so do deletions and all version and counter writes |
| `ServiceRuns.RunKeepsInv` | api/service/plugin_service.go:241-368 | every state the service can reach has canonical first-party plugins, well-formed identities and unique references |
| `ServiceRuns.LookupIsTheClaimMap` | api/service/plugin_service.go:627-643 | in such a state lookup of a non-integer reference is exactly the claim map |
| `ServiceRuns.EveryRunAnswersFromTheClaimMap` | api/service/plugin_service.go:627-643 | lookup is the claim map in every state of every run, for every directory order |
| `ServiceRuns.OneLivePerRepository` | api/service/plugin_service.go:1016-1029 | at most one live plugin exists per first-party repository, however its URL is spelled |
| `ServiceRuns.CanonicalRefsResolve` | api/naming/firstparty.go:108-121 | a live first-party plugin is what its canonical reference and every historical alias resolve to |
| `ServiceRuns.ReachableExactly` | api/service/plugin_service.go:627-643 | in every such state a live plugin resolves from its own reference if and only if that is namespaced, not a number, beyond 64 bits, or its own id |
| `ServiceRuns.CreateSucceedsExactly` | api/service/plugin_service.go:241-268 | CreatePlugin succeeds if and only if the draft brings no versions, is live and valid, no write fails, and its references are distinct and unowned |
| `ServiceRuns.DraftVersionsAlwaysFail` | api/service/plugin_service.go:251-261 | creating a plugin together with versions never succeeds, and leaves the stored record behind |
| `Naming.BuildFirstPartyIndex` | api/naming/firstparty.go:77-96 | succeeds exactly when every repository name has a hyphen, and then maps each to its category, name and aliases |
| `Naming.BuildFirstPartyRefIndex` | api/naming/firstparty.go:108-121 | succeeds exactly when no folded reference, canonical or alias, belongs to two plugin names, and then indexes exactly those references |
| `Naming.EntryExactly` | api/naming/firstparty.go:77-96 | an entry's category is what stands before the first hyphen, and it answers to itself and to the short references it owns |
| `Naming.UrlExactly` | api/naming/firstparty.go:131-158 | a URL names a first-party plugin if and only if it is a plain GitHub URL of the organisation and the repository, in any case, with or without .git |
| `Naming.AnswersComeFromTheIndex` | api/naming/firstparty.go:131-158 | whatever the URL, a first-party answer is the index entry of an allow-listed repository |
| `SeedImport.UpsertVersions` | api/repository/file_repo.go:606-641 | the version loop: overwrite by version string, append with the next id, stop at an unreadable date |
| `SeedImport.UpsertVersion` | api/repository/file_repo.go:617-640 | one catalogued version overwrites the version of its name in place or is appended with the next id |
| `SeedImport.ApplySeedPlugin` | api/repository/file_repo.go:566-655 | the whole effect of one catalogue entry on the loaded list and the counters |
| `SeedImport.MoveCountersPast` | api/repository/file_repo.go:538-547 | both counters end past every stored id |
| `SeedImport.PrepareImport` | api/repository/file_repo.go:526-559 | all entries go into a loaded copy, or the first that does not fit says why; the store is not touched |
| `SeedEffects.UpsertOneExactly` | api/repository/file_repo.go:617-640 | one entry gives the first version of its name exactly its fields, in place or appended with the next id and no history; no other version changes |
| `SeedEffects.UpsertedExactly` | api/repository/file_repo.go:606-641 | after all entries the last entry of each version string describes, field by field, the first version of that name |
| `SeedEffects.UncataloguedVersionsStay` | api/repository/file_repo.go:606-641 | no version loses its history, versions that no entry names are unchanged, and added ones take consecutive ids |
| `SeedEffects.AppliedExactly` | api/repository/file_repo.go:566-655 | one entry gives the first record of its folded identity, or a new one, exactly its fields and versions; no other record changes |
| `SeedEffects.ImportExactly` | api/repository/file_repo.go:526-655 | after importing a catalogue without shared references every entry has a stored record that bears its data field by field, and the report counts entries and versions |
| `SeedEffects.OutcomeExactly` | api/repository/file_repo.go:526-564 | an import succeeds if and only if every entry goes in and the snapshot is installed; the store is then the working list and both counters, and otherwise untouched |
| `SeedEffects.StartExactly` | api/repository/file_repo.go:530-547 | the import works on what a read shows and hands out ids beyond all stored ones |
| `SeedEffects.CountersExactly` | api/repository/file_repo.go:538-547 | each counter ends where it was or one past the highest stored id, whichever is more |
| `SeedProperties.UpsertedGrows` | api/repository/file_repo.go:606-641 | upserting keeps every version with its history and gives each added one an unused id |
| `SeedProperties.UpsertedCarries` | api/repository/file_repo.go:607-641 | afterwards every catalogued version is there and carries the catalogue's last word |
| `SeedProperties.UpsertedIdle` | api/repository/file_repo.go:607-641 | a list that carries a catalogue is left alone by it |
| `SeedInvariant.AppliedKeepsInv` | api/repository/file_repo.go:566-655 | one entry keeps the invariant, every version and every record's history, and hands out fresh ids |
| `SeedInvariant.ImportKeepsIds` | api/repository/file_repo.go:526-564 | the identity rule survives an import even where drafts brought versions |
| `SeedInvariant.ImportKeepsInv` | api/repository/file_repo.go:526-564 | a whole import keeps all of that too, installed or not, and an error leaves the store unchanged |
| `SeedInvariant.UncataloguedUntouched` | api/repository/file_repo.go:514-516 | a record whose namespace and name no entry has is left exactly as a read shows it |
| `SeedTwice.AppliedOkExactly` | api/repository/file_repo.go:566-616 | an entry goes in exactly when its references are distinct, owned by nobody but the record it finds, and its dates can be read |
| `SeedTwice.DeletedTwinBlocks` | api/repository/file_repo.go:567-604 | a deleted record listed before a live one of the same name makes the import fail, whatever the entry says |
| `SeedTwice.AllSettled` | api/repository/file_repo.go:549-559 | after importing a valid catalogue every entry's data is in place and nothing blocks applying it again |
| `SeedTwice.SameMatch` | api/repository/file_repo.go:567-574 | in the directory the import leaves behind every entry finds the record it found before |
| `SeedTwice.ImportTwice` | api/repository/file_repo.go:526-655 | a second import of a valid catalogue changes no record, version or counter and reports the same |
| `SeedExact.ThreeSorts` | api/repository/file_repo.go:930-947 | an odd number of sorts restores a list only if no two versions share a date |
| `SeedExact.ImportTwiceExactly` | api/repository/file_repo.go:526-655 | a second import goes through and changes nothing if and only if no plugin has two versions of one release date |
| `Snapshot.Disk.SaveMeta` | api/repository/file_repo.go:740-746 | metadata is replaced exactly when both the temporary write and the rename succeed, otherwise untouched |
| `Snapshot.Disk.StageFiles` | api/repository/file_repo.go:664-675 | staging succeeds exactly when every file write does, and then holds exactly the new records |
| `Snapshot.Disk.Swap` | api/repository/file_repo.go:686-706 | the two renames, the metadata write and the rollbacks: when the swap succeeds, and exactly when a failed one loses the old catalogue |
| `Snapshot.Disk.SaveSeedSnapshot` | api/repository/file_repo.go:657-707 | succeeds exactly when no forward operation fails; success installs new catalogue and metadata, an error leaves both old ones except under exactly the listed double faults |
| `SeedInstall.ImportSeedRegistry` | api/repository/file_repo.go:526-564 | on a disk where any operations fail an import is done exactly when every entry fits and no forward operation fails; the disk then holds the resulting store, old or new, and the old files are gone exactly under the listed double faults |
| `SeedInstall.EntriesHold` | api/repository/file_repo.go:664-675 | the staged files hold exactly the working list, one file per id |
| `SeedInstall.HeldOnce` | api/repository/file_repo.go:713-746 | files and metadata hold one store only: different ids have different file names |
| `SeedInstall.SingleFaultImports` | api/repository/file_repo.go:526-707 | no single failing file operation of an import loses the catalogue |
| `Snapshot.SingleFaultIsSafe` | api/repository/file_repo.go:657-707 | no single failing file operation loses the catalogue |
| `RateLimit.Bucket.AllowWithRemaining` | api/middleware/ratelimit.go:21-40 | one call refills up to the burst, takes a token if one is there and reports the whole tokens left |
| `RateLimit.CallExactly` | api/middleware/ratelimit.go:21-40 | a call finds what was left plus a sixtieth of the rate per second, at most a full burst; it is allowed if and only if that is a whole token, and reports the whole tokens left |
| `RateLimit.TakeKeepsSane` | api/middleware/ratelimit.go:29-39 | tokens stay between zero and the rate, and the reported remainder is never negative |
| `RateLimit.WindowBound` | api/middleware/ratelimit.go:21-40 | between any two calls on one bucket at most rate + elapsed * rate / 60 calls are allowed |
| `RateLimit.RateLimiter.EvictIdleLocked` | api/middleware/ratelimit.go:106-115 | exactly the buckets idle for longer than the limit are removed |
| `RateLimit.RateLimiter.GetBucket` | api/middleware/ratelimit.go:76-102 | the whole new table: periodic clean-up, eviction under pressure, wholesale drop, and a full bucket for a new client |
| `RateLimit.RateLimiter.Handle` | api/middleware/ratelimit.go:121-123 | one request against the table is one step of the limiter |
| `RateLimit.AdmitExactly` | api/middleware/ratelimit.go:76-115 | which buckets stay: five minutes of idleness once a minute, one minute or none at all when a new client finds 50,000; a new client gets a full one |
| `RateLimit.TableNeverExceedsCap` | api/middleware/ratelimit.go:60-63 | the table never exceeds 50,000 buckets |
| `RateLimit.StepSimulates` | api/middleware/ratelimit.go:76-115 | without a wholesale drop one step answers as a table that never evicts, since whatever was evicted had refilled |
| `RateLimit.EvictionIsInvisible` | api/middleware/ratelimit.go:76-115 | so does every run |
| `RateLimit.IdealExactlyWhenNoDropIsMissed` | api/middleware/ratelimit.go:76-115 | every request of a run finds the token level of a table that never evicts if and only if no request comes from a client whose bucket a wholesale drop took away before it had refilled |
| `RateLimit.DroppedClientSeesAnother` | api/middleware/ratelimit.go:88-101 | a client dropped before its bucket refilled gets another verdict than from a table that never evicts if and only if its own bucket would hold fewer whole tokens than a full one |
| `RateLimit.FloodAllowsTwice` | api/middleware/ratelimit.go:88-101 | a run in which a drop lets a client through twice where a table that never evicts refuses it |
| `RateLimit.ClientSeesOneBucket` | api/middleware/ratelimit.go:76-102 | a client's answers are those of one bucket that started full |
| `RateLimit.ClientWindowBound` | api/middleware/ratelimit.go:76-102 | the window bound holds per client across evictions |
| `RateLimit.PacedIsNeverRefused` | api/middleware/ratelimit.go:21-40 | for a rate of at least one, a request 60/rate seconds after every earlier one of its client is allowed, even across a drop |
| `DownloadDedup.DownloadDeduplicator.ShouldCount` | api/service/download_dedup.go:53-71 | the whole new table and the answer of one call |
| `DownloadDedup.DownloadDeduplicator.CollectLocked` | api/service/download_dedup.go:73-97 | expired entries go every half window; above the cap everything older than half the window goes, and if that is not enough, everything |
| `DownloadDedup.CollectedExactly` | api/service/download_dedup.go:73-97 | which entries stay: a window of age every half window, half a window or none at all above 200,000 |
| `DownloadDedup.IdealExactly` | api/service/download_dedup.go:53-71 | the log that never forgets counts a download if and only if it counted none of its key within the window before |
| `DownloadDedup.RefinesIdeal` | api/service/download_dedup.go:53-71 | while the cap is not exceeded a download counts if and only if no counted download of its key lies within the window |
| `DownloadDedup.IdealExactlyWhenNothingShedIsMissed` | api/service/download_dedup.go:53-97 | a run answers as the log that never forgets if and only if no request falls within the window of a counted download of its key that a shed or a clear took away |
| `DownloadDedup.FloodCountsTwice` | api/service/download_dedup.go:86-96 | a run in which a full table makes one download count twice within the window |
| `DownloadDedup.SuppressionHasACause` | api/service/download_dedup.go:66-68 | a suppressed download always has a counted one of its key within the window before it |
| `DownloadDedup.HalfWindowApart` | api/service/download_dedup.go:86-96 | barring a full clear, two counted downloads of one key are more than half a window apart |
| `DownloadDedup.TableBound` | api/service/download_dedup.go:21-23 | the table never exceeds the cap by more than one |
| `Revocation.RevocationList.Revoke` | api/handlers/session.go:71-79 | a sign-out records the token's expiry and may sweep; an empty id does nothing |
| `Revocation.RevocationList.SweepLocked` | api/handlers/session.go:101-112 | at most once a minute exactly the expired entries are dropped |
| `Revocation.RevocationList.IsRevoked` | api/handlers/session.go:81-98 | run alone, the answer is true exactly for a recorded id that is not past its expiry, and only then is it kept |
| `Revocation.RevokedExactly` | api/handlers/session.go:71-112 | a sign-out records the expiry and, once a minute, drops exactly the entries past theirs |
| `Revocation.NeverStuck` | api/handlers/session.go:71-98 | a validation always has a next step until it is answered, and the last one forgets the entry |
| `Revocation.RunKeepsInv` | api/handlers/session.go:71-98 | under every interleaving the list remembers exactly the ended sessions, except that it may forget expired ones |
| `Revocation.IsRevokedIsExact` | api/handlers/session.go:81-98 | IsRevoked answers true exactly for sessions signed out before its read and not past expiry when it settled its answer |
| `Revocation.SignedOutIsAcceptedExactlyAcrossExpiry` | api/handlers/auth.go:506-526 | a signed-out session is accepted if and only if its expiry falls between the token check and the revocation check |
| `Revocation.OneReadingNeverAccepts` | api/handlers/auth.go:506-526 | with one clock reading per validation a signed-out session is never accepted |
| `Revocation.TwoReadingsCanAccept` | api/handlers/auth.go:506-526 | with the two readings of the code the gap is reachable |
| `Semver.ParseVersion` | api/service/semver.go:33-61 | the parser as written: trimming, the optional v, the cut at + and -, three non-negative 64-bit components |
| `SemverSpelling.SpelledExactly` | api/service/semver.go:33-61 | a text is read as a version if and only if it is, between white space, an optional v, three decimals within 64 bits, an optional prerelease and optional build metadata |
| `SemverSpelling.AcceptedSpellings` | api/service/semver.go:33-61 | a printed version is read back with a v in front, build metadata behind and white space around |
| `Semver.PrintThenParse` | api/service/semver.go:24-61 | printing and parsing loses only build metadata and trailing white space of the prerelease |
| `Semver.RoundTrip` | api/service/semver.go:24-61 | a version parses back from its printed form if and only if its numbers are in range and its prerelease has no plus sign and no trailing white space |
| `Semver.ComparePrerelease` | api/service/semver.go:87-121 | the loop computes the recursive comparison of identifier lists |
| `Semver.ZeroOnlyOnEqual` | api/service/semver.go:63-121 | the comparison answers 0 exactly on equal versions and otherwise -1 or 1 |
| `Semver.AntisymmetricExceptTwins` | api/service/semver.go:63-121 | swapping the arguments flips the sign if and only if the first difference is not two spellings of one number |
| `Semver.TwinsBreakAntisymmetry` | api/service/semver.go:93-101 | 1.0.0-1 and 1.0.0-01 each outrank the other |
| `Semver.Transitive` | api/service/semver.go:63-121 | at most is transitive on all versions, two spellings of one number included |
| `Semver.NeverBothBelow` | api/service/semver.go:63-121 | no two versions are each ranked below the other |
| `Semver.TotalOrder` | api/service/semver.go:63-121 | on canonical identifiers the comparison is total, antisymmetric and transitive |
| `SemverPrecedence.PrecedenceIsTotal` | api/service/semver.go:63-121 | by section 11 of Semantic Versioning 2.0.0 exactly one of two different versions valid by section 9 precedes the other |
| `SemverPrecedence.IdentifiersAgreeExactly` | api/service/semver.go:93-121 | two different valid identifiers are ranked against section 11 exactly when the listed kinds meet: signed numbers, numbers beyond 64 bits, words |
| `SemverPrecedence.FollowsExactly` | api/service/semver.go:63-121 | the comparison of two valid versions follows section 11 if and only if the first identifiers in which they differ are not such a pair |
| `SemverPrecedence.AgreesWithSpecification` | api/service/semver.go:63-121 | the comparison is the precedence of section 11 of Semantic Versioning 2.0.0 on identifiers valid by section 9 that fit 64 bits and are not signed numbers |
| `SemverPrecedence.SignedNumberDisagrees` | api/service/semver.go:93-103 | a signed number is ranked below 0, against section 11 |
| `SemverPrecedence.HugeNumberDisagrees` | api/service/semver.go:93-103 | two versions with numbers beyond 64 bits are compared as words, against section 11 |
| `VersionRange.SplitOperator` | api/service/semver.go:185-191 | the longest prefix of operator characters, and the rest trimmed |
| `VersionRange.ParseTerm` | api/service/semver.go:157-179 | one term means its constraint, or the pair of bounds of a shorthand, or an error |
| `VersionRange.ParseRange` | api/service/semver.go:154-183 | a range means the constraints of its terms in order, or an error if any term has none |
| `VersionRange.OperatorExactly` | api/service/semver.go:129-144 | what each comparison operator before a version asks |
| `VersionRange.OperatorLengthExactly` | api/service/semver.go:185-191 | the operator of a term is its longest run of the five operator characters |
| `VersionRange.NoOtherOperator` | api/service/semver.go:176-179 | any other run of operator characters is an error |
| `VersionRange.BlankExactly` | api/service/semver.go:193-202 | a blank range allows every text |
| `VersionRange.TildeIsSameMinor` | api/service/semver.go:148-174 | ~x, and ^x below 1.0.0, is exactly the versions from x on with the same major and minor, plus the prereleases of the next minor |
| `VersionRange.SpaceIsConjunction` | api/service/semver.go:146-148 | joining two ranges with a space means and; an error of either is an error of both |
| `VersionRange.RangesAreConvex` | api/service/semver.go:129-144 | every range denotes a convex set of versions, non-canonical identifiers included |
| `VersionRange.SatisfactionIsConvex` | api/service/semver.go:123-144 | what lies between two versions that satisfy a range text satisfies it |
| `VersionRange.ShorthandMeaning` | api/service/semver.go:148-174 | membership in ~x and ^x for any version text |
| `VersionRange.OwnShorthands` | api/service/semver.go:148-174 | every version satisfies its own ~ and ^ range |
| `VersionRange.TildeInsideCaret` | api/service/semver.go:148-174 | whatever ~x allows, ^x allows |
| `VersionRange.CaretIsSameMajor` | api/service/semver.go:152 | for a major above zero ^x is the versions from x on with that major, plus the prereleases of the next major |
| `Advisories.ConvertGHSARange` | api/handlers/advisories.go:102-112 | the loop joins the non-empty comma parts, white space removed, with single spaces |
| `Advisories.TermsExactly` | api/handlers/advisories.go:102-112 | the terms are the comma parts in order, each without its white space, blank ones left out |
| `Advisories.OneTermPerPart` | api/handlers/advisories.go:98-112 | splitting the converted range on white space yields exactly those parts, so the range parser sees one term per part |
| `Advisories.ConversionIsIdempotentOnSingles` | api/handlers/advisories.go:98-112 | converting twice is converting once if and only if there is at most one part |
| `Advisories.SparesExactly` | api/handlers/advisories.go:114-130 | an advisory spares a version if and only if it is withdrawn, or its range can be read with the version and excludes it |
| `Advisories.SparedOnlyWhenExcluded` | api/handlers/advisories.go:114-130 | a live imported advisory spares a version exactly when the version and every comma part can be read and some part excludes it |
| `Preflight.ClaimTable.Claim` | api/database/migration_preflight.go:97-105 | a claim succeeds exactly when the folded reference is free or already the claimant's |
| `Preflight.ClaimTable.ClaimRows` | api/database/migration_preflight.go:125-139 | the first loop succeeds exactly when the claims of the live rows agree |
| `Preflight.ClaimTable.ClaimAliases` | api/database/migration_preflight.go:156-174 | the alias loop succeeds exactly when its claims agree with all before |
| `Preflight.ClaimTable.ClaimCanonical` | api/database/migration_preflight.go:181-190 | the canonical-alias loop succeeds exactly when its claims agree with all before |
| `Preflight.CheckOccupied` | api/database/migration_preflight.go:107-123 | passes exactly when no foreign row sits on a canonical identity |
| `Preflight.PreflightIdentities` | api/database/migration_preflight.go:107-190 | the identity checks pass exactly when no row sits on a live first-party row's canonical identity and no folded reference has two owners |
| `Preflight.VerdictIsUniqueness` | api/database/migration_preflight.go:91-190 | all claims agree exactly when no folded reference has two owners, stated on the fields of the rows without the loops |
| `Preflight.ForeignRowsExactly` | api/database/migration_preflight.go:107-139 | rows that are not first-party pass if and only if the folded references of the live ones, with their namespaces, are pairwise distinct |
| `Preflight.OrderIndependent` | api/database/migration_preflight.go:107-190 | the verdict does not depend on the order of either table |
| `Preflight.PluginOwners` | api/database/migration_preflight.go:242-247 | the owner map holds exactly the live first-party rows |
| `Preflight.CheckVersions` | api/database/migration_preflight.go:258-280 | passes exactly when rows of one owner and version agree on their metadata |
| `Preflight.CheckChecksums` | api/database/migration_preflight.go:301-318 | passes exactly when rows of one owner, version and folded platform agree on their checksum |
| `Preflight.PreflightCanonicalNamesMigration` | api/database/migration_preflight.go:87-323 | the preflight succeeds exactly when canonical identities are free, no reference has two owners and everything the merge unites agrees |
| `MetricsRecorder.FileMetricsRecorder.Record` | api/service/metrics.go:345-360 | an invalid event is ignored; a valid one gets the day of the clock if it has none, and is queued if there is room and dropped otherwise |
| `MetricsRecorder.OfferExactly` | api/service/metrics.go:345-360 | which events are ignored, dropped at 512 queued, and queued with which day |
| `MetricsRecorder.WorkerExactly` | api/service/metrics.go:372-410 | the worker hands its buffer over at the 64th event, on a tick and at its end, and never an empty one |
| `MetricsRecorder.FileMetricsRecorder.TakeEvent` | api/service/metrics.go:401-405 | taking an event moves it to the buffer and flushes a full batch |
| `MetricsRecorder.FileMetricsRecorder.Drain` | api/service/metrics.go:388-399 | with no concurrent recording the stop branch empties queue and buffer in one final batch |
| `MetricsRecorder.DrainingFinishes` | api/service/metrics.go:388-399 | the worker's own steps from a stop on end in that state |
| `MetricsRecorder.StepConserves` | api/service/metrics.go:345-410 | no step loses, repeats or reorders an admitted event; only an offer to a full queue is dropped |
| `MetricsRecorder.RunConserves` | api/service/metrics.go:345-410 | at every point of every run the flushed batches, buffer and queue hold in order exactly the admitted events, and offered = dropped + queued + buffered + flushed |
| `MetricsRecorder.NeverStuck` | api/service/metrics.go:386-408 | recording and stopping are always possible, and a stopped worker has a next step until it is done |
| `MetricsRecorder.RunBounded` | api/service/metrics.go:334-408 | the queue stays within 512 and, until the worker drains, the buffer below 64; batches before the last hold 1 to 64 events |
| `MetricsRecorder.QuietStopFlushesAll` | api/service/metrics.go:388-399 | if nothing is offered from some point before the end, then at the end queue and buffer are empty and everything admitted is flushed |
| `MetricsRecorder.NothingIsFlushedAfterwards` | api/service/metrics.go:362-370 | what is offered after the worker finished is never flushed |
| `MetricsFlush.Tally` | api/service/metrics.go:414-430 | the loop counts views and downloads per plugin and version |
| `MetricsFlush.CountExactly` | api/service/metrics.go:418-430 | a count is the number of positions whose event is hit |
| `MetricsFlush.HitsExactly` | api/service/metrics.go:418-430 | which events count for a plugin, a version, a day and a kind |
| `MetricsFlush.FlushBatch` | api/service/metrics.go:414-439 | one write per key in the order the map yields them; a failing write is skipped |
| `MetricsFlush.WriteRaises` | api/repository/file_repo.go:423-450 | one write raises exactly the plugin and version it names |
| `MetricsFlush.FlushRaisesSoFar` | api/service/metrics.go:434-438 | with failing writes, exactly the keys written so far have been added |
| `MetricsFlush.FlushRaises` | api/service/metrics.go:414-439 | a flush raises each live plugin's counters and each version's by exactly its own events in the batch whose write goes through, in any key order, and changes nothing else |
| `MetricsFlush.FlushSparesTheDead` | api/repository/file_repo.go:431-433 | a deleted or unknown plugin is left alone |
| `MetricsFlush.CountBatch` | api/service/metrics.go:200-244 | the four tables of the database batch; over admitted events they hold the counts per plugin, version, plugin-day and version-day |
| `MetricsFlush.DailyCountsSumToTotals` | api/service/metrics.go:214-227 | over any distinct days covering the batch a plugin's daily counts sum to its totals |
| `MetricsFlush.DailyVersionCountsSumToTotals` | api/service/metrics.go:229-243 | and so do a version's, when its events name one plugin |
| `MetricsRecorder.BatchesAreValid` | api/service/metrics.go:345-354 | every batch of every run consists of valid events with their days |
| `MetricsRuns.RunRaises` | api/service/metrics.go:345-439 | at any point of any run the flushes so far have raised each live plugin's counters and each version's by exactly the flushed events whose write went through; without a failing write those, the buffer and the queue are the admitted events |
| `MetricsRuns.QuietStopCountsAll` | api/service/metrics.go:386-438 | stopped quietly and without a failing write, the recorder has counted every admitted event exactly once |
| `MetricsRuns.RunBatchesAddUp` | api/service/metrics.go:200-244 | the tables of every batch of a run hold its counts, and daily counts sum to totals |
| `ReleaseSync.GetVersions` | api/repository/file_repo.go:164-179 | the stored versions that are not deleted, in order |
| `ReleaseSync.ListVersions` | api/service/plugin_service.go:207-239 | one page of them, with the default and the limits on page size |
| `SyncEffects.UndeletedExactly` | api/repository/file_repo.go:164-179 | the listed versions one by one, in order, all but the deleted |
| `SyncEffects.ListExactly` | api/service/plugin_service.go:207-239 | a page holds the positions from the offset on, at most the limit, 20 if none is given; limits outside 1 to 100 are refused |
| `SyncEffects.PublishExactly` | api/service/plugin_service.go:405-446 | unless an error changes no record, the plugin gains exactly the version described, field by field, tidied and dated |
| `ReleaseSync.CreateVersion` | api/service/plugin_service.go:405-446 | the whole new state and result of publishing a version: tidied, its checksums too, checked, and dated now when undated |
| `ReleaseSync.UpsertVersion` | api/handlers/github_sync.go:692-740 | the whole new state and result for one release |
| `ReleaseSync.SyncPluginReleases` | api/handlers/github_sync.go:663-689 | the whole new state, the counts and the first error of a sync |
| `SyncEffects.ImportReleaseExactly` | api/handlers/github_sync.go:692-740 | it reports true exactly when a record changes, and then the plugin gains exactly one version, of a new name, that bears the release's tag, flag, date, texts and checksums |
| `SyncEffects.SkipReleaseExactly` | api/handlers/github_sync.go:696-717 | a release is skipped if and only if it has no download or is named like one of the first hundred undeleted versions |
| `SyncEffects.PrereleaseIsNotOffered` | api/handlers/github_sync.go:732 | an imported prerelease is never what the plugin offers by default |
| `SyncEffects.SyncCountsExactly` | api/handlers/github_sync.go:663-689 | created counts the imported releases, skipped the rest, and the error is the first |
| `ReleaseSync.CreatedAndSkippedAddUp` | api/handlers/github_sync.go:663-689 | created + skipped is the number of releases |
| `ReleaseSync.DoneStaysUndone` | api/handlers/github_sync.go:696-740 | a release whose name is taken, by a soft-deleted version too, creates nothing and changes nothing, whatever the clock and the faults |
| `ReleaseSync.UpsertIsDone` | api/handlers/github_sync.go:692-740 | handling a release without a failing write leaves nothing to do for it |
| `ReleaseSync.SyncTwice` | api/handlers/github_sync.go:654-740 | a second sync of the same releases creates nothing and changes nothing at all |
| `ReleaseSync.SyncOnlyAdds` | api/handlers/github_sync.go:654-740 | no sync changes or removes a version or touches a plugin's identity |

## Left out

- HTTP handlers, middleware wiring, cookies, OAuth, JWT signatures, GitHub calls, SMTP, webhooks, DNS checks, the admin application, configuration and statistics: plumbing around the modelled logic. A token is unexpired when the clock is before its expiry.
- The PostgreSQL repositories, their SQL and the migrations themselves: the preflight and the batch counting are modelled over plain rows, and the merge that the preflight guards is not part of this model.
- `UpdatedAt`, deletion reasons, review, provenance, advisory, validation-check and notification fields, and the operations that only set one of them or the status: they decide nothing that is modelled.
- GetAll with its filters, sorting and pages, DeleteAccount and the confirmation checks of the deletion requests: filters and guards over modelled operations.
- JSON encoding: saving and loading a record is the identity, and nil and empty lists are one. `SeedInstall` takes the encoding as a parameter that reads back what it writes.
- Non-ASCII case folding and white space: `ToLower` and `EqualFold` agree on ASCII only.
- 64-bit overflow of ids, counters and range bounds, floating-point rounding in the limiter, and collisions of the deduplicator's salted hash: integers and reals are exact and keys injective.
- Lengths are counted in characters, which for ASCII are the code's bytes.
- net/url: `FirstPartyByRepositoryURL` takes the URL parser as a parameter. That the shipped table of first-party names yields a conflict-free index is not evaluated; `Naming.BuildFirstPartyRefIndex` states when it is.
- Canonical aliases that fold to nothing are not required of a first-party plugin; the shipped table has none.
- Go's sort.Slice and sort.SliceStable are modelled as insertion sort, which they use on short lists; where the comparison is linear, `Sorting.OrderedUnique` shows that any correct sort gives the same list. The results on ties (`Releases.SortReversesTies`, `Releases.ThreeSortsAreOne`, `SeedExact.ImportTwiceExactly`) are stated for insertion sort.
- A rate-limiter request that fetched its bucket before another request evicted it: requests run one after another. Several clock readings inside one table operation of the limiter and of the revocation sweep count as one.
- A nil deduplicator, which counts everything, and the nil checks of the repository methods.
- A crash between the two renames of the snapshot install: the code promises no recovery. Double faults are covered: `Snapshot.Disk.SaveSeedSnapshot` says exactly which lose the catalogue. Temporary directory names are fresh.
- Failing reads of the store's files and of its metadata: reads succeed, and the metadata file is loaded with the records.
- Cancelling an import through its context, and unreadable store files.
- StoreRuns.RunKeepsInv: a draft's embedded versions are stored with whatever ids they bring, so fresh and distinct version ids are stated for runs that store none; `StoreRuns.RunIsSafeExactly` shows that they hold in no other run, and `StoreRuns.RunKeepsIdentities` and `ServiceRuns` take any draft.
- Seed imports are not part of the runs of `ServiceRuns`: an import does not normalise first-party identities. `StoreRuns` includes them.
- Validation of download URLs and checksums, and the choice of a release's asset: the version check is a predicate parameter, as is the order in which Go ranges over checksums, and releases come with their chosen download.
- ReleaseSync.SyncTwice: a release tag with surrounding white space, which git does not allow, is excluded.
- The worker's timer and the capacity of its batch slice; ticks may come at any time.
- notifyNewAdvisories, ETag matching, webhook failure counting and the page arithmetic of plugin listings are not modelled.
- preflightDuplicateVersions and preflightDuplicateChecksums join owner, version and platform with NUL bytes, which PostgreSQL text cannot contain; the keys here are tuples.
