# Verification of the contract validator

A Dafny model of the parts of this repository that decide whether an API change is safe, keep the
registry those decisions are made on, install and run its plugins, and generate its fixtures. The
main results are proved for every document, every run and every interleaving the model admits.

* **Breaking changes.** `OpenApi` has documents down to parameters, bodies and responses.
  `BreakingChanges` says how often each change is owed by two documents, `CompatibilityEngine` and
  `CliEngine` run the two engines' loops against that, and `Exactness` relates it to six declarative
  rules. `ReportRules` has these once more, independently, with every method and widening by name, and
  proves both engines to report each change once per place. `Requests` gives operations a meaning (which requests they accept) and proves that a silent
  engine keeps old clients working, under conditions shown to be exact. `Versions` treats
  compatibility as a preorder, and `Transitivity` says exactly when steps compose. `MapOrder` says
  exactly when the order of a map iteration shows.
* **Deployment gate.** `DeploymentSafety` and the `CanIDeploy` method of `ValidatorService`.
* **Registry.** The classes `SchemaCache`, `MemoryStore` and `ValidatorService` hold the state the
  services update in place. `Registry` has the RPCs as functions and proves read-through refinement;
  `RegistryRules` writes out what they answer, refuse and change;
  `CompatibilityLock` and `ConsumerCap` are the two concurrent protocols as state machines.
* **Plugins.** `StateTransactions` (a lock on the inode of a lock file, temporary file, rename,
  crashes) and `StateGuards`, which shows exactly which installs and removals that protocol bears;
  `PluginInstall` (a file tree with symbolic links), `Removals` (which records a removal can be led
  astray by), `PluginManager` and `ExpandEnv`.
* **Fixtures.** `FixtureGenerator`, `FixtureRules` (which values a schema may yield) and `Conformance`.

`dafny verify dfyconfig.toml` checks the project.

## How the code is read

* A map iteration picks any key next; a parallel start, a registration and a consumer call advance
  one step at a time in any order.
* Parsing, validating and building the router is one deterministic partial function. SHA-256 is
  injective: a content stands for its own hash. A plugin fetch, a store write and a state-file write
  have their outcome as an argument; an RPC that looks up several versions takes one fetch outcome for
  each. Random draws are any values in the range asked for, and a conversion to a 64-bit integer that
  is out of range gives any integer.
* A schema's remaining keywords (bounds, patterns, lengths, additional properties, nested schemas) are
  one predicate on values, about which nothing is assumed.
* Parameters are matched by name only, as the code does. OpenAPI Specification 3.0.3, section
  4.7.12, identifies them by name and location, so unique names are an explicit condition where they
  matter, and `Versions.DuplicateNamesDisagree` shows what happens without them.
* A client is judged on the requests it can read off the old operation: declared parameters, and bodies
  of a media type with a schema, of the properties that lists.
* `os.Remove` is unlink and rmdir as Linux has them: the last segment is not followed, a path ending in
  a dot entry is refused, and one ending in a slash must be a directory.
* Type names in the engine's widening table such as `int32` denote the ranges of the formats of that
  name.
* Where comments and code differ, the code is followed: `expandEnv` treats a variable set to the
  empty string as unset, and `generateArray` makes one item where its comment says one or two.
  A reinstall whose state write fails has already replaced the binary
  (`PluginInstall.FailedInstallKeepsSoundIff`).

## Model

| member | source | states |
|---|---|---|
| `CompatibilityEngine.CompareSchemas` | server/cvtservice/compatibility_engine.go:24-53 | Every change is reported exactly as often as the two documents owe it, whatever order the maps are visited in, but that where the media types of an old body disagree its type changes are those owed in some visiting order; the verdict is compatible exactly when nothing is reported |
| `CompatibilityEngine.CheckRemovedEndpoints` | server/cvtservice/compatibility_engine.go:56-113 | One report per endpoint of the old document, under seven methods, that the new one does not serve, and no other |
| `CompatibilityEngine.AddedRequiredParameters` | server/cvtservice/compatibility_engine.go:116-180 | One report per required new parameter whose name the old operation does not declare |
| `CompatibilityEngine.CompareRequestBodies` | server/cvtservice/compatibility_engine.go:224-271 | One report per occurrence of a field in a new media type's required list that no old media type requires |
| `CompatibilityEngine.ParameterTypeChanges` | server/cvtservice/compatibility_engine.go:319-367 | Reports by parameter name against the type declared last under that name in the old operation |
| `CompatibilityEngine.RequestBodyTypeChanges` | server/cvtservice/compatibility_engine.go:370-427 | Reports by property name over all media types, exact for the order in which the old media types were visited, since the last one to type a property wins; where they agree every order gives the same |
| `CompatibilityEngine.ParameterEnumChanges` | server/cvtservice/compatibility_engine.go:471-529 | One report per enum that lost printed values, naming exactly the lost ones |
| `CompatibilityEngine.CompareResponses` | server/cvtservice/compatibility_engine.go:572-611 | Removed status codes once each, and the lost or retyped response fields once per media type that shows them |
| `CompatibilityEngine.CompareResponseSchemas` | server/cvtservice/compatibility_engine.go:614-661 | The field of a response schema is reported exactly when it is gone or its type differs |
| `CompatibilityEngine.CheckCommonPaths` | server/cvtservice/compatibility_engine.go:274-316 | The shared loop of the five common-path checks: one pass over any order of paths reports what that pass owes on all of them |
| `MapOrder.ReportsIgnoreMapOrder` | server/cvtservice/compatibility_engine.go:24-53 | Two runs on the same documents report the same multiset of changes, unless the media types of an old body give a property two types and some new type of it is a change from one of them |
| `MapOrder.CountsIgnoreOrderIff` | server/cvtservice/compatibility_engine.go:370-427 | That condition is exact: the reports owed on two bodies are the same for all visiting orders if and only if it holds of them |
| `Exactness.CountsAreViolations` | server/cvtservice/compatibility_engine.go:116-661 | Each report owed has a witness among the six declarative rules; with unique parameter names each violation is owed a report |
| `Exactness.ReportedIffBroken` | server/cvtservice/compatibility_engine.go:24-53 | A change is in the report if and only if the two documents break the rule it names (unique names, agreeing media types for the converse) |
| `ReportRules.ReportsPerPlace` | server/cvtservice/compatibility_engine.go:24-683 | The same against rules written out in the documents' fields, with the seven and the five methods, the three body methods and every widening by name, for any parameter names: a change is reported once for each place, a parameter, a media type, a required entry or the operation, that they find it at |
| `ReportRules.ReportedIffDue` | server/cvtservice/compatibility_engine.go:24-683 | So it is in the report exactly when it is due at some place, under exactly those methods; only of body type changes on an old body whose media types disagree may some be left out |
| `ReportRules.OneTypeIsTaken` | server/cvtservice/compatibility_engine.go:370-427 | Which ones: of each property the engine takes one of its old types, and reports every change from that one and no other |
| `ReportRules.CliReportsPerPlace` | pkg/cvt/compatibility.go:41-103 | And for the CLI, which reports each of its kinds once per place: no HEAD or OPTIONS endpoints, no body property types, no response fields |
| `Requests.WideningIsInclusion` | server/cvtservice/compatibility_engine.go:665-683 | A type change the table lets pass loses no value: the old type's values are among the new type's |
| `Requests.TableIsInclusion` | server/cvtservice/compatibility_engine.go:665-683 | On all six numeric type names the table is inclusion of value sets exactly, but for the six inclusions it refuses: int64 to integer, float and double, int32 to float and double, double to number |
| `Requests.SilentKeepsClients` | server/cvtservice/compatibility_engine.go:116-529 | Semantic soundness: with nothing reported on an operation of unique parameter names, every request valid for the old one, over all keywords, path-level parameters and media types, is valid for the new one, given that none of the unchecked tightenings happened |
| `Requests.KeepsClientsIff` | server/cvtservice/compatibility_engine.go:116-529 | Those side conditions are exact: on silent operations old requests stay valid if and only if no retained parameter or body turned required, no enum appeared that cuts what was taken, no enum member was replaced by another that prints alike, no other keyword cuts what was taken, nor a type where the old schema had none or several, parameters of the path item take what they took, and the media types a body could be sent in stayed and require no field another one required already |
| `Requests.InheritedKeptIff` | server/cvtservice/compatibility_engine.go:116-180 | For parameters of one type, with or without enum, and no other keyword, the condition on those of the path item is read off types, enums and required flags |
| `Requests.ContentKeptIff` | server/cvtservice/compatibility_engine.go:183-271 | Where a body schema says nothing about the object as a whole, the condition on bodies can be read field by field |
| `Requests.EnumCoversIff` | server/cvtservice/compatibility_engine.go:471-529 | An enum cuts every type with infinitely many values; it covers booleans, null, int32 and int64 exactly when it lists all their values, so at least 2^32 or 2^64 members for the last two |
| `Requests.PlainEnumKeepsIff` | server/cvtservice/compatibility_engine.go:471-529 | On a schema of one type and no other keyword, an enum newly introduced is harmless exactly when it covers the type |
| `Requests.RequiredTurnGoesUnseen` | server/cvtservice/compatibility_engine.go:116-180 | Concrete miss: an optional parameter turned required is reported under no method and breaks clients |
| `Requests.PrintedTwinsGoUnseen` | server/cvtservice/compatibility_engine.go:471-529 | Concrete miss: the engine compares enum members as printed, and the lists of one string "a b" and of two strings "a", "b" print alike |
| `Requests.NewMaximumGoesUnseen` | server/cvtservice/compatibility_engine.go:116-180 | Concrete miss: a maximum added to a parameter is not reported under any method and breaks clients |
| `Requests.PathParameterGoesUnseen` | server/cvtservice/compatibility_engine.go:116-180 | Concrete miss: the engine reads the parameters of the operation only, so a required one added to the path item breaks clients unreported |
| `Requests.DeleteBodyGoesUnseen` | server/cvtservice/compatibility_engine.go:183-221 | Concrete miss: body fields made required on DELETE are not looked at |
| `Versions.CompatibleWithItselfIff` | server/cvtservice/validator_service.go:1088-1104 | The engine is silent on equal documents exactly when same-named parameters and the media types of a body agree with themselves |
| `Versions.EqualDocumentsAreCompatible` | server/cvtservice/validator_service.go:1088-1104 | Reflexivity under unique names and agreeing media types, which is what the equal-hash shortcut assumes |
| `Versions.DuplicateNamesDisagree` | server/cvtservice/compatibility_engine.go:319-367 | Two parameters of one name and different types (legal in different locations) make a document incompatible with itself |
| `Versions.CompatibleCarries` | server/cvtservice/compatibility_engine.go:24-53 | Transitivity: compatible steps compose when the first keeps what the engine compares by (a type, an enum, a body property's type, a response, a response property's schema and type) and the second turns no optional parameter required |
| `Transitivity.CompatibleCarriesIff` | server/cvtservice/compatibility_engine.go:24-53 | The first condition is exact: compatibility carries on to every continuation that keeps parameters optional if and only if the step keeps those, for all documents of unique parameter names |
| `Transitivity.OptionalKeptIff` | server/cvtservice/compatibility_engine.go:24-53 | So is the second: a compatible step goes on from every steady history if and only if it turns no optional parameter required |
| `Transitivity.LeadsOnIff` | server/cvtservice/compatibility_engine.go:116-661 | The first of these for a pair of operations under any checked method |
| `Transitivity.GoesOnIff` | server/cvtservice/compatibility_engine.go:116-180 | The second of these for a pair of operations under any checked method |
| `Versions.HistoryIsCompatible` | server/cvtservice/compatibility_engine.go:24-53 | Any later version of a history checked step by step, whatever methods it serves, is compatible with any earlier one |
| `Versions.DroppedParameterBreaksTheChain` | server/cvtservice/compatibility_engine.go:319-367 | Without retention transitivity fails: drop a parameter, bring it back with another type |
| `Versions.DroppedSchemaBreaksTheChain` | server/cvtservice/compatibility_engine.go:319-367 | Likewise for a parameter's schema dropped and brought back |
| `Versions.TurnedRequiredBreaksTheChain` | server/cvtservice/compatibility_engine.go:116-180 | Without kept optionality it fails: add an optional parameter, then require it |
| `Versions.LiftedEnumBreaksTheChain` | server/cvtservice/compatibility_engine.go:471-529 | Without retention of enums it fails: lift an enum, bring it back shorter |
| `Versions.DroppedPropertyBreaksTheChain` | server/cvtservice/compatibility_engine.go:370-427 | Without retention of body properties it fails: drop one, bring it back with another type |
| `Versions.DroppedResponsesBreakTheChain` | server/cvtservice/compatibility_engine.go:572-611 | Without retention of the responses it fails: drop them, bring them back without a status code |
| `Versions.DroppedContentBreaksTheChain` | server/cvtservice/compatibility_engine.go:614-661 | Without retention of response contents it fails: drop one, bring it back without a field |
| `CliEngine.CompareSchemas` | pkg/cvt/compatibility.go:41-52 | The CLI's own engine reports exactly the changes of the six kinds it looks for, as often as they are owed |
| `CliEngine.CheckRemovedEndpoints` | pkg/cvt/compatibility.go:54-103 | Removed endpoints under the CLI's five methods |
| `CliEngine.CompareResponses` | pkg/cvt/compatibility.go:454-478 | Removed status codes only |
| `CliEngine.CliReportsWhatItSees` | pkg/cvt/compatibility.go:41-52 | Every CLI report is a server report of the same kind, path and method, as often; server-compatible implies CLI-compatible |
| `DeploymentSafety.FilterChangesForConsumer` | server/cvtservice/deployment_safety.go:161-181 | The changes on endpoints the consumer lists, in order, or all of them when it lists none |
| `DeploymentSafety.FilteredKeepsCounts` | server/cvtservice/deployment_safety.go:161-181 | A relevant change is kept as often as it was reported, any other dropped |
| `DeploymentSafety.RelevantIffDue` | server/cvtservice/deployment_safety.go:81-181 | An impact lists exactly the changes due between the two documents at an endpoint the consumer uses, methods spelled out, but for disputed body type changes |
| `DeploymentSafety.ImpactIsDetermined` | server/cvtservice/deployment_safety.go:81-133 | WillBreak is a function of the fields and the two documents: the consumer is pinned to a version, another than the new one, and that is unknown or a change is due from it at an endpoint it lists, if it lists any |
| `DeploymentSafety.UnbrokenConsumerIsServed` | server/cvtservice/deployment_safety.go:81-133 | A consumer pinned to another version and not expected to break: its version resolved, each endpoint it uses is still served, nothing is due on it |
| `DeploymentSafety.UnbrokenConsumerKeepsWorking` | server/cvtservice/deployment_safety.go:81-133 | From the gate to the wire: such a consumer's valid requests stay valid on its checked endpoints |
| `ValidatorService.ValidatorService.CanIDeploy` | server/cvtservice/deployment_safety.go:14-158 | Under any answers of a plugin: lists the environment's consumers, assesses each against the entry the new version resolved to, is safe exactly when none breaks, refuses exactly an ID whose latest version is not found, and never writes the store; with none bound, entries are the store's |
| `ValidatorService.ResolutionFinds` | server/cvtservice/deployment_safety.go:46-64 | A schema whose latest version was found once is found again, so an unknown new version is judged on that latest entry, and the refusal of an unknown version is unreachable without an eviction in between |
| `ValidatorService.ResolutionRefinesStore` | server/cvtservice/deployment_safety.go:46-64 | With no plugin bound the deployment is judged on the store's record of the new version, or of the latest when it has none |
| `ValidatorService.LookupAllRefinesStore` | server/cvtservice/deployment_safety.go:81-110 | With no plugin bound each compared consumer is judged against what the store holds for its version, and cache and store stay in agreement |
| `ValidatorService.SafeVerdictServesEveryone` | server/cvtservice/deployment_safety.go:81-133 | End to end: a safe verdict serves every endpoint used by every listed consumer whose version is not empty and not the new one, with nothing due on it |
| `ValidatorService.VerdictIgnoresOrder` | server/cvtservice/deployment_safety.go:81-133 | Two assessments of the same consumers in any order agree, and are safe exactly when no consumer breaks |
| `ValidatorService.SafeIffNoneBreaks` | server/cvtservice/deployment_safety.go:81-133 | The verdict read off the consumers' fields and the documents the store holds for their versions |
| `ValidatorService.ValidatorService.CompareSchemas` | server/cvtservice/validator_service.go:1028-1128 | Under any answers of a plugin: which versions are looked up and in what order; equal hashes or a missing version count as compatible, anything else is up to the engine; an entry without metadata panics |
| `ValidatorService.ComparisonIsRight` | server/cvtservice/validator_service.go:1028-1128 | While every cached entry is what its content parses to, the RPC keeps that so, never panics, calls a missing version compatible, and calls two documents with unique names and agreeing media types compatible exactly when no change is due between them at any place, however they were found |
| `ValidatorService.ComparisonIsOfTheStore` | server/cvtservice/validator_service.go:1045-1080 | With no plugin bound, the entries compared are the store's, an omitted new version is its latest, and an omitted old version the greatest one tracked before that in string order |
| `ValidatorService.HashesDecideDocuments` | server/cvtservice/validator_service.go:1088-1104 | Hashes are equal exactly when the contents differ in white space at their ends at most, and then the documents are equal if parsing ignores that |
| `Strings.TrimIsMiddle` | server/cvtservice/schema_metadata.go:107-112 | Trimming cuts off characters of Unicode's White_Space, listed one by one, at both ends, and leaves none of them at either |
| `Strings.TrimmedAlikeIff` | server/cvtservice/schema_metadata.go:107-112 | Two contents are normalised alike exactly when they are one text between different white margins |
| `SchemaCache.SchemaCache.Set` | server/cvtservice/cache.go:119-134 | The bare key and the entry's versioned key hold the entry, no other key changes, and the version is tracked; the version index stays sorted and covers every versioned key |
| `SchemaCache.SchemaCache.SetVersion` | server/cvtservice/cache.go:139-144 | Writes the versioned key alone, so the latest version is untouched |
| `SchemaCache.SchemaCache.Delete` | server/cvtservice/cache.go:234-247 | No key of the ID is left at any version, and no key of another @-free ID is touched |
| `SchemaCache.DeletedLeavesNone` | server/cvtservice/cache.go:234-247 | Why: the index covers every versioned key ever written, and versioned keys of @-free IDs never collide |
| `SchemaCache.SchemaCache.GetPreviousVersion` | server/cvtservice/cache.go:297-310 | The greatest tracked version before the current one in string order, if the current one is tracked |
| `SchemaCache.SchemaCache.TrackVersion` | server/cvtservice/cache.go:313-330 | Each version listed once, in order |
| `SchemaCache.TrackedKeepsOrder` | server/cvtservice/cache.go:313-330 | Tracking keeps every list sorted and duplicate-free, adds exactly that version, and leaves other IDs' lists alone |
| `SchemaCache.SchemaCache.ListConsumers` | server/cvtservice/cache.go:364-379 | Exactly the consumers of a schema in an environment, one per key |
| `SchemaCache.SchemaCache.RegisterConsumer` | server/cvtservice/cache.go:348-360 | Replaces or adds one key, keeping the first registration time |
| `SchemaCache.SchemaCache.DeregisterConsumer` | server/cvtservice/cache.go:383-394 | Removes that key alone and says whether it was there |
| `SchemaCache.SharesKeyIff` | server/cvtservice/cache.go:341-344 | Two consumers share a key exactly when one of a consumer's ID, schema ID and environment contains a slash |
| `SchemaCache.OtherConsumerUnlistsIff` | server/cvtservice/cache.go:348-379 | Registering another consumer can take one off the list the deployment gate reads exactly when one of its own three parts contains a slash |
| `SchemaCache.ConsumerKeyIsInjective` | server/cvtservice/cache.go:341-344 | A consumer whose three parts have no slash can be read back from its key |
| `Strings.VersionedKeyIsInjective` | server/cvtservice/cache.go:333-335 | IDs without @ and versions can be read back from a versioned key |
| `Strings.AtSignCollides` | server/cvtservice/cache.go:333-335 | With @ in IDs two schemas can share a key |
| `Strings.SortAppended` | server/cvtservice/cache.go:326-328 | Appending and sorting an ascending list inserts in place |
| `Strings.LessIffPrecedes` | server/cvtservice/cache.go:326-328 | The order of the version lists: a text stands before one that continues it, and before one with a greater character where the two first differ |
| `MemoryStore.MemoryStore.SetSchema` | server/storage/memory.go:44-65 | Over heap records: the record becomes the only latest one of its ID, the others lose the flag and nothing else, other IDs keep theirs |
| `MemoryStore.MemoryStore.GetSchema` | server/storage/memory.go:67-83 | The record flagged latest, or not found |
| `MemoryStore.MemoryStore.GetPreviousVersion` | server/storage/memory.go:185-217 | A version registered strictly earlier, or none; it is right, in that none was registered in between or none earlier exists, exactly when the empty version is not the only right answer |
| `MemoryStore.NothingBetween` | server/storage/memory.go:185-217 | The version before the current one is registered strictly earlier, with no other registered in between |
| `MemoryStore.PreviousWalkEnds` | server/storage/memory.go:185-217 | Following it goes strictly back in time, visits no version twice and ends |
| `MemoryStore.LatestStays` | server/storage/memory.go:44-129 | Over any run of store operations the schema set last stays the latest, alone, until its ID is set again or it is deleted |
| `Registry.FetchSettlesItsKeys` | server/cvtservice/hooks_fire.go:87-165 | What TryFetchFromPlugin does to the state: it never writes the store; a fetch that finds nothing leaves no trace; a found entry is what its content parses to, stands under the key asked for and that of the version it resolved to, and every other key of the cache, the bare key of a pinned fetch included, is as before |
| `Registry.FetchAnswersLaterLookups` | server/cvtservice/hooks_fire.go:141-165 | Afterwards a lookup of the version asked for, or of the one it resolved to, is answered with that entry without asking the plugin again |
| `RegistryRules.LookupAnswers` | server/cvtservice/validator_service.go:661-756 | The answer to a lookup, in keys, contents and fields: what the cache holds under the key; else what a usable plugin answer parses to, its refusal being final; else the record the store holds for the version, or flagged latest where none is given |
| `RegistryRules.LookupSettles` | server/cvtservice/validator_service.go:661-756 | What it writes: only when not cached, the entry found, under the version asked for and its own, which are tracked; no other key and nothing of the store |
| `RegistryRules.PriorAnswers` | server/cvtservice/validator_service.go:768-809 | The prior schema of a registration is that answer for the latest version; none is an error unless no store is bound and the plugin did not refuse |
| `ValidatorService.ValidatorService.GetSchemaEntry` | server/cvtservice/validator_service.go:661-756 | Cache, then plugin, then store, refilling cache and generator on the way |
| `ValidatorService.ValidatorService.LookupPriorForCompat` | server/cvtservice/validator_service.go:768-809 | As a lookup of the latest version, but errors surface and the store's answer is not cached |
| `ValidatorService.ValidatorService.RegisterSchema` | server/cvtservice/validator_service.go:142-351 | The early-return protocol of a registration, proved to be `Registry.Register`, whose refusals, baseline and effect the next four rows state, with the reports against the very baseline it looked up |
| `RegistryRules.RefusedForTheFirst` | server/cvtservice/validator_service.go:150-274 | A registration is refused for the first of these that applies, and else goes through: ID or content all white or longer than 255 or 10485760, content that does not parse, no version, another version than announced, a comparison asked for that finds an error |
| `RegistryRules.RefusedLeavesNoTrace` | server/cvtservice/validator_service.go:150-274 | A refused registration leaves every part of the state as it was |
| `RegistryRules.BaselineIsTheAnswer` | server/cvtservice/validator_service.go:250-281 | The baseline is none unless a comparison is asked for, and then the answer to a lookup of the latest version before the registration |
| `RegistryRules.RegisteredEffect` | server/cvtservice/validator_service.go:283-330 | An accepted registration stands under its bare and its versioned key, is tracked and mirrored, and becomes the only latest record of its ID where the store takes it; nothing else changes beyond what its lookup did |
| `Registry.LookupRefinesStore` | server/cvtservice/validator_service.go:661-756 | On an agreeing cache a lookup answers what the store alone would and keeps the agreement |
| `Registry.CommitKeepsCoherent` | server/cvtservice/validator_service.go:301-323 | A registration's cache and store writes keep every bare key on the latest record and every versioned key on its version's |
| `Registry.ReadThroughRefinesStore` | server/cvtservice/validator_service.go:661-756 | Read-through refinement, with no plugin bound, @-free IDs and store writes succeeding: after any run of registrations, lookups and evictions of arbitrary keys, a lookup equals a store-only lookup |
| `Registry.CheckedAgainstLatest` | server/cvtservice/validator_service.go:250-274 | A checked registration that goes through was compared with the store's latest record; it is refused exactly when there is none |
| `Registry.FirstCheckedRegistrationIsRefused` | server/cvtservice/validator_service.go:250-274 | With a store, the first checked registration of an unknown ID is refused and changes nothing |
| `Registry.PinnedLookupIsHarmless` | server/cvtservice/validator_service.go:736-744 | A pinned lookup, by store or plugin, never changes what an unpinned lookup of an ID without an inner @ returns |
| `Registry.PinnedLookupIsHarmlessIff` | server/cvtservice/validator_service.go:736-744 | And of no other: for an ID this holds in every registry exactly when it has no @ before its last character |
| `Registry.InnerAtLeaks` | server/cvtservice/cache.go:333-335 | The leak for each of the others: pinning what follows an inner @ for what precedes it makes the unregistered ID resolve |
| `Registry.UnsavedRegistrationAgreesIff` | server/cvtservice/validator_service.go:250-330 | When the store refuses the write, cache and store still agree exactly when the request fails the checks before the lookup, asks for a comparison where the store has no latest record, or re-registers that record |
| `Registry.UnsavedRegistrationShowsIff` | server/cvtservice/validator_service.go:250-330 | Otherwise, and only then, the very next lookup of the ID answers with a schema the store lacks |
| `CompatibilityLock.ReportsFormAnUnbrokenChain` | server/cvtservice/validator_service.go:250-343 | In every interleaving of checked registrations of @-free IDs, with evictions anywhere, harmless refills and store writes succeeding, each registration is compared with the schema committed immediately before it for its ID |
| `CompatibilityLock.CriticalSectionsExclude` | server/cvtservice/validator_service.go:41-48 | In every run at all, at most one call per ID is between the lookup of its prior version and its unlock |
| `CompatibilityLock.LoneCallCommits` | server/cvtservice/validator_service.go:250-343 | Undisturbed, a checked registration of an unlocked ID is compared with the cached schema, or else the stored one, and ends cached under both keys, latest in the store and logged, with the lock free |
| `CompatibilityLock.LoneFirstCallFails` | server/cvtservice/validator_service.go:250-274 | With no prior schema anywhere it fails and leaves everything as it was |
| `CompatibilityLock.SuccessesAreCommits` | server/cvtservice/validator_service.go:250-343 | In every run at all, the registrations that have succeeded or are about to are as many as the commits, and each has its schema among them |
| `CompatibilityLock.UnlockedCacheIsLatest` | server/cvtservice/validator_service.go:301-330 | While nobody holds an ID's lock its cached schema is the store's latest |
| `CompatibilityLock.RunKeepsInvariant` | server/cvtservice/validator_service.go:250-343 | The invariant behind both: the bare key holds the last commit, or the schema its lock holder is about to commit |
| `CompatibilityLock.FillKeepsInvariantIff` | server/cvtservice/validator_service.go:736-744 | A read-through refill keeps that invariant exactly when it is harmless: it does not fall between the lock holder's write of the bare key and its store write, or would write what is already due |
| `CompatibilityLock.RefillBreaksTheChain` | server/cvtservice/validator_service.go:736-744 | A read-through refill takes no lock: between an eviction and the store write it brings the old version back, and the next registration is compared with that |
| `ValidatorService.ValidatorService.RegisterConsumer` | server/cvtservice/consumer_registry.go:17-112 | Run uninterrupted it is one check and one add: refused for a missing ID, a schema not found, or at the cap, and then nothing is added; the store takes the same consumer if it can, so equal registries stay equal |
| `MemoryStore.MemoryStore.RegisterConsumer` | server/storage/memory.go:337-354 | Replaces or adds one key, keeping the first registration time, as the cache does |
| `ConsumerCap.SoftCapBound` | server/cvtservice/consumer_registry.go:56-65 | With at most t calls in flight, a schema never has more than 9999 + t consumers, in any interleaving with deregistrations |
| `ConsumerCap.SequentialCallsKeepTheCap` | server/cvtservice/consumer_registry.go:56-65 | One call at a time keeps the cap of 10000 |
| `ConsumerCap.SoftCapBoundIsReached` | server/cvtservice/consumer_registry.go:56-65 | For every t a run reaches the bound, so it cannot be lowered |
| `ConsumerCap.StepKeepsSum` | server/cvtservice/consumer_registry.go:56-90 | Consumers and admitted calls together never pass the bound: a check passes only below the cap, an add trades a call for at most one consumer |
| `ConsumerCap.LoneCallRegisters` | server/cvtservice/consumer_registry.go:17-112 | Undisturbed, a call adds its consumer under its key, in dev where no environment is given, keeping a first registration time, unless an ID is missing or the schema has 10000 consumers |
| `StateTransactions.FileIsFoldOfCommitted` | internal/pluginmgr/state.go:95-164 | Under any interleaving, with I/O failures, process crashes and power losses anywhere, and installs and removals that spare state.json and its lock file, the file parses and is the fold of the committed transactions in lock order, each counted once, exactly when its rename happened |
| `StateTransactions.UnlockedReadSeesAPrefix` | internal/pluginmgr/state.go:55-75 | In such a run, a read without the lock sees the fold of a prefix of what the run commits |
| `StateTransactions.NoUpdateIsLost` | internal/pluginmgr/state.go:87-95 | In such a run, a committed install stays recorded until a later transaction names its plugin or overwrites all |
| `StateTransactions.UnreadableFileIsKept` | internal/pluginmgr/state.go:112-117 | A state file that does not parse is never overwritten, and every transaction fails at reading it |
| `StateTransactions.RebootKeepsInvariant` | internal/pluginmgr/state.go:150-162 | A power loss between any two steps leaves the state file whole, because a temporary file is synced before it is renamed |
| `StateTransactions.AdvanceKeepsKnowledge` | internal/pluginmgr/state.go:110-163 | What the lock holder read, decided and encoded stays true of the file until its rename |
| `StateTransactions.InstallIsPut` | internal/pluginmgr/state.go:225-259 | The state change of an install is the transaction the protocol carries |
| `StateTransactions.RemoveIsDrop` | internal/pluginmgr/state.go:283-299 | The state change of a removal is the transaction the protocol carries, unless what it deletes is the state file itself |
| `StateTransactions.ChangedIff` | internal/pluginmgr/state.go:225-299 | What a transaction makes of the plugins it finds: an install puts its record unless another plugin owns the copied path, a removal takes one whose path is acceptable |
| `StateTransactions.ParsedIff` | internal/pluginmgr/state.go:55-75 | What reads as a state: a missing file as no plugins, a whole document of version 0 or 1 |
| `StateGuards.LoneTransactionCommits` | internal/pluginmgr/state.go:95-164 | Undisturbed, with the lock free and a readable state, a transaction ends with its change on disk as a synced document of version 1, itself logged, the lock free and nothing else changed |
| `StateGuards.LoneTransactionRefuses` | internal/pluginmgr/state.go:107-125 | One that refuses the state it finds ends with the lock free and the file as it was |
| `StateGuards.CopyGuardIsExact` | internal/pluginmgr/state.go:95-110 | Runs in which an install may be carried out, and nothing else touches the protocol's files, are serial, every one, exactly when that install copies no binary over state.json or its lock file |
| `StateGuards.InstallOverLockLoses` | internal/pluginmgr/state.go:95-110 | The losing run: an install that renames a binary over the lock file holds the old inode, the next process locks the new one, and its committed update is overwritten |
| `StateGuards.InstallOverStateTears` | internal/pluginmgr/state.go:225-258 | An install over state.json stopped after its copy leaves a file that does not parse |
| `StateGuards.DeleteGuardIsExact` | internal/pluginmgr/state.go:299-306 | Runs whose late deletes fall at a given place are serial, every one, exactly when that place is neither state.json nor its lock file |
| `StateGuards.DeletingLockLoses` | internal/pluginmgr/state.go:299-306 | The losing run: a late delete of the lock file lets two processes into the critical section |
| `StateGuards.DeletingStateLoses` | internal/pluginmgr/state.go:299-306 | A late delete of state.json takes along what was committed since the removal |
| `PluginInstall.Host.Install` | internal/pluginmgr/state.go:184-263 | Case by case: every error with its condition and the files it leaves, the name pattern, versions and paths written out; on success the copy at the root, or the source in place, and the record in state.json as version 1 |
| `PluginInstall.Host.FindTaken` | internal/pluginmgr/state.go:235-243 | The collision guard finds another plugin recorded at the path exactly when there is one |
| `PluginInstall.Host.Remove` | internal/pluginmgr/state.go:277-307 | Case by case: state first, then the binary; on every error before the write nothing changes, after it the record is gone and the file or empty directory at its path, if anything is there |
| `PluginInstall.AcceptsIff` | internal/pluginmgr/config.go:174-198 | A recorded path is accepted exactly when, absolute or with its ~ expanded, it cleans to something strictly below the root; and each refusal by its condition |
| `PluginInstall.NameMatchesIff` | internal/pluginmgr/config.go:72 | Plugin names are those of the pattern ^[a-z][a-z0-9-]{0,31}$ |
| `PluginInstall.ActsAtIff` | internal/pluginmgr/state.go:299-306 | Where os.Remove acts on a path, in its segments and the slashes at its end |
| `PluginInstall.VerifiesIff` | internal/pluginmgr/state.go:309-321 | A record verifies exactly when its path, followed over links, leads to a file of the recorded hash |
| `PluginInstall.InstalledPluginsStayUsable` | internal/pluginmgr/state.go:225-321 | Over any run of out-of-root installs (not of a state.json), removals and edits outside the root: recorded paths are distinct, every plugin verifies, and every plugin can be removed without disturbing another |
| `PluginInstall.InstallKeepsSound` | internal/pluginmgr/state.go:225-258 | One out-of-root install keeps every record on an existing file of its own with the recorded hash |
| `PluginInstall.InRootInstallKeepsSoundIff` | internal/pluginmgr/state.go:227-228 | An in-root install skips the guard: it keeps the records sound exactly when no other plugin owns the path and no link leads to it |
| `PluginInstall.FailedInstallKeepsSoundIff` | internal/pluginmgr/state.go:244-258 | If the state write fails after the copy, the records stay sound exactly when this was not a reinstall with a changed binary |
| `PluginInstall.StateJsonNeverVerifies` | internal/pluginmgr/state.go:229-258 | A binary that lands on state.json, copied there or installed in place, with any content, is overwritten by its own record and never verifies |
| `Removals.RemoveStaysUnderRoot` | internal/pluginmgr/state.go:289-306 | For any record, however spelled, that is absolute and has no symbolic link on its way through directories, or that ends in a dot entry, nothing outside the root is deleted or changed |
| `Removals.RemovalAimsInsideIff` | internal/pluginmgr/state.go:289-306 | Of all records the path check accepts, whatever their spelling, a removal acts under the root only, in every file tree with links at given places and from every working directory, exactly for those that end in a dot entry or are absolute with none of the links at a prefix the walk can reach |
| `Removals.RemovalStaysIff` | internal/pluginmgr/state.go:289-306 | For those what is outside the root is kept; and for walks that do not go below the place they end at and come back, only for those |
| `Removals.DoublingBackIsKept` | internal/pluginmgr/state.go:289-306 | Why the others are set apart: for root /r and a link at /r/l the record /r/l/x/y/../../x can be led outside, but what it then ends at is never empty, so nothing outside is ever deleted |
| `Removals.DottedRecordEscapes` | internal/pluginmgr/config.go:174-198 | A failing record: for root /r the check cleans /r/l/../x to /r/x and accepts it; with /r/l a link to /a/d, the file /a/x goes |
| `Removals.HomeRecordEscapes` | internal/pluginmgr/config.go:174-198 | Another: the check accepts ~/x by expanding the ~, and os.Remove deletes ~/x of the working directory |
| `Removals.LinkEscapes` | internal/pluginmgr/state.go:299-306 | And any link on an absolute record's way can lead the removal out of the root |
| `PluginInstall.DescendingPathIsAccepted` | internal/pluginmgr/config.go:174-198 | A path written from the root that never climbs above it is accepted and cleaned, unless it comes back to the root itself |
| `ExpandEnv.Expand` | internal/pluginmgr/config.go:219-254 | For every text printed to the string, it yields exactly the text with each reference replaced by its variable, when set and not empty, and else by its default; substituted values are not rescanned |
| `ExpandEnv.EvalIffExpands` | internal/pluginmgr/config.go:219-254 | Evaluation gives out exactly when out is the text with what each reference stands for in its place |
| `ExpandEnv.VariableBeforeDefault` | internal/pluginmgr/config.go:236-250 | A variable set and not empty wins over any default; the default is for one unset or empty |
| `ExpandEnv.ParseIsWellFormed` | internal/pluginmgr/config.go:219-254 | Every string is the print of a well-formed text: literals without ${, references without } |
| `ExpandEnv.ParseOfPrint` | internal/pluginmgr/config.go:219-254 | A string is the print of no other well-formed text, so printing and parsing are inverse |
| `ExpandEnv.SplitIsFirst` | internal/pluginmgr/config.go:236-243 | A reference splits at its first :- and at no other |
| `ExpandEnv.FailsIff` | internal/pluginmgr/config.go:226-250 | Expansion fails exactly on a reference left open or a variable unset without default |
| `ExpandEnv.UnsetIff` | internal/pluginmgr/config.go:244-250 | The error for an unset variable names the first one from the left that has neither value nor default |
| `PluginManager.Manager.Start` | internal/pluginmgr/manager.go:113-164 | All or nothing for every order of steps and every failure point; from an idle manager either all configured plugins are alive, handled and reported Up once, or nothing is left; a second start leaks the first one's processes |
| `PluginManager.Manager.Stop` | internal/pluginmgr/manager.go:175-189 | Kills exactly the handled processes, clears their gauges, and is a no-op without handles |
| `PluginManager.Manager.Advance` | internal/pluginmgr/manager.go:256-422 | One step of one plugin's start: fork, fail and kill, or clear and set its gauges |
| `PluginManager.StepKeepsOwned` | internal/pluginmgr/manager.go:284-290 | Beside what ran before, exactly the processes of starts under way are alive, each under a pid of its own |
| `PluginManager.GaugedWhenFinished` | internal/pluginmgr/manager.go:406-419 | Once all have ended Up and Info tell exactly of the plugins that started, with one Info series each |
| `FixtureGenerator.Generator.GenerateValue` | pkg/cvt/generator.go:438-498 | The dispatch; its value and the stream position after it are functions of the schema, depth and position |
| `FixtureRules.ValueFits` | pkg/cvt/generator.go:438-661 | Whatever the stream, on any schema graph, the value is one the schema may yield, said of fields and values alone: null below depth 10, examples first, merged allOf, the first of oneOf and anyOf, every property or three made-up members, the number of items, fixed strings, formats, ranges and defaults |
| `FixtureRules.ScalarsDrawOnce` | pkg/cvt/generator.go:548-645 | Scalars use up one draw, at the position given, and fixed ones none |
| `FixtureRules.ItemsInTurn` | pkg/cvt/generator.go:528-545 | The items of an array of plain strings are the next words of the stream, in turn |
| `FixtureRules.ObjectInTurn` | pkg/cvt/generator.go:501-525 | The members of an object of them are, in the ascending order of their names |
| `FixtureGenerator.Generator.GenerateObject` | pkg/cvt/generator.go:501-525 | Whatever order the property map is visited in, members are drawn in ascending order of name, so value and stream do not depend on it |
| `FixtureGenerator.Generator.GenerateArray` | pkg/cvt/generator.go:528-545 | As many items as minItems asks, and at least one |
| `FixtureGenerator.Generator.GenerateAllOf` | pkg/cvt/generator.go:648-661 | Later objects take over the names of earlier ones; other values are dropped |
| `FixtureGenerator.Generator.GenerateString` | pkg/cvt/generator.go:548-587 | A string from at most one draw; with an enum, its first member as Go prints it, from none |
| `FixtureGenerator.Generator.GenerateInteger` | pkg/cvt/generator.go:590-610 | A 64-bit integer from at most one draw: the first enum member cut toward zero when that is a representable number, else within the converted bounds whenever these leave a range |
| `FixtureGenerator.Generator.GenerateNumber` | pkg/cvt/generator.go:613-633 | A number from at most one draw: the first enum member when that is a number, else within the bounds whenever these leave a range |
| `FixtureGenerator.Generator.GenerateBoolean` | pkg/cvt/generator.go:636-645 | A boolean from at most one draw: the first enum member when that is one |
| `Conformance.NestingIsBounded` | pkg/cvt/generator.go:438-447 | With examples off, on any schema graph, cyclic or not, a value generated at a depth nests at most 11 - depth |
| `Conformance.GeneratedConforms` | pkg/cvt/generator.go:438-661 | Conformance on the fragment of schema trees that fit above the depth limit |
| `Conformance.FixtureConforms` | pkg/cvt/generator.go:438-661 | At the top level: trees of height at most 10, whose integer bounds survive the conversion to 64 bits |
| `Conformance.MergedConforms` | pkg/cvt/generator.go:648-661 | Merging objects with disjoint properties fills the properties of each |
| `Conformance.TallerTreesAreCut` | pkg/cvt/generator.go:443-446 | A tree of height 11 is cut off with a null where a boolean is required, so the height cannot be raised |
| `Conformance.IntegerConformsIff` | pkg/cvt/generator.go:598-609 | An integer schema gets valid values from every stream exactly when its bounds exclude no 64-bit integer, or fit 64 bits, leave a nonempty range and, cut toward zero, are within the bounds |
| `Conformance.BoundsBeyond64BitsFail` | pkg/cvt/generator.go:598-609 | A minimum of 10^19 is met by no stream, and minimum 0 with maximum 2^63 fails for some: that conversion is out of range |

## Left out

- Path templates: a path is looked up by its exact key, where the library may also match a template with renamed parameters.
- Texts of reports: kind, description, old and new value of a breaking change follow from path, method and finding; the values removed from an enum are read as a set.
- Requests: bodies are objects of top-level properties, as deep as the engine looks; parameters are identified by name; what a schema says beyond types, enums and required fields is an arbitrary predicate on the value.
- Removals.RemovalStaysIff: of a record whose walk goes below the place it ends at and comes back up, only where its removal aims is stated exactly (`Removals.RemovalAimsInsideIff`), because a directory with something in it is kept (`Removals.DoublingBackIsKept`).
- Metadata: ownership, timestamps other than registration times, and endpoint counts of an entry are not kept; lengths of IDs and contents are counted in characters.
- Other calls and evictions in the middle of one lookup or of one RPC: lookups are atomic in the refinement and in the lock protocol, where a refill is one step of its own; concurrent registrations are `CompatibilityLock`'s, concurrent consumer calls `ConsumerCap`'s.
- `SetLegacy`, which caches entries without metadata, is called nowhere; what such an entry does to a comparison is `NilMetadata`.
- Directory entries: a rename that happened is taken to survive a power loss, although the directory is not synced; what a file holds survives only if the file was synced.
- Registrations without the compatibility check, and failing store writes, in the lock protocol: the first take no lock, and after the second cache and store differ (`Registry.UnsavedRegistrationAgreesIff`).
- `Remove`'s late delete racing an install of the same binary: removals and installs follow one another in `PluginInstall`; the races on the state and lock files are in `StateGuards`.
- Creating the plugin root, file modes, hard links, and a root that is itself reached through links: the root is given by its real path.
- `Host.Install`: a relative source path is made absolute before the model starts; the source is read through any links on its way.
- Steps of a plugin's handshake: every failure between fork and readiness is one kind of failure, followed by the kill.
- `Manager.Start` while `Stop` runs: the manager's methods follow one another.
- Generator: a `minItems` beyond 64 bits; string formats and patterns, `maxItems`, exclusive bounds, `oneOf` and examples carry no conformance claim; response headers and status selection are not modelled.
- PostgreSQL and SQLite stores, gRPC, TLS, logging, metrics other than Up and Info, the CLI commands, the mock server, and the client SDKs.
