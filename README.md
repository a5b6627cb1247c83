# KBase search engine: type registry, stored events and the main object processor

This project models three parts of the KBase search engine's indexing core in Dafny and proves their behaviour.

1. **TypeFileStorage** is the versioned type-resolution registry. It is built once, in two phases:
   - the type-definition directory first, which gives a table of type rules by search-type name and version;
   - then the type-mapping directory, which gives mappings by storage type, with per-version entries and default search types.

   After that it answers three queries:
   - exact lookup of a search type's rule;
   - the latest rule of every search type;
   - resolution of a storage object type, with an optional version, to a set of rules.

   The registry's own implementation is not part of this model. Its behaviour is taken case by case from `TypeFileStorageTest.java`. Each test case is a Dafny scenario: the directory listings of the test build the registry, and the test's queries give its answers. General lemmas then prove those answers for every registry construction.

   Construction fails with one of four errors, each a choice of the model (see "Left out"). `MalformedTypeFile` is an accepted type file that is not one search type's version list. `DuplicateSearchType` is a second accepted file declaring a search type already loaded. `MappingCollision` is a storage type mapped twice. `UnknownSearchType` is a mapping that names a search type with no loaded rule. `TypeFileStorageFailures` proves when construction succeeds and what each error points at.
2. **StoredStatusEvent** is a stored event with its id, processing state and optional updater. Its validating constructor and getters are modelled after `StoredStatusEventTest.java`. The class's own implementation is not part of this model. The tests fix these points:
   - a null or whitespace-only updater is stored as absent;
   - the updater "foo" is kept;
   - a null event, id or state fails with a null-pointer error naming it.

   Two further points are choices of the model that the tests do not decide. The model checks event, then id, then state, so a call with several nulls names the first of them. A kept updater is stored as given, not trimmed.
3. **MainObjectProcessor** is the class `lib/src/kbaserelationengine/main/MainObjectProcessor.java`. The model covers:
   - one tick over the event iterator, with the dispatch switch;
   - the supported-storage-type test;
   - the rule loop of object indexing;
   - share and unshare;
   - the lifecycle runner's start and stop guards;
   - the choice between workspace id and workspace name.

   The processor is a Dafny class. Its calls into the workspace, the object parser and the indexing storage are recorded as `Action`s in a `trace` field. The tick is a `while` loop over a stateful iterator object. It is proved against `TickFrom`, a function of the event sequence, and `TickFrom`'s properties are proved as lemmas.

Files:
- `wrappers.dfy`: `Option` and `Result`.
- `search_types.dfy`: search and storage object types, type rules, type mappings.
- `decimal.dfy`: Java's decimal rendering of integers and `Long.parseLong`.
- `type_file_storage.dfy`: the registry, its two-phase construction and its queries.
- `type_file_storage_properties.dfy`: the registry's general properties.
- `type_file_storage_failures.dfy`: when construction succeeds, and the cause of each construction error.
- `type_file_storage_scenarios.dfy`: the test cases of `TypeFileStorageTest.java`.
- `stored_status_event.dfy`: the stored event.
- `main_object_processor.dfy`: the processor.

How the model reads the code and the tests:
- `performOneTick` acknowledges only the events it skips, each with `false` (`MainObjectProcessor.java:127-131`). A dispatched event is not acknowledged, and the model adds no `true` acknowledgement.
- Without a mapping, every version of a storage type resolves to the highest loaded version of each search type declaring it (`TypeFileStorageTest.java:218-229`).
- A mapping replaces, as a whole, the mapping the type files derived for its storage type (`TypeFileStorageTest.java:289-300`, `TypeFileStorageTest.java:475-486`).

## Model

| member | source | states |
|---|---|---|
| StoredStatusEvents.NewStoredStatusEvent | test/src/kbasesearchengine/test/events/StoredStatusEventTest.java:55-79 | construction succeeds exactly when event, id and state are all present; otherwise it fails with a null-pointer error naming the first missing one, checked in the order event, id, state; a constructed event never holds a blank updater |
| StoredStatusEvents.ConstructorKeepsArguments | test/src/kbasesearchengine/test/events/StoredStatusEventTest.java:28-53 | the getters return exactly the event, id and state passed in; the updater is present exactly when one was given and holds a character trim would keep, and it is then the given text |
| StoredStatusEvents.ConstructionRoundTrip | test/src/kbasesearchengine/test/events/StoredStatusEventTest.java:28-53 | a stored event is what the constructor builds from its own fields exactly when its updater is absent or not blank |
| StoredStatusEvents.Trim | test/src/kbasesearchengine/test/events/StoredStatusEventTest.java:23-26 | a trimmed string is no longer than the original, and a non-empty one neither starts nor ends with a character up to U+0020 |
| StoredStatusEvents.TrimKeepsMiddle | test/src/kbasesearchengine/test/events/StoredStatusEventTest.java:23-26 | trimming keeps one contiguous run of the string, and every character it drops before or after that run is one up to U+0020 |
| StoredStatusEvents.BlankIffAllTrimmed | test/src/kbasesearchengine/test/events/StoredStatusEventTest.java:23-26 | a string is blank (empty after `String.trim`) exactly when every character is one trim removes |
| StoredStatusEvents.NoUpdater | test/src/kbasesearchengine/test/events/StoredStatusEventTest.java:23-39 | a null updater and a whitespace-only updater both give the same event with an absent updater |
| StoredStatusEvents.NullAndBlankUpdaterAgree | test/src/kbasesearchengine/test/events/StoredStatusEventTest.java:23-39 | for any event, id and state, a blank updater gives the same stored event as a null one, with the updater absent |
| StoredStatusEvents.WhitespaceIsBlank | test/src/kbasesearchengine/test/events/StoredStatusEventTest.java:25 | the test's spaces, tab and newline string is blank |
| StoredStatusEvents.WithUpdater | test/src/kbasesearchengine/test/events/StoredStatusEventTest.java:41-53 | the updater "foo" is kept as present "foo" |
| StoredStatusEvents.MissingArgumentsFail | test/src/kbasesearchengine/test/events/StoredStatusEventTest.java:55-66 | a null event, id or state fails with the error "event", "id" or "state" |
| Decimal.NatToString | lib/src/kbaserelationengine/main/MainObjectProcessor.java:164-165 | the rendering of a natural number is a non-empty digit string with no leading zero whose value is that number |
| Decimal.IntToString | lib/src/kbaserelationengine/main/MainObjectProcessor.java:164-165 | an integer renders as digits, preceded by '-' when negative, and never contains '/' |
| Decimal.ParseLong | lib/src/kbaserelationengine/main/MainObjectProcessor.java:189 | a parse succeeds exactly when the text is an optional sign followed by at least one digit and its signed value fits in 64 bits, and it then gives that value; a first character other than a sign or digit, or a later non-digit, is a format error |
| Decimal.ParseLongInvertsIntToString | lib/src/kbaserelationengine/main/MainObjectProcessor.java:188-192 | every 64-bit value parses back from its decimal rendering |
| Decimal.IntToStringInvertsParseLong | lib/src/kbaserelationengine/main/MainObjectProcessor.java:188-192 | canonical decimal text (no '+', no leading zero) renders back from its parsed value |
| MainObjectProcessing.ObjectRefRoundTrip | lib/src/kbaserelationengine/main/MainObjectProcessor.java:164-165 | the object reference `accessGroupId/objectId/version` splits back into exactly the access group, object id and version, for 64-bit numbers and an object id without '/' |
| MainObjectProcessing.ObjectRefDistinguishesVersions | lib/src/kbaserelationengine/main/MainObjectProcessor.java:164-165 | two object versions share a reference exactly when they agree on access group, object id and version |
| MainObjectProcessing.DecimalSelectsId | lib/src/kbaserelationengine/main/MainObjectProcessor.java:188-192 | the decimal text of a 64-bit id names the workspace by that id |
| MainObjectProcessing.ChooseWorkspaceIdentity | lib/src/kbaserelationengine/main/MainObjectProcessor.java:188-192 | the workspace is named by id exactly when the text is a signed decimal whose value fits in 64 bits, and the id is that value; otherwise it is named by the text itself |
| MainObjectProcessing.IdOrName | lib/src/kbaserelationengine/main/MainObjectProcessor.java:188-192 | a selected id is a 64-bit value; empty text, text starting with anything but a sign or digit, text with a later non-digit, and a digit string too large for 64 bits name the workspace by name |
| MainObjectProcessing.OverflowSelectsName | lib/src/kbaserelationengine/main/MainObjectProcessor.java:188-192 | the decimal text of a number outside the 64-bit range names the workspace by name |
| MainObjectProcessing.IsStorageTypeSupported | lib/src/kbaserelationengine/main/MainObjectProcessor.java:157-159 | a storage type is supported exactly when the rule lookup returns a list (not null), even an empty one |
| MainObjectProcessing.IndexActions | lib/src/kbaserelationengine/main/MainObjectProcessor.java:161-172 | indexing loads the object by its reference, then processes it once per rule, in rule order, and does nothing else; with a null rule list only the load happens |
| MainObjectProcessing.Dispatch | lib/src/kbaserelationengine/main/MainObjectProcessor.java:136-151 | the switch has a case exactly for CREATED, NEW_VERSION, DELETED, SHARED and UNSHARED, and every case acts |
| MainObjectProcessing.DispatchByEventType | lib/src/kbaserelationengine/main/MainObjectProcessor.java:136-151 | CREATED and NEW_VERSION index; DELETED unshares from the access group; SHARED shares into the target group; UNSHARED unshares from the target group; exactly the other types have no case |
| MainObjectProcessing.SkippedEventsDispatchNothing | lib/src/kbaserelationengine/main/MainObjectProcessor.java:127-132 | an event of an unsupported storage type is got past and contributes no action |
| MainObjectProcessing.TickFrom | lib/src/kbaserelationengine/main/MainObjectProcessor.java:124-152 | a tick never reads past the last event; a completed tick has read every event, and a failed one has read at least the event it failed on |
| MainObjectProcessing.TickStopsAtFirstUnhandled | lib/src/kbaserelationengine/main/MainObjectProcessor.java:124-152 | a tick reads events in order; it completes exactly when every remaining event is skipped or has a case, having read them all; otherwise it stops right after the first supported event with no case and fails with that event's type |
| MainObjectProcessing.TickAcksOnlySkipped | lib/src/kbaserelationengine/main/MainObjectProcessor.java:127-131 | every acknowledgement is `false` for an event the tick read and whose storage type is unsupported |
| MainObjectProcessing.TickAcksEverySkipped | lib/src/kbaserelationengine/main/MainObjectProcessor.java:127-131 | every unsupported event the tick reads is acknowledged with `false` |
| MainObjectProcessing.TickAcksAscend | lib/src/kbaserelationengine/main/MainObjectProcessor.java:125-131 | acknowledgements follow reading order, so no event is acknowledged twice |
| MainObjectProcessing.TickActionsFollowEvents | lib/src/kbaserelationengine/main/MainObjectProcessor.java:125-154 | the tick's actions are, in order, the actions of each event it got past |
| MainObjectProcessing.UnknownStorageTypeScenario | lib/src/kbaserelationengine/main/MainObjectProcessor.java:127-132 | a lone CREATED event of an unknown storage type is acknowledged `false`, nothing is indexed, and the tick completes |
| MainObjectProcessing.UnsupportedTypeScenario | lib/src/kbaserelationengine/main/MainObjectProcessor.java:150-151 | a DELETE_ALL_VERSIONS event of a supported type aborts the tick; the following event is neither read nor acknowledged |
| MainObjectProcessing.Start | lib/src/kbaserelationengine/main/MainObjectProcessor.java:72-98 | start succeeds exactly when no runner is set, and the runner then runs; otherwise it fails with AlreadyStarted |
| MainObjectProcessing.Stop | lib/src/kbaserelationengine/main/MainObjectProcessor.java:100-118 | stop never leaves a running runner; it returns true exactly when a running runner exits within the 600 polls and false exactly when no runner is set, clearing the runner on success and leaving it interrupted on failure |
| MainObjectProcessing.LifecycleGuards | lib/src/kbaserelationengine/main/MainObjectProcessor.java:72-118 | start fails exactly when a runner is set; stop with no runner returns false; stop never leaves a running runner; after a timed-out stop both a new start and a second stop fail |
| MainObjectProcessing.StartStopCycle | lib/src/kbaserelationengine/main/MainObjectProcessor.java:100-117 | a runner that exits within the 600 polls is stopped with true and cleared; one that does not is left interrupted with an error |
| MainObjectProcessing.ObjectStatusEventIterator.constructor | lib/src/kbaserelationengine/main/MainObjectProcessor.java:124 | a new iterator starts at the first event with no acknowledgement |
| MainObjectProcessing.ObjectStatusEventIterator.Next | lib/src/kbaserelationengine/main/MainObjectProcessor.java:126 | returns the event at the current position and advances by one, acknowledgements unchanged |
| MainObjectProcessing.ObjectStatusEventIterator.MarkAsVisited | lib/src/kbaserelationengine/main/MainObjectProcessor.java:130 | appends an acknowledgement for the event last returned, position unchanged |
| MainObjectProcessing.MainObjectProcessor.constructor | lib/src/kbaserelationengine/main/MainObjectProcessor.java:48-70 | empty trace; the runner is started exactly when the flag asks for it |
| MainObjectProcessing.MainObjectProcessor.StartLifecycleRunner | lib/src/kbaserelationengine/main/MainObjectProcessor.java:72-98 | with no runner set the runner starts; otherwise it fails with AlreadyStarted and the state is unchanged |
| MainObjectProcessing.MainObjectProcessor.StopLifecycleRunner | lib/src/kbaserelationengine/main/MainObjectProcessor.java:100-118 | the polling loop returns and leaves the runner state exactly as `Stop` says: false with no runner, an error on a second stop, true when the runner exits within the polls, a timeout error otherwise |
| MainObjectProcessing.MainObjectProcessor.Share | lib/src/kbaserelationengine/main/MainObjectProcessor.java:175-177 | appends one share of the singleton set of the object into the access group |
| MainObjectProcessing.MainObjectProcessor.Unshare | lib/src/kbaserelationengine/main/MainObjectProcessor.java:179-181 | appends one unshare of the singleton set of the object from the access group |
| MainObjectProcessing.MainObjectProcessor.IndexObject | lib/src/kbaserelationengine/main/MainObjectProcessor.java:161-173 | succeeds exactly when the storage type is supported; the trace grows by the load and then one processing per rule, in order (only the load when the lookup is null) |
| MainObjectProcessing.MainObjectProcessor.ProcessRules | lib/src/kbaserelationengine/main/MainObjectProcessor.java:166-172 | the rule loop appends one sub-object processing per rule, in rule order |
| MainObjectProcessing.MainObjectProcessor.AddWorkspaceToIndex | lib/src/kbaserelationengine/main/MainObjectProcessor.java:183-195 | appends one permission change, made as the calling user, giving the indexer's user "w" on the workspace chosen by id or by name |
| MainObjectProcessing.MainObjectProcessor.DispatchEvent | lib/src/kbaserelationengine/main/MainObjectProcessor.java:136-152 | for a supported event, dispatches exactly when its type has a case and appends that case's actions; otherwise the trace is unchanged |
| MainObjectProcessing.MainObjectProcessor.HandleNext | lib/src/kbaserelationengine/main/MainObjectProcessor.java:125-154 | one loop step reads exactly one event; the remaining tick after the old acknowledgements and trace equals the tick from the next event after the new ones, or the tick ends there with the returned error |
| MainObjectProcessing.MainObjectProcessor.PerformOneTick | lib/src/kbaserelationengine/main/MainObjectProcessor.java:120-155 | a failing workspace scan changes nothing; otherwise the iterator's position, its new acknowledgements, the appended actions and the outcome are exactly those of `TickFrom` over the iterator's events |
| TypeFileStorage.ExtensionFollowsLastDot | test/src/kbasesearchengine/test/system/TypeFileStorageTest.java:131-134 | a file's extension is what follows its last '.', holds no '.', and is empty when the name has no '.' |
| TypeFileStorage.TypeFileAcceptedIffYamlName | test/src/kbasesearchengine/test/system/TypeFileStorageTest.java:131-134 | a type-definition entry is loaded exactly when it is a regular file whose name ends in `.yaml` |
| TypeFileStorage.GetObjectTypeParsingRules | test/src/kbasesearchengine/test/system/TypeFileStorageTest.java:214-217 | a lookup answers exactly when that name and version are loaded, and then with a loaded rule of that search type |
| TypeFileStorage.ListObjectTypeParsingRules | test/src/kbasesearchengine/test/system/TypeFileStorageTest.java:213 | the listing holds only loaded rules |
| TypeFileStorage.ListObjectTypeParsingRulesFor | test/src/kbasesearchengine/test/system/TypeFileStorageTest.java:218-229 | an unknown storage type resolves to nothing; resolution yields only loaded rules |
| TypeFileStorageProperties.GetIsExact | test/src/kbasesearchengine/test/system/TypeFileStorageTest.java:214-217 | on a valid registry, lookup returns a rule exactly when that rule is loaded under exactly the requested name and version |
| TypeFileStorageProperties.LatestIsHighestVersion | test/src/kbasesearchengine/test/system/TypeFileStorageTest.java:213 | a rule is listed exactly when it is loaded and no loaded rule of the same name has a higher version |
| TypeFileStorageProperties.ResolutionFollowsMapping | test/src/kbasesearchengine/test/system/TypeFileStorageTest.java:376-393 | a mapped storage type resolves to exactly the loaded rules of the search types its mapping selects for the queried version |
| TypeFileStorageProperties.TypePhaseInvIsValid | test/src/kbasesearchengine/test/system/TypeFileStorageTest.java:218-229 | after the type files every derived mapping targets loaded rules only |
| TypeFileStorageProperties.AddSearchTypeUpdates | test/src/kbasesearchengine/test/system/TypeFileStorageTest.java:544-552 | adding a search type adds its storage type, adds its latest version to that storage type's defaults only, and adds exactly its rules |
| TypeFileStorageProperties.AddSearchTypeKeepsInv | test/src/kbasesearchengine/test/system/TypeFileStorageTest.java:131-165 | loading one well-formed file keeps the type-phase invariant |
| TypeFileStorageProperties.AddTypeFileKeepsInv | test/src/kbasesearchengine/test/system/TypeFileStorageTest.java:131-165 | loading any one directory entry keeps the type-phase invariant |
| TypeFileStorageProperties.AddTypeFileEffects | test/src/kbasesearchengine/test/system/TypeFileStorageTest.java:131-172 | one entry adds exactly its rules, its declared storage type and its one diagnostic |
| TypeFileStorageProperties.LoadTypeFilesSound | test/src/kbasesearchengine/test/system/TypeFileStorageTest.java:131-172 | the type phase keeps its invariant and adds exactly the rules, storage types and diagnostics of the accepted and skipped files, in listing order |
| TypeFileStorageProperties.AppendMappingsSound | test/src/kbasesearchengine/test/system/TypeFileStorageTest.java:353-359 | appending a file's mappings keeps storage types distinct and adds them in order |
| TypeFileStorageProperties.CollectMappingsSound | test/src/kbasesearchengine/test/system/TypeFileStorageTest.java:346-359 | the mapping phase collects exactly the mappings of accepted mapping files, with distinct storage types, and logs every skipped entry |
| TypeFileStorageProperties.ApplyMappingsKeepsRules | test/src/kbasesearchengine/test/system/TypeFileStorageTest.java:284-288 | mappings leave the search-type table unchanged and the registry valid |
| TypeFileStorageProperties.ApplyMappingsInstalls | test/src/kbasesearchengine/test/system/TypeFileStorageTest.java:289-300 | every collected mapping replaces, as a whole, what was derived for its storage type |
| TypeFileStorageProperties.ApplyMappingsKeepsOthers | test/src/kbasesearchengine/test/system/TypeFileStorageTest.java:462-473 | a storage type no mapping names keeps what the type files derived for it |
| TypeFileStorageProperties.ApplyMappingsLog | test/src/kbasesearchengine/test/system/TypeFileStorageTest.java:306-308 | the override pass logs one override line per mapping whose storage type was already present, in order |
| TypeFileStorageProperties.OverrideWithStep | test/src/kbasesearchengine/test/system/TypeFileStorageTest.java:289-300 | one override keeps the registry valid and the search types unchanged, and adds its storage type |
| TypeFileStorageProperties.OverrideLogContents | test/src/kbasesearchengine/test/system/TypeFileStorageTest.java:306-308 | a mapping's override line is logged exactly when its storage type was already present |
| TypeFileStorageProperties.OverrideLogKeys | test/src/kbasesearchengine/test/system/TypeFileStorageTest.java:488-490 | override lines only name mapped storage types |
| TypeFileStorageProperties.BuildFacts | test/src/kbasesearchengine/test/system/TypeFileStorageTest.java:55-61 | a successful construction's registry is valid, holds exactly the accepted files' rules, installs every collected mapping, keeps the derived mapping of every other storage type, and logs the type-file, mapping-file and override lines in that order |
| TypeFileStorageFailures.BuildSucceedsIff | test/src/kbasesearchengine/test/system/TypeFileStorageTest.java:55-61 | construction succeeds exactly when every accepted type file is one search type's version list, no two accepted type files declare the same search type, no storage type is mapped twice, and every search type a mapping names has a loaded rule |
| TypeFileStorageFailures.LoadTypeFilesSucceedsIff | test/src/kbasesearchengine/test/system/TypeFileStorageTest.java:131-172 | the type phase succeeds exactly when the accepted type files are loadable and declare no search type already loaded |
| TypeFileStorageFailures.LoadTypeFilesFailure | test/src/kbasesearchengine/test/system/TypeFileStorageTest.java:149-155 | the type phase fails only with a malformed-file or duplicate-name error, naming an accepted file of the listing that is malformed, or that redeclares a search type (the errors are the model's own; the tests build only successful registries) |
| TypeFileStorageFailures.TypeFilesLoadableCons | test/src/kbasesearchengine/test/system/TypeFileStorageTest.java:131-172 | the loadable condition holds of a listing exactly when it holds of the rest and the first file, if accepted, is well-formed and declares a name no later accepted file declares |
| TypeFileStorageFailures.AppendMappingsSucceedsIff | test/src/kbasesearchengine/test/system/TypeFileStorageTest.java:353-359 | appending one file's mappings succeeds exactly when all storage types stay distinct; a failure is a collision naming a storage type mapped twice and that file |
| TypeFileStorageFailures.CollectMappingsSucceedsIff | test/src/kbasesearchengine/test/system/TypeFileStorageTest.java:346-359 | the mapping phase succeeds exactly when the accepted mapping files map every storage type at most once; a failure is a collision naming a storage type mapped twice and an accepted mapping file |
| TypeFileStorageFailures.ApplyMappingsSucceedsIff | test/src/kbasesearchengine/test/system/TypeFileStorageTest.java:289-300 | the override pass succeeds exactly when every mapping names only loaded search types; a failure names a mapping with an unloaded target |
| TypeFileStorageFailures.TargetsDefinedIffLoaded | test/src/kbasesearchengine/test/system/TypeFileStorageTest.java:218-229 | over valid rules, a mapping's targets are all defined exactly when each has a loaded rule |
| TypeFileStorageFailures.MalformedTypeFileCause | test/src/kbasesearchengine/test/system/TypeFileStorageTest.java:149-155 | a malformed-file error names an accepted type file that is not a version list (the errors are the model's own; the tests build only successful registries) |
| TypeFileStorageFailures.DuplicateSearchTypeCause | test/src/kbasesearchengine/test/system/TypeFileStorageTest.java:149-155 | a duplicate-name error names an accepted, well-formed type file whose search type an earlier accepted file declared (the errors are the model's own; the tests build only successful registries) |
| TypeFileStorageFailures.MappingCollisionCause | test/src/kbasesearchengine/test/system/TypeFileStorageTest.java:361-367 | a collision error means the type files loaded, the named storage type is mapped twice by the accepted mapping files, and the named path is an accepted mapping file (the errors are the model's own; the tests build only successful registries) |
| TypeFileStorageFailures.UnknownSearchTypeCause | test/src/kbasesearchengine/test/system/TypeFileStorageTest.java:361-367 | an unknown-search-type error means the type files loaded, the mappings were distinct, and a mapping for the named storage type targets a search type with no loaded rule (the errors are the model's own; the tests build only successful registries) |
| TypeFileStorageFailures.LoadTypeFilesFailureOnly | test/src/kbasesearchengine/test/system/TypeFileStorageTest.java:149-155 | construction fails with a type-file error exactly when the type phase fails, and then with the type phase's error (the errors are the model's own; the tests build only successful registries) |
| TypeFileStorageProperties.NoFilesMeansEmptyRegistry | test/src/kbasesearchengine/test/system/TypeFileStorageTest.java:45-73 | with no files the registry is empty, nothing is logged, and every listing, lookup and resolution is empty |
| TypeFileStorageProperties.ExactLookupFindsLoadedRule | test/src/kbasesearchengine/test/system/TypeFileStorageTest.java:214-217 | after construction, exact lookup finds the rule of exactly that name and version, latest or not |
| TypeFileStorageProperties.ListingIsLatestPerName | test/src/kbasesearchengine/test/system/TypeFileStorageTest.java:213 | after construction the listing holds exactly the highest loaded version of each search type |
| TypeFileStorageProperties.MappingsDoNotChangeSearchTypes | test/src/kbasesearchengine/test/system/TypeFileStorageTest.java:284-288 | the same type files with any mapping files give the same exact lookups and the same listing |
| TypeFileStorageProperties.UnmappedStorageTypeResolvesToLatest | test/src/kbasesearchengine/test/system/TypeFileStorageTest.java:218-229 | an unmapped storage type resolves, for any version, to the latest rule of every search type declaring it (the union of several, nothing for none) |
| TypeFileStorageProperties.UnmappedResolution | test/src/kbasesearchengine/test/system/TypeFileStorageTest.java:544-552 | the resolution of a storage type the mappings left alone depends only on the type files |
| TypeFileStorageProperties.MappedStorageTypeFollowsMapping | test/src/kbasesearchengine/test/system/TypeFileStorageTest.java:376-393 | a mapped storage type resolves to the loaded rules of the mapping's entry for the queried version, or of its defaults when there is none, even across storage types |
| TypeFileStorageProperties.OverrideLoggedIffTypeFileDeclares | test/src/kbasesearchengine/test/system/TypeFileStorageTest.java:306-308 | a mapping's override line is logged exactly when a type file declared its storage type |
| TypeFileStorageProperties.EveryEntryIsLogged | test/src/kbasesearchengine/test/system/TypeFileStorageTest.java:167-170 | every processed type file, skipped type file, mapping file with no parser and non-regular mapping entry leaves its diagnostic |
| TypeFileStorageProperties.AcceptedTypeFileIsWellFormed | test/src/kbasesearchengine/test/system/TypeFileStorageTest.java:143-144 | every accepted type file of a successful load holds one search type's version list |
| TypeFileStorageProperties.SkippedTypeFileIsNotParsed | test/src/kbasesearchengine/test/system/TypeFileStorageTest.java:167-170 | what the parser would return for a skipped type-definition entry does not change the construction |
| TypeFileStorageProperties.SkippedMappingFileIsNotParsed | test/src/kbasesearchengine/test/system/TypeFileStorageTest.java:171-172 | what a mapping parser would return for a skipped mapping entry does not change the construction |
| TypeFileStorageScenarios.SingleTypeBuild | test/src/kbasesearchengine/test/system/TypeFileStorageTest.java:131-155 | `foo.yaml` and `ignore.bar` with parsers for `yaml` and `foo` load foo/1 and log the processed file and the skipped one |
| TypeFileStorageScenarios.SingleFirstFile | test/src/kbasesearchengine/test/system/TypeFileStorageTest.java:131-144 | a regular `.yaml` file loads its version list and makes its latest version the default |
| TypeFileStorageScenarios.SingleSecondFile | test/src/kbasesearchengine/test/system/TypeFileStorageTest.java:169-170 | `ignore.bar` is skipped with its diagnostic |
| TypeFileStorageScenarios.SingleTypeScenario | test/src/kbasesearchengine/test/system/TypeFileStorageTest.java:157-165 | the listing, exact lookup and resolution with and without version all give foo/1 |
| TypeFileStorageScenarios.TwoVersionsScenario | test/src/kbasesearchengine/test/system/TypeFileStorageTest.java:183-229 | two versions without mappings: the listing holds version 2, both versions are found by lookup, and storefoo with no version, 1, 2 or 7 resolves to version 2 |
| TypeFileStorageScenarios.DefaultMappingBuild | test/src/kbasesearchengine/test/system/TypeFileStorageTest.java:244-308 | the default mapping replaces the derived one, `ignore.json` is skipped, and the override line is logged |
| TypeFileStorageScenarios.DefaultMappingScenario | test/src/kbasesearchengine/test/system/TypeFileStorageTest.java:284-300 | with the default mapping storefoo resolves to version 1 for no version, 1, 2 and 7; the listing still holds version 2 |
| TypeFileStorageScenarios.VersionBuild | test/src/kbasesearchengine/test/system/TypeFileStorageTest.java:320-404 | the non-regular `foo2.yaml` and `mappings2.yaml` are skipped with their diagnostics, and the override line carries the mapping's source |
| TypeFileStorageScenarios.VersionMappingsScenario | test/src/kbasesearchengine/test/system/TypeFileStorageTest.java:369-393 | version 2 resolves to foo/1, version 3 to foo/2, and no version, 1, 4 and 7 to the default foo/3 |
| TypeFileStorageScenarios.NewStorageTypeBuild | test/src/kbasesearchengine/test/system/TypeFileStorageTest.java:417-490 | a mapping for the undeclared storebar is installed with no override line |
| TypeFileStorageScenarios.NewStorageTypeScenario | test/src/kbasesearchengine/test/system/TypeFileStorageTest.java:457-486 | storebar version 1 resolves to foo/1 and no version, 2 and 3 to foo/2; storefoo still resolves to foo/2 |
| TypeFileStorageScenarios.TwoSearchTypesBuild | test/src/kbasesearchengine/test/system/TypeFileStorageTest.java:502-559 | foo and bar, both declaring storefoo, load with one processed line each |
| TypeFileStorageScenarios.TwoSearchTypesScenario | test/src/kbasesearchengine/test/system/TypeFileStorageTest.java:538-552 | storefoo resolves to both foo/1 and bar/1, whatever version is asked for |

## Left out

- The lifecycle runner's thread: its loop of ticks, `Thread.sleep`, interrupt flags, and the runner clearing `mainRunner` from its own thread. Stopping takes the poll at which the exit is seen as a parameter.
- The workspace scans `doPublicWorkspaces` and `doPrivateWorkspaces`. They are network I/O, reduced to an optional error passed to `PerformOneTick`.
- The construction of the Mongo, Elasticsearch and workspace clients, and every call into them. These calls are recorded as trace actions.
- `prepareTempFile` is not modelled: the temporary file it creates is dropped. `loadObject` and `processSubObjects` are foreign code, recorded as trace actions that always succeed.
- Every client call is modelled as always succeeding. In Java, `listObjectTypesByStorageObjectType`, `shareObject`, `unshareObject` and `setPermissions` (like `loadObject` and `processSubObjects`) can throw an IOException that ends `performOneTick` partway through a tick; the model has no such exit.
- `System.out` printing and processing-time measurement.
- The persistence of acknowledgements in the event store: the iterator only records them.
- MainObjectProcessing.MainObjectProcessor.IndexObject: a null rule list is reported as `false` after the load, where the Java code throws a NullPointerException.
- MainObjectProcessing.MainObjectProcessor.AddWorkspaceToIndex: a null `wsNameOrId` is not modelled. `Long.parseLong` accepts only ASCII digits here, where Java also accepts other Unicode decimal digits.
- Directory listing, file reading and YAML parsing. Each directory entry is given with its regular-file flag and what its parser returns.
- TypeFileStorage.Message: the exact log lines are defined but not proved against the test's literal strings. The proofs are about the `Diagnostic` values they render.
- Reloading the registry after construction.
- The four construction errors are choices of the model. The registry's implementation is not part of this model, and its tests exercise no failing construction. `MalformedTypeFile` and `DuplicateSearchType` stand for a type file the parser rejects and a search type loaded twice. `MappingCollision` stands for two mapping files that map the same storage type, and `UnknownSearchType` for a mapping to a search type with no loaded rule.
- StoredStatusEvents.NewStoredStatusEvent: the order in which a call with several nulls reports them (event, then id, then state) and storing a kept updater untrimmed are choices of the model. The tests only pass one null at a time and the updater "foo".
- The generated beans `PostProcessing`, `KeyDescription` and `SearchTypesOutput`, and `UnprocessableEventIndexingException`: they hold no logic.
