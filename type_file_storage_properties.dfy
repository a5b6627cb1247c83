/**
 * What TypeFileStorage promises: exact lookup, the latest-version listing,
 * resolution of storage types with and without mappings, the override
 * diagnostic and the treatment of skipped directory entries.
 */
module TypeFileStorageProperties {
  import opened Wrappers
  import opened SearchTypes
  import opened TypeFileStorage

  // ---------------------------------------------------------------------------
  // Reference definitions in terms of the directory listings

  /** Every rule of every accepted type file. */
  function LoadedRules(files: seq<TypeFile>): set<TypeRule>
    decreases |files|
  {
    if files == [] then {}
    else (if TypeFileAccepted(files[0]) then set r | r in files[0].parsed else {}) + LoadedRules(files[1..])
  }

  /** The storage types that accepted type files declare. */
  function DeclaredKeys(files: seq<TypeFile>): set<StorageKey>
    decreases |files|
  {
    if files == [] then {}
    else
      (if TypeFileAccepted(files[0]) && |files[0].parsed| > 0 then {files[0].parsed[0].storageType} else {})
      + DeclaredKeys(files[1..])
  }

  /** The mappings of accepted mapping files, in listing order. */
  function MappingsOf(files: seq<MappingFile>, mappingParsers: set<string>): seq<TypeMapping>
    decreases |files|
  {
    if files == [] then []
    else
      (if MappingFileAccepted(files[0], mappingParsers) then files[0].parsed else [])
      + MappingsOf(files[1..], mappingParsers)
  }

  /** The diagnostic logged for one type-definition entry that loads. */
  function TypeFileDiagnostic(f: TypeFile): Diagnostic
  {
    if TypeFileAccepted(f) && |f.parsed| > 0 then
      ProcessedTypeFile(f.parsed[0].storageType.code, f.parsed[0].storageType.typeName,
                        f.parsed[0].searchType.name, f.path)
    else SkippedTypeFile(f.path)
  }

  function TypeFileLog(files: seq<TypeFile>): seq<Diagnostic>
    decreases |files|
  {
    if files == [] then [] else [TypeFileDiagnostic(files[0])] + TypeFileLog(files[1..])
  }

  /** The diagnostics logged for one type-mapping entry that loads. */
  function MappingFileDiagnostics(f: MappingFile, mappingParsers: set<string>): seq<Diagnostic>
  {
    if !f.isRegularFile then [SkippedMappingEntry(f.path)]
    else if Extension(f.path) !in mappingParsers then [SkippedMappingFile(f.path)]
    else []
  }

  function MappingFileLog(files: seq<MappingFile>, mappingParsers: set<string>): seq<Diagnostic>
    decreases |files|
  {
    if files == [] then []
    else MappingFileDiagnostics(files[0], mappingParsers) + MappingFileLog(files[1..], mappingParsers)
  }

  /** The override diagnostics for the mappings whose storage type is among `keys`. */
  function OverrideLog(ms: seq<TypeMapping>, keys: set<StorageKey>): seq<Diagnostic>
    decreases |ms|
  {
    if ms == [] then []
    else
      (if ms[0].key in keys then [OverridingMapping(ms[0].key.code, ms[0].key.typeName, ms[0].sourceInfo)] else [])
      + OverrideLog(ms[1..], keys)
  }

  predicate DistinctKeys(ms: seq<TypeMapping>)
  {
    forall i, j | 0 <= i < j < |ms| :: ms[i].key != ms[j].key
  }

  predicate NoOverrides(log: seq<Diagnostic>)
  {
    forall i | 0 <= i < |log| :: !log[i].OverridingMapping?
  }

  // ---------------------------------------------------------------------------
  // The queries on any valid registry

  /** In a valid registry a rule is the only one loaded under its search type. */
  lemma RuleIsIndexedBySearchType(reg: Registry, rule: TypeRule)
    requires RulesValid(reg.searchTypes)
    requires rule in AllRules(reg)
    ensures DefinedIn(reg.searchTypes, rule.searchType)
    ensures RuleFor(reg.searchTypes, rule.searchType) == rule
  {
    var name, i :| name in reg.searchTypes && 0 <= i < |reg.searchTypes[name]| && reg.searchTypes[name][i] == rule;
    assert reg.searchTypes[name][i].searchType == SearchObjectType(name, i + 1);
  }

  lemma DefinedRuleIsLoaded(reg: Registry, t: SearchObjectType)
    requires RulesValid(reg.searchTypes)
    requires DefinedIn(reg.searchTypes, t)
    ensures RuleFor(reg.searchTypes, t) in AllRules(reg)
    ensures RuleFor(reg.searchTypes, t).searchType == t
  {
    var rules := reg.searchTypes[t.name];
    assert rules[t.version - 1].searchType == SearchObjectType(t.name, t.version - 1 + 1);
  }

  /** Exact lookup returns a rule exactly when one was loaded under that name and version. */
  lemma GetIsExact(reg: Registry, t: SearchObjectType, rule: TypeRule)
    requires RulesValid(reg.searchTypes)
    ensures GetObjectTypeParsingRules(reg, t) == Some(rule) <==> rule in AllRules(reg) && rule.searchType == t
  {
    if rule in AllRules(reg) && rule.searchType == t {
      RuleIsIndexedBySearchType(reg, rule);
    }
    if GetObjectTypeParsingRules(reg, t) == Some(rule) {
      DefinedRuleIsLoaded(reg, t);
    }
  }

  /** The listing holds exactly the loaded rules that no loaded rule of the same name outranks. */
  lemma LatestIsHighestVersion(reg: Registry, rule: TypeRule)
    requires RulesValid(reg.searchTypes)
    ensures rule in ListObjectTypeParsingRules(reg) <==>
      && rule in AllRules(reg)
      && forall other | other in AllRules(reg) && other.searchType.name == rule.searchType.name ::
           other.searchType.version <= rule.searchType.version
  {
    if rule in ListObjectTypeParsingRules(reg) {
      var name :| name in reg.searchTypes && |reg.searchTypes[name]| > 0 &&
        rule == reg.searchTypes[name][|reg.searchTypes[name]| - 1];
      var n := |reg.searchTypes[name]|;
      assert rule.searchType == SearchObjectType(name, n);
      forall other | other in AllRules(reg) && other.searchType.name == rule.searchType.name
        ensures other.searchType.version <= rule.searchType.version
      {
        var name', j :| name' in reg.searchTypes && 0 <= j < |reg.searchTypes[name']| &&
          reg.searchTypes[name'][j] == other;
        assert other.searchType == SearchObjectType(name', j + 1);
      }
    }
    if rule in AllRules(reg) &&
       forall other | other in AllRules(reg) && other.searchType.name == rule.searchType.name ::
         other.searchType.version <= rule.searchType.version
    {
      var name, i :| name in reg.searchTypes && 0 <= i < |reg.searchTypes[name]| && reg.searchTypes[name][i] == rule;
      var rules := reg.searchTypes[name];
      assert rule.searchType == SearchObjectType(name, i + 1);
      var last := rules[|rules| - 1];
      assert last.searchType == SearchObjectType(name, |rules|);
      assert last in AllRules(reg);
      assert i == |rules| - 1;
    }
  }

  /**
   * Resolution of a mapped storage type returns exactly the loaded rules of
   * the search types the mapping selects for the queried version.
   */
  lemma ResolutionFollowsMapping(reg: Registry, st: StorageObjectType, rule: TypeRule)
    requires Valid(reg)
    requires st.Key() in reg.storageTypes
    ensures rule in ListObjectTypeParsingRulesFor(reg, st) <==>
      rule in AllRules(reg) && rule.searchType in SelectedSearchTypes(reg.storageTypes[st.Key()], st.version)
  {
    var selected := SelectedSearchTypes(reg.storageTypes[st.Key()], st.version);
    if rule in ListObjectTypeParsingRulesFor(reg, st) {
      var t :| t in selected && DefinedIn(reg.searchTypes, t) && rule == RuleFor(reg.searchTypes, t);
      DefinedRuleIsLoaded(reg, t);
    }
    if rule in AllRules(reg) && rule.searchType in selected {
      RuleIsIndexedBySearchType(reg, rule);
    }
  }

  // ---------------------------------------------------------------------------
  // Phase 1: what loading the type files builds

  function DefaultsFor(types: map<string, seq<TypeRule>>, k: StorageKey): set<SearchObjectType>
  {
    set name | name in types && |types[name]| > 0 && types[name][0].storageType == k ::
      SearchObjectType(name, |types[name]|)
  }

  function StorageKeysOf(types: map<string, seq<TypeRule>>): set<StorageKey>
  {
    set name | name in types && |types[name]| > 0 :: types[name][0].storageType
  }

  /** After phase 1 each declared storage type maps, by default, to the latest version of its search types. */
  ghost predicate TypePhaseInv(reg: Registry)
  {
    RulesValid(reg.searchTypes) && DefaultsInv(reg)
  }

  lemma TypePhaseInvIsValid(reg: Registry)
    requires TypePhaseInv(reg)
    ensures Valid(reg)
  {
    forall k | k in reg.storageTypes
      ensures TargetsDefined(reg.searchTypes, reg.storageTypes[k])
    {
      forall t | t in reg.storageTypes[k].defaults
        ensures DefinedIn(reg.searchTypes, t)
      {
        var name :| name in reg.searchTypes && |reg.searchTypes[name]| > 0 &&
          reg.searchTypes[name][0].storageType == k && t == SearchObjectType(name, |reg.searchTypes[name]|);
      }
    }
  }

  lemma AddSearchTypeUpdates(types: map<string, seq<TypeRule>>, name: string, rules: seq<TypeRule>)
    requires name !in types && |rules| > 0
    ensures StorageKeysOf(types[name := rules]) == StorageKeysOf(types) + {rules[0].storageType}
    ensures forall k :: (DefaultsFor(types[name := rules], k) ==
      DefaultsFor(types, k) + (if rules[0].storageType == k then {SearchObjectType(name, |rules|)} else {}))
    ensures AllRules(Registry(types[name := rules], map[])) ==
      AllRules(Registry(types, map[])) + (set r | r in rules)
  {
    var types' := types[name := rules];
    forall k
      ensures DefaultsFor(types', k) ==
        DefaultsFor(types, k) + (if rules[0].storageType == k then {SearchObjectType(name, |rules|)} else {})
    {
      forall t | t in DefaultsFor(types', k)
        ensures t in DefaultsFor(types, k) + (if rules[0].storageType == k then {SearchObjectType(name, |rules|)} else {})
      {
        var n :| n in types' && |types'[n]| > 0 && types'[n][0].storageType == k && t == SearchObjectType(n, |types'[n]|);
        if n != name {
          assert n in types;
        }
      }
      forall t | t in DefaultsFor(types, k)
        ensures t in DefaultsFor(types', k)
      {
        var n :| n in types && |types[n]| > 0 && types[n][0].storageType == k && t == SearchObjectType(n, |types[n]|);
        assert n != name && types'[n] == types[n];
      }
    }
    forall key | key in StorageKeysOf(types')
      ensures key in StorageKeysOf(types) + {rules[0].storageType}
    {
      var n :| n in types' && |types'[n]| > 0 && key == types'[n][0].storageType;
      if n != name {
        assert n in types;
      }
    }
    forall key | key in StorageKeysOf(types)
      ensures key in StorageKeysOf(types')
    {
      var n :| n in types && |types[n]| > 0 && key == types[n][0].storageType;
      assert types'[n] == types[n];
    }
    assert rules[0].storageType == types'[name][0].storageType;
    forall r | r in AllRules(Registry(types', map[]))
      ensures r in AllRules(Registry(types, map[])) + set r | r in rules
    {
      var n, i :| n in types' && 0 <= i < |types'[n]| && types'[n][i] == r;
      if n != name {
        assert n in types;
      }
    }
    forall r | r in AllRules(Registry(types, map[]))
      ensures r in AllRules(Registry(types', map[]))
    {
      var n, i :| n in types && 0 <= i < |types[n]| && types[n][i] == r;
      assert types'[n] == types[n];
    }
    forall r | r in rules
      ensures r in AllRules(Registry(types', map[]))
    {
      var i :| 0 <= i < |rules| && rules[i] == r;
      assert types'[name][i] == r;
    }
  }

  /** The storage-type half of the phase-1 invariant. */
  ghost predicate DefaultsInv(reg: Registry)
  {
    && reg.storageTypes.Keys == StorageKeysOf(reg.searchTypes)
    && forall k | k in reg.storageTypes ::
         reg.storageTypes[k] == TypeMapping(k, map[], DefaultsFor(reg.searchTypes, k), None)
  }

  lemma AddSearchTypeKeepsRulesValid(types: map<string, seq<TypeRule>>, rules: seq<TypeRule>)
    requires RulesValid(types)
    requires WellFormedTypeFile(rules)
    ensures RulesValid(types[rules[0].searchType.name := rules])
  {
  }

  lemma AddSearchTypeKeepsDefaults(reg: Registry, name: string, rules: seq<TypeRule>)
    requires DefaultsInv(reg)
    requires name !in reg.searchTypes && |rules| > 0
    ensures DefaultsInv(Registry(reg.searchTypes[name := rules],
                                 AddDefault(reg.storageTypes, rules[0].storageType, SearchObjectType(name, |rules|))))
  {
    var types := reg.searchTypes;
    var key := rules[0].storageType;
    var types' := types[name := rules];
    var st' := AddDefault(reg.storageTypes, key, SearchObjectType(name, |rules|));
    AddSearchTypeUpdates(types, name, rules);
    if key !in reg.storageTypes {
      assert DefaultsFor(types, key) == {};
    }
    forall k | k in st'
      ensures st'[k] == TypeMapping(k, map[], DefaultsFor(types', k), None)
    {
      if k != key {
        assert st'[k] == reg.storageTypes[k];
      }
    }
  }

  lemma AddSearchTypeKeepsInv(reg: Registry, rules: seq<TypeRule>)
    requires TypePhaseInv(reg)
    requires WellFormedTypeFile(rules)
    requires rules[0].searchType.name !in reg.searchTypes
    ensures var name := rules[0].searchType.name;
      var key := rules[0].storageType;
      TypePhaseInv(Registry(reg.searchTypes[name := rules],
                            AddDefault(reg.storageTypes, key, SearchObjectType(name, |rules|))))
  {
    AddSearchTypeKeepsRulesValid(reg.searchTypes, rules);
    AddSearchTypeKeepsDefaults(reg, rules[0].searchType.name, rules);
  }

  lemma AddTypeFileKeepsInv(acc: Loaded, f: TypeFile)
    requires TypePhaseInv(acc.registry)
    requires AddTypeFile(acc, f).Success?
    ensures TypePhaseInv(AddTypeFile(acc, f).value.registry)
  {
    if TypeFileAccepted(f) {
      AddSearchTypeKeepsInv(acc.registry, f.parsed);
    }
  }

  lemma AddTypeFileEffects(acc: Loaded, f: TypeFile)
    requires AddTypeFile(acc, f).Success?
    ensures AllRules(AddTypeFile(acc, f).value.registry) == AllRules(acc.registry) + LoadedRules([f])
    ensures AddTypeFile(acc, f).value.registry.storageTypes.Keys == acc.registry.storageTypes.Keys + DeclaredKeys([f])
    ensures AddTypeFile(acc, f).value.log == acc.log + [TypeFileDiagnostic(f)]
  {
    assert [f][1..] == [];
    if TypeFileAccepted(f) {
      var types := acc.registry.searchTypes;
      var name := f.parsed[0].searchType.name;
      AddSearchTypeUpdates(types, name, f.parsed);
      assert AllRules(AddTypeFile(acc, f).value.registry) == AllRules(Registry(types[name := f.parsed], map[]));
      assert AllRules(acc.registry) == AllRules(Registry(types, map[]));
    }
  }

  lemma {:induction false} LoadTypeFilesKeepsInv(files: seq<TypeFile>, acc: Loaded)
    requires TypePhaseInv(acc.registry)
    requires LoadTypeFiles(files, acc).Success?
    ensures TypePhaseInv(LoadTypeFiles(files, acc).value.registry)
    decreases |files|
  {
    if files != [] {
      var next := AddTypeFile(acc, files[0]).value;
      assert LoadTypeFiles(files[1..], next) == LoadTypeFiles(files, acc);
      AddTypeFileKeepsInv(acc, files[0]);
      LoadTypeFilesKeepsInv(files[1..], next);
    }
  }

  lemma {:induction false} LoadTypeFilesRules(files: seq<TypeFile>, acc: Loaded)
    requires LoadTypeFiles(files, acc).Success?
    ensures AllRules(LoadTypeFiles(files, acc).value.registry) == AllRules(acc.registry) + LoadedRules(files)
    decreases |files|
  {
    if files != [] {
      var next := AddTypeFile(acc, files[0]).value;
      assert LoadTypeFiles(files[1..], next) == LoadTypeFiles(files, acc);
      AddTypeFileEffects(acc, files[0]);
      LoadTypeFilesRules(files[1..], next);
      assert [files[0]][1..] == [];
    }
  }

  lemma {:induction false} LoadTypeFilesKeys(files: seq<TypeFile>, acc: Loaded)
    requires LoadTypeFiles(files, acc).Success?
    ensures LoadTypeFiles(files, acc).value.registry.storageTypes.Keys ==
      acc.registry.storageTypes.Keys + DeclaredKeys(files)
    decreases |files|
  {
    if files != [] {
      var next := AddTypeFile(acc, files[0]).value;
      assert LoadTypeFiles(files[1..], next) == LoadTypeFiles(files, acc);
      AddTypeFileEffects(acc, files[0]);
      LoadTypeFilesKeys(files[1..], next);
      assert [files[0]][1..] == [];
    }
  }

  lemma {:induction false} LoadTypeFilesLog(files: seq<TypeFile>, acc: Loaded)
    requires LoadTypeFiles(files, acc).Success?
    ensures LoadTypeFiles(files, acc).value.log == acc.log + TypeFileLog(files)
    decreases |files|
  {
    if files != [] {
      var next := AddTypeFile(acc, files[0]).value;
      assert LoadTypeFiles(files[1..], next) == LoadTypeFiles(files, acc);
      AddTypeFileEffects(acc, files[0]);
      LoadTypeFilesLog(files[1..], next);
      assert acc.log + [TypeFileDiagnostic(files[0])] + TypeFileLog(files[1..]) == acc.log + TypeFileLog(files);
    }
  }

  /** Phase 1 keeps the invariant and adds exactly the rules, storage types and log lines of the files. */
  lemma LoadTypeFilesSound(files: seq<TypeFile>, acc: Loaded)
    requires TypePhaseInv(acc.registry)
    requires LoadTypeFiles(files, acc).Success?
    ensures TypePhaseInv(LoadTypeFiles(files, acc).value.registry)
    ensures AllRules(LoadTypeFiles(files, acc).value.registry) == AllRules(acc.registry) + LoadedRules(files)
    ensures LoadTypeFiles(files, acc).value.registry.storageTypes.Keys ==
      acc.registry.storageTypes.Keys + DeclaredKeys(files)
    ensures LoadTypeFiles(files, acc).value.log == acc.log + TypeFileLog(files)
  {
    LoadTypeFilesKeepsInv(files, acc);
    LoadTypeFilesRules(files, acc);
    LoadTypeFilesKeys(files, acc);
    LoadTypeFilesLog(files, acc);
  }

  // ---------------------------------------------------------------------------
  // Phase 2: collecting the mappings and applying them

  lemma {:induction false} AppendMappingsSound(acc: seq<TypeMapping>, ms: seq<TypeMapping>, path: string)
    requires DistinctKeys(acc)
    requires AppendMappings(acc, ms, path).Success?
    ensures AppendMappings(acc, ms, path).value == acc + ms
    ensures DistinctKeys(acc + ms)
    decreases |ms|
  {
    if ms != [] {
      var acc' := acc + [ms[0]];
      forall i, j | 0 <= i < j < |acc'|
        ensures acc'[i].key != acc'[j].key
      {
        if j == |acc| {
          assert acc[i] in acc;
        }
      }
      AppendMappingsSound(acc', ms[1..], path);
      assert acc' + ms[1..] == acc + ms;
    }
  }

  lemma {:induction false} CollectMappingsSound(files: seq<MappingFile>, mappingParsers: set<string>, acc: Collected)
    requires DistinctKeys(acc.mappings)
    requires CollectMappings(files, mappingParsers, acc).Success?
    ensures var out := CollectMappings(files, mappingParsers, acc).value;
      && out.mappings == acc.mappings + MappingsOf(files, mappingParsers)
      && DistinctKeys(out.mappings)
      && out.log == acc.log + MappingFileLog(files, mappingParsers)
    decreases |files|
  {
    if files != [] {
      var f := files[0];
      var next := AddMappingFile(acc, f, mappingParsers).value;
      if MappingFileAccepted(f, mappingParsers) {
        AppendMappingsSound(acc.mappings, f.parsed, f.path);
      }
      CollectMappingsSound(files[1..], mappingParsers, next);
      assert acc.mappings + MappingsOf(files, mappingParsers) ==
        acc.mappings + (if MappingFileAccepted(f, mappingParsers) then f.parsed else []) + MappingsOf(files[1..], mappingParsers);
    }
  }

  lemma {:induction false} OverrideLogIgnoresUnmappedKey(ms: seq<TypeMapping>, keys: set<StorageKey>, k: StorageKey)
    requires k !in MappedKeys(ms)
    ensures OverrideLog(ms, keys + {k}) == OverrideLog(ms, keys)
    decreases |ms|
  {
    if ms != [] {
      assert ms[0] in ms;
      assert MappedKeys(ms[1..]) <= MappedKeys(ms) by {
        forall key | key in MappedKeys(ms[1..]) ensures key in MappedKeys(ms) {
          var m :| m in ms[1..] && m.key == key;
          assert m in ms;
        }
      }
      OverrideLogIgnoresUnmappedKey(ms[1..], keys, k);
    }
  }

  lemma DistinctKeysTail(ms: seq<TypeMapping>)
    requires ms != [] && DistinctKeys(ms)
    ensures DistinctKeys(ms[1..])
    ensures ms[0].key !in MappedKeys(ms[1..])
    ensures MappedKeys(ms) == {ms[0].key} + MappedKeys(ms[1..])
  {
    forall i, j | 0 <= i < j < |ms[1..]| ensures ms[1..][i].key != ms[1..][j].key {
      assert ms[1..][i] == ms[i + 1] && ms[1..][j] == ms[j + 1];
    }
    assert ms == [ms[0]] + ms[1..];
  }

  lemma OverrideWithStep(acc: Loaded, m: TypeMapping)
    requires Valid(acc.registry) && TargetsDefined(acc.registry.searchTypes, m)
    ensures Valid(OverrideWith(acc, m).registry)
    ensures OverrideWith(acc, m).registry.searchTypes == acc.registry.searchTypes
    ensures OverrideWith(acc, m).registry.storageTypes.Keys == acc.registry.storageTypes.Keys + {m.key}
  {
  }

  lemma {:induction false} ApplyMappingsKeepsRules(acc: Loaded, ms: seq<TypeMapping>)
    requires Valid(acc.registry)
    requires ApplyMappings(acc, ms).Success?
    ensures ApplyMappings(acc, ms).value.registry.searchTypes == acc.registry.searchTypes
    ensures Valid(ApplyMappings(acc, ms).value.registry)
    decreases |ms|
  {
    if ms != [] {
      OverrideWithStep(acc, ms[0]);
      ApplyMappingsKeepsRules(OverrideWith(acc, ms[0]), ms[1..]);
    }
  }

  lemma {:induction false} ApplyMappingsInstalls(acc: Loaded, ms: seq<TypeMapping>, m: TypeMapping)
    requires DistinctKeys(ms) && m in ms
    requires ApplyMappings(acc, ms).Success?
    ensures m.key in ApplyMappings(acc, ms).value.registry.storageTypes
    ensures ApplyMappings(acc, ms).value.registry.storageTypes[m.key] == m
    decreases |ms|
  {
    DistinctKeysTail(ms);
    if m == ms[0] {
      ApplyMappingsKeepsOthers(OverrideWith(acc, m), ms[1..], m.key);
    } else {
      var i :| 0 <= i < |ms| && ms[i] == m;
      assert m in ms[1..] by { assert ms[1..][i - 1] == m; }
      ApplyMappingsInstalls(OverrideWith(acc, ms[0]), ms[1..], m);
    }
  }

  lemma {:induction false} ApplyMappingsKeepsOthers(acc: Loaded, ms: seq<TypeMapping>, k: StorageKey)
    requires k !in MappedKeys(ms)
    requires ApplyMappings(acc, ms).Success?
    ensures k in ApplyMappings(acc, ms).value.registry.storageTypes <==> k in acc.registry.storageTypes
    ensures k in acc.registry.storageTypes ==>
      ApplyMappings(acc, ms).value.registry.storageTypes[k] == acc.registry.storageTypes[k]
    decreases |ms|
  {
    if ms != [] {
      assert ms[0] in ms;
      assert k !in MappedKeys(ms[1..]) by {
        forall m' | m' in ms[1..] ensures m'.key != k { assert m' in ms; }
      }
      ApplyMappingsKeepsOthers(OverrideWith(acc, ms[0]), ms[1..], k);
    }
  }

  lemma ApplyMappingsLog(acc: Loaded, ms: seq<TypeMapping>)
    requires DistinctKeys(ms)
    requires ApplyMappings(acc, ms).Success?
    ensures ApplyMappings(acc, ms).value.log == acc.log + OverrideLog(ms, acc.registry.storageTypes.Keys)
  {
    DistinctKeysHeadFirst(ms);
    ApplyMappingsLogFrom(acc, ms);
  }

  /** Distinct keys, stated one head at a time. */
  predicate HeadsUnrepeated(ms: seq<TypeMapping>)
    decreases |ms|
  {
    ms == [] || (ms[0].key !in MappedKeys(ms[1..]) && HeadsUnrepeated(ms[1..]))
  }

  lemma {:induction false} DistinctKeysHeadFirst(ms: seq<TypeMapping>)
    requires DistinctKeys(ms)
    ensures HeadsUnrepeated(ms)
    decreases |ms|
  {
    if ms != [] {
      DistinctKeysTail(ms);
      DistinctKeysHeadFirst(ms[1..]);
    }
  }

  lemma {:induction false} ApplyMappingsLogFrom(acc: Loaded, ms: seq<TypeMapping>)
    requires HeadsUnrepeated(ms)
    requires ApplyMappings(acc, ms).Success?
    ensures ApplyMappings(acc, ms).value.log == acc.log + OverrideLog(ms, acc.registry.storageTypes.Keys)
    decreases |ms|
  {
    if ms != [] {
      var keys := acc.registry.storageTypes.Keys;
      var next := OverrideWith(acc, ms[0]);
      OverrideWithEffects(acc, ms[0]);
      assert ApplyMappings(acc, ms) == ApplyMappings(next, ms[1..]);
      ApplyMappingsLogFrom(next, ms[1..]);
      OverrideLogIgnoresUnmappedKey(ms[1..], keys, ms[0].key);
      OverrideLogSplit(ms, keys);
      var head := OverrideLog([ms[0]], keys);
      var rest := OverrideLog(ms[1..], keys);
      assert (acc.log + head) + rest == acc.log + (head + rest);
    }
  }

  lemma OverrideWithEffects(acc: Loaded, m: TypeMapping)
    ensures OverrideWith(acc, m).registry.storageTypes.Keys == acc.registry.storageTypes.Keys + {m.key}
    ensures OverrideWith(acc, m).log == acc.log + OverrideLog([m], acc.registry.storageTypes.Keys)
  {
    assert [m][1..] == [];
  }

  lemma OverrideLogSplit(ms: seq<TypeMapping>, keys: set<StorageKey>)
    requires ms != []
    ensures OverrideLog(ms, keys) == OverrideLog([ms[0]], keys) + OverrideLog(ms[1..], keys)
  {
    assert [ms[0]][1..] == [];
  }

  // ---------------------------------------------------------------------------
  // Construction as a whole

  lemma EmptyTypePhase()
    ensures TypePhaseInv(EmptyRegistry)
  {
  }

  /** Phase 1 alone, from the empty registry. */
  function TypePhase(typeFiles: seq<TypeFile>): Result<Loaded, ConfigError>
  {
    LoadTypeFiles(typeFiles, Loaded(EmptyRegistry, []))
  }

  /** Everything the proofs below need to know about a successful construction. */
  lemma BuildFacts(typeFiles: seq<TypeFile>, mappingParsers: set<string>, mappingFiles: seq<MappingFile>)
    requires Build(typeFiles, mappingParsers, mappingFiles).Success?
    ensures TypePhase(typeFiles).Success?
    ensures TypePhaseInv(TypePhase(typeFiles).value.registry)
    ensures TypePhase(typeFiles).value.registry.storageTypes.Keys == DeclaredKeys(typeFiles)
    ensures Valid(Build(typeFiles, mappingParsers, mappingFiles).value.registry)
    ensures Build(typeFiles, mappingParsers, mappingFiles).value.registry.searchTypes ==
      TypePhase(typeFiles).value.registry.searchTypes
    ensures AllRules(Build(typeFiles, mappingParsers, mappingFiles).value.registry) == LoadedRules(typeFiles)
    ensures DistinctKeys(MappingsOf(mappingFiles, mappingParsers))
    ensures forall m | m in MappingsOf(mappingFiles, mappingParsers) ::
      && m.key in Build(typeFiles, mappingParsers, mappingFiles).value.registry.storageTypes
      && Build(typeFiles, mappingParsers, mappingFiles).value.registry.storageTypes[m.key] == m
    ensures forall k | k !in MappedKeys(MappingsOf(mappingFiles, mappingParsers)) ::
      && (k in Build(typeFiles, mappingParsers, mappingFiles).value.registry.storageTypes <==>
          k in TypePhase(typeFiles).value.registry.storageTypes)
      && (k in TypePhase(typeFiles).value.registry.storageTypes ==>
          Build(typeFiles, mappingParsers, mappingFiles).value.registry.storageTypes[k] ==
          TypePhase(typeFiles).value.registry.storageTypes[k])
    ensures Build(typeFiles, mappingParsers, mappingFiles).value.log ==
      TypeFileLog(typeFiles) + MappingFileLog(mappingFiles, mappingParsers) +
      OverrideLog(MappingsOf(mappingFiles, mappingParsers), DeclaredKeys(typeFiles))
  {
    var start := Loaded(EmptyRegistry, []);
    EmptyTypePhase();
    LoadTypeFilesSound(typeFiles, start);
    var base := LoadTypeFiles(typeFiles, start).value;
    assert base.registry.storageTypes.Keys == DeclaredKeys(typeFiles);
    assert AllRules(base.registry) == LoadedRules(typeFiles);
    assert base.log == TypeFileLog(typeFiles);
    TypePhaseInvIsValid(base.registry);
    var collected := CollectMappings(mappingFiles, mappingParsers, Collected([], base.log)).value;
    CollectMappingsSound(mappingFiles, mappingParsers, Collected([], base.log));
    var ms := collected.mappings;
    assert ms == MappingsOf(mappingFiles, mappingParsers);
    var start' := Loaded(base.registry, collected.log);
    var out := ApplyMappings(start', ms).value;
    assert Build(typeFiles, mappingParsers, mappingFiles).value == out;
    ApplyMappingsKeepsRules(start', ms);
    assert AllRules(out.registry) == AllRules(base.registry);
    ApplyMappingsLog(start', ms);
    forall m | m in ms ensures m.key in out.registry.storageTypes && out.registry.storageTypes[m.key] == m {
      ApplyMappingsInstalls(start', ms, m);
    }
    forall k | k !in MappedKeys(ms)
      ensures && (k in out.registry.storageTypes <==> k in base.registry.storageTypes)
              && (k in base.registry.storageTypes ==> out.registry.storageTypes[k] == base.registry.storageTypes[k])
    {
      ApplyMappingsKeepsOthers(start', ms, k);
    }
  }

  // ---------------------------------------------------------------------------
  // The promises of TypeFileStorage

  /** With no type files and no mapping files nothing is logged and every query is empty. */
  lemma NoFilesMeansEmptyRegistry(mappingParsers: set<string>, st: StorageObjectType, t: SearchObjectType)
    ensures Build([], mappingParsers, []) == Success(Loaded(EmptyRegistry, []))
    ensures ListObjectTypeParsingRules(EmptyRegistry) == {}
    ensures ListObjectTypeParsingRulesFor(EmptyRegistry, st) == {}
    ensures GetObjectTypeParsingRules(EmptyRegistry, t) == None
  {
  }

  /** Exact lookup returns the rule loaded for exactly that name and version, latest or not. */
  lemma ExactLookupFindsLoadedRule(
    typeFiles: seq<TypeFile>, mappingParsers: set<string>, mappingFiles: seq<MappingFile>,
    t: SearchObjectType, rule: TypeRule)
    requires Build(typeFiles, mappingParsers, mappingFiles).Success?
    ensures GetObjectTypeParsingRules(Build(typeFiles, mappingParsers, mappingFiles).value.registry, t) == Some(rule)
      <==> rule in LoadedRules(typeFiles) && rule.searchType == t
  {
    BuildFacts(typeFiles, mappingParsers, mappingFiles);
    GetIsExact(Build(typeFiles, mappingParsers, mappingFiles).value.registry, t, rule);
  }

  /** The listing holds, per search-type name, only the highest version loaded from the type files. */
  lemma ListingIsLatestPerName(
    typeFiles: seq<TypeFile>, mappingParsers: set<string>, mappingFiles: seq<MappingFile>, rule: TypeRule)
    requires Build(typeFiles, mappingParsers, mappingFiles).Success?
    ensures rule in ListObjectTypeParsingRules(Build(typeFiles, mappingParsers, mappingFiles).value.registry) <==>
      && rule in LoadedRules(typeFiles)
      && forall other | other in LoadedRules(typeFiles) && other.searchType.name == rule.searchType.name ::
           other.searchType.version <= rule.searchType.version
  {
    BuildFacts(typeFiles, mappingParsers, mappingFiles);
    LatestIsHighestVersion(Build(typeFiles, mappingParsers, mappingFiles).value.registry, rule);
  }

  /** Mapping files change neither exact lookup nor the latest-version listing. */
  lemma MappingsDoNotChangeSearchTypes(
    typeFiles: seq<TypeFile>,
    parsers1: set<string>, mappingFiles1: seq<MappingFile>,
    parsers2: set<string>, mappingFiles2: seq<MappingFile>,
    t: SearchObjectType)
    requires Build(typeFiles, parsers1, mappingFiles1).Success?
    requires Build(typeFiles, parsers2, mappingFiles2).Success?
    ensures var r1 := Build(typeFiles, parsers1, mappingFiles1).value.registry;
      var r2 := Build(typeFiles, parsers2, mappingFiles2).value.registry;
      && ListObjectTypeParsingRules(r1) == ListObjectTypeParsingRules(r2)
      && GetObjectTypeParsingRules(r1, t) == GetObjectTypeParsingRules(r2, t)
  {
    BuildFacts(typeFiles, parsers1, mappingFiles1);
    BuildFacts(typeFiles, parsers2, mappingFiles2);
  }

  /**
   * A storage type no mapping file maps resolves, whatever version is asked
   * for, to the latest rule of every search type whose type file declares it
   * (the union when several do; nothing when none does).
   */
  lemma UnmappedStorageTypeResolvesToLatest(
    typeFiles: seq<TypeFile>, mappingParsers: set<string>, mappingFiles: seq<MappingFile>,
    out: Loaded, st: StorageObjectType)
    requires Build(typeFiles, mappingParsers, mappingFiles) == Success(out)
    requires st.Key() !in MappedKeys(MappingsOf(mappingFiles, mappingParsers))
    ensures ListObjectTypeParsingRulesFor(out.registry, st) ==
      set r | r in ListObjectTypeParsingRules(out.registry) && r.storageType == st.Key()
  {
    BuildFacts(typeFiles, mappingParsers, mappingFiles);
    var base := TypePhase(typeFiles).value.registry;
    var k := st.Key();
    assert k in out.registry.storageTypes <==> k in base.storageTypes;
    assert k in base.storageTypes ==> out.registry.storageTypes[k] == base.storageTypes[k];
    UnmappedResolution(out.registry, base, st);
  }

  /** The resolution of a key the type phase left alone, stated on the registry alone. */
  lemma UnmappedResolution(reg: Registry, base: Registry, st: StorageObjectType)
    requires TypePhaseInv(base)
    requires reg.searchTypes == base.searchTypes
    requires st.Key() in reg.storageTypes <==> st.Key() in base.storageTypes
    requires st.Key() in base.storageTypes ==> reg.storageTypes[st.Key()] == base.storageTypes[st.Key()]
    ensures ListObjectTypeParsingRulesFor(reg, st) ==
      set r | r in ListObjectTypeParsingRules(reg) && r.storageType == st.Key()
  {
    var types := reg.searchTypes;
    var k := st.Key();
    var lhs := ListObjectTypeParsingRulesFor(reg, st);
    var rhs := set r | r in ListObjectTypeParsingRules(reg) && r.storageType == k;
    forall r | r in rhs ensures r in lhs {
      var name :| name in types && |types[name]| > 0 && r == types[name][|types[name]| - 1];
      var n := |types[name]|;
      assert r.searchType == SearchObjectType(name, n) && r.storageType == types[name][0].storageType;
      assert k in base.storageTypes.Keys by { assert k in StorageKeysOf(types); }
      assert SearchObjectType(name, n) in DefaultsFor(types, k);
    }
    forall r | r in lhs ensures r in rhs {
      var selected := SelectedSearchTypes(reg.storageTypes[k], st.version);
      assert selected == DefaultsFor(types, k);
      var t :| t in selected && DefinedIn(types, t) && r == RuleFor(types, t);
      var name :| name in types && |types[name]| > 0 && types[name][0].storageType == k &&
        t == SearchObjectType(name, |types[name]|);
      assert types[name][|types[name]| - 1].storageType == k;
    }
  }

  /**
   * A storage type a mapping file maps resolves to the loaded rules of the
   * search types that mapping selects: the entry for the queried version
   * when it has one, its defaults otherwise. The mapping may target search
   * types declared under another storage type.
   */
  lemma MappedStorageTypeFollowsMapping(
    typeFiles: seq<TypeFile>, mappingParsers: set<string>, mappingFiles: seq<MappingFile>,
    m: TypeMapping, st: StorageObjectType, rule: TypeRule)
    requires Build(typeFiles, mappingParsers, mappingFiles).Success?
    requires m in MappingsOf(mappingFiles, mappingParsers)
    requires st.Key() == m.key
    ensures rule in ListObjectTypeParsingRulesFor(Build(typeFiles, mappingParsers, mappingFiles).value.registry, st)
      <==> rule in LoadedRules(typeFiles) && rule.searchType in SelectedSearchTypes(m, st.version)
  {
    BuildFacts(typeFiles, mappingParsers, mappingFiles);
    ResolutionFollowsMapping(Build(typeFiles, mappingParsers, mappingFiles).value.registry, st, rule);
  }

  /** The override diagnostic is logged for a mapping exactly when a type file declared its storage type. */
  lemma OverrideLoggedIffTypeFileDeclares(
    typeFiles: seq<TypeFile>, mappingParsers: set<string>, mappingFiles: seq<MappingFile>, m: TypeMapping)
    requires Build(typeFiles, mappingParsers, mappingFiles).Success?
    requires m in MappingsOf(mappingFiles, mappingParsers)
    ensures OverridingMapping(m.key.code, m.key.typeName, m.sourceInfo) in Build(typeFiles, mappingParsers, mappingFiles).value.log
      <==> m.key in DeclaredKeys(typeFiles)
  {
    BuildFacts(typeFiles, mappingParsers, mappingFiles);
    var ms := MappingsOf(mappingFiles, mappingParsers);
    var keys := DeclaredKeys(typeFiles);
    var d := OverridingMapping(m.key.code, m.key.typeName, m.sourceInfo);
    TypeFileLogHasNoOverrides(typeFiles);
    MappingFileLogHasNoOverrides(mappingFiles, mappingParsers);
    var prefix := TypeFileLog(typeFiles) + MappingFileLog(mappingFiles, mappingParsers);
    assert d !in prefix;
    OverrideLogContents(ms, keys, m);
  }

  lemma {:induction false} OverrideLogContents(ms: seq<TypeMapping>, keys: set<StorageKey>, m: TypeMapping)
    requires DistinctKeys(ms)
    requires m in ms
    ensures OverridingMapping(m.key.code, m.key.typeName, m.sourceInfo) in OverrideLog(ms, keys) <==> m.key in keys
    decreases |ms|
  {
    var d := OverridingMapping(m.key.code, m.key.typeName, m.sourceInfo);
    var head := if ms[0].key in keys then [OverridingMapping(ms[0].key.code, ms[0].key.typeName, ms[0].sourceInfo)] else [];
    assert OverrideLog(ms, keys) == head + OverrideLog(ms[1..], keys);
    assert DistinctKeys(ms[1..]) by {
      forall i, j | 0 <= i < j < |ms[1..]| ensures ms[1..][i].key != ms[1..][j].key {
        assert ms[1..][i] == ms[i + 1] && ms[1..][j] == ms[j + 1];
      }
    }
    if m == ms[0] {
      assert m.key !in MappedKeys(ms[1..]);
      OverrideLogKeys(ms[1..], keys, m.key);
    } else {
      var i :| 0 <= i < |ms| && ms[i] == m;
      assert m in ms[1..] by { assert ms[1..][i - 1] == m; }
      assert ms[0].key != m.key by { assert ms[0] == ms[0] && ms[i] == m; }
      OverrideLogContents(ms[1..], keys, m);
    }
  }

  /** Override diagnostics only name mapped storage types. */
  lemma {:induction false} OverrideLogKeys(ms: seq<TypeMapping>, keys: set<StorageKey>, k: StorageKey)
    ensures k !in MappedKeys(ms) ==> forall src :: OverridingMapping(k.code, k.typeName, src) !in OverrideLog(ms, keys)
    decreases |ms|
  {
    if ms != [] && k !in MappedKeys(ms) {
      assert ms[0] in ms;
      OverrideLogKeys(ms[1..], keys, k);
    }
  }

  lemma {:induction false} TypeFileLogHasNoOverrides(files: seq<TypeFile>)
    ensures NoOverrides(TypeFileLog(files))
    decreases |files|
  {
    if files != [] {
      TypeFileLogHasNoOverrides(files[1..]);
    }
  }

  lemma {:induction false} MappingFileLogHasNoOverrides(files: seq<MappingFile>, mappingParsers: set<string>)
    ensures NoOverrides(MappingFileLog(files, mappingParsers))
    decreases |files|
  {
    if files != [] {
      MappingFileLogHasNoOverrides(files[1..], mappingParsers);
    }
  }

  lemma {:induction false} TypeFileLogMentionsEveryFile(files: seq<TypeFile>, f: TypeFile)
    requires f in files
    ensures TypeFileDiagnostic(f) in TypeFileLog(files)
    decreases |files|
  {
    if files[0] != f {
      TypeFileLogMentionsEveryFile(files[1..], f);
    }
  }

  lemma {:induction false} MappingFileLogMentionsEveryFile(files: seq<MappingFile>, mappingParsers: set<string>, f: MappingFile)
    requires f in files
    ensures forall d | d in MappingFileDiagnostics(f, mappingParsers) :: d in MappingFileLog(files, mappingParsers)
    decreases |files|
  {
    if files[0] != f {
      MappingFileLogMentionsEveryFile(files[1..], mappingParsers, f);
    }
  }

  /**
   * Every directory entry leaves its diagnostic: a processed type file names
   * its storage code, storage type and search type; a skipped type file, a
   * mapping file with no parser and a non-regular mapping entry each say so.
   */
  lemma EveryEntryIsLogged(
    typeFiles: seq<TypeFile>, mappingParsers: set<string>, mappingFiles: seq<MappingFile>, out: Loaded)
    requires Build(typeFiles, mappingParsers, mappingFiles) == Success(out)
    ensures forall f | f in typeFiles && !TypeFileAccepted(f) :: SkippedTypeFile(f.path) in out.log
    ensures forall f | f in typeFiles && TypeFileAccepted(f) ::
      |f.parsed| > 0 &&
      ProcessedTypeFile(f.parsed[0].storageType.code, f.parsed[0].storageType.typeName,
                        f.parsed[0].searchType.name, f.path) in out.log
    ensures forall f | f in mappingFiles && !f.isRegularFile :: SkippedMappingEntry(f.path) in out.log
    ensures forall f | f in mappingFiles && f.isRegularFile && Extension(f.path) !in mappingParsers ::
      SkippedMappingFile(f.path) in out.log
  {
    BuildFacts(typeFiles, mappingParsers, mappingFiles);
    var tlog := TypeFileLog(typeFiles);
    var mlog := MappingFileLog(mappingFiles, mappingParsers);
    var olog := OverrideLog(MappingsOf(mappingFiles, mappingParsers), DeclaredKeys(typeFiles));
    forall f | f in typeFiles ensures TypeFileDiagnostic(f) in out.log {
      TypeFileLogMentionsEveryFile(typeFiles, f);
      InConcatenation(tlog, mlog, olog, TypeFileDiagnostic(f));
    }
    forall f | f in typeFiles && TypeFileAccepted(f) ensures |f.parsed| > 0 {
      AcceptedTypeFileIsWellFormed(typeFiles, Loaded(EmptyRegistry, []), f);
    }
    forall f | f in mappingFiles && !f.isRegularFile ensures SkippedMappingEntry(f.path) in out.log {
      MappingFileLogMentionsEveryFile(mappingFiles, mappingParsers, f);
      assert SkippedMappingEntry(f.path) in MappingFileDiagnostics(f, mappingParsers);
      InConcatenation(mlog, tlog, olog, SkippedMappingEntry(f.path));
    }
    forall f | f in mappingFiles && f.isRegularFile && Extension(f.path) !in mappingParsers
      ensures SkippedMappingFile(f.path) in out.log
    {
      MappingFileLogMentionsEveryFile(mappingFiles, mappingParsers, f);
      assert SkippedMappingFile(f.path) in MappingFileDiagnostics(f, mappingParsers);
      InConcatenation(mlog, tlog, olog, SkippedMappingFile(f.path));
    }
  }

  lemma InConcatenation(a: seq<Diagnostic>, b: seq<Diagnostic>, c: seq<Diagnostic>, d: Diagnostic)
    ensures d in a ==> d in a + b + c && d in b + a + c
  {
    if d in a {
      var i :| 0 <= i < |a| && a[i] == d;
      assert (a + b + c)[i] == d;
      assert (b + a + c)[|b| + i] == d;
    }
  }

  lemma {:induction false} AcceptedTypeFileIsWellFormed(files: seq<TypeFile>, acc: Loaded, f: TypeFile)
    requires LoadTypeFiles(files, acc).Success?
    requires f in files && TypeFileAccepted(f)
    ensures WellFormedTypeFile(f.parsed)
    decreases |files|
  {
    if files[0] != f {
      AcceptedTypeFileIsWellFormed(files[1..], AddTypeFile(acc, files[0]).value, f);
    }
  }

  // ---------------------------------------------------------------------------
  // Skipped entries are never parsed

  lemma {:induction false} SkippedTypeFileContentIgnored(files: seq<TypeFile>, i: nat, parsed: seq<TypeRule>, acc: Loaded)
    requires i < |files| && !TypeFileAccepted(files[i])
    ensures LoadTypeFiles(files[i := files[i].(parsed := parsed)], acc) == LoadTypeFiles(files, acc)
    decreases |files|
  {
    var files' := files[i := files[i].(parsed := parsed)];
    assert AddTypeFile(acc, files'[0]) == AddTypeFile(acc, files[0]);
    if i > 0 {
      assert files'[1..] == files[1..][i - 1 := files[i].(parsed := parsed)];
      match AddTypeFile(acc, files[0])
      case Failure(_) =>
      case Success(next) => SkippedTypeFileContentIgnored(files[1..], i - 1, parsed, next);
    } else {
      assert files'[1..] == files[1..];
    }
  }

  /** What the type parser would return for a skipped type-definition entry has no effect. */
  lemma SkippedTypeFileIsNotParsed(
    typeFiles: seq<TypeFile>, mappingParsers: set<string>, mappingFiles: seq<MappingFile>,
    i: nat, parsed: seq<TypeRule>)
    requires i < |typeFiles| && !TypeFileAccepted(typeFiles[i])
    ensures Build(typeFiles[i := typeFiles[i].(parsed := parsed)], mappingParsers, mappingFiles)
         == Build(typeFiles, mappingParsers, mappingFiles)
  {
    SkippedTypeFileContentIgnored(typeFiles, i, parsed, Loaded(EmptyRegistry, []));
  }

  lemma {:induction false} SkippedMappingFileContentIgnored(
    files: seq<MappingFile>, mappingParsers: set<string>, i: nat, parsed: seq<TypeMapping>, acc: Collected)
    requires i < |files| && !MappingFileAccepted(files[i], mappingParsers)
    ensures CollectMappings(files[i := files[i].(parsed := parsed)], mappingParsers, acc)
         == CollectMappings(files, mappingParsers, acc)
    decreases |files|
  {
    var files' := files[i := files[i].(parsed := parsed)];
    assert AddMappingFile(acc, files'[0], mappingParsers) == AddMappingFile(acc, files[0], mappingParsers);
    if i > 0 {
      assert files'[1..] == files[1..][i - 1 := files[i].(parsed := parsed)];
      match AddMappingFile(acc, files[0], mappingParsers)
      case Failure(_) =>
      case Success(next) => SkippedMappingFileContentIgnored(files[1..], mappingParsers, i - 1, parsed, next);
    } else {
      assert files'[1..] == files[1..];
    }
  }

  /** What a mapping parser would return for a skipped mapping entry has no effect. */
  lemma SkippedMappingFileIsNotParsed(
    typeFiles: seq<TypeFile>, mappingParsers: set<string>, mappingFiles: seq<MappingFile>,
    i: nat, parsed: seq<TypeMapping>)
    requires i < |mappingFiles| && !MappingFileAccepted(mappingFiles[i], mappingParsers)
    ensures Build(typeFiles, mappingParsers, mappingFiles[i := mappingFiles[i].(parsed := parsed)])
         == Build(typeFiles, mappingParsers, mappingFiles)
  {
    match LoadTypeFiles(typeFiles, Loaded(EmptyRegistry, []))
    case Failure(_) =>
    case Success(base) =>
      SkippedMappingFileContentIgnored(mappingFiles, mappingParsers, i, parsed, Collected([], base.log));
  }
}
