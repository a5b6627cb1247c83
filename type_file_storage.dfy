/**
 * TypeFileStorage: the versioned type-resolution registry.
 *
 * The registry is built once, in two phases, from the already parsed contents
 * of a type-definition directory and a type-mapping directory (listing the
 * directories and parsing YAML are foreign and appear here only as each
 * entry's regular-file flag and its parser output). After that it answers
 * three read-only queries: exact lookup by search type, the latest rule of
 * every search type, and resolution of a storage type (version optional).
 */
module TypeFileStorage {
  import opened Wrappers
  import opened SearchTypes

  /**
   * The extension of the type-definition files the registry loads. The model
   * lets the type parser handle this one extension; every other file in the
   * type-definition directory is skipped.
   */
  const TypeFileExtension: string := "yaml"

  /** An entry of the type-definition directory and what the type parser returns for it. */
  datatype TypeFile = TypeFile(path: string, isRegularFile: bool, parsed: seq<TypeRule>)

  /** An entry of the type-mapping directory and what its extension's parser returns for it. */
  datatype MappingFile = MappingFile(path: string, isRegularFile: bool, parsed: seq<TypeMapping>)

  /** The diagnostics sent to the line logger while loading. */
  datatype Diagnostic =
    | ProcessedTypeFile(code: string, storageType: string, searchType: string, path: string)
    | SkippedTypeFile(path: string)
    | SkippedMappingFile(path: string)
    | SkippedMappingEntry(path: string)
    | OverridingMapping(code: string, storageType: string, source: Option<string>)

  /** The exact line each diagnostic is logged as. */
  function Message(d: Diagnostic): string
  {
    match d
    case ProcessedTypeFile(c, t, s, p) =>
      "[TypeStorage] Processed type tranformation file with storage code " + c +
      ", storage type " + t + " and search type " + s + ": " + p
    case SkippedTypeFile(p) => "[TypeStorage] Skipping file in type tranformation directory: " + p
    case SkippedMappingFile(p) => "[TypeStorage] Skipping file in type mapping directory: " + p
    case SkippedMappingEntry(p) => "[TypeStorage] Skipping entry in type mapping directory: " + p
    case OverridingMapping(c, t, src) =>
      "[TypeStorage] Overriding type mapping for storage code " + c + " and storage type " + t +
      " from type transformation file with definition from type mapping file" +
      (if src.Some? then " " + src.value else "")
  }

  /** Why construction of the registry fails. */
  datatype ConfigError =
    | MalformedTypeFile(path: string)
    | DuplicateSearchType(name: string, path: string)
    | MappingCollision(code: string, storageType: string, path: string)
    | UnknownSearchType(code: string, storageType: string)

  /** The index of the last '.' of a file name, if it has one. */
  function LastDot(path: string): Option<nat>
    decreases |path|
  {
    if |path| == 0 then None
    else if path[|path| - 1] == '.' then Some(|path| - 1)
    else LastDot(path[..|path| - 1])
  }

  /** The text after the last '.' of a file name, or "" when there is none. */
  function Extension(path: string): string
  {
    match LastDot(path)
    case None => []
    case Some(i) => if i < |path| then path[i + 1..] else []
  }

  /** The extension is what follows the last dot: it holds no dot, and a name without a dot has none. */
  lemma ExtensionFollowsLastDot(path: string)
    ensures '.' !in Extension(path)
    ensures '.' !in path ==> Extension(path) == []
    ensures '.' in path ==> exists i | 0 <= i < |path| :: path[i] == '.' && Extension(path) == path[i + 1..]
  {
    LastDotInRange(path);
    LastDotNone(path);
  }

  lemma {:induction false} LastDotInRange(path: string)
    ensures LastDot(path).Some? ==> LastDot(path).value < |path| && path[LastDot(path).value] == '.'
    ensures LastDot(path).Some? ==> '.' !in path[LastDot(path).value + 1..]
    decreases |path|
  {
    if |path| > 0 && path[|path| - 1] != '.' {
      var init := path[..|path| - 1];
      LastDotInRange(init);
      if LastDot(init).Some? {
        var i := LastDot(init).value;
        assert path[i + 1..] == init[i + 1..] + [path[|path| - 1]];
      }
    }
  }

  lemma {:induction false} LastDotNone(path: string)
    ensures LastDot(path).None? <==> '.' !in path
    decreases |path|
  {
    if |path| > 0 && path[|path| - 1] != '.' {
      var init := path[..|path| - 1];
      LastDotNone(init);
      assert path == init + [path[|path| - 1]];
    }
  }

  lemma {:induction false} LastDotAt(path: string, k: nat)
    requires k < |path| && path[k] == '.' && '.' !in path[k + 1..]
    ensures LastDot(path) == Some(k)
    decreases |path|
  {
    if k < |path| - 1 {
      var init := path[..|path| - 1];
      assert path[|path| - 1] in path[k + 1..];
      assert init[k + 1..] == path[k + 1..|path| - 1];
      LastDotAt(init, k);
    }
  }

  predicate TypeFileAccepted(f: TypeFile)
  {
    f.isRegularFile && Extension(f.path) == TypeFileExtension
  }

  /** A type-definition entry is loaded exactly when it is a regular file whose name ends in `.yaml`. */
  lemma TypeFileAcceptedIffYamlName(f: TypeFile)
    ensures TypeFileAccepted(f) <==>
      f.isRegularFile && |f.path| >= 5 && f.path[|f.path| - 5..] == ".yaml"
  {
    var path := f.path;
    LastDotInRange(path);
    if |path| >= 5 && path[|path| - 5..] == ".yaml" {
      assert path[|path| - 5] == '.';
      assert path[|path| - 4..] == "yaml";
      LastDotAt(path, |path| - 5);
    }
    if Extension(path) == TypeFileExtension {
      var i := LastDot(path).value;
      assert path[i + 1..] == "yaml";
      assert path[|path| - 5..] == [path[i]] + path[i + 1..];
    }
  }

  predicate MappingFileAccepted(f: MappingFile, mappingParsers: set<string>)
  {
    f.isRegularFile && Extension(f.path) in mappingParsers
  }

  /** Versions 1..|rules| of search type `name`, all derived from storage type `key`. */
  predicate IsVersionList(name: string, key: StorageKey, rules: seq<TypeRule>)
  {
    forall i | 0 <= i < |rules| ::
      rules[i].searchType == SearchObjectType(name, i + 1) && rules[i].storageType == key
  }

  /** What the type parser promises for one file: a non-empty version list of one search type. */
  predicate WellFormedTypeFile(rules: seq<TypeRule>)
  {
    |rules| > 0 && IsVersionList(rules[0].searchType.name, rules[0].storageType, rules)
  }

  /** The registry: rules by search-type name (version v at index v - 1) and mappings by storage type. */
  datatype Registry = Registry(
    searchTypes: map<string, seq<TypeRule>>,
    storageTypes: map<StorageKey, TypeMapping>)

  /** The registry being built together with the diagnostics logged so far. */
  datatype Loaded = Loaded(registry: Registry, log: seq<Diagnostic>)

  const EmptyRegistry: Registry := Registry(map[], map[])

  predicate DefinedIn(types: map<string, seq<TypeRule>>, t: SearchObjectType)
  {
    t.name in types && 1 <= t.version <= |types[t.name]|
  }

  function RuleFor(types: map<string, seq<TypeRule>>, t: SearchObjectType): TypeRule
    requires DefinedIn(types, t)
  {
    types[t.name][t.version - 1]
  }

  /** Every search type a mapping can resolve to has a loaded rule. */
  predicate TargetsDefined(types: map<string, seq<TypeRule>>, m: TypeMapping)
  {
    && (forall v | v in m.versions :: DefinedIn(types, m.versions[v]))
    && (forall t | t in m.defaults :: DefinedIn(types, t))
  }

  ghost predicate RulesValid(types: map<string, seq<TypeRule>>)
  {
    forall name | name in types ::
      |types[name]| > 0 && IsVersionList(name, types[name][0].storageType, types[name])
  }

  /** The registry invariant that construction establishes. */
  ghost predicate Valid(reg: Registry)
  {
    && RulesValid(reg.searchTypes)
    && (forall k | k in reg.storageTypes ::
          reg.storageTypes[k].key == k && TargetsDefined(reg.searchTypes, reg.storageTypes[k]))
  }

  /** Every rule the registry holds, of every version. */
  function AllRules(reg: Registry): set<TypeRule>
  {
    set name, i | name in reg.searchTypes && 0 <= i < |reg.searchTypes[name]| :: reg.searchTypes[name][i]
  }

  // ---------------------------------------------------------------------------
  // Phase 1: type-definition files

  /** Loads one entry of the type-definition directory. */
  function AddTypeFile(acc: Loaded, f: TypeFile): Result<Loaded, ConfigError>
  {
    if !TypeFileAccepted(f) then
      Success(acc.(log := acc.log + [SkippedTypeFile(f.path)]))
    else if !WellFormedTypeFile(f.parsed) then
      Failure(MalformedTypeFile(f.path))
    else
      var name := f.parsed[0].searchType.name;
      var key := f.parsed[0].storageType;
      if name in acc.registry.searchTypes then
        Failure(DuplicateSearchType(name, f.path))
      else
        var latest := SearchObjectType(name, |f.parsed|);
        Success(Loaded(
          Registry(acc.registry.searchTypes[name := f.parsed], AddDefault(acc.registry.storageTypes, key, latest)),
          acc.log + [ProcessedTypeFile(key.code, key.typeName, name, f.path)]))
  }

  /** Adds a search type to the defaults of a storage type's mapping, creating the mapping if needed. */
  function AddDefault(st: map<StorageKey, TypeMapping>, key: StorageKey, latest: SearchObjectType)
    : map<StorageKey, TypeMapping>
  {
    var mapping :=
      if key in st then st[key].(defaults := st[key].defaults + {latest})
      else TypeMapping(key, map[], {latest}, None);
    st[key := mapping]
  }

  /** Loads the type-definition directory entries in listing order. */
  function LoadTypeFiles(files: seq<TypeFile>, acc: Loaded): Result<Loaded, ConfigError>
    decreases |files|
  {
    if files == [] then Success(acc)
    else
      match AddTypeFile(acc, files[0])
      case Failure(e) => Failure(e)
      case Success(next) => LoadTypeFiles(files[1..], next)
  }

  // ---------------------------------------------------------------------------
  // Phase 2: type-mapping files

  /** The mappings collected so far together with the diagnostics logged so far. */
  datatype Collected = Collected(mappings: seq<TypeMapping>, log: seq<Diagnostic>)

  function MappedKeys(ms: seq<TypeMapping>): set<StorageKey>
  {
    set m | m in ms :: m.key
  }

  /** Appends the mappings of one file, refusing a storage type that is already mapped. */
  function AppendMappings(acc: seq<TypeMapping>, ms: seq<TypeMapping>, path: string)
    : Result<seq<TypeMapping>, ConfigError>
    decreases |ms|
  {
    if ms == [] then Success(acc)
    else if ms[0].key in MappedKeys(acc) then
      Failure(MappingCollision(ms[0].key.code, ms[0].key.typeName, path))
    else AppendMappings(acc + [ms[0]], ms[1..], path)
  }

  /** Reads one entry of the type-mapping directory. */
  function AddMappingFile(acc: Collected, f: MappingFile, mappingParsers: set<string>)
    : Result<Collected, ConfigError>
  {
    if !f.isRegularFile then
      Success(acc.(log := acc.log + [SkippedMappingEntry(f.path)]))
    else if Extension(f.path) !in mappingParsers then
      Success(acc.(log := acc.log + [SkippedMappingFile(f.path)]))
    else
      match AppendMappings(acc.mappings, f.parsed, f.path)
      case Failure(e) => Failure(e)
      case Success(ms) => Success(acc.(mappings := ms))
  }

  /** Reads the type-mapping directory entries in listing order. */
  function CollectMappings(files: seq<MappingFile>, mappingParsers: set<string>, acc: Collected)
    : Result<Collected, ConfigError>
    decreases |files|
  {
    if files == [] then Success(acc)
    else
      match AddMappingFile(acc, files[0], mappingParsers)
      case Failure(e) => Failure(e)
      case Success(next) => CollectMappings(files[1..], mappingParsers, next)
  }

  /** The override pass: each collected mapping replaces whatever the type files derived. */
  function ApplyMappings(acc: Loaded, ms: seq<TypeMapping>): Result<Loaded, ConfigError>
    decreases |ms|
  {
    if ms == [] then Success(acc)
    else if !TargetsDefined(acc.registry.searchTypes, ms[0]) then
      Failure(UnknownSearchType(ms[0].key.code, ms[0].key.typeName))
    else ApplyMappings(OverrideWith(acc, ms[0]), ms[1..])
  }

  /** Installs one mapping, logging the override when its storage type was already mapped. */
  function OverrideWith(acc: Loaded, m: TypeMapping): Loaded
  {
    var st := acc.registry.storageTypes;
    var log :=
      if m.key in st then acc.log + [OverridingMapping(m.key.code, m.key.typeName, m.sourceInfo)]
      else acc.log;
    Loaded(acc.registry.(storageTypes := st[m.key := m]), log)
  }

  /** Construction: the type files first, then the mapping layer on top. */
  function Build(typeFiles: seq<TypeFile>, mappingParsers: set<string>, mappingFiles: seq<MappingFile>)
    : Result<Loaded, ConfigError>
  {
    match LoadTypeFiles(typeFiles, Loaded(EmptyRegistry, []))
    case Failure(e) => Failure(e)
    case Success(base) =>
      match CollectMappings(mappingFiles, mappingParsers, Collected([], base.log))
      case Failure(e) => Failure(e)
      case Success(collected) => ApplyMappings(Loaded(base.registry, collected.log), collected.mappings)
  }

  // ---------------------------------------------------------------------------
  // Queries

  /** getObjectTypeParsingRules(SearchObjectType): the rule of exactly that name and version. */
  function GetObjectTypeParsingRules(reg: Registry, t: SearchObjectType): (r: Option<TypeRule>)
    ensures r.Some? <==> DefinedIn(reg.searchTypes, t)
    ensures Valid(reg) && r.Some? ==> r.value.searchType == t && r.value in AllRules(reg)
  {
    if DefinedIn(reg.searchTypes, t) then Some(RuleFor(reg.searchTypes, t)) else None
  }

  /** listObjectTypeParsingRules(): the highest version of every search type. */
  function ListObjectTypeParsingRules(reg: Registry): (r: set<TypeRule>)
    ensures forall rule | rule in r :: rule in AllRules(reg)
  {
    set name | name in reg.searchTypes && |reg.searchTypes[name]| > 0 ::
      reg.searchTypes[name][|reg.searchTypes[name]| - 1]
  }

  /** listObjectTypeParsingRules(StorageObjectType): the rules a storage type resolves to. */
  function ListObjectTypeParsingRulesFor(reg: Registry, st: StorageObjectType): (r: set<TypeRule>)
    ensures st.Key() !in reg.storageTypes ==> r == {}
    ensures forall rule | rule in r :: rule in AllRules(reg)
  {
    if st.Key() !in reg.storageTypes then {}
    else
      var selected := SelectedSearchTypes(reg.storageTypes[st.Key()], st.version);
      set t | t in selected && DefinedIn(reg.searchTypes, t) :: RuleFor(reg.searchTypes, t)
  }
}
