/**
 * When construction of the type registry succeeds, and what each
 * configuration error says about the directories it was built from.
 */
module TypeFileStorageFailures {
  import opened Wrappers
  import opened SearchTypes
  import opened TypeFileStorage
  import opened TypeFileStorageProperties

  // ---------------------------------------------------------------------------
  // Phase 1: the type-definition files

  /** The search-type names the accepted type files declare. */
  function NamesOf(files: seq<TypeFile>): set<string>
    decreases |files|
  {
    if files == [] then {}
    else
      (if TypeFileAccepted(files[0]) && |files[0].parsed| > 0 then {files[0].parsed[0].searchType.name} else {})
      + NamesOf(files[1..])
  }

  /**
   * Every accepted type file holds a well-formed version list, and no two
   * accepted files declare the same search-type name.
   */
  predicate TypeFilesLoadable(files: seq<TypeFile>)
  {
    && (forall i | 0 <= i < |files| && TypeFileAccepted(files[i]) :: WellFormedTypeFile(files[i].parsed))
    && (forall i, j | 0 <= i < j < |files| && TypeFileAccepted(files[i]) && TypeFileAccepted(files[j])
          && |files[i].parsed| > 0 && |files[j].parsed| > 0 ::
          files[i].parsed[0].searchType.name != files[j].parsed[0].searchType.name)
  }

  lemma {:induction false} NamesOfMembers(files: seq<TypeFile>, n: string)
    ensures n in NamesOf(files) <==>
      exists j | 0 <= j < |files| :: TypeFileAccepted(files[j]) && |files[j].parsed| > 0 &&
        files[j].parsed[0].searchType.name == n
    decreases |files|
  {
    if files != [] {
      NamesOfMembers(files[1..], n);
      if n in NamesOf(files[1..]) {
        var j :| 0 <= j < |files[1..]| && TypeFileAccepted(files[1..][j]) && |files[1..][j].parsed| > 0 &&
          files[1..][j].parsed[0].searchType.name == n;
        assert files[j + 1] == files[1..][j];
      }
      if exists j | 0 <= j < |files| :: TypeFileAccepted(files[j]) && |files[j].parsed| > 0 &&
           files[j].parsed[0].searchType.name == n
      {
        var j :| 0 <= j < |files| && TypeFileAccepted(files[j]) && |files[j].parsed| > 0 &&
          files[j].parsed[0].searchType.name == n;
        if j > 0 {
          assert files[1..][j - 1] == files[j];
        }
      }
    }
  }

  /** The loadable condition, one file at a time from the front of the listing. */
  lemma {:induction false} TypeFilesLoadableCons(files: seq<TypeFile>)
    requires files != []
    ensures TypeFilesLoadable(files) <==>
      && TypeFilesLoadable(files[1..])
      && (TypeFileAccepted(files[0]) ==>
            WellFormedTypeFile(files[0].parsed) && files[0].parsed[0].searchType.name !in NamesOf(files[1..]))
  {
    var f := files[0];
    var rest := files[1..];
    assert forall i | 0 <= i < |rest| :: rest[i] == files[i + 1];
    if TypeFileAccepted(f) && |f.parsed| > 0 {
      NamesOfMembers(rest, f.parsed[0].searchType.name);
    }
    if TypeFilesLoadable(rest) && TypeFileAccepted(f) && WellFormedTypeFile(f.parsed) &&
       f.parsed[0].searchType.name !in NamesOf(rest)
    {
      forall i, j | 0 <= i < j < |files| && TypeFileAccepted(files[i]) && TypeFileAccepted(files[j])
          && |files[i].parsed| > 0 && |files[j].parsed| > 0
        ensures files[i].parsed[0].searchType.name != files[j].parsed[0].searchType.name
      {
        if i > 0 {
          assert rest[i - 1] == files[i] && rest[j - 1] == files[j];
        } else {
          assert rest[j - 1] == files[j];
        }
      }
    }
  }

  /**
   * The type phase succeeds exactly when the files are loadable and declare
   * no name the registry already holds.
   */
  lemma {:induction false} LoadTypeFilesSucceedsIff(files: seq<TypeFile>, acc: Loaded)
    ensures LoadTypeFiles(files, acc).Success? <==>
      TypeFilesLoadable(files) && NamesOf(files) !! acc.registry.searchTypes.Keys
    decreases |files|
  {
    if files != [] {
      var f := files[0];
      TypeFilesLoadableCons(files);
      match AddTypeFile(acc, f)
      case Failure(_) =>
      case Success(next) =>
        LoadTypeFilesSucceedsIff(files[1..], next);
        if TypeFileAccepted(f) {
          assert next.registry.searchTypes.Keys == acc.registry.searchTypes.Keys + {f.parsed[0].searchType.name};
        }
    }
  }

  /** An accepted type file at `path` that the type parser cannot turn into a version list. */
  predicate MalformedAt(files: seq<TypeFile>, i: int, path: string)
  {
    && 0 <= i < |files|
    && TypeFileAccepted(files[i])
    && !WellFormedTypeFile(files[i].parsed)
    && files[i].path == path
  }

  /**
   * A well-formed accepted type file at `path` declaring `name`, which the
   * registry held beforehand or an earlier accepted file declared already.
   */
  predicate DuplicateAt(files: seq<TypeFile>, taken: set<string>, i: int, name: string, path: string)
  {
    && 0 <= i < |files|
    && TypeFileAccepted(files[i])
    && WellFormedTypeFile(files[i].parsed)
    && files[i].path == path
    && files[i].parsed[0].searchType.name == name
    && name in taken + NamesOf(files[..i])
  }

  /** The type phase fails only on a malformed file or on a duplicate search-type name, and names its file. */
  lemma {:induction false} LoadTypeFilesFailure(files: seq<TypeFile>, acc: Loaded)
    requires LoadTypeFiles(files, acc).Failure?
    ensures var e := LoadTypeFiles(files, acc).error;
      && (e.MalformedTypeFile? || e.DuplicateSearchType?)
      && (e.MalformedTypeFile? ==> exists i :: MalformedAt(files, i, e.path))
      && (e.DuplicateSearchType? ==>
            exists i :: DuplicateAt(files, acc.registry.searchTypes.Keys, i, e.name, e.path))
    decreases |files|
  {
    var f := files[0];
    var rest := files[1..];
    var taken := acc.registry.searchTypes.Keys;
    var e := LoadTypeFiles(files, acc).error;
    assert files[..0] == [];
    match AddTypeFile(acc, f)
    case Failure(_) =>
      if e.MalformedTypeFile? {
        assert MalformedAt(files, 0, e.path);
      } else {
        assert DuplicateAt(files, taken, 0, e.name, e.path);
      }
    case Success(next) =>
      LoadTypeFilesFailure(rest, next);
      var taken' := next.registry.searchTypes.Keys;
      if e.MalformedTypeFile? {
        var i :| MalformedAt(rest, i, e.path);
        assert files[i + 1] == rest[i];
        assert MalformedAt(files, i + 1, e.path);
      } else {
        var i :| DuplicateAt(rest, taken', i, e.name, e.path);
        assert files[i + 1] == rest[i];
        assert files[..i + 1][1..] == rest[..i];
        assert NamesOf(files[..i + 1]) ==
          (if TypeFileAccepted(f) && |f.parsed| > 0 then {f.parsed[0].searchType.name} else {}) + NamesOf(rest[..i]);
        if TypeFileAccepted(f) {
          assert taken' == taken + {f.parsed[0].searchType.name};
        }
        assert DuplicateAt(files, taken, i + 1, e.name, e.path);
      }
  }

  // ---------------------------------------------------------------------------
  // Phase 2: collecting the mappings

  /** Storage type `key` is mapped at two places of `ms`. */
  predicate KeyRepeated(ms: seq<TypeMapping>, key: StorageKey)
  {
    exists i, j | 0 <= i < j < |ms| :: ms[i].key == key && ms[j].key == key
  }

  lemma {:induction false} KeyRepeatedInLonger(ms: seq<TypeMapping>, more: seq<TypeMapping>, key: StorageKey)
    requires KeyRepeated(ms, key)
    ensures KeyRepeated(ms + more, key)
  {
    var i, j :| 0 <= i < j < |ms| && ms[i].key == key && ms[j].key == key;
    assert (ms + more)[i] == ms[i] && (ms + more)[j] == ms[j];
  }

  lemma {:induction false} DistinctKeysOfPrefix(ms: seq<TypeMapping>, more: seq<TypeMapping>)
    requires DistinctKeys(ms + more)
    ensures DistinctKeys(ms)
  {
    forall i, j | 0 <= i < j < |ms| ensures ms[i].key != ms[j].key {
      assert (ms + more)[i] == ms[i] && (ms + more)[j] == ms[j];
    }
  }

  /**
   * Appending one file's mappings succeeds exactly when all the storage types
   * stay distinct; otherwise the collision names a storage type mapped twice
   * and the file being read.
   */
  lemma {:induction false} AppendMappingsSucceedsIff(acc: seq<TypeMapping>, ms: seq<TypeMapping>, path: string)
    requires DistinctKeys(acc)
    ensures AppendMappings(acc, ms, path).Success? <==> DistinctKeys(acc + ms)
    ensures AppendMappings(acc, ms, path).Failure? ==>
      && AppendMappings(acc, ms, path).error.MappingCollision?
      && AppendMappings(acc, ms, path).error.path == path
      && KeyRepeated(acc + ms, StorageKey(AppendMappings(acc, ms, path).error.code,
                                          AppendMappings(acc, ms, path).error.storageType))
    decreases |ms|
  {
    if ms != [] {
      var key := ms[0].key;
      if key in MappedKeys(acc) {
        var m :| m in acc && m.key == key;
        var i :| 0 <= i < |acc| && acc[i] == m;
        assert (acc + ms)[i] == acc[i] && (acc + ms)[|acc|] == ms[0];
        assert StorageKey(key.code, key.typeName) == key;
      } else {
        var acc' := acc + [ms[0]];
        assert acc' + ms[1..] == acc + ms;
        forall i, j | 0 <= i < j < |acc'| ensures acc'[i].key != acc'[j].key {
          if j == |acc| {
            assert acc[i] in acc;
          }
        }
        AppendMappingsSucceedsIff(acc', ms[1..], path);
      }
    }
  }

  /** An accepted mapping file of the listing lies at `path`. */
  predicate AcceptedMappingAt(files: seq<MappingFile>, mappingParsers: set<string>, i: int, path: string)
  {
    0 <= i < |files| && MappingFileAccepted(files[i], mappingParsers) && files[i].path == path
  }

  /**
   * The mapping phase succeeds exactly when all collected storage types are
   * distinct; otherwise it fails with a collision naming a storage type mapped
   * twice and an accepted mapping file.
   */
  lemma {:induction false} CollectMappingsSucceedsIff(files: seq<MappingFile>, mappingParsers: set<string>, acc: Collected)
    requires DistinctKeys(acc.mappings)
    ensures CollectMappings(files, mappingParsers, acc).Success? <==>
      DistinctKeys(acc.mappings + MappingsOf(files, mappingParsers))
    ensures CollectMappings(files, mappingParsers, acc).Failure? ==>
      var e := CollectMappings(files, mappingParsers, acc).error;
      && e.MappingCollision?
      && KeyRepeated(acc.mappings + MappingsOf(files, mappingParsers), StorageKey(e.code, e.storageType))
      && exists i :: AcceptedMappingAt(files, mappingParsers, i, e.path)
    decreases |files|
  {
    if files != [] {
      var f := files[0];
      var rest := files[1..];
      var here := if MappingFileAccepted(f, mappingParsers) then f.parsed else [];
      var all := acc.mappings + MappingsOf(files, mappingParsers);
      assert all == acc.mappings + here + MappingsOf(rest, mappingParsers);
      if MappingFileAccepted(f, mappingParsers) {
        AppendMappingsSucceedsIff(acc.mappings, f.parsed, f.path);
      }
      match AddMappingFile(acc, f, mappingParsers)
      case Failure(e) =>
        KeyRepeatedInLonger(acc.mappings + here, MappingsOf(rest, mappingParsers), StorageKey(e.code, e.storageType));
        assert AcceptedMappingAt(files, mappingParsers, 0, e.path);
        if DistinctKeys(all) {
          DistinctKeysOfPrefix(acc.mappings + here, MappingsOf(rest, mappingParsers));
        }
      case Success(next) =>
        if MappingFileAccepted(f, mappingParsers) {
          AppendMappingsSound(acc.mappings, f.parsed, f.path);
        }
        assert next.mappings == acc.mappings + here;
        CollectMappingsSucceedsIff(rest, mappingParsers, next);
        if CollectMappings(files, mappingParsers, acc).Failure? {
          var e := CollectMappings(files, mappingParsers, acc).error;
          var i :| AcceptedMappingAt(rest, mappingParsers, i, e.path);
          assert files[i + 1] == rest[i];
          assert AcceptedMappingAt(files, mappingParsers, i + 1, e.path);
        }
    }
  }

  // ---------------------------------------------------------------------------
  // Phase 3: applying the mappings

  /** The override pass succeeds exactly when every mapping targets only defined search types. */
  lemma {:induction false} ApplyMappingsSucceedsIff(acc: Loaded, ms: seq<TypeMapping>)
    ensures ApplyMappings(acc, ms).Success? <==>
      forall m | m in ms :: TargetsDefined(acc.registry.searchTypes, m)
    ensures ApplyMappings(acc, ms).Failure? ==>
      var e := ApplyMappings(acc, ms).error;
      && e.UnknownSearchType?
      && exists m | m in ms :: m.key == StorageKey(e.code, e.storageType) && !TargetsDefined(acc.registry.searchTypes, m)
    decreases |ms|
  {
    if ms != [] {
      if TargetsDefined(acc.registry.searchTypes, ms[0]) {
        var next := OverrideWith(acc, ms[0]);
        assert next.registry.searchTypes == acc.registry.searchTypes;
        ApplyMappingsSucceedsIff(next, ms[1..]);
        assert forall m | m in ms :: m == ms[0] || m in ms[1..];
      } else {
        assert StorageKey(ms[0].key.code, ms[0].key.typeName) == ms[0].key;
      }
    }
  }

  // ---------------------------------------------------------------------------
  // Construction as a whole

  /** Some loaded rule is the rule of search type `t`. */
  predicate Loads(rules: set<TypeRule>, t: SearchObjectType)
  {
    exists r | r in rules :: r.searchType == t
  }

  /** Every search type a mapping can resolve to, per version or by default, has a loaded rule. */
  predicate TargetsLoaded(rules: set<TypeRule>, m: TypeMapping)
  {
    && (forall v | v in m.versions :: Loads(rules, m.versions[v]))
    && (forall t | t in m.defaults :: Loads(rules, t))
  }

  /** Over valid rules, a search type is defined exactly when some loaded rule carries it. */
  lemma {:induction false} TargetsDefinedIffLoaded(reg: Registry, m: TypeMapping)
    requires RulesValid(reg.searchTypes)
    ensures TargetsDefined(reg.searchTypes, m) <==> TargetsLoaded(AllRules(reg), m)
  {
    forall t ensures DefinedIn(reg.searchTypes, t) <==> Loads(AllRules(reg), t) {
      if DefinedIn(reg.searchTypes, t) {
        DefinedRuleIsLoaded(reg, t);
      }
      if Loads(AllRules(reg), t) {
        var r :| r in AllRules(reg) && r.searchType == t;
        RuleIsIndexedBySearchType(reg, r);
      }
    }
  }

  /**
   * Construction succeeds exactly when the type files are loadable, the
   * accepted mapping files map every storage type at most once, and every
   * search type a mapping names has a loaded rule.
   */
  lemma {:induction false} BuildSucceedsIff(typeFiles: seq<TypeFile>, mappingParsers: set<string>, mappingFiles: seq<MappingFile>)
    ensures Build(typeFiles, mappingParsers, mappingFiles).Success? <==>
      && TypeFilesLoadable(typeFiles)
      && DistinctKeys(MappingsOf(mappingFiles, mappingParsers))
      && forall m | m in MappingsOf(mappingFiles, mappingParsers) :: TargetsLoaded(LoadedRules(typeFiles), m)
  {
    var start := Loaded(EmptyRegistry, []);
    LoadTypeFilesSucceedsIff(typeFiles, start);
    if TypeFilesLoadable(typeFiles) {
      EmptyTypePhase();
      LoadTypeFilesSound(typeFiles, start);
      var base := LoadTypeFiles(typeFiles, start).value;
      var ms := MappingsOf(mappingFiles, mappingParsers);
      assert [] + ms == ms;
      CollectMappingsSucceedsIff(mappingFiles, mappingParsers, Collected([], base.log));
      if DistinctKeys(ms) {
        CollectMappingsSound(mappingFiles, mappingParsers, Collected([], base.log));
        var collected := CollectMappings(mappingFiles, mappingParsers, Collected([], base.log)).value;
        ApplyMappingsSucceedsIff(Loaded(base.registry, collected.log), ms);
        forall m | m in ms
          ensures TargetsDefined(base.registry.searchTypes, m) <==> TargetsLoaded(LoadedRules(typeFiles), m)
        {
          TargetsDefinedIffLoaded(base.registry, m);
        }
      }
    }
  }

  /** A malformed-file error names an accepted type file the parser could not read as a version list. */
  lemma {:induction false} MalformedTypeFileCause(typeFiles: seq<TypeFile>, mappingParsers: set<string>, mappingFiles: seq<MappingFile>, path: string)
    requires Build(typeFiles, mappingParsers, mappingFiles) == Failure(MalformedTypeFile(path))
    ensures exists i :: MalformedAt(typeFiles, i, path)
  {
    var start := Loaded(EmptyRegistry, []);
    LoadTypeFilesFailureOnly(typeFiles, mappingParsers, mappingFiles);
    LoadTypeFilesFailure(typeFiles, start);
  }

  /** A duplicate-name error names an accepted type file declaring a name an earlier accepted file declared. */
  lemma {:induction false} DuplicateSearchTypeCause(
    typeFiles: seq<TypeFile>, mappingParsers: set<string>, mappingFiles: seq<MappingFile>, name: string, path: string)
    requires Build(typeFiles, mappingParsers, mappingFiles) == Failure(DuplicateSearchType(name, path))
    ensures exists i :: DuplicateAt(typeFiles, {}, i, name, path)
  {
    var start := Loaded(EmptyRegistry, []);
    assert start.registry.searchTypes.Keys == {};
    LoadTypeFilesFailureOnly(typeFiles, mappingParsers, mappingFiles);
    LoadTypeFilesFailure(typeFiles, start);
  }

  /** A collision names a storage type the accepted mapping files map twice, and one of those files' paths. */
  lemma {:induction false} MappingCollisionCause(
    typeFiles: seq<TypeFile>, mappingParsers: set<string>, mappingFiles: seq<MappingFile>,
    code: string, storageType: string, path: string)
    requires Build(typeFiles, mappingParsers, mappingFiles) == Failure(MappingCollision(code, storageType, path))
    ensures TypeFilesLoadable(typeFiles)
    ensures KeyRepeated(MappingsOf(mappingFiles, mappingParsers), StorageKey(code, storageType))
    ensures exists i :: AcceptedMappingAt(mappingFiles, mappingParsers, i, path)
  {
    var start := Loaded(EmptyRegistry, []);
    LoadTypeFilesSucceedsIff(typeFiles, start);
    LoadTypeFilesFailureOnly(typeFiles, mappingParsers, mappingFiles);
    var base := LoadTypeFiles(typeFiles, start).value;
    var ms := MappingsOf(mappingFiles, mappingParsers);
    assert [] + ms == ms;
    CollectMappingsSucceedsIff(mappingFiles, mappingParsers, Collected([], base.log));
    if CollectMappings(mappingFiles, mappingParsers, Collected([], base.log)).Success? {
      var collected := CollectMappings(mappingFiles, mappingParsers, Collected([], base.log)).value;
      ApplyMappingsErrorKind(Loaded(base.registry, collected.log), collected.mappings);
      assert false;
    }
  }

  /** An unknown-search-type error names a collected mapping some of whose targets have no loaded rule. */
  lemma {:induction false} UnknownSearchTypeCause(
    typeFiles: seq<TypeFile>, mappingParsers: set<string>, mappingFiles: seq<MappingFile>,
    code: string, storageType: string)
    requires Build(typeFiles, mappingParsers, mappingFiles) == Failure(UnknownSearchType(code, storageType))
    ensures TypeFilesLoadable(typeFiles)
    ensures DistinctKeys(MappingsOf(mappingFiles, mappingParsers))
    ensures exists m | m in MappingsOf(mappingFiles, mappingParsers) ::
      m.key == StorageKey(code, storageType) && !TargetsLoaded(LoadedRules(typeFiles), m)
  {
    var start := Loaded(EmptyRegistry, []);
    LoadTypeFilesFailureOnly(typeFiles, mappingParsers, mappingFiles);
    LoadTypeFilesSucceedsIff(typeFiles, start);
    EmptyTypePhase();
    LoadTypeFilesSound(typeFiles, start);
    var base := LoadTypeFiles(typeFiles, start).value;
    var c0 := Collected([], base.log);
    if CollectMappings(mappingFiles, mappingParsers, c0).Failure? {
      CollectMappingsErrorKind(mappingFiles, mappingParsers, c0);
      assert false;
    }
    CollectMappingsSound(mappingFiles, mappingParsers, c0);
    var collected := CollectMappings(mappingFiles, mappingParsers, c0).value;
    var ms := collected.mappings;
    assert ms == MappingsOf(mappingFiles, mappingParsers);
    ApplyMappingsSucceedsIff(Loaded(base.registry, collected.log), ms);
    var m :| m in ms && m.key == StorageKey(code, storageType) && !TargetsDefined(base.registry.searchTypes, m);
    TargetsDefinedIffLoaded(base.registry, m);
  }

  lemma {:induction false} AppendMappingsErrorKind(acc: seq<TypeMapping>, ms: seq<TypeMapping>, path: string)
    requires AppendMappings(acc, ms, path).Failure?
    ensures AppendMappings(acc, ms, path).error.MappingCollision?
    decreases |ms|
  {
    if ms[0].key !in MappedKeys(acc) {
      AppendMappingsErrorKind(acc + [ms[0]], ms[1..], path);
    }
  }

  lemma {:induction false} CollectMappingsErrorKind(files: seq<MappingFile>, mappingParsers: set<string>, acc: Collected)
    requires CollectMappings(files, mappingParsers, acc).Failure?
    ensures CollectMappings(files, mappingParsers, acc).error.MappingCollision?
    decreases |files|
  {
    match AddMappingFile(acc, files[0], mappingParsers)
    case Failure(_) =>
      AppendMappingsErrorKind(acc.mappings, files[0].parsed, files[0].path);
    case Success(next) =>
      CollectMappingsErrorKind(files[1..], mappingParsers, next);
  }

  lemma {:induction false} ApplyMappingsErrorKind(acc: Loaded, ms: seq<TypeMapping>)
    requires ApplyMappings(acc, ms).Failure?
    ensures ApplyMappings(acc, ms).error.UnknownSearchType?
    decreases |ms|
  {
    if TargetsDefined(acc.registry.searchTypes, ms[0]) {
      ApplyMappingsErrorKind(OverrideWith(acc, ms[0]), ms[1..]);
    }
  }

  /** The type phase's errors are exactly the two type-file errors. */
  lemma {:induction false} LoadTypeFilesFailureOnly(typeFiles: seq<TypeFile>, mappingParsers: set<string>, mappingFiles: seq<MappingFile>)
    requires Build(typeFiles, mappingParsers, mappingFiles).Failure?
    ensures var e := Build(typeFiles, mappingParsers, mappingFiles).error;
      (e.MalformedTypeFile? || e.DuplicateSearchType?) <==> LoadTypeFiles(typeFiles, Loaded(EmptyRegistry, [])).Failure?
    ensures LoadTypeFiles(typeFiles, Loaded(EmptyRegistry, [])).Failure? ==>
      Build(typeFiles, mappingParsers, mappingFiles).error == LoadTypeFiles(typeFiles, Loaded(EmptyRegistry, [])).error
  {
    var start := Loaded(EmptyRegistry, []);
    match LoadTypeFiles(typeFiles, start)
    case Failure(_) =>
      LoadTypeFilesFailure(typeFiles, start);
    case Success(base) =>
      match CollectMappings(mappingFiles, mappingParsers, Collected([], base.log))
      case Failure(_) =>
        CollectMappingsErrorKind(mappingFiles, mappingParsers, Collected([], base.log));
      case Success(collected) =>
        ApplyMappingsErrorKind(Loaded(base.registry, collected.log), collected.mappings);
  }
}
