/**
 * The registry's documented cases, replayed on concrete directory contents:
 * each lemma builds the registry from the entries of one case and states
 * every answer the case expects.
 */
module TypeFileStorageScenarios {
  import opened Wrappers
  import opened SearchTypes
  import opened TypeFileStorage

  const StoreFoo: StorageKey := StorageKey("CD", "storefoo")
  const StoreBar: StorageKey := StorageKey("CD", "storebar")

  function Foo(version: int): SearchObjectType
  {
    SearchObjectType("foo", version)
  }

  function Rule(t: SearchObjectType, key: StorageKey, path: string): TypeRule
  {
    TypeRule(t, key, [IndexingRule(path)])
  }

  function Query(key: StorageKey, version: Option<int>): StorageObjectType
  {
    StorageObjectType(key.code, key.typeName, version)
  }

  // ---------------------------------------------------------------------------
  // One search type with three versions, a mapping with version entries

  const Rule1: TypeRule := Rule(Foo(1), StoreFoo, "whee")
  const Rule2: TypeRule := Rule(Foo(2), StoreFoo, "whoo")
  const Rule3: TypeRule := Rule(Foo(3), StoreFoo, "whoa")
  const ProcessedFoo: Diagnostic := ProcessedTypeFile("CD", "storefoo", "foo", "foo.yaml")

  const VersionMapping: TypeMapping :=
    TypeMapping(StoreFoo, map[2 := Foo(1), 3 := Foo(2)], {Foo(3)}, Some("map source file"))

  const VersionTypeFiles: seq<TypeFile> :=
    [TypeFile("foo.yaml", true, [Rule1, Rule2, Rule3]), TypeFile("foo2.yaml", false, [])]
  const VersionMappingFiles: seq<MappingFile> :=
    [MappingFile("mappings.yaml", true, [VersionMapping]), MappingFile("mappings2.yaml", false, [])]
  const VersionTypes: map<string, seq<TypeRule>> := map["foo" := [Rule1, Rule2, Rule3]]
  const VersionRegistry: Registry := Registry(VersionTypes, map[StoreFoo := VersionMapping])
  const VersionLog: seq<Diagnostic> := [
    ProcessedTypeFile("CD", "storefoo", "foo", "foo.yaml"),
    SkippedTypeFile("foo2.yaml"),
    SkippedMappingEntry("mappings2.yaml"),
    OverridingMapping("CD", "storefoo", Some("map source file"))]

  lemma VersionTypePhase()
    ensures LoadTypeFiles(VersionTypeFiles, Loaded(EmptyRegistry, [])) ==
      Success(Loaded(Registry(VersionTypes, map[StoreFoo := TypeMapping(StoreFoo, map[], {Foo(3)}, None)]),
                     VersionLog[..2]))
  {
    var tf1 := TypeFile("foo.yaml", true, [Rule1, Rule2, Rule3]);
    var tf2 := TypeFile("foo2.yaml", false, []);
    assert VersionTypeFiles == [tf1, tf2];
    ExtensionAfterDot("foo.yaml", "foo", "yaml");
    assert TypeFileAccepted(tf1);
    assert WellFormedTypeFile(tf1.parsed) by {
      assert tf1.parsed[0].searchType.name == "foo" && tf1.parsed[0].storageType == StoreFoo;
      forall i | 0 <= i < 3 ensures tf1.parsed[i].searchType == Foo(i + 1) && tf1.parsed[i].storageType == StoreFoo {
      }
    }
    var st1 := map[StoreFoo := TypeMapping(StoreFoo, map[], {Foo(3)}, None)];
    assert AddDefault(map[], StoreFoo, Foo(3)) == st1;
    var log1 := [ProcessedTypeFile("CD", "storefoo", "foo", "foo.yaml")];
    var base := Loaded(Registry(VersionTypes, st1), log1);
    assert "foo" !in EmptyRegistry.searchTypes;
    assert EmptyRegistry.searchTypes["foo" := tf1.parsed] == VersionTypes;
    assert [] + log1 == log1;
    assert AddTypeFile(Loaded(EmptyRegistry, []), tf1) == Success(base);
    var log2 := log1 + [SkippedTypeFile("foo2.yaml")];
    assert !TypeFileAccepted(tf2);
    assert AddTypeFile(base, tf2) == Success(Loaded(base.registry, log2));
    assert [tf1, tf2][1..] == [tf2] && [tf2][1..] == [];
    assert LoadTypeFiles([tf2], base) == Success(Loaded(base.registry, log2));
    assert log2 == VersionLog[..2];
  }

  lemma VersionMappingPhase()
    ensures CollectMappings(VersionMappingFiles, {"yaml"}, Collected([], VersionLog[..2])) ==
      Success(Collected([VersionMapping], VersionLog[..3]))
  {
    var mf1 := MappingFile("mappings.yaml", true, [VersionMapping]);
    var mf2 := MappingFile("mappings2.yaml", false, []);
    assert VersionMappingFiles == [mf1, mf2];
    ExtensionAfterDot("mappings.yaml", "mappings", "yaml");
    var log2 := VersionLog[..2];
    assert AppendMappings([], [VersionMapping], "mappings.yaml") == Success([VersionMapping]) by {
      assert MappedKeys([]) == {};
      assert [VersionMapping][1..] == [] && [] + [VersionMapping] == [VersionMapping];
    }
    assert AddMappingFile(Collected([], log2), mf1, {"yaml"}) == Success(Collected([VersionMapping], log2));
    var log3 := log2 + [SkippedMappingEntry("mappings2.yaml")];
    assert AddMappingFile(Collected([VersionMapping], log2), mf2, {"yaml"}) == Success(Collected([VersionMapping], log3));
    assert [mf1, mf2][1..] == [mf2] && [mf2][1..] == [];
    assert CollectMappings([mf2], {"yaml"}, Collected([VersionMapping], log2)) ==
      Success(Collected([VersionMapping], log3));
    assert CollectMappings([mf1, mf2], {"yaml"}, Collected([], log2)) ==
      Success(Collected([VersionMapping], log3));
    assert log3 == VersionLog[..3];
  }

  /** The directories of the case build `VersionRegistry`, logging `VersionLog`. */
  lemma VersionBuild()
    ensures Build(VersionTypeFiles, {"yaml"}, VersionMappingFiles) == Success(Loaded(VersionRegistry, VersionLog))
  {
    VersionTypePhase();
    VersionMappingPhase();
    var st1 := map[StoreFoo := TypeMapping(StoreFoo, map[], {Foo(3)}, None)];
    var base := Loaded(Registry(VersionTypes, st1), VersionLog[..3]);
    assert TargetsDefined(VersionTypes, VersionMapping) by {
      assert VersionMapping.versions.Keys == {2, 3};
      assert DefinedIn(VersionTypes, Foo(1)) && DefinedIn(VersionTypes, Foo(2)) && DefinedIn(VersionTypes, Foo(3));
    }
    assert st1[StoreFoo := VersionMapping] == VersionRegistry.storageTypes;
    assert VersionLog[..3] + [VersionLog[3]] == VersionLog;
    assert OverrideWith(base, VersionMapping) == Loaded(VersionRegistry, VersionLog);
    assert [VersionMapping][1..] == [];
    assert ApplyMappings(base, [VersionMapping]) == Success(Loaded(VersionRegistry, VersionLog));
  }

  /**
   * On the registry of `VersionBuild`: version entries of a mapping beat its
   * default; the default answers an absent version and every version without
   * an entry; every version stays reachable by exact lookup.
   */
  lemma VersionMappingsScenario()
    ensures ListObjectTypeParsingRules(VersionRegistry) == {Rule3}
    ensures GetObjectTypeParsingRules(VersionRegistry, Foo(1)) == Some(Rule1)
    ensures GetObjectTypeParsingRules(VersionRegistry, Foo(2)) == Some(Rule2)
    ensures GetObjectTypeParsingRules(VersionRegistry, Foo(3)) == Some(Rule3)
    ensures ListObjectTypeParsingRulesFor(VersionRegistry, Query(StoreFoo, None)) == {Rule3}
    ensures ListObjectTypeParsingRulesFor(VersionRegistry, Query(StoreFoo, Some(1))) == {Rule3}
    ensures ListObjectTypeParsingRulesFor(VersionRegistry, Query(StoreFoo, Some(2))) == {Rule1}
    ensures ListObjectTypeParsingRulesFor(VersionRegistry, Query(StoreFoo, Some(3))) == {Rule2}
    ensures ListObjectTypeParsingRulesFor(VersionRegistry, Query(StoreFoo, Some(4))) == {Rule3}
    ensures ListObjectTypeParsingRulesFor(VersionRegistry, Query(StoreFoo, Some(7))) == {Rule3}
  {
    var reg := VersionRegistry;
    LatestOfOneSearchType(reg, "foo");
    ResolvesToOne(reg, Query(StoreFoo, None), Foo(3));
    ResolvesToOne(reg, Query(StoreFoo, Some(1)), Foo(3));
    ResolvesToOne(reg, Query(StoreFoo, Some(2)), Foo(1));
    ResolvesToOne(reg, Query(StoreFoo, Some(3)), Foo(2));
    ResolvesToOne(reg, Query(StoreFoo, Some(4)), Foo(3));
    ResolvesToOne(reg, Query(StoreFoo, Some(7)), Foo(3));
  }

  /** A registry holding one search type lists its last rule only. */
  lemma LatestOfOneSearchType(reg: Registry, name: string)
    requires reg.searchTypes.Keys == {name} && |reg.searchTypes[name]| > 0
    ensures ListObjectTypeParsingRules(reg) == {reg.searchTypes[name][|reg.searchTypes[name]| - 1]}
  {
  }

  /** A query whose mapping selects exactly one defined search type resolves to that type's rule. */
  lemma ResolvesToOne(reg: Registry, st: StorageObjectType, t: SearchObjectType)
    requires st.Key() in reg.storageTypes
    requires SelectedSearchTypes(reg.storageTypes[st.Key()], st.version) == {t}
    requires DefinedIn(reg.searchTypes, t)
    ensures ListObjectTypeParsingRulesFor(reg, st) == {RuleFor(reg.searchTypes, t)}
  {
  }

  /** The extension of `stem.ext` when neither part holds a dot. */
  lemma {:induction false} ExtensionAfterDot(path: string, stem: string, ext: string)
    requires path == stem + "." + ext
    requires '.' !in ext
    ensures Extension(path) == ext
    decreases |ext|
  {
    LastDotAfter(path, stem, ext);
    assert path[|stem| + 1..] == ext;
  }

  lemma {:induction false} LastDotAfter(path: string, stem: string, ext: string)
    requires path == stem + "." + ext
    requires '.' !in ext
    ensures LastDot(path) == Some(|stem|)
    decreases |ext|
  {
    if ext != [] {
      var init := ext[..|ext| - 1];
      assert path[..|path| - 1] == stem + "." + init;
      assert path[|path| - 1] == ext[|ext| - 1] && ext[|ext| - 1] in ext;
      LastDotAfter(stem + "." + init, stem, init);
    }
  }

  /** A registry holding two search types lists the last rule of each. */
  lemma LatestOfTwoSearchTypes(reg: Registry, name1: string, name2: string)
    requires reg.searchTypes.Keys == {name1, name2}
    requires |reg.searchTypes[name1]| > 0 && |reg.searchTypes[name2]| > 0
    ensures ListObjectTypeParsingRules(reg) ==
      {reg.searchTypes[name1][|reg.searchTypes[name1]| - 1], reg.searchTypes[name2][|reg.searchTypes[name2]| - 1]}
  {
  }

  /** A query whose mapping selects two defined search types resolves to both their rules. */
  lemma ResolvesToTwo(reg: Registry, st: StorageObjectType, t1: SearchObjectType, t2: SearchObjectType)
    requires st.Key() in reg.storageTypes
    requires SelectedSearchTypes(reg.storageTypes[st.Key()], st.version) == {t1, t2}
    requires DefinedIn(reg.searchTypes, t1) && DefinedIn(reg.searchTypes, t2)
    ensures ListObjectTypeParsingRulesFor(reg, st) == {RuleFor(reg.searchTypes, t1), RuleFor(reg.searchTypes, t2)}
  {
  }

  /** Two type-directory entries load as their two steps. */
  lemma LoadTwo(f1: TypeFile, f2: TypeFile, acc: Loaded, mid: Loaded, end: Loaded)
    requires AddTypeFile(acc, f1) == Success(mid) && AddTypeFile(mid, f2) == Success(end)
    ensures LoadTypeFiles([f1, f2], acc) == Success(end)
  {
    assert [f1, f2][1..] == [f2] && [f2][1..] == [];
    assert LoadTypeFiles([f2], mid) == LoadTypeFiles([], end) == Success(end);
  }

  /** Two mapping-directory entries are read as their two steps. */
  lemma CollectTwo(f1: MappingFile, f2: MappingFile, parsers: set<string>, acc: Collected, mid: Collected, end: Collected)
    requires AddMappingFile(acc, f1, parsers) == Success(mid) && AddMappingFile(mid, f2, parsers) == Success(end)
    ensures CollectMappings([f1, f2], parsers, acc) == Success(end)
  {
    assert [f1, f2][1..] == [f2] && [f2][1..] == [];
    assert CollectMappings([f2], parsers, mid) == CollectMappings([], parsers, end) == Success(end);
  }

  /** Construction runs the override pass on what the two reading phases produced. */
  lemma BuildOfPhases(typeFiles: seq<TypeFile>, parsers: set<string>, mappingFiles: seq<MappingFile>,
                      base: Loaded, collected: Collected)
    requires LoadTypeFiles(typeFiles, Loaded(EmptyRegistry, [])) == Success(base)
    requires CollectMappings(mappingFiles, parsers, Collected([], base.log)) == Success(collected)
    ensures Build(typeFiles, parsers, mappingFiles) ==
      ApplyMappings(Loaded(base.registry, collected.log), collected.mappings)
  {
  }

  /** A single collected mapping whose targets are loaded is installed. */
  lemma ApplyOne(acc: Loaded, m: TypeMapping)
    requires TargetsDefined(acc.registry.searchTypes, m)
    ensures ApplyMappings(acc, [m]) == Success(OverrideWith(acc, m))
  {
    assert [m][1..] == [];
  }

  /** A file of one mapping whose storage type is not yet mapped contributes that mapping. */
  lemma CollectOne(f: MappingFile, parsers: set<string>, acc: Collected, m: TypeMapping)
    requires f.isRegularFile && Extension(f.path) in parsers && f.parsed == [m]
    requires acc.mappings == []
    ensures AddMappingFile(acc, f, parsers) == Success(acc.(mappings := [m]))
  {
    assert MappedKeys([]) == {};
    assert [m][1..] == [] && [] + [m] == [m];
    assert AppendMappings([], [m], f.path) == AppendMappings([m], [], f.path) == Success([m]);
  }

  // ---------------------------------------------------------------------------
  // One type file, one skipped file, no mappings

  const SingleTypeFiles: seq<TypeFile> := [TypeFile("foo.yaml", true, [Rule1]), TypeFile("ignore.bar", true, [])]
  const SingleTypes: map<string, seq<TypeRule>> := map["foo" := [Rule1]]
  const SingleRegistry: Registry :=
    Registry(SingleTypes, map[StoreFoo := TypeMapping(StoreFoo, map[], {Foo(1)}, None)])
  const SingleLog: seq<Diagnostic> := [ProcessedFoo, SkippedTypeFile("ignore.bar")]

  /** A regular `.yaml` file holding one version list loads it and makes its latest version the default. */
  lemma SingleFirstFile()
    ensures AddTypeFile(Loaded(EmptyRegistry, []), TypeFile("foo.yaml", true, [Rule1])) ==
      Success(Loaded(SingleRegistry, [ProcessedFoo]))
  {
    var tf1 := TypeFile("foo.yaml", true, [Rule1]);
    ExtensionAfterDot("foo.yaml", "foo", "yaml");
    assert TypeFileAccepted(tf1) && WellFormedTypeFile(tf1.parsed);
    var st1 := map[StoreFoo := TypeMapping(StoreFoo, map[], {Foo(1)}, None)];
    assert AddDefault(map[], StoreFoo, Foo(1)) == st1;
    assert EmptyRegistry.searchTypes["foo" := tf1.parsed] == SingleTypes;
    var log1 := [ProcessedTypeFile("CD", "storefoo", "foo", "foo.yaml")];
    assert [] + log1 == log1;
    assert AddTypeFile(Loaded(EmptyRegistry, []), tf1) == Success(Loaded(Registry(SingleTypes, st1), log1));
    assert Registry(SingleTypes, st1) == SingleRegistry;
  }

  /** A file whose extension is not `yaml` is skipped, whatever mapping parsers exist. */
  lemma SingleSecondFile()
    ensures AddTypeFile(Loaded(SingleRegistry, [ProcessedFoo]), TypeFile("ignore.bar", true, [])) ==
      Success(Loaded(SingleRegistry, SingleLog))
  {
    ExtensionAfterDot("ignore.bar", "ignore", "bar");
    assert "bar" != "yaml" && !TypeFileAccepted(TypeFile("ignore.bar", true, []));
    assert [ProcessedFoo] + [SkippedTypeFile("ignore.bar")] == SingleLog;
  }

  lemma SingleTypePhase()
    ensures LoadTypeFiles(SingleTypeFiles, Loaded(EmptyRegistry, [])) == Success(Loaded(SingleRegistry, SingleLog))
  {
    SingleFirstFile();
    SingleSecondFile();
    LoadTwo(TypeFile("foo.yaml", true, [Rule1]), TypeFile("ignore.bar", true, []),
      Loaded(EmptyRegistry, []), Loaded(SingleRegistry, [ProcessedFoo]), Loaded(SingleRegistry, SingleLog));
  }

  lemma SingleTypeBuild()
    ensures Build(SingleTypeFiles, {"yaml", "foo"}, []) == Success(Loaded(SingleRegistry, SingleLog))
  {
    SingleTypePhase();
    assert CollectMappings([], {"yaml", "foo"}, Collected([], SingleLog)) == Success(Collected([], SingleLog));
    assert ApplyMappings(Loaded(SingleRegistry, SingleLog), []) == Success(Loaded(SingleRegistry, SingleLog));
  }

  lemma SingleTypeScenario()
    ensures ListObjectTypeParsingRules(SingleRegistry) == {Rule1}
    ensures GetObjectTypeParsingRules(SingleRegistry, Foo(1)) == Some(Rule1)
    ensures ListObjectTypeParsingRulesFor(SingleRegistry, Query(StoreFoo, None)) == {Rule1}
    ensures ListObjectTypeParsingRulesFor(SingleRegistry, Query(StoreFoo, Some(1))) == {Rule1}
  {
    LatestOfOneSearchType(SingleRegistry, "foo");
    ResolvesToOne(SingleRegistry, Query(StoreFoo, None), Foo(1));
    ResolvesToOne(SingleRegistry, Query(StoreFoo, Some(1)), Foo(1));
  }

  // ---------------------------------------------------------------------------
  // One search type with two versions, with and without a default mapping

  const TwoVersionTypeFiles: seq<TypeFile> := [TypeFile("foo.yaml", true, [Rule1, Rule2])]
  const TwoVersionTypes: map<string, seq<TypeRule>> := map["foo" := [Rule1, Rule2]]
  const TwoVersionRegistry: Registry :=
    Registry(TwoVersionTypes, map[StoreFoo := TypeMapping(StoreFoo, map[], {Foo(2)}, None)])

  lemma TwoVersionTypePhase()
    ensures LoadTypeFiles(TwoVersionTypeFiles, Loaded(EmptyRegistry, [])) ==
      Success(Loaded(TwoVersionRegistry, [ProcessedFoo]))
  {
    var tf1 := TypeFile("foo.yaml", true, [Rule1, Rule2]);
    assert TwoVersionTypeFiles == [tf1];
    ExtensionAfterDot("foo.yaml", "foo", "yaml");
    assert WellFormedTypeFile(tf1.parsed) by {
      forall i | 0 <= i < 2 ensures tf1.parsed[i].searchType == Foo(i + 1) && tf1.parsed[i].storageType == StoreFoo {
      }
    }
    assert AddDefault(map[], StoreFoo, Foo(2)) == TwoVersionRegistry.storageTypes;
    assert EmptyRegistry.searchTypes["foo" := tf1.parsed] == TwoVersionTypes;
    assert [] + [ProcessedFoo] == [ProcessedFoo];
    assert AddTypeFile(Loaded(EmptyRegistry, []), tf1) == Success(Loaded(TwoVersionRegistry, [ProcessedFoo]));
    assert [tf1][1..] == [];
  }

  /** Without mappings every storage-type query resolves to the highest version, whatever version it asks for. */
  lemma TwoVersionsScenario()
    ensures Build(TwoVersionTypeFiles, {}, []) == Success(Loaded(TwoVersionRegistry, [ProcessedFoo]))
    ensures ListObjectTypeParsingRules(TwoVersionRegistry) == {Rule2}
    ensures GetObjectTypeParsingRules(TwoVersionRegistry, Foo(1)) == Some(Rule1)
    ensures GetObjectTypeParsingRules(TwoVersionRegistry, Foo(2)) == Some(Rule2)
    ensures ListObjectTypeParsingRulesFor(TwoVersionRegistry, Query(StoreFoo, None)) == {Rule2}
    ensures ListObjectTypeParsingRulesFor(TwoVersionRegistry, Query(StoreFoo, Some(1))) == {Rule2}
    ensures ListObjectTypeParsingRulesFor(TwoVersionRegistry, Query(StoreFoo, Some(2))) == {Rule2}
    ensures ListObjectTypeParsingRulesFor(TwoVersionRegistry, Query(StoreFoo, Some(7))) == {Rule2}
  {
    TwoVersionTypePhase();
    var reg := TwoVersionRegistry;
    LatestOfOneSearchType(reg, "foo");
    ResolvesToOne(reg, Query(StoreFoo, None), Foo(2));
    ResolvesToOne(reg, Query(StoreFoo, Some(1)), Foo(2));
    ResolvesToOne(reg, Query(StoreFoo, Some(2)), Foo(2));
    ResolvesToOne(reg, Query(StoreFoo, Some(7)), Foo(2));
  }

  const DefaultMapping: TypeMapping := TypeMapping(StoreFoo, map[], {Foo(1)}, None)
  const DefaultMappingFiles: seq<MappingFile> :=
    [MappingFile("mappings.yaml", true, [DefaultMapping]), MappingFile("ignore.json", true, [])]
  const DefaultRegistry: Registry := Registry(TwoVersionTypes, map[StoreFoo := DefaultMapping])
  const DefaultLog: seq<Diagnostic> :=
    [ProcessedFoo, SkippedMappingFile("ignore.json"), OverridingMapping("CD", "storefoo", None)]

  /** A mapping default replaces the type file's default, and the override is logged. */
  lemma DefaultSecondMappingFile()
    ensures AddMappingFile(Collected([DefaultMapping], [ProcessedFoo]), MappingFile("ignore.json", true, []), {"yaml"}) ==
      Success(Collected([DefaultMapping], DefaultLog[..2]))
  {
    ExtensionAfterDot("ignore.json", "ignore", "json");
    assert "json" != "yaml";
    assert [ProcessedFoo] + [SkippedMappingFile("ignore.json")] == DefaultLog[..2];
  }

  lemma DefaultMappingPhase()
    ensures CollectMappings(DefaultMappingFiles, {"yaml"}, Collected([], [ProcessedFoo])) ==
      Success(Collected([DefaultMapping], DefaultLog[..2]))
  {
    var mf1 := MappingFile("mappings.yaml", true, [DefaultMapping]);
    ExtensionAfterDot("mappings.yaml", "mappings", "yaml");
    CollectOne(mf1, {"yaml"}, Collected([], [ProcessedFoo]), DefaultMapping);
    DefaultSecondMappingFile();
    CollectTwo(mf1, MappingFile("ignore.json", true, []), {"yaml"}, Collected([], [ProcessedFoo]),
      Collected([DefaultMapping], [ProcessedFoo]), Collected([DefaultMapping], DefaultLog[..2]));
  }

  /** A mapping default replaces the type file's default, and the override is logged. */
  lemma DefaultOverride()
    ensures OverrideWith(Loaded(TwoVersionRegistry, DefaultLog[..2]), DefaultMapping) == Loaded(DefaultRegistry, DefaultLog)
  {
    assert TwoVersionRegistry.storageTypes[StoreFoo := DefaultMapping] == DefaultRegistry.storageTypes;
    assert DefaultLog[..2] + [DefaultLog[2]] == DefaultLog;
  }

  /** A mapping default replaces the type file's default, and the override is logged. */
  lemma DefaultMappingBuild()
    ensures Build(TwoVersionTypeFiles, {"yaml"}, DefaultMappingFiles) == Success(Loaded(DefaultRegistry, DefaultLog))
  {
    TwoVersionTypePhase();
    DefaultMappingPhase();
    BuildOfPhases(TwoVersionTypeFiles, {"yaml"}, DefaultMappingFiles,
      Loaded(TwoVersionRegistry, [ProcessedFoo]), Collected([DefaultMapping], DefaultLog[..2]));
    assert TargetsDefined(TwoVersionTypes, DefaultMapping);
    ApplyOne(Loaded(TwoVersionRegistry, DefaultLog[..2]), DefaultMapping);
    DefaultOverride();
  }

  /** With a default mapping every storage-type query resolves to the mapped version 1. */
  lemma DefaultMappingScenario()
    ensures ListObjectTypeParsingRules(DefaultRegistry) == {Rule2}
    ensures GetObjectTypeParsingRules(DefaultRegistry, Foo(1)) == Some(Rule1)
    ensures GetObjectTypeParsingRules(DefaultRegistry, Foo(2)) == Some(Rule2)
    ensures ListObjectTypeParsingRulesFor(DefaultRegistry, Query(StoreFoo, None)) == {Rule1}
    ensures ListObjectTypeParsingRulesFor(DefaultRegistry, Query(StoreFoo, Some(1))) == {Rule1}
    ensures ListObjectTypeParsingRulesFor(DefaultRegistry, Query(StoreFoo, Some(2))) == {Rule1}
    ensures ListObjectTypeParsingRulesFor(DefaultRegistry, Query(StoreFoo, Some(7))) == {Rule1}
  {
    var reg := DefaultRegistry;
    LatestOfOneSearchType(reg, "foo");
    ResolvesToOne(reg, Query(StoreFoo, None), Foo(1));
    ResolvesToOne(reg, Query(StoreFoo, Some(1)), Foo(1));
    ResolvesToOne(reg, Query(StoreFoo, Some(2)), Foo(1));
    ResolvesToOne(reg, Query(StoreFoo, Some(7)), Foo(1));
  }

  // ---------------------------------------------------------------------------
  // A mapping for a storage type no type file declares

  const BarMapping: TypeMapping := TypeMapping(StoreBar, map[1 := Foo(1)], {Foo(2)}, None)
  const BarMappingFiles: seq<MappingFile> := [MappingFile("mappings.yaml", true, [BarMapping])]
  const BarRegistry: Registry := Registry(TwoVersionTypes,
    map[StoreFoo := TypeMapping(StoreFoo, map[], {Foo(2)}, None), StoreBar := BarMapping])

  /** Mapping a new storage type logs nothing beyond the processed type file. */
  lemma NewStorageTypePhase()
    ensures CollectMappings(BarMappingFiles, {"yaml"}, Collected([], [ProcessedFoo])) ==
      Success(Collected([BarMapping], [ProcessedFoo]))
  {
    var mf1 := MappingFile("mappings.yaml", true, [BarMapping]);
    assert BarMappingFiles == [mf1];
    ExtensionAfterDot("mappings.yaml", "mappings", "yaml");
    assert AppendMappings([], [BarMapping], "mappings.yaml") == Success([BarMapping]) by {
      assert MappedKeys([]) == {};
      assert [BarMapping][1..] == [] && [] + [BarMapping] == [BarMapping];
    }
    var log1 := [ProcessedFoo];
    assert AddMappingFile(Collected([], log1), mf1, {"yaml"}) == Success(Collected([BarMapping], log1));
    assert [mf1][1..] == [];
    assert CollectMappings([mf1], {"yaml"}, Collected([], log1)) == Success(Collected([BarMapping], log1));
  }

  lemma NewStorageTypeBuild()
    ensures Build(TwoVersionTypeFiles, {"yaml"}, BarMappingFiles) == Success(Loaded(BarRegistry, [ProcessedFoo]))
  {
    TwoVersionTypePhase();
    NewStorageTypePhase();
    var log1 := [ProcessedFoo];
    var base := Loaded(TwoVersionRegistry, log1);
    assert TargetsDefined(TwoVersionTypes, BarMapping) by {
      assert BarMapping.versions.Keys == {1};
    }
    assert StoreBar !in TwoVersionRegistry.storageTypes;
    assert TwoVersionRegistry.storageTypes[StoreBar := BarMapping] == BarRegistry.storageTypes;
    assert OverrideWith(base, BarMapping) == Loaded(BarRegistry, log1);
    assert [BarMapping][1..] == [];
    assert ApplyMappings(base, [BarMapping]) == Success(Loaded(BarRegistry, log1));
  }

  /** The new storage type follows its mapping into foo's rules; storefoo keeps its highest version. */
  lemma NewStorageTypeScenario()
    ensures ListObjectTypeParsingRules(BarRegistry) == {Rule2}
    ensures GetObjectTypeParsingRules(BarRegistry, Foo(1)) == Some(Rule1)
    ensures GetObjectTypeParsingRules(BarRegistry, Foo(2)) == Some(Rule2)
    ensures ListObjectTypeParsingRulesFor(BarRegistry, Query(StoreFoo, None)) == {Rule2}
    ensures ListObjectTypeParsingRulesFor(BarRegistry, Query(StoreFoo, Some(1))) == {Rule2}
    ensures ListObjectTypeParsingRulesFor(BarRegistry, Query(StoreFoo, Some(2))) == {Rule2}
    ensures ListObjectTypeParsingRulesFor(BarRegistry, Query(StoreFoo, Some(3))) == {Rule2}
    ensures ListObjectTypeParsingRulesFor(BarRegistry, Query(StoreBar, None)) == {Rule2}
    ensures ListObjectTypeParsingRulesFor(BarRegistry, Query(StoreBar, Some(1))) == {Rule1}
    ensures ListObjectTypeParsingRulesFor(BarRegistry, Query(StoreBar, Some(2))) == {Rule2}
    ensures ListObjectTypeParsingRulesFor(BarRegistry, Query(StoreBar, Some(3))) == {Rule2}
  {
    var reg := BarRegistry;
    LatestOfOneSearchType(reg, "foo");
    ResolvesToOne(reg, Query(StoreFoo, None), Foo(2));
    ResolvesToOne(reg, Query(StoreFoo, Some(1)), Foo(2));
    ResolvesToOne(reg, Query(StoreFoo, Some(2)), Foo(2));
    ResolvesToOne(reg, Query(StoreFoo, Some(3)), Foo(2));
    ResolvesToOne(reg, Query(StoreBar, None), Foo(2));
    ResolvesToOne(reg, Query(StoreBar, Some(1)), Foo(1));
    ResolvesToOne(reg, Query(StoreBar, Some(2)), Foo(2));
    ResolvesToOne(reg, Query(StoreBar, Some(3)), Foo(2));
  }

  // ---------------------------------------------------------------------------
  // Two search types declaring the same storage type

  const RuleBar: TypeRule := Rule(SearchObjectType("bar", 1), StoreFoo, "whee")
  const TwoNameTypeFiles: seq<TypeFile> :=
    [TypeFile("foo.yaml", true, [Rule1]), TypeFile("bar.yaml", true, [RuleBar])]
  const TwoNameTypes: map<string, seq<TypeRule>> := map["foo" := [Rule1], "bar" := [RuleBar]]
  const TwoNameRegistry: Registry := Registry(TwoNameTypes,
    map[StoreFoo := TypeMapping(StoreFoo, map[], {Foo(1), SearchObjectType("bar", 1)}, None)])
  const TwoNameLog: seq<Diagnostic> := [ProcessedFoo, ProcessedTypeFile("CD", "storefoo", "bar", "bar.yaml")]

  /** The second type file adds its search type to the defaults of the shared storage type. */

  lemma TwoNamesSecondFile()
    ensures AddTypeFile(Loaded(SingleRegistry, [ProcessedFoo]), TypeFile("bar.yaml", true, [RuleBar])) ==
      Success(Loaded(TwoNameRegistry, TwoNameLog))
  {
    var bar := SearchObjectType("bar", 1);
    var tf2 := TypeFile("bar.yaml", true, [RuleBar]);
    ExtensionAfterDot("bar.yaml", "bar", "yaml");
    assert TypeFileAccepted(tf2) && WellFormedTypeFile(tf2.parsed);
    assert tf2.parsed[0].searchType.name == "bar" && tf2.parsed[0].storageType == StoreFoo;
    var st2 := map[StoreFoo := TypeMapping(StoreFoo, map[], {Foo(1), bar}, None)];
    var st1 := SingleRegistry.storageTypes;
    assert StoreFoo in st1 && st1[StoreFoo].defaults == {Foo(1)};
    assert st1[StoreFoo].(defaults := {Foo(1)} + {bar}) == TypeMapping(StoreFoo, map[], {Foo(1), bar}, None);
    assert st1[StoreFoo := TypeMapping(StoreFoo, map[], {Foo(1), bar}, None)] == st2;
    assert AddDefault(st1, StoreFoo, bar) == st2;
    assert [ProcessedFoo] + [ProcessedTypeFile("CD", "storefoo", "bar", "bar.yaml")] == TwoNameLog;
    assert "bar" !in SingleTypes;
    assert SingleTypes["bar" := [RuleBar]] == TwoNameTypes;
    assert Registry(TwoNameTypes, st2) == TwoNameRegistry;
  }

  lemma TwoSearchTypesPhase()
    ensures LoadTypeFiles(TwoNameTypeFiles, Loaded(EmptyRegistry, [])) == Success(Loaded(TwoNameRegistry, TwoNameLog))
  {
    SingleFirstFile();
    TwoNamesSecondFile();
    LoadTwo(TypeFile("foo.yaml", true, [Rule1]), TypeFile("bar.yaml", true, [RuleBar]),
      Loaded(EmptyRegistry, []), Loaded(SingleRegistry, [ProcessedFoo]), Loaded(TwoNameRegistry, TwoNameLog));
  }

  lemma TwoSearchTypesBuild()
    ensures Build(TwoNameTypeFiles, {"yaml"}, []) == Success(Loaded(TwoNameRegistry, TwoNameLog))
  {
    TwoSearchTypesPhase();
    assert CollectMappings([], {"yaml"}, Collected([], TwoNameLog)) == Success(Collected([], TwoNameLog));
    assert ApplyMappings(Loaded(TwoNameRegistry, TwoNameLog), []) == Success(Loaded(TwoNameRegistry, TwoNameLog));
  }

  /** Both search types answer the shared storage type, for any requested version. */
  lemma TwoSearchTypesScenario()
    ensures ListObjectTypeParsingRules(TwoNameRegistry) == {Rule1, RuleBar}
    ensures GetObjectTypeParsingRules(TwoNameRegistry, Foo(1)) == Some(Rule1)
    ensures GetObjectTypeParsingRules(TwoNameRegistry, SearchObjectType("bar", 1)) == Some(RuleBar)
    ensures ListObjectTypeParsingRulesFor(TwoNameRegistry, Query(StoreFoo, None)) == {Rule1, RuleBar}
    ensures ListObjectTypeParsingRulesFor(TwoNameRegistry, Query(StoreFoo, Some(1))) == {Rule1, RuleBar}
    ensures ListObjectTypeParsingRulesFor(TwoNameRegistry, Query(StoreFoo, Some(2))) == {Rule1, RuleBar}
  {
    var reg := TwoNameRegistry;
    var bar := SearchObjectType("bar", 1);
    LatestOfTwoSearchTypes(reg, "foo", "bar");
    ResolvesToTwo(reg, Query(StoreFoo, None), Foo(1), bar);
    ResolvesToTwo(reg, Query(StoreFoo, Some(1)), Foo(1), bar);
    ResolvesToTwo(reg, Query(StoreFoo, Some(2)), Foo(1), bar);
  }
}
