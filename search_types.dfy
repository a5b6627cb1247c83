/**
 * The value types shared by the type registry: search types, storage types,
 * parsing rules and type mappings.
 */
module SearchTypes {
  import opened Wrappers

  /** One versioned set of indexing rules inside the search system (versions start at 1). */
  datatype SearchObjectType = SearchObjectType(name: string, version: int)

  /** The (storage code, storage type) pair that type files and type mappings are keyed by. */
  datatype StorageKey = StorageKey(code: string, typeName: string)

  /**
   * A storage object type as it is queried: the version is optional, and an
   * absent version asks for the mapping's default search types.
   */
  datatype StorageObjectType = StorageObjectType(code: string, typeName: string, version: Option<int>)
  {
    function Key(): StorageKey { StorageKey(code, typeName) }
  }

  /** One keyword-extraction rule; only its path into the stored object is kept. */
  datatype IndexingRule = IndexingRule(path: string)

  /**
   * ObjectTypeParsingRules: the search type a rule set defines, the storage
   * type it was derived from, and its indexing rules.
   */
  datatype TypeRule = TypeRule(searchType: SearchObjectType, storageType: StorageKey, indexingRules: seq<IndexingRule>)

  /**
   * A type mapping for one storage type: explicit per-version targets, the
   * default search types used for every other query, and an optional label
   * naming where it was defined.
   */
  datatype TypeMapping = TypeMapping(
    key: StorageKey,
    versions: map<int, SearchObjectType>,
    defaults: set<SearchObjectType>,
    sourceInfo: Option<string>)

  /** The search types a mapping selects for a query carrying the given storage version. */
  function SelectedSearchTypes(m: TypeMapping, version: Option<int>): set<SearchObjectType>
  {
    if version.Some? && version.value in m.versions then {m.versions[version.value]} else m.defaults
  }
}
