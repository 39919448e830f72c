/**
 * The lookup table `Eml` reads its title paths from. Unlike the `Emld` table,
 * paths are lists of tag names (metapype's `names` constants) rather than
 * xpath strings, and an entry names its field with the key `target`.
 */
module EmlConstants {
  import opened Wrappers
  import opened Values
  import opened ElementTree

  /** The tag names metapype's `names` module defines and this table uses. */
  const EML: string := "eml"
  const DATASET: string := "dataset"
  const TITLE: string := "title"
  const CREATOR: string := "creator"

  /**
   * One entry: for each key the code may read, its value, or `None` when the
   * entry's dict does not hold that key.
   */
  datatype Entry = Entry(
    path: Option<seq<string>>,
    parent: Option<seq<string>>,
    target: Option<string>,
    nodeTarget: Option<string>,
    valuesDict: Option<Value>)

  type Table = map<string, Entry>

  /** The error a subscript of the table raises: the dict has no such key. */
  datatype LookupError = KeyError(key: string)

  const LOOKUPS: Table := map[
    "title" := Entry(
      Some([DATASET, TITLE]),
      Some([DATASET]),
      Some("title"),
      None,
      Some(Dict([("title", Null)]))),
    "creator" := Entry(
      Some([DATASET, CREATOR]),
      Some([DATASET]),
      Some("creator"),
      None,
      Some(Dict([("creator", Dict([
        ("individualName", Dict([("givenName", Null), ("surName", Null)])),
        ("organizationName", Null),
        ("electronicMailAddress", Null)]))])))
  ]

  // ---------------------------------------------------------------------------
  // Subscripts: `LOOKUPS[key][field]`
  // ---------------------------------------------------------------------------

  /** `table[key][field]`, where `value` picks the field out of an entry. */
  function Field<T>(table: Table, key: string, field: string, value: Entry -> Option<T>): Result<T, LookupError>
  {
    if key !in table then Failure(KeyError(key))
    else match value(table[key])
      case Some(v) => Success(v)
      case None => Failure(KeyError(field))
  }

  function PathOf(table: Table, key: string): Result<seq<string>, LookupError>
  {
    Field(table, key, "path", (e: Entry) => e.path)
  }

  function ParentOf(table: Table, key: string): Result<seq<string>, LookupError>
  {
    Field(table, key, "parent", (e: Entry) => e.parent)
  }

  function TargetOf(table: Table, key: string): Result<string, LookupError>
  {
    Field(table, key, "target", (e: Entry) => e.target)
  }

  function NodeTargetOf(table: Table, key: string): Result<string, LookupError>
  {
    Field(table, key, "node_target", (e: Entry) => e.nodeTarget)
  }

  /**
   * The entry's path is its parent path followed by one more tag, and the
   * parent path itself names at least one tag below the root.
   */
  predicate Nested(e: Entry)
  {
    e.path.Some? && e.parent.Some? && |e.path.value| >= 2 && e.parent.value == Parent(e.path.value)
  }

  /**
   * Every path starts at a child of the root and names a node below it (two
   * tags at least), and an entry that also has a parent nests the one in the
   * other.
   */
  predicate PathsNested(table: Table)
  {
    forall k | k in table ::
      table[k].path.Some? ==> |table[k].path.value| >= 2 && (table[k].parent.Some? ==> Nested(table[k]))
  }

  // ---------------------------------------------------------------------------
  // Lemmas
  // ---------------------------------------------------------------------------

  /** `title` is `dataset/title` under `dataset`, and `creator` is `dataset/creator` under `dataset`. */
  lemma LookupsNested()
    ensures PathsNested(LOOKUPS)
    ensures PathOf(LOOKUPS, "title") == Success(["dataset", "title"])
    ensures ParentOf(LOOKUPS, "title") == Success(["dataset"])
    ensures PathOf(LOOKUPS, "creator") == Success(["dataset", "creator"])
    ensures ParentOf(LOOKUPS, "creator") == Success(["dataset"])
  {
    assert Parent([DATASET, TITLE]) == [DATASET];
    assert Parent([DATASET, CREATOR]) == [DATASET];
  }

  /**
   * Each entry's `target` is its own key, which is also the single top-level
   * key of its template and the last tag of its path.
   */
  lemma TargetsAreKeys()
    ensures forall k | k in LOOKUPS ::
      LOOKUPS[k].target == Some(k) && LOOKUPS[k].valuesDict.Some?
      && TopKey(LOOKUPS[k].valuesDict.value) == Some(k)
      && LOOKUPS[k].path.Some? && LOOKUPS[k].path.value != [] && Last(LOOKUPS[k].path.value) == k
  {
  }

  /** No entry holds `node_target`: reading it is a `KeyError` for every key. */
  lemma NoNodeTarget()
    ensures forall k | k in LOOKUPS :: NodeTargetOf(LOOKUPS, k) == Failure(KeyError("node_target"))
  {
  }
}
