/**
 * The `values_dict` templates of both lookup tables: nested Python dicts whose
 * leaves are `None` or a string. A dict keeps its keys in insertion order.
 */
module Values {
  import opened Wrappers

  datatype Value = Null | Str(s: string) | Dict(entries: seq<(string, Value)>)

  /** The key of a dict that has exactly one key; `None` for anything else. */
  function TopKey(v: Value): Option<string>
  {
    if v.Dict? && |v.entries| == 1 then Some(v.entries[0].0) else None
  }

  /** The string leaves of a template, in order; `None` leaves contribute nothing. */
  function Leaves(v: Value): seq<string>
    decreases v, 1
  {
    match v
    case Null => []
    case Str(s) => [s]
    case Dict(entries) => LeavesFrom(v, 0)
  }

  /** The leaves of the values of a dict, from its `i`-th key on. */
  function LeavesFrom(v: Value, i: nat): seq<string>
    requires v.Dict? && i <= |v.entries|
    decreases v, 0, |v.entries| - i
  {
    if i == |v.entries| then []
    else
      assert v.entries[i] in v.entries;
      Leaves(v.entries[i].1) + LeavesFrom(v, i + 1)
  }

  /**
   * The dict a Python dict display builds from its key/value pairs: each pair
   * is inserted in order, so a repeated key keeps its last value.
   */
  function DictOf<V>(pairs: seq<(string, V)>): (d: map<string, V>)
    ensures forall k :: k in d <==> exists i | 0 <= i < |pairs| :: pairs[i].0 == k
  {
    if pairs == [] then map[]
    else
      var init := pairs[..|pairs| - 1];
      var last := pairs[|pairs| - 1];
      var d := DictOf(init);
      assert forall i | 0 <= i < |init| :: init[i] == pairs[i];
      d[last.0 := last.1]
  }

  /** Every value of a dict display is the value of one of its pairs with that key. */
  lemma {:induction false} DictOfValue<V>(pairs: seq<(string, V)>, k: string)
    requires k in DictOf(pairs)
    ensures exists i | 0 <= i < |pairs| :: pairs[i] == (k, DictOf(pairs)[k])
  {
    var init := pairs[..|pairs| - 1];
    var last := pairs[|pairs| - 1];
    if k != last.0 {
      DictOfValue(init, k);
      var i :| 0 <= i < |init| && init[i] == (k, DictOf(init)[k]);
      assert pairs[i] == init[i];
    } else {
      assert pairs[|pairs| - 1] == (k, DictOf(pairs)[k]);
    }
  }

  /** When no key repeats, every pair's value is the value of its key. */
  lemma {:induction false} DictOfDistinct<V>(pairs: seq<(string, V)>, i: int)
    requires 0 <= i < |pairs|
    requires forall a, b | 0 <= a < b < |pairs| :: pairs[a].0 != pairs[b].0
    ensures pairs[i].0 in DictOf(pairs) && DictOf(pairs)[pairs[i].0] == pairs[i].1
  {
    var init := pairs[..|pairs| - 1];
    if i < |pairs| - 1 {
      DictOfDistinct(init, i);
      assert pairs[i] == init[i];
    }
  }
}
