/**
  Python values as the backend receives them from JSON (request bodies,
  database rows, parsed model replies), Python truthiness, and the text
  of the exceptions the model reproduces.
 */
module Json {
  import opened Base

  /** A JSON-shaped Python value; a dict keeps its keys in insertion order. */
  datatype Value =
    | Null
    | Bool(b: bool)
    | Int(i: int)
    | Float(f: real)
    | Str(s: string)
    | List(items: seq<Value>)
    | Object(entries: seq<(string, Value)>)

  /** A database row: a dict from column name to value. */
  type Row = map<string, Value>

  /** Python's `bool(v)`: None, False, zero and empty containers are falsy. */
  predicate Truthy(v: Value) {
    match v
    case Null => false
    case Bool(b) => b
    case Int(i) => i != 0
    case Float(f) => f != 0.0
    case Str(s) => s != ""
    case List(items) => items != []
    case Object(entries) => entries != []
  }

  /** The keys of a dict. */
  function Keys(entries: seq<(string, Value)>): (ks: set<string>)
    ensures forall k :: 0 <= k < |entries| ==> entries[k].0 in ks
    ensures forall key :: key in ks ==> exists k :: 0 <= k < |entries| && entries[k].0 == key
    decreases |entries|
  {
    if entries == [] then {} else {entries[0].0} + Keys(entries[1..])
  }

  /** `d.get(key)`: the value stored under `key`, or None. */
  function Lookup(entries: seq<(string, Value)>, key: string): (r: Option<Value>)
    ensures r.Some? <==> key in Keys(entries)
    decreases |entries|
  {
    if entries == [] then None
    else if entries[0].0 == key then Some(entries[0].1)
    else Lookup(entries[1..], key)
  }

  /** No key occurs twice, as in every Python dict. */
  predicate UniqueKeys(entries: seq<(string, Value)>) {
    forall i, j :: 0 <= i < j < |entries| ==> entries[i].0 != entries[j].0
  }

  /** In a dict, looking up a key finds the value stored with it. */
  lemma {:induction false} LookupUnique(entries: seq<(string, Value)>, k: nat)
    requires k < |entries| && UniqueKeys(entries)
    ensures Lookup(entries, entries[k].0) == Some(entries[k].1)
    decreases k
  {
    if k > 0 {
      assert entries[0].0 != entries[k].0;
      assert entries[1..][k - 1] == entries[k];
      LookupUnique(entries[1..], k - 1);
    }
  }

  /** `str(KeyError(key))` for a string key: the key in single quotes. */
  function KeyErrorText(key: string): string {
    "'" + key + "'"
  }

  /** `str(e)` for the IndexError of `[][0]`. */
  const IndexErrorText := "list index out of range"
}
