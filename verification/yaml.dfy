/** The values EthoScraper reads from YAML/JSON documents and stores in
    scraped items: Python's `None`, `bool`, `int`, `float`, `str`, `list`
    and `dict` (with string keys). */
module Yaml {
  import opened Wrappers

  datatype Value =
    | Null
    | Bool(b: bool)
    | Int(i: int)
    | Float(r: real)
    | Str(s: string)
    | List(items: seq<Value>)
    | Map(entries: map<string, Value>)
  {
    /** Python truthiness (`if value:`). */
    predicate Truthy() {
      match this
      case Null => false
      case Bool(b) => b
      case Int(i) => i != 0
      case Float(r) => r != 0.0
      case Str(s) => s != []
      case List(xs) => xs != []
      case Map(m) => m != map[]
    }

    /** Lists and dicts cannot be dictionary keys: using one as a key raises TypeError. */
    predicate Hashable() {
      !List? && !Map?
    }
  }

  /** The empty dict `{}`. */
  const EmptyMap: Value := Map(map[])

  /** `d.get(key, default)`; `None` when `d` is not a dict (AttributeError). */
  function Get(d: Value, key: string, default: Value): Option<Value> {
    match d
    case Map(m) => Some(if key in m then m[key] else default)
    case _ => None
  }

  /** The value reached by following `path` through nested dicts, if every
      step exists. */
  function Lookup(v: Value, path: seq<string>): Option<Value>
    decreases |path|
  {
    if path == [] then Some(v)
    else if v.Map? && path[0] in v.entries then Lookup(v.entries[path[0]], path[1..])
    else None
  }

  /** A path of one key is a single `get`. */
  lemma LookupOne(v: Value, a: string)
    ensures Lookup(v, [a]) == if v.Map? && a in v.entries then Some(v.entries[a]) else None
  {
    if v.Map? && a in v.entries {
      assert [a][1..] == [];
    }
  }

  /** A path of two keys is two nested `get`s. */
  lemma LookupPair(v: Value, a: string, b: string)
    ensures Lookup(v, [a, b]) == if v.Map? && a in v.entries then Lookup(v.entries[a], [b]) else None
  {
    if v.Map? && a in v.entries {
      assert [a, b][1..] == [b];
    }
  }
}
