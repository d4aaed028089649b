/**
 * The in-memory trees that the format parsers produce: a configuration file
 * and a schema file both load into the same kind of nested value.
 */
module ConfigValues {
  import opened Wrappers

  /**
   * A parsed value, by its Python runtime type. A `Float` carries only
   * whether it is non-zero, which is all that its truthiness needs.
   * `Other` stands for a runtime type outside the validator's type table
   * whose values are always truthy, support neither `in` nor `.upper()`, and
   * have a `.replace` method over their own fields (the `date`, `time` and
   * `datetime` values that YAML and TOML produce), carrying its `__name__`. A `Dict` keeps its entries in insertion order.
   */
  datatype Value =
    | Str(s: string)
    | Bool(b: bool)
    | Int(i: int)
    | Float(nonzero: bool)
    | List(items: seq<Value>)
    | Dict(entries: seq<Entry>)
    | NoneValue
    | Tuple(items: seq<Value>)
    | Other(typeName: string)

  type Entry = (string, Value)

  /** `key in d` for a dict given by its entries. */
  ghost predicate HasKey(entries: seq<Entry>, key: string) {
    exists i :: 0 <= i < |entries| && entries[i].0 == key
  }

  /** `d[key]` when `key in d`; the first entry wins (a Python dict has one entry per key). */
  function Lookup(entries: seq<Entry>, key: string): (r: Option<Value>)
    ensures r.Some? <==> HasKey(entries, key)
    ensures r.Some? ==> exists i :: 0 <= i < |entries| && entries[i] == (key, r.value)
                                    && forall j :: 0 <= j < i ==> entries[j].0 != key
  {
    if |entries| == 0 then None
    else if entries[0].0 == key then
      assert entries[0] == (key, entries[0].1);
      Some(entries[0].1)
    else
      var r := Lookup(entries[1..], key);
      assert forall i :: 0 <= i < |entries| - 1 ==> entries[1..][i] == entries[i + 1];
      if r.Some? then
        var i :| 0 <= i < |entries| - 1 && entries[1..][i] == (key, r.value)
                 && forall j :: 0 <= j < i ==> entries[1..][j].0 != key;
        assert entries[i + 1] == (key, r.value);
        r
      else
        assert !HasKey(entries, key) by {
          forall i | 0 <= i < |entries| ensures entries[i].0 != key {
            if i > 0 { assert entries[i] == entries[1..][i - 1]; }
          }
        }
        r
  }

  /** `type(value).__name__`. */
  function TypeName(v: Value): string {
    match v
    case Str(_) => "str"
    case Bool(_) => "bool"
    case Int(_) => "int"
    case Float(_) => "float"
    case List(_) => "list"
    case Dict(_) => "dict"
    case NoneValue => "NoneType"
    case Tuple(_) => "tuple"
    case Other(n) => n
  }

  /**
   * Python truthiness (`if v:`). Empty strings, containers, zero and `None` are
   * false; dates and times (`Other`) are true.
   */
  predicate Truthy(v: Value) {
    match v
    case Str(s) => s != ""
    case Bool(b) => b
    case Int(i) => i != 0
    case Float(nonzero) => nonzero
    case List(items) => items != []
    case Dict(entries) => entries != []
    case NoneValue => false
    case Tuple(items) => items != []
    case Other(_) => true
  }

  /** `sub` occurs in `text` at position `i`. */
  ghost predicate OccursAt(text: string, sub: string, i: int) {
    0 <= i <= |text| - |sub| && text[i..i + |sub|] == sub
  }

  /** `sub` occurs in `text`. */
  ghost predicate Mentions(text: string, sub: string) {
    exists i :: OccursAt(text, sub, i)
  }

  /** `sub in text` for strings. */
  function InString(sub: string, text: string): (r: bool)
    ensures r <==> Mentions(text, sub)
    decreases |text|
  {
    if sub <= text then
      assert OccursAt(text, sub, 0);
      true
    else if |text| <= |sub| then
      assert forall i :: !OccursAt(text, sub, i);
      false
    else
      var r := InString(sub, text[1..]);
      if r then
        assert Mentions(text, sub) by {
          var i :| OccursAt(text[1..], sub, i);
          assert text[1..][i..i + |sub|] == text[i + 1..i + 1 + |sub|];
          assert OccursAt(text, sub, i + 1);
        }
        r
      else
        assert !Mentions(text, sub) by {
          forall i ensures !OccursAt(text, sub, i) {
            if 1 <= i <= |text| - |sub| {
              var here, there := text[i..i + |sub|], text[1..][i - 1..i - 1 + |sub|];
              assert forall k :: 0 <= k < |sub| ==> here[k] == there[k];
              assert here == there;
              assert !OccursAt(text[1..], sub, i - 1);
            }
          }
        }
        r
  }
}
