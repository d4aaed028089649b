/**
 * ConfigurationValidator: walks a schema tree and a data tree side by side
 * and reports the first violation, in schema order.
 */
module Validator {
  import opened Wrappers
  import opened ConfigValues

  /** The keys of TYPE_MAPPING. */
  predicate KnownType(t: string) {
    t == "str" || t == "bool" || t == "int" || t == "float"
    || t == "list" || t == "dict" || t == "NoneType" || t == "tuple"
  }

  /** `isinstance(v, TYPE_MAPPING[t])`; `bool` is a subclass of `int`. */
  predicate IsInstance(v: Value, t: string)
    requires KnownType(t)
  {
    if t == "str" then v.Str?
    else if t == "bool" then v.Bool?
    else if t == "int" then v.Int? || v.Bool?
    else if t == "float" then v.Float?
    else if t == "list" then v.List?
    else if t == "dict" then v.Dict?
    else if t == "NoneType" then v.NoneValue?
    else v.Tuple?
  }

  /**
   * The exceptions the validator raises, each naming the field it was checking:
   * MissingField, UnsupportedType and InvalidSchema are ValueErrors,
   * IncorrectType and ExpectedDict are TypeErrors.
   */
  datatype Error =
    | MissingField(key: string)
    | UnsupportedType(expected: string, key: string)
    | IncorrectType(key: string, expected: string, actual: string)
    | ExpectedDict(key: string)
    | InvalidSchema(key: string)

  /** `validate` returning normally, or raising. */
  datatype Outcome = Pass | Fail(error: Error)

  /*
   * The reference meaning of "conforms": a declarative statement of what
   * the schema demands, with no order and no error reporting.
   */

  ghost predicate Conforms(v: Value, expected: Value)
    decreases expected, 1
  {
    match expected
    case Str(t) => KnownType(t) && IsInstance(v, t)
    case Dict(_) => v.Dict? && FieldsConform(v.entries, expected, 0)
    case _ => false
  }

  /** Every schema field from position `i` on is present in `data` and conforms. */
  ghost predicate FieldsConform(data: seq<Entry>, schema: Value, i: nat)
    requires schema.Dict?
    decreases schema, 0
  {
    forall j :: i <= j < |schema.entries| ==>
      Lookup(data, schema.entries[j].0).Some?
      && Conforms(Lookup(data, schema.entries[j].0).value, schema.entries[j].1)
  }

  /** One schema field is present in `data` and its value conforms. */
  ghost predicate FieldConforms(data: seq<Entry>, field: Entry) {
    Lookup(data, field.0).Some? && Conforms(Lookup(data, field.0).value, field.1)
  }

  /** `key` is a field name somewhere in the schema tree `schema`. */
  ghost predicate KeyInSchema(key: string, schema: Value)
    decreases schema
  {
    schema.Dict? &&
    exists j :: 0 <= j < |schema.entries| &&
      (schema.entries[j].0 == key || KeyInSchema(key, schema.entries[j].1))
  }

  /*
   * The validator itself.
   */

  /** `_validate_type(value, expected, key)`. */
  function ValidateType(value: Value, expected: Value, key: string): (r: Outcome)
    decreases expected, 1
    ensures r.Pass? <==> Conforms(value, expected)
    ensures expected.Str? && !KnownType(expected.s) ==> r == Fail(UnsupportedType(expected.s, key))
    ensures expected.Str? && KnownType(expected.s) && !IsInstance(value, expected.s) ==>
              r == Fail(IncorrectType(key, expected.s, TypeName(value)))
    ensures expected.Dict? && !value.Dict? ==> r == Fail(ExpectedDict(key))
    ensures !expected.Str? && !expected.Dict? ==> r == Fail(InvalidSchema(key))
  {
    match expected
    case Str(t) =>
      if !KnownType(t) then Fail(UnsupportedType(t, key))
      else if !IsInstance(value, t) then Fail(IncorrectType(key, t, TypeName(value)))
      else Pass
    case Dict(_) =>
      if !value.Dict? then Fail(ExpectedDict(key))
      else ValidateFrom(value.entries, expected, 0)
    case _ => Fail(InvalidSchema(key))
  }

  /** The `for key, expected in schema.items()` loop of `validate`, from position `i` on. */
  function ValidateFrom(data: seq<Entry>, schema: Value, i: nat): (r: Outcome)
    requires schema.Dict? && i <= |schema.entries|
    decreases schema, 0, |schema.entries| - i
    ensures r.Pass? <==> FieldsConform(data, schema, i)
  {
    if i == |schema.entries| then Pass
    else
      var key := schema.entries[i].0;
      match Lookup(data, key)
      case None => Fail(MissingField(key))
      case Some(v) =>
        var r := ValidateType(v, schema.entries[i].1, key);
        if r.Fail? then r else ValidateFrom(data, schema, i + 1)
  }

  /** `validate(data, schema)`: passes exactly when every schema field is present and conforms. */
  function Validate(data: seq<Entry>, schema: seq<Entry>): (r: Outcome)
    ensures r.Pass? <==> forall j :: 0 <= j < |schema| ==> FieldConforms(data, schema[j])
  {
    ValidateFrom(data, Dict(schema), 0)
  }
}

/** The text of the exceptions `validate` raises. */
module ValidatorMessages {
  import opened ConfigValues
  import opened Validator

  /**
   * `str(exception)` for each error: the text before the field name, the name,
   * the text after it. MessageNamesKey says what every message holds.
   */
  function Message(e: Error): string {
    Before(e) + e.key + After(e)
  }

  function Before(e: Error): string {
    match e
    case MissingField(_) => "Missing required configuration field: "
    case UnsupportedType(expected, _) => "Unsupported expected type: " + expected + " for field "
    case IncorrectType(_, _, _) => "Incorrect type for field '"
    case ExpectedDict(_) => "Incorrect type for field '"
    case InvalidSchema(_) => "Invalid schema definition for field "
  }

  function After(e: Error): string {
    match e
    case IncorrectType(_, expected, actual) => "', expected " + expected + " but got " + actual + "."
    case ExpectedDict(_) => "', expected dict."
    case _ => ""
  }

  /** Every message names the field it is about. */
  lemma MessageNamesKey(e: Error)
    ensures Mentions(Message(e), e.key)
  {
    var a, b, c := Before(e), e.key, After(e);
    assert (a + b + c)[|a|..|a| + |b|] == b;
    assert OccursAt(Message(e), e.key, |a|);
  }
}
