/** What `validate` promises about order, leniency and the errors it reports. */
module ValidatorLemmas {
  import opened Wrappers
  import opened ConfigValues
  import opened Validator

  /** Validating from position `i` is validating the remaining fields as a schema of their own. */
  lemma {:induction false} ValidateFromSuffix(data: seq<Entry>, schema: seq<Entry>, i: nat)
    requires i <= |schema|
    ensures ValidateFrom(data, Dict(schema), i) == ValidateFrom(data, Dict(schema[i..]), 0)
    decreases |schema| - i
  {
    if i < |schema| {
      var rest := schema[i..];
      assert rest[0] == schema[i];
      ValidateFromSuffix(data, schema, i + 1);
      ValidateFromSuffix(data, rest, 1);
      assert rest[1..] == schema[i + 1..];
    }
  }

  /** One iteration of the loop over `schema.items()`: the first field is checked before any other. */
  lemma ValidateStep(data: seq<Entry>, schema: seq<Entry>)
    requires |schema| > 0
    ensures Validate(data, schema) ==
      match Lookup(data, schema[0].0)
      case None => Fail(MissingField(schema[0].0))
      case Some(v) =>
        if ValidateType(v, schema[0].1, schema[0].0).Fail? then ValidateType(v, schema[0].1, schema[0].0)
        else Validate(data, schema[1..])
  {
    ValidateFromSuffix(data, schema, 1);
  }

  /** Fields that conform do not influence the result: validation goes on with the next one. */
  lemma {:induction false} ConformingPrefix(data: seq<Entry>, schema: seq<Entry>, j: nat)
    requires j <= |schema|
    requires forall i :: 0 <= i < j ==> FieldConforms(data, schema[i])
    ensures Validate(data, schema) == Validate(data, schema[j..])
  {
    if j > 0 {
      ConformingPrefix(data, schema, j - 1);
      var rest := schema[j - 1..];
      assert rest[0] == schema[j - 1] && rest[1..] == schema[j..];
      ValidateStep(data, rest);
      var key := rest[0].0;
      var v := Lookup(data, key).value;
      assert ValidateType(v, rest[0].1, key).Pass?;
    }
  }

  /**
   * The first field, in schema order, that is absent from `data` is reported
   * as missing, whatever its schema node is and whatever follows it.
   */
  lemma FirstMissingField(data: seq<Entry>, schema: seq<Entry>, j: nat)
    requires j < |schema|
    requires forall i :: 0 <= i < j ==> FieldConforms(data, schema[i])
    requires !HasKey(data, schema[j].0)
    ensures Validate(data, schema) == Fail(MissingField(schema[j].0))
  {
    ConformingPrefix(data, schema, j);
    ValidateStep(data, schema[j..]);
  }

  /**
   * The first field that is present but does not conform decides the result:
   * it is the error of checking that field's value against its schema node.
   */
  lemma FirstNonConformingField(data: seq<Entry>, schema: seq<Entry>, j: nat)
    requires j < |schema|
    requires forall i :: 0 <= i < j ==> FieldConforms(data, schema[i])
    requires HasKey(data, schema[j].0)
    requires !Conforms(Lookup(data, schema[j].0).value, schema[j].1)
    ensures ValidateType(Lookup(data, schema[j].0).value, schema[j].1, schema[j].0).Fail?
    ensures Validate(data, schema) == ValidateType(Lookup(data, schema[j].0).value, schema[j].1, schema[j].0)
  {
    ConformingPrefix(data, schema, j);
    ValidateStep(data, schema[j..]);
  }

  lemma {:induction false} FailureIgnoresLaterFrom(data: seq<Entry>, schema: seq<Entry>, later: seq<Entry>, i: nat)
    requires i <= |schema|
    requires ValidateFrom(data, Dict(schema), i).Fail?
    ensures ValidateFrom(data, Dict(schema + later), i) == ValidateFrom(data, Dict(schema), i)
    decreases |schema| - i
  {
    assert (schema + later)[i] == schema[i];
    var key := schema[i].0;
    if Lookup(data, key).Some? && ValidateType(Lookup(data, key).value, schema[i].1, key).Pass? {
      FailureIgnoresLaterFrom(data, schema, later, i + 1);
    }
  }

  /** Once a field fails, no later field is examined: appending fields to the schema changes nothing. */
  lemma FailureIgnoresLaterFields(data: seq<Entry>, schema: seq<Entry>, later: seq<Entry>)
    requires Validate(data, schema).Fail?
    ensures Validate(data, schema + later) == Validate(data, schema)
  {
    FailureIgnoresLaterFrom(data, schema, later, 0);
  }

  /** Entries whose key is not `key` can be skipped by `d[key]`. */
  lemma {:induction false} LookupSkipAbsent(extra: seq<Entry>, rest: seq<Entry>, key: string)
    requires !HasKey(extra, key)
    ensures Lookup(extra + rest, key) == Lookup(rest, key)
  {
    if |extra| > 0 {
      assert extra[0].0 != key;
      assert (extra + rest)[0] == extra[0];
      assert (extra + rest)[1..] == extra[1..] + rest;
      assert !HasKey(extra[1..], key) by {
        forall i | 0 <= i < |extra[1..]| ensures extra[1..][i].0 != key {
          assert extra[1..][i] == extra[i + 1];
        }
      }
      LookupSkipAbsent(extra[1..], rest, key);
    } else {
      assert extra + rest == rest;
    }
  }

  /** Inserting entries with other keys anywhere in a dict leaves `d[key]` as it was. */
  lemma {:induction false} LookupInsertAbsent(before: seq<Entry>, extra: seq<Entry>, after: seq<Entry>, key: string)
    requires !HasKey(extra, key)
    ensures Lookup(before + extra + after, key) == Lookup(before + after, key)
  {
    if |before| == 0 {
      assert before + extra + after == extra + after;
      assert before + after == after;
      LookupSkipAbsent(extra, after, key);
    } else {
      assert (before + extra + after)[0] == before[0] && (before + after)[0] == before[0];
      assert (before + extra + after)[1..] == before[1..] + extra + after;
      assert (before + after)[1..] == before[1..] + after;
      LookupInsertAbsent(before[1..], extra, after, key);
    }
  }

  lemma {:induction false} AgreeingDataFrom(d1: seq<Entry>, d2: seq<Entry>, schema: Value, i: nat)
    requires schema.Dict? && i <= |schema.entries|
    requires forall j :: i <= j < |schema.entries| ==> Lookup(d1, schema.entries[j].0) == Lookup(d2, schema.entries[j].0)
    ensures ValidateFrom(d1, schema, i) == ValidateFrom(d2, schema, i)
    decreases |schema.entries| - i
  {
    if i < |schema.entries| {
      var key := schema.entries[i].0;
      var found := Lookup(d1, key);
      assert found == Lookup(d2, key);
      AgreeingDataFrom(d1, d2, schema, i + 1);
      if found.Some? {
        var check := ValidateType(found.value, schema.entries[i].1, key);
        assert ValidateFrom(d1, schema, i) == if check.Fail? then check else ValidateFrom(d1, schema, i + 1);
      }
    }
  }

  /**
   * Validation reads the data only through `key in data` and `data[key]` for the
   * schema's own keys: two dicts that agree on those validate alike.
   */
  lemma AgreeingDataValidateAlike(d1: seq<Entry>, d2: seq<Entry>, schema: seq<Entry>)
    requires forall j :: 0 <= j < |schema| ==> Lookup(d1, schema[j].0) == Lookup(d2, schema[j].0)
    ensures Validate(d1, schema) == Validate(d2, schema)
  {
    AgreeingDataFrom(d1, d2, Dict(schema), 0);
  }

  /** Validation is lenient: entries whose keys the schema does not name change nothing, wherever they stand. */
  lemma ExtraKeysIgnored(before: seq<Entry>, extra: seq<Entry>, after: seq<Entry>, schema: seq<Entry>)
    requires forall j :: 0 <= j < |schema| ==> !HasKey(extra, schema[j].0)
    ensures Validate(before + extra + after, schema) == Validate(before + after, schema)
  {
    forall j | 0 <= j < |schema|
      ensures Lookup(before + extra + after, schema[j].0) == Lookup(before + after, schema[j].0)
    {
      LookupInsertAbsent(before, extra, after, schema[j].0);
    }
    AgreeingDataValidateAlike(before + extra + after, before + after, schema);
  }

  /**
   * `isinstance` against the type table agrees with `type(v).__name__`: a value
   * is an instance of a listed type exactly when that is its own type's name, or
   * the type is `int` and the value a bool. The value's type must not be one of
   * the listed types under another name, which no parser produces.
   */
  lemma IsInstanceByName(v: Value, t: string)
    requires KnownType(t)
    requires v.Other? ==> !KnownType(v.typeName)
    ensures IsInstance(v, t) <==> TypeName(v) == t || (t == "int" && TypeName(v) == "bool")
  {
  }

  /** A nested schema mapping matched against a dict gives exactly the result of validating the nested dict. */
  lemma NestedMapping(value: Value, expected: Value, key: string)
    requires expected.Dict?
    ensures ValidateType(value, expected, key) ==
      if value.Dict? then Validate(value.entries, expected.entries) else Fail(ExpectedDict(key))
  {
  }

  /** The check is `isinstance`-based: a bool passes where `int` is expected, but not the other way round. */
  lemma BoolIsAnInt(b: bool, n: int, key: string)
    ensures ValidateType(Bool(b), Str("int"), key) == Pass
    ensures ValidateType(Int(n), Str("bool"), key) == Fail(IncorrectType(key, "bool", "int"))
  {
  }

  lemma {:induction false} ErrorKeyInSchemaType(value: Value, expected: Value, key: string)
    requires ValidateType(value, expected, key).Fail?
    ensures var e := ValidateType(value, expected, key).error;
            e.key == key || KeyInSchema(e.key, expected)
    decreases expected, 1
  {
    if expected.Dict? && value.Dict? {
      ErrorKeyInSchemaFrom(value.entries, expected, 0);
    }
  }

  lemma {:induction false} ErrorKeyInSchemaFrom(data: seq<Entry>, schema: Value, i: nat)
    requires schema.Dict? && i <= |schema.entries|
    requires ValidateFrom(data, schema, i).Fail?
    ensures KeyInSchema(ValidateFrom(data, schema, i).error.key, schema)
    decreases schema, 0, |schema.entries| - i
  {
    var key := schema.entries[i].0;
    var e := ValidateFrom(data, schema, i).error;
    if Lookup(data, key).Some? {
      var v := Lookup(data, key).value;
      if ValidateType(v, schema.entries[i].1, key).Fail? {
        ErrorKeyInSchemaType(v, schema.entries[i].1, key);
        assert schema.entries[i].0 == e.key || KeyInSchema(e.key, schema.entries[i].1);
      } else {
        ErrorKeyInSchemaFrom(data, schema, i + 1);
      }
    } else {
      assert schema.entries[i].0 == e.key;
    }
  }

  /** Every error names a field declared somewhere in the schema (the bare name, not its path). */
  lemma ErrorKeyInSchema(data: seq<Entry>, schema: seq<Entry>)
    requires Validate(data, schema).Fail?
    ensures KeyInSchema(Validate(data, schema).error.key, Dict(schema))
  {
    ErrorKeyInSchemaFrom(data, Dict(schema), 0);
  }
}
