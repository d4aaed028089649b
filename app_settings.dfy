/**
 * The checks AppSettings and ApplicationConfig make around the validator:
 * picking a section of the schema file, and vetting a loaded configuration.
 */
module AppSettings {
  import opened Wrappers
  import opened ConfigValues
  import opened Validator
  import opened Loader

  /**
   * The exceptions the settings checks raise. SchemaNotMapping and
   * ConfigNotMapping stand for whichever TypeError, ValueError or AttributeError
   * Python raises when it treats a value that is not a mapping as one.
   */
  datatype SettingsError =
    | LoadFailed(cause: LoadError)
    | MissingSection(section: string)
    | SchemaNotMapping
    | ConfigNotMapping
    | Invalid(failure: Error)
    | LoggingNotMapping

  /** The values on which Python's `key in v` is defined for a string `key`. */
  ghost predicate SupportsIn(v: Value) {
    v.Dict? || v.List? || v.Tuple? || v.Str?
  }

  /** `key in v`: a dict's keys, a list's or tuple's elements, a string's substrings. */
  ghost predicate Contains(v: Value, key: string)
    requires SupportsIn(v)
  {
    match v
    case Dict(entries) => HasKey(entries, key)
    case List(items) => Str(key) in items
    case Tuple(items) => Str(key) in items
    case Str(s) => Mentions(s, key)
  }

  /**
   * `full_schema[section]` under `if section in full_schema`. When the test is
   * false the code raises its own KeyError; when `in` is undefined, or true of a
   * list, tuple or string that cannot be indexed by a string, Python raises a
   * TypeError.
   */
  function SchemaSection(fullSchema: Value, section: string): (r: Result<Value, SettingsError>)
    ensures r.Success? <==> fullSchema.Dict? && HasKey(fullSchema.entries, section)
    ensures r.Success? ==> exists i :: 0 <= i < |fullSchema.entries| && fullSchema.entries[i] == (section, r.value)
    ensures r.Failure? ==>
      (r.error == MissingSection(section) <==> SupportsIn(fullSchema) && !Contains(fullSchema, section))
    ensures r.Failure? && r.error != MissingSection(section) ==> r.error == SchemaNotMapping
  {
    match fullSchema
    case Dict(entries) =>
      (match Lookup(entries, section)
       case Some(v) => Success(v)
       case None => Failure(MissingSection(section)))
    case List(items) =>
      if Str(section) in items then Failure(SchemaNotMapping) else Failure(MissingSection(section))
    case Tuple(items) =>
      if Str(section) in items then Failure(SchemaNotMapping) else Failure(MissingSection(section))
    case Str(text) =>
      if InString(section, text) then Failure(SchemaNotMapping) else Failure(MissingSection(section))
    case _ => Failure(SchemaNotMapping)
  }

  /** Python truthiness of an optional path: `None` and the empty string are false. */
  predicate PathGiven(path: Option<string>) {
    path.Some? && path.value != ""
  }

  /**
   * `_load_schema_section`: with no schema file, no schema; otherwise the named
   * section of the (cached) schema file.
   */
  method LoadSchemaSection(loader: ConfigurationFileLoader, schemaPath: Option<string>, file: FileState, section: string)
    returns (r: Result<Option<Value>, SettingsError>)
    modifies loader
    ensures !PathGiven(schemaPath) || !file.present ==> r == Success(None) && loader.cache == old(loader.cache)
    ensures PathGiven(schemaPath) && file.present ==>
      var o := LoadStep(old(loader.cache), schemaPath.value, file);
      loader.cache == o.cache &&
      r == match o.result
           case Failure(e) => Failure(LoadFailed(e))
           case Success(full) =>
             match SchemaSection(full, section)
             case Success(v) => Success(Some(v))
             case Failure(e) => Failure(e)
  {
    if !PathGiven(schemaPath) || !file.present {
      return Success(None);
    }
    var loaded, _ := loader.Load(schemaPath.value, file);
    if loaded.Failure? {
      return Failure(LoadFailed(loaded.error));
    }
    var s := SchemaSection(loaded.value, section);
    if s.Failure? {
      return Failure(s.error);
    }
    r := Success(Some(s.value));
  }

  /** The `logging` entry, when present, is a mapping. */
  ghost predicate LoggingIsMapping(config: seq<Entry>) {
    HasKey(config, "logging") ==> Lookup(config, "logging").value.Dict?
  }

  /** `if schema:` in `load_from_file`: a schema is applied only when it is given and truthy. */
  predicate SchemaApplies(schema: Option<Value>) {
    schema.Some? && Truthy(schema.value)
  }

  /**
   * The checks of `ApplicationConfig.load_from_file` on the loaded data. A
   * truthy schema is validated first; `schema.items()` fails on one that is not
   * a mapping before the data is looked at. Then a `logging` entry must be a
   * mapping, and the data itself must be a mapping for `cls(**config_data)`.
   */
  function CheckApplicationConfig(config: Value, schema: Option<Value>): (r: Result<seq<Entry>, SettingsError>)
    ensures r.Success? <==>
      config.Dict? && LoggingIsMapping(config.entries)
      && (SchemaApplies(schema) ==>
            schema.value.Dict?
            && forall j :: 0 <= j < |schema.value.entries| ==> FieldConforms(config.entries, schema.value.entries[j]))
    ensures r.Success? ==> r.value == config.entries
    ensures SchemaApplies(schema) && !schema.value.Dict? ==> r == Failure(SchemaNotMapping)
    ensures !config.Dict? && !(SchemaApplies(schema) && !schema.value.Dict?) ==> r == Failure(ConfigNotMapping)
    ensures config.Dict? && SchemaApplies(schema) && schema.value.Dict? && Validate(config.entries, schema.value.entries).Fail? ==>
      r == Failure(Invalid(Validate(config.entries, schema.value.entries).error))
    ensures config.Dict? && !LoggingIsMapping(config.entries)
            && !(SchemaApplies(schema) && (!schema.value.Dict? || Validate(config.entries, schema.value.entries).Fail?)) ==>
      r == Failure(LoggingNotMapping)
    ensures r.Failure? && r.error == LoggingNotMapping ==> config.Dict? && !LoggingIsMapping(config.entries)
  {
    if SchemaApplies(schema) && !schema.value.Dict? then Failure(SchemaNotMapping)
    else if !config.Dict? then Failure(ConfigNotMapping)
    else if SchemaApplies(schema) && Validate(config.entries, schema.value.entries).Fail? then
      Failure(Invalid(Validate(config.entries, schema.value.entries).error))
    else if Lookup(config.entries, "logging").Some? && !Lookup(config.entries, "logging").value.Dict? then
      Failure(LoggingNotMapping)
    else Success(config.entries)
  }

  /** A missing or falsy schema (`None`, `{}`, `""`, `0`, `[]`) is not applied at all. */
  lemma FalsySchemaSkipped(config: Value, schema: Option<Value>)
    requires !SchemaApplies(schema)
    ensures CheckApplicationConfig(config, schema) == CheckApplicationConfig(config, None)
  {
  }
}
