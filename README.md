# Configuration loading and schema validation, modelled in Dafny

This project models the core of a small Python configuration utility
(`settings/settings.py`). The utility loads a configuration file and a schema
file (YAML, JSON or TOML), checks the configuration against the schema, and
rewrites the `{time}` placeholder of the logging formats. The model has four
parts:

- **Validator** (`validator.dfy`, `validator_lemmas.dfy`). This is
  `ConfigurationValidator`. `validate` walks the schema's fields in order and
  looks up each key in the data. `_validate_type` checks a leaf type name
  against the fixed type table, using `isinstance`. It recurses into nested
  mappings. Any other schema node is rejected. The declarative predicate
  `Conforms` says what a schema demands, with no ordering and no errors.
  `ValidateType`, `ValidateFrom` and `Validate` are proved to pass exactly when
  `Conforms` holds. Lemmas then say which error is reported: the first failing
  field in schema order decides, a missing key is reported before anything
  else about that field, and later fields are never examined. They also show
  that keys the schema does not name are ignored, and that every error names
  a key declared in the schema.
- **File loader** (`loader.dfy`, `loader_lemmas.dfy`). This is
  `ConfigurationFileLoader`. `_read` opens the file, then picks a parser by
  its lower-cased `Path.suffix`. `load` keeps a cache from path to
  (data, mtime). The class `ConfigurationFileLoader` holds that cache as a
  `map` field. Its `Load` method is proved equal to the function `LoadStep`.
  Lemmas about `LoadStep` cover three cases. A hit needs a matching mtime and
  does not read the file. A miss or a stale entry reads the file and replaces
  only that path's entry. A failed read leaves the cache as it was.
- **Log format rewrite** (`log_format.dfy`). This is
  `format.replace("{time}", "{time:" + time_format + "}")`, used by both sink
  configurators. It is proved against a reference: write the format as
  `{time}`-free pieces joined by `{time}`. That split is unique. The rewrite
  yields the same pieces joined by the replacement. The sink settings are read
  from the sink's dict as the code reads them: a disabled sink registers
  nothing, and a `level`, `format` or `time_format` that is not a string fails
  where the code first uses it as one.
- **Settings glue** (`app_settings.dfy`). This covers `_load_schema_section`,
  which loads the schema through the cache and looks up one section (raising
  when it is absent), and the checks in `ApplicationConfig.load_from_file` on
  the loaded data. Python truthiness decides whether a schema is applied at
  all, and Python's `in` decides which exception a schema file that is not a
  mapping gives.

Config trees and schema trees use the same `Value` datatype, because in the
source both are parsed dictionaries. A dict's entries are an ordered sequence,
since the reported error depends on the order of `schema.items()`. Lookup
takes the first entry with the key; a Python dict has only one. The file
system and the foreign parsers enter as a `FileState` value: whether the file
exists, its mtime, and what each of the three parsers returns for its text.

The documented design recommends some behaviour the code does not have.
The model follows the code:

- validation stops at the first violation instead of collecting all of them;
- an error names the bare key, not its path;
- keys the schema does not name are accepted;
- an unknown type name is reported only when validation reaches a field
  present in the data, not when the schema is loaded.

In `load_from_file`, a truthy schema that is not a mapping fails at
`schema.items()` before the loaded data is looked at. So the schema is
checked before the configuration.

## Model

| member | source | states |
|---|---|---|
| `ConfigValues.TypeName` | settings/settings.py:84 | `type(value).__name__`; no ensures of its own: `ValidatorLemmas.IsInstanceByName` ties it to the type table |
| `Validator.KnownType` | settings/settings.py:57-66 | the keys of `TYPE_MAPPING`; no ensures of its own: its use is stated by `Validator.ValidateType` (UnsupportedType exactly for other names) |
| `Validator.IsInstance` | settings/settings.py:78-81 | `isinstance(value, TYPE_MAPPING[t])`; no ensures of its own: `ValidatorLemmas.IsInstanceByName` and `ValidatorLemmas.BoolIsAnInt` state it |
| `ConfigValues.Lookup` | settings/settings.py:71-73 | `key in data` holds exactly when some entry has the key; the value found is that of the first such entry |
| `Validator.ValidateType` | settings/settings.py:76-91 | passes exactly when the value conforms to the schema node; an unknown type name gives UnsupportedType; a known type with a value of another runtime type gives IncorrectType naming both type names; a mapping node against a non-dict gives ExpectedDict; any other node gives InvalidSchema |
| `Validator.ValidateFrom` | settings/settings.py:70-73 | the loop from field `i` on passes exactly when every remaining schema field is present in the data and conforms |
| `Validator.Validate` | settings/settings.py:69-73 | `validate` returns normally exactly when every schema key is present in the data and its value conforms to its schema node |
| `ValidatorLemmas.ValidateStep` | settings/settings.py:70-73 | one loop iteration: the first field's key is checked for presence, then its type; only if both pass does validation go on with the remaining fields |
| `ValidatorLemmas.ConformingPrefix` | settings/settings.py:70-73 | fields that conform do not affect the result: validating the whole schema equals validating what follows them |
| `ValidatorLemmas.FirstMissingField` | settings/settings.py:70-72 | the first schema field, in schema order, that is absent from the data yields MissingField for that key, whatever its schema node and whatever follows |
| `ValidatorLemmas.FirstNonConformingField` | settings/settings.py:70-91 | the first field that is present but does not conform decides the result, which is the failure of checking that value against that node |
| `ValidatorLemmas.FailureIgnoresLaterFields` | settings/settings.py:70-73 | once validation fails, fields appended after the schema are never examined |
| `ValidatorLemmas.AgreeingDataValidateAlike` | settings/settings.py:70-73 | the data is read only through `key in data` and `data[key]` for the schema's own keys: two dicts that agree there validate alike, error included |
| `ValidatorLemmas.ExtraKeysIgnored` | settings/settings.py:69-73 | validation is lenient: inserting entries whose keys the schema does not name, anywhere in the dict, leaves the result unchanged |
| `ValidatorLemmas.NestedMapping` | settings/settings.py:86-89 | a mapping node against a dict gives exactly the result of validating the nested dict against the nested schema; against anything else, ExpectedDict |
| `ValidatorLemmas.IsInstanceByName` | settings/settings.py:57-66 | a value is an instance of a listed type exactly when that is its own type's `__name__`, or the type is `int` and the value a bool |
| `ValidatorLemmas.BoolIsAnInt` | settings/settings.py:57-66 | the check is `isinstance`-based: a bool passes where `int` is expected, an int fails where `bool` is expected |
| `ValidatorLemmas.ErrorKeyInSchema` | settings/settings.py:69-91 | every error the validator reports names a key declared somewhere in the schema tree |
| `ValidatorMessages.Message` | settings/settings.py:72-91 | the five exception texts; no ensures of its own: `ValidatorMessages.MessageNamesKey` states what each holds |
| `ValidatorMessages.MessageNamesKey` | settings/settings.py:72-91 | every exception message contains the name of the field it is about |
| `Loader.Name` | settings/settings.py:40 | `Path.name` is the longest tail of the path with no `/` in it |
| `Loader.Suffix` | settings/settings.py:40 | `Path.suffix` is empty exactly when the name has no dot strictly inside it or ends with a dot; otherwise it is the tail of the name from its last dot, at least two characters long |
| `Loader.DetectFormat` | settings/settings.py:40-50 | the parser for the lower-cased suffix; no ensures of its own: `Loader.Read` states its use and `LoaderLemmas.DispatchIgnoresCase` its case-insensitivity |
| `Loader.Read` | settings/settings.py:39-53 | the file is opened before the suffix is examined, so a missing file gives FileNotFound whatever its suffix; an existing file with an unsupported lower-cased suffix gives UnsupportedFormat; otherwise the parser for the suffix decides: its value on success, and on failure its own error as ParseFailure for that format |
| `LoaderLemmas.LastExtensionDecides` | settings/settings.py:40 | only the name's last extension picks the parser; a name whose only dot is its first character has no suffix |
| `LoaderLemmas.BareNameSuffix` | settings/settings.py:40 | the same for a bare file name with no directory: `stem.ext` has the suffix `.ext`, and `.ext` has none |
| `LoaderLemmas.DispatchIgnoresCase` | settings/settings.py:40-50 | lower-casing the path does not change the chosen parser |
| `Loader.LoadStep` | settings/settings.py:17-36 | an entry whose mtime matches is returned without reading the file; if the path is cached and the file is gone, the stat fails with FileNotFound; otherwise the file is read and returned; success stores (data, current mtime) for that path only; failure leaves the cache unchanged |
| `Loader.ConfigurationFileLoader.Load` | settings/settings.py:17-36 | the method's result, new cache and whether it read the file are those of `LoadStep` on the old cache |
| `Loader.ConfigurationFileLoader.constructor` | settings/settings.py:14 | the cache starts empty |
| `LoaderLemmas.ReloadIsCached` | settings/settings.py:18-27 | after a successful load, loading the same unchanged file again returns the same data from the cache without reading |
| `LoaderLemmas.OtherEntriesUnchanged` | settings/settings.py:26 | a load changes no cache entry other than its own path's |
| `LoaderLemmas.LoadTwice` | settings/settings.py:17-27 | two loads of an unchanged file give the same outcome; the second is a cache hit when the first succeeded; a failed first load leaves the cache as it was |
| `LogFormat.ReplaceTime` | settings/settings.py:186 | `str.replace` of `{time}`; no ensures of its own: `LogFormat.RewriteReplacesEveryToken` states it against the split-and-join reference |
| `LogFormat.RewriteReplacesEveryToken` | settings/settings.py:186 | if the format is `{time}`-free pieces joined by `{time}`, the rewrite is those same pieces joined by `{time:` + time format + `}`: every occurrence is replaced and all other text is kept |
| `LogFormat.NoTokenUnchanged` | settings/settings.py:207 | a format without `{time}` comes back unchanged |
| `LogFormat.RewriteOneToken` | settings/settings.py:207 | a format with a single `{time}` gets the replacement at that place only |
| `LogFormat.SinkFormat` | settings/settings.py:179-186 | succeeds exactly when `level`, `format` and `time_format` are each absent or a string; a bad `level` is reported first; then a `format` with no `.replace` method; then a bad `time_format`, since the argument of `.replace` is evaluated before a date or time `format` rejects it; every failure names a setting present with a non-string value |
| `LogFormat.SinkFormatRewrite` | settings/settings.py:179-186 | the sink format is the configured format, or the default, with every `{time}` replaced using the configured time format or the default `YYYY-MM-DD HH:mm:ss.SSS`; a bad `time_format` is the failure otherwise |
| `LogFormat.ConsoleFormat` | settings/settings.py:177-195 | no console sink unless `enabled` is truthy, otherwise the console sink's format; no ensures of its own: `LogFormat.SinkFormat` and `LogFormat.SinkFormatRewrite` state it |
| `LogFormat.FileFormat` | settings/settings.py:198-207 | no file sink unless `enabled` is truthy, otherwise the file sink's format; no ensures of its own: `LogFormat.SinkFormat` and `LogFormat.SinkFormatRewrite` state it |
| `AppSettings.SchemaSection` | settings/settings.py:139-142 | succeeds exactly when the schema is a mapping with the section, giving its value; MissingSection (the code's KeyError) exactly when `section in full_schema` is defined and false; otherwise SchemaNotMapping (a TypeError) |
| `AppSettings.LoadSchemaSection` | settings/settings.py:136-143 | with no schema path, or no file at that path, there is no schema and the cache is unchanged; otherwise the schema file is loaded through the cache and the section is looked up, passing on load and lookup failures |
| `AppSettings.CheckApplicationConfig` | settings/settings.py:102-107 | accepted exactly when the data is a mapping, a truthy schema is a mapping the data conforms to, and a `logging` entry, if present, is a mapping; a truthy schema that is not a mapping is reported before anything else, then data that is not a mapping, then a validation failure, then a bad `logging` entry |
| `AppSettings.FalsySchemaSkipped` | settings/settings.py:102 | a missing or falsy schema section is not applied: the checks are those with no schema |

## Left out

- The YAML, JSON and TOML parsers (`yaml.safe_load`, `json.load`, `toml.load`) are foreign code. What each returns for a file is a parameter (`FileState.parse`).
- File-system calls (`open`, `stat().st_mtime`, `Path.exists`, `os.makedirs`) are I/O. A `FileState` snapshot, fixed for one call, stands in for them. So the model does not capture a file that changes between the stat at line 20, the read, and the stat at line 26.
- Loader.ConfigurationFileLoader.constructor: `_cache` is a class attribute, shared by every caller in the process. The model keeps it in one object that callers pass around.
- Loader.LoadStep: mtimes are integers. The source compares float `st_mtime` values for equality.
- Loader.Suffix: `Path` normalisation is not modelled (trailing or repeated `/`, Windows separators, equality of `Path` keys). The suffix is taken from the text after the last `/`.
- Loader.Lower: lower-cases ASCII letters only; Python's `str.lower` is Unicode-aware.
- The log lines written by `load` and `_read` before they re-raise are logging I/O. Only the exception that propagates is modelled.
- Pydantic settings are library code whose behaviour is not visible here. This covers `ApplicationConfig(**config_data)`, `SecretConfig` with its dotenv loading, and `_validate_secrets`, which validates pydantic's dict of secrets with the same validator. It also covers the order in which `AppSettings.__init__` chains these steps.
- `get_app_settings` memoises through `functools.lru_cache`, which is library behaviour.
- The loguru calls are external logging: `logger.remove`, `logger.add` with the print sink, the warnings, and the log-directory creation. The sink formats and their defaults are modelled (`ConsoleFormat`, `FileFormat`, `DefaultConsoleFormat`, `DefaultFileFormat`, `DefaultTimeFormat`), but no lemma evaluates the rewrite on the literal default strings.
- A `Float` carries only whether it is non-zero. Its value and arithmetic are not modelled.
- Dict keys are strings. YAML can also produce non-string keys, which are not modelled.
- `Value` cannot represent some runtime types the parsers produce:
  - Dict subclasses, such as the `toml` package's `DynamicInlineTableDict` for inline tables, are modelled as `Dict`. So an IncorrectType message about one names `dict` where Python names the subclass.
  - YAML `!!set` values are sets. Python treats an empty one as falsy and supports `in` on it: an empty set skips validation, and a set without the section gives the code's KeyError. The model can only take a set as `Other`, which it treats as always truthy and not supporting `in`.
  - YAML `!!binary` values are bytes. An empty one is falsy, and `bytes.upper()` exists, so a bytes `level` passes `.upper()`. The model has no bytes value.
- `Value` admits trees no parser produces: a `Dict` with a repeated key, and an `Other` value whose type name is one of the table's. Lookup takes the first entry with a key, and validation walks a repeated schema key twice. `ValidatorLemmas.IsInstanceByName` excludes the second kind by its precondition.
- AppSettings.CheckApplicationConfig: data that is not a mapping gives ConfigNotMapping, with no finer exception. Python's exception depends on the contents, not just the type. A list, tuple or string raises a `ValueError` (the missing-field message) when the first schema key is not an element or substring, and a `TypeError` from indexing (line 73) when it is. Any other value raises a `TypeError` at `key not in data`. With no schema applied, a `TypeError` comes from `'logging' in`, from indexing, or from `cls(**config_data)`.
- AppSettings.CheckApplicationConfig: a truthy schema that is not a mapping gives SchemaNotMapping. It stands for the `AttributeError` from `schema.items()` at line 70.
- AppSettings.SchemaSection: SchemaNotMapping stands for two `TypeError`s. One comes from `in` on a value that does not support it, such as `None` from an empty YAML file. The other comes from indexing a list, tuple or string that does contain the section (line 140).
- LogFormat.SinkFormat: the `level` setting is only checked to be a string. Its upper-cased value, and the `rotation`, `compression` and `file_path` settings, go to the logging backend and are not modelled. So are the errors a non-string `file_path` raises after line 207.
- LogFormat.ConsoleFormat: the dispatch in `configure_logging` (`'console' in config`, `config.get("console", {})`) and a sink config that is not a dict are not modelled. The same holds for `LogFormat.FileFormat`.
- `main.py` is a startup script that only wires these calls together. It is not part of this model.
