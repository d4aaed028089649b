/**
 * ConfigurationFileLoader: picks a parser by file suffix and keeps a cache of
 * parsed files keyed by path, refreshed when the file's mtime changes.
 */
module Loader {
  import opened Wrappers
  import opened ConfigValues

  /*
   * File names and the suffix dispatch of `_read`.
   */

  /** The index of the last `c` in `s` (`str.rfind`), or -1. */
  function RFind(s: string, c: char): (r: int)
    ensures -1 <= r < |s|
    ensures r >= 0 ==> s[r] == c
    ensures forall k :: r < k < |s| ==> s[k] != c
  {
    if |s| == 0 then -1
    else if s[|s| - 1] == c then |s| - 1
    else RFind(s[..|s| - 1], c)
  }

  /** `Path.name`: the text after the last `/`. */
  function Name(path: string): (r: string)
    ensures |r| <= |path| && r == path[|path| - |r|..]
    ensures forall k :: |path| - |r| <= k < |path| ==> path[k] != '/'
    ensures |r| == |path| || path[|path| - |r| - 1] == '/'
  {
    path[RFind(path, '/') + 1..]
  }

  /**
   * A name has no suffix when no dot stands strictly inside it, or when it
   * ends with a dot.
   */
  ghost predicate NoSuffix(name: string) {
    (forall k :: 0 < k < |name| - 1 ==> name[k] != '.')
    || (|name| > 0 && name[|name| - 1] == '.')
  }

  /** `Path.suffix`: from the last `.` of the name on, when that dot is neither first nor last. */
  function Suffix(path: string): (r: string)
    ensures |r| <= |path| && r == path[|path| - |r|..]
    ensures r == "" || (|r| >= 2 && path[|path| - |r|] == '.')
    ensures forall k :: |path| - |r| < k < |path| ==> path[k] != '.' && path[k] != '/'
    ensures r == "" <==> NoSuffix(Name(path))
  {
    var name := Name(path);
    var i := RFind(name, '.');
    if 0 < i < |name| - 1 then
      var off := |path| - |name|;
      assert forall k :: 0 <= k < |name| ==> name[k] == path[off + k];
      assert name[i] == '.' && name[|name| - 1] != '.';
      name[i..]
    else
      assert NoSuffix(name) by {
        if i == |name| - 1 && i > 0 {
          assert name[|name| - 1] == '.';
        } else {
          forall k | 0 < k < |name| - 1 ensures name[k] != '.' {
            assert k > i;
          }
        }
      }
      ""
  }

  function LowerChar(c: char): char {
    if 'A' <= c <= 'Z' then (c as int + 32) as char else c
  }

  /** `str.lower()` on ASCII letters. */
  function Lower(s: string): (r: string)
    ensures |r| == |s| && forall i :: 0 <= i < |s| ==> r[i] == LowerChar(s[i])
  {
    seq(|s|, i requires 0 <= i < |s| => LowerChar(s[i]))
  }

  datatype Format = Yaml | Json | Toml

  /** The parser `_read` chooses for a lower-cased suffix. */
  function FormatOf(suffix: string): Option<Format> {
    if suffix == ".yaml" || suffix == ".yml" then Some(Yaml)
    else if suffix == ".json" then Some(Json)
    else if suffix == ".toml" then Some(Toml)
    else None
  }

  function DetectFormat(path: string): Option<Format> {
    FormatOf(Lower(Suffix(path)))
  }

  /*
   * Reading one file.
   */

  /** The exceptions `load` lets through. */
  datatype LoadError =
    | FileNotFound(path: string)
    | UnsupportedFormat(suffix: string)
    | ParseFailure(format: Format, message: string)

  /**
   * What the file system and the three foreign parsers would do with one path,
   * taken as fixed for the duration of one call: whether the file is present, its
   * mtime, and what each parser returns for its text.
   */
  datatype FileState = FileState(present: bool, mtime: int, parse: Format -> Result<Value, string>)

  /** `_read(path)`: the file is opened before its suffix is looked at. */
  function Read(path: string, file: FileState): (r: Result<Value, LoadError>)
    ensures !file.present ==> r == Failure(FileNotFound(path))
    ensures file.present && DetectFormat(path).None? ==> r == Failure(UnsupportedFormat(Lower(Suffix(path))))
    ensures r.Success? <==> file.present && DetectFormat(path).Some? && file.parse(DetectFormat(path).value).Success?
    ensures r.Success? ==> r.value == file.parse(DetectFormat(path).value).value
    ensures file.present && DetectFormat(path).Some? && file.parse(DetectFormat(path).value).Failure? ==>
      r == Failure(ParseFailure(DetectFormat(path).value, file.parse(DetectFormat(path).value).error))
  {
    if !file.present then Failure(FileNotFound(path))
    else
      match DetectFormat(path)
      case None => Failure(UnsupportedFormat(Lower(Suffix(path))))
      case Some(format) =>
        match file.parse(format)
        case Success(v) => Success(v)
        case Failure(message) => Failure(ParseFailure(format, message))
  }

  /*
   * The cache.
   */

  datatype CacheEntry = CacheEntry(data: Value, mtime: int)

  type Cache = map<string, CacheEntry>

  /** The outcome of one `load`: what it returns, the new cache, and whether it read the file. */
  datatype LoadOutcome = LoadOutcome(result: Result<Value, LoadError>, cache: Cache, readFile: bool)

  /** A cached entry that matches the file's current mtime is served without reading. */
  predicate IsHit(cache: Cache, path: string, file: FileState) {
    path in cache && file.present && cache[path].mtime == file.mtime
  }

  /** `ConfigurationFileLoader.load(path)` against the cache `cache`. */
  function LoadStep(cache: Cache, path: string, file: FileState): (o: LoadOutcome)
    ensures IsHit(cache, path, file) ==> o == LoadOutcome(Success(cache[path].data), cache, false)
    ensures o.readFile <==> path !in cache || (file.present && cache[path].mtime != file.mtime)
    ensures o.readFile ==> o.result == Read(path, file)
    ensures path in cache && !file.present ==> o.result == Failure(FileNotFound(path))
    ensures o.result.Failure? ==> o.cache == cache
    ensures o.result.Success? ==> o.cache == cache[path := CacheEntry(o.result.value, file.mtime)]
  {
    if path in cache && !file.present then
      LoadOutcome(Failure(FileNotFound(path)), cache, false)
    else if path in cache && cache[path].mtime == file.mtime then
      LoadOutcome(Success(cache[path].data), cache, false)
    else
      var config := Read(path, file);
      if config.Failure? then LoadOutcome(config, cache, true)
      else LoadOutcome(config, cache[path := CacheEntry(config.value, file.mtime)], true)
  }

  /** `ConfigurationFileLoader._cache`: a class attribute of the Python class, shared by the whole process. */
  class ConfigurationFileLoader {
    var cache: Cache

    constructor ()
      ensures cache == map[]
    {
      cache := map[];
    }

    method Load(path: string, file: FileState) returns (r: Result<Value, LoadError>, readFile: bool)
      modifies this
      ensures LoadOutcome(r, cache, readFile) == LoadStep(old(cache), path, file)
    {
      if path in cache {
        if !file.present {
          return Failure(FileNotFound(path)), false;
        }
        var entry := cache[path];
        if entry.mtime == file.mtime {
          return Success(entry.data), false;
        }
      }
      r := Read(path, file);
      readFile := true;
      if r.Success? {
        cache := cache[path := CacheEntry(r.value, file.mtime)];
      }
    }
  }
}
