/** What the suffix dispatch and the mtime cache promise. */
module LoaderLemmas {
  import opened Wrappers
  import opened ConfigValues
  import opened Loader

  /** Only the last extension of the file name picks the parser; a name that starts with its only dot has no suffix. */
  lemma LastExtensionDecides(dir: string, stem: string, ext: string)
    requires forall k :: 0 <= k < |stem| ==> stem[k] != '/'
    requires |ext| > 0 && forall k :: 0 <= k < |ext| ==> ext[k] != '/' && ext[k] != '.'
    ensures Suffix(dir + "/" + stem + "." + ext) == if |stem| > 0 then "." + ext else ""
  {
    var path := dir + "/" + stem + "." + ext;
    assert path[|dir|] == '/';
    assert forall k :: |dir| < k < |path| ==> path[k] != '/' by {
      forall k | |dir| < k < |path| ensures path[k] != '/' {
        if k < |dir| + 1 + |stem| { assert path[k] == stem[k - |dir| - 1]; }
        else if k > |dir| + 1 + |stem| { assert path[k] == ext[k - |dir| - 2 - |stem|]; }
      }
    }
    assert RFind(path, '/') == |dir|;
    var name := Name(path);
    assert name == stem + "." + ext;
    assert name[|stem|] == '.';
    assert forall k :: |stem| < k < |name| ==> name[k] != '.' by {
      forall k | |stem| < k < |name| ensures name[k] != '.' {
        assert name[k] == ext[k - |stem| - 1];
      }
    }
    assert RFind(name, '.') == |stem|;
    assert name[|stem|..] == "." + ext;
  }

  lemma NameWithoutSlash(path: string)
    requires forall k :: 0 <= k < |path| ==> path[k] != '/'
    ensures Name(path) == path
  {
  }

  /** The same for a bare file name: `config.yaml` has the suffix `.yaml`, `.yaml` has none. */
  lemma BareNameSuffix(stem: string, ext: string)
    requires forall k :: 0 <= k < |stem| ==> stem[k] != '/'
    requires |ext| > 0 && forall k :: 0 <= k < |ext| ==> ext[k] != '/' && ext[k] != '.'
    ensures Suffix(stem + "." + ext) == if |stem| > 0 then "." + ext else ""
  {
    var path := stem + "." + ext;
    assert forall k :: |stem| < k < |path| ==> path[k] == ext[k - |stem| - 1];
    assert forall k :: 0 <= k < |stem| ==> path[k] == stem[k];
    NameWithoutSlash(path);
    if |stem| > 0 {
      StemSuffix(stem, ext, path);
    } else {
      assert NoSuffix(path);
    }
  }

  lemma StemSuffix(stem: string, ext: string, path: string)
    requires |stem| > 0 && path == stem + "." + ext && Name(path) == path
    requires |ext| > 0 && forall k :: |stem| < k < |path| ==> path[k] != '.'
    ensures Suffix(path) == "." + ext
  {
    assert path[|stem|] == '.';
    assert RFind(path, '.') == |stem|;
    assert path[|stem|..] == "." + ext;
  }

  lemma LowerKeepsSeparator(s: string, c: char)
    requires !('A' <= c <= 'Z') && !('a' <= c <= 'z')
    ensures RFind(Lower(s), c) == RFind(s, c)
  {
    assert forall k :: 0 <= k < |s| ==> (Lower(s)[k] == c <==> s[k] == c);
  }

  lemma LowerSlice(s: string, i: nat)
    requires i <= |s|
    ensures Lower(s[i..]) == Lower(s)[i..]
  {
  }

  lemma LowerIdempotent(s: string)
    ensures Lower(Lower(s)) == Lower(s)
  {
  }

  lemma NameOfLower(path: string)
    ensures Name(Lower(path)) == Lower(Name(path))
  {
    LowerKeepsSeparator(path, '/');
    LowerSlice(path, RFind(path, '/') + 1);
  }

  /** Taking the suffix commutes with lower-casing the path. */
  lemma SuffixOfLower(path: string)
    ensures Suffix(Lower(path)) == Lower(Suffix(path))
  {
    NameOfLower(path);
    var name := Name(path);
    LowerKeepsSeparator(name, '.');
    var i := RFind(name, '.');
    if 0 < i < |name| - 1 {
      LowerSlice(name, i);
    }
  }

  /** The suffix dispatch ignores letter case: `config.YAML` and `config.yaml` use the same parser. */
  lemma DispatchIgnoresCase(path: string)
    ensures DetectFormat(Lower(path)) == DetectFormat(path)
  {
    SuffixOfLower(path);
    LowerIdempotent(Suffix(path));
  }

  /** After a successful load, loading the same unchanged file again is served from the cache. */
  lemma ReloadIsCached(cache: Cache, path: string, file: FileState)
    requires LoadStep(cache, path, file).result.Success?
    ensures var o := LoadStep(cache, path, file);
            LoadStep(o.cache, path, file) == LoadOutcome(o.result, o.cache, false)
  {
    assert IsHit(LoadStep(cache, path, file).cache, path, file);
  }

  /** A load touches the entry for its own path and no other. */
  lemma OtherEntriesUnchanged(cache: Cache, path: string, file: FileState, other: string)
    requires other != path
    ensures var c := LoadStep(cache, path, file).cache;
            (other in c <==> other in cache) && (other in cache ==> c[other] == cache[other])
  {
  }

  /**
   * A client: two loads of an unchanged file return the same outcome, and the second is
   * served from the cache when the first succeeded.
   */
  method LoadTwice(loader: ConfigurationFileLoader, path: string, file: FileState)
    returns (first: Result<Value, LoadError>, second: Result<Value, LoadError>, secondRead: bool)
    modifies loader
    ensures first.Success? ==> second == first && !secondRead
    ensures first.Failure? ==> second == first && loader.cache == old(loader.cache)
  {
    var read1;
    first, read1 := loader.Load(path, file);
    second, secondRead := loader.Load(path, file);
    if first.Success? {
      ReloadIsCached(old(loader.cache), path, file);
    }
  }
}
