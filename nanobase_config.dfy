/**
 * `Nanobase::Config`, the earlier form of the configuration object: the same
 * manifest and parameter state and the same loads, without `include?` and
 * `to_h`.
 */
module NanobaseConfig {
  import opened Values
  import opened Merge
  import opened Resolution

  class Config {
    /** `@manifest`: the declared names in insertion order and their entries. */
    var manifest: Manifest
    /** `@params`: the current value of each resolved name. */
    var params: Params

    /** The manifest is well formed and every parameter is declared in it. */
    ghost predicate Valid()
      reads this
    {
      Merge.Valid(manifest) && params.Keys <= manifest.entries.Keys
    }

    /** `initialize` without a manifest file: nothing declared, nothing set. */
    constructor ()
      ensures manifest == Empty && params == map[]
      ensures Valid()
    {
      manifest := Empty;
      params := map[];
    }

    /**
     * `initialize(manifest_filename, opts)`: a fresh config, loaded from the
     * document when a file is named. In Ruby a load that raises propagates out
     * of `new`, so the caller never holds the object; here the object comes
     * back beside the failure, and a caller that gets a failure must drop it.
     */
    static method Create(file: Option<Document>, env: Env, dotenv: Env, opts: Options)
      returns (c: Config, failure: Option<Error>)
      ensures fresh(c) && c.Valid()
      ensures file.None? ==> c.manifest == Empty && c.params == map[] && failure.None?
      ensures file.Some? ==> Step(c.manifest, failure) == LoadOutcome(Empty, map[], file.value, env, dotenv, opts).0
      ensures file.Some? ==> c.params == LoadOutcome(Empty, map[], file.value, env, dotenv, opts).1
    {
      c := new Config();
      failure := None;
      if file.Some? {
        failure := c.Load(file.value, env, dotenv, opts);
      }
    }

    /**
     * `load`: merge the document into the manifest, then resolve the
     * parameters, then report the required names still without a value.
     */
    method Load(doc: Document, env: Env, dotenv: Env, opts: Options) returns (failure: Option<Error>)
      requires Valid()
      modifies this
      ensures (Step(manifest, failure), params) == LoadOutcome(old(manifest), old(params), doc, env, dotenv, opts)
      ensures Valid()
    {
      failure := LoadManifest(doc);
      if failure.Some? {
        return;
      }
      LoadParams(env, dotenv, opts.useDotenv);
      var missing := Missing(manifest, params);
      if opts.raiseOnMissingParams && missing != [] {
        failure := Some(MissingParams(missing));
      }
    }

    /**
     * `load_manifest`: an empty document changes nothing, anything but a
     * mapping is a format error, and a mapping is merged pair by pair until
     * the first pair that raises; every error comes out as a load failure.
     */
    method LoadManifest(doc: Document) returns (failure: Option<Error>)
      requires Valid()
      modifies this
      ensures Step(manifest, failure) == LoadDocument(old(manifest), doc, false)
      ensures params == old(params)
      ensures Valid()
    {
      match doc
      case Unreadable => failure := Some(LoadFailed(ReadFailed));
      case NullDocument => failure := None;
      case NotAMapping => failure := Some(LoadFailed(InvalidFormat));
      case Mapping(pairs) =>
        assert pairs[0..] == pairs;
        var i := 0;
        while i < |pairs|
          invariant 0 <= i <= |pairs|
          invariant Valid() && params == old(params)
          invariant MergePairs(old(manifest), pairs, false) == MergePairs(manifest, pairs[i..], false)
        {
          assert pairs[i..][1..] == pairs[i + 1..];
          var f := MergeManifestKey(pairs[i].0, pairs[i].1);
          if f.Some? {
            failure := Some(LoadFailed(f.value));
            return;
          }
          i := i + 1;
        }
        failure := None;
    }

    /**
     * `load_params`: each declared name, in manifest order, is resolved
     * against the environment (with the `.env` file under it when enabled).
     */
    method LoadParams(env: Env, dotenv: Env, useDotenv: bool)
      requires Valid()
      modifies this
      ensures manifest == old(manifest)
      ensures params == Resolution.LoadParams(manifest, EffectiveEnv(env, dotenv, useDotenv), old(params))
      ensures Valid()
    {
      var e := EffectiveEnv(env, dotenv, useDotenv);
      var rows := Annotate(manifest);
      ghost var start := params;
      assert rows[0..] == rows;
      var i := 0;
      while i < |rows|
        invariant 0 <= i <= |rows|
        invariant manifest == old(manifest)
        invariant ResolveAll(rows, e, start) == ResolveAll(rows[i..], e, params)
      {
        assert rows[i..][1..] == rows[i + 1..];
        var p := rows[i];
        if Truthy(p.constant) {
          params := params[p.name := p.default];
        } else if p.required {
          if p.name in e {
            params := params[p.name := Str(e[p.name])];
          }
        } else {
          params := params[p.name := if p.name in e then Str(e[p.name]) else p.default];
        }
        i := i + 1;
      }
      LoadParamsKeys(manifest, e, start);
    }

    /**
     * `merge_manifest_key(k, v)`: symbolise the key, create the entry if the
     * name is new, then record a description or merge a hash.
     */
    method MergeManifestKey(k: Key, v: Fragment) returns (failure: Option<Error>)
      requires Valid()
      modifies this
      ensures Step(manifest, failure) == MergeKey(old(manifest), k, v, false)
      ensures params == old(params)
      ensures Valid()
    {
      if k.OtherKey? {
        assert MergeKey(manifest, k, v, false) == Step(manifest, Some(NotSymbolisable(k.text)));
        return Some(NotSymbolisable(k.text));
      }
      var name := k.name;
      if name !in manifest.entries {
        manifest := Manifest(manifest.keys + [name], manifest.entries[name := Blank]);
      }
      ghost var touched := manifest;
      assert touched == Touch(old(manifest), name);
      match v {
      case Bare =>
        failure := None;
      case Described(s) =>
        manifest := manifest.(entries := manifest.entries[name := manifest.entries[name].(desc := Some(Str(s)))]);
        failure := None;
      case Record(h) =>
        failure := MergeManifestKeyHash(name, h);
      case Scalar(_) =>
        failure := None;
      }
      ghost var merged := MergeValue(touched.entries[name], v, false, name);
      assert merged == Step(manifest.entries[name], failure);
      assert manifest == touched.(entries := touched.entries[name := merged.state]);
    }

    /**
     * `merge_manifest_key_hash(k, v)`: write `desc`, reject a `const` and
     * `default` mix, then record the default or the const value.
     */
    method MergeManifestKeyHash(name: string, h: RawHash) returns (failure: Option<Error>)
      requires Merge.Valid(manifest) && name in manifest.entries
      modifies this
      ensures manifest == old(manifest).(entries := old(manifest.entries)[name := MergeFields(old(manifest.entries[name]), FieldsOf(h, false), name).state])
      ensures failure == MergeFields(old(manifest.entries[name]), FieldsOf(h, false), name).failure
      ensures params == old(params)
    {
      var desc := Values.Lookup(h, StrKey("desc"));
      var constant := Values.Lookup(h, StrKey("const"));
      var default := Values.Lookup(h, StrKey("default"));
      if desc.Some? {
        manifest := manifest.(entries := manifest.entries[name := manifest.entries[name].(desc := desc)]);
      }
      if constant.Some? && default.Some? {
        return Some(ConstDefaultMix(name));
      }
      if default.Some? {
        manifest := manifest.(entries := manifest.entries[name := manifest.entries[name].(isConst := Some(false))]);
        manifest := manifest.(entries := manifest.entries[name := manifest.entries[name].(default := default)]);
      } else if constant.Some? {
        manifest := manifest.(entries := manifest.entries[name := manifest.entries[name].(isConst := Some(true))]);
        manifest := manifest.(entries := manifest.entries[name := manifest.entries[name].(default := constant)]);
      }
      failure := None;
    }
  }
}
