/**
 * Resolution of parameter values against the environment, and the read-only
 * views of a Config: the annotated manifest, the missing parameters, keyed
 * lookup, `include?` and the `to_h` snapshot.
 */
module Resolution {
  import opened Values
  import opened Merge

  /** A snapshot of the process environment. */
  type Env = map<string, string>

  /** The current parameter values (`@params`). */
  type Params = map<string, Value>

  /** The load options, already merged with the module's defaults. */
  datatype Options = Options(raiseOnMissingParams: bool, useDotenv: bool)

  /** One row of the annotated manifest: `{name:, desc:, required:, const:, default:}`. */
  datatype Info = Info(name: string, desc: Value, required: bool, constant: Value, default: Value)

  /** An entry without a `:default` key is required. */
  predicate Required(m: Manifest, n: string) {
    n in m.entries && m.entries[n].default.None?
  }

  function Annotation(n: string, e: Entry): Info {
    Info(n, e.desc.GetOr(Nil), e.default.None?,
         match e.isConst case None => Nil case Some(b) => Bool(b),
         e.default.GetOr(Nil))
  }

  function AnnotateKeys(keys: seq<string>, m: Manifest): (r: seq<Info>)
    requires forall n :: n in keys ==> n in m.entries
    ensures |r| == |keys|
    ensures forall i :: 0 <= i < |r| ==> r[i] == Annotation(keys[i], m.entries[keys[i]])
    decreases |keys|
  {
    if keys == [] then [] else [Annotation(keys[0], m.entries[keys[0]])] + AnnotateKeys(keys[1..], m)
  }

  /**
   * `manifest`: one row per name in manifest order; a row is required exactly
   * when its entry has no `:default`, and its `const` is truthy exactly when
   * the entry was declared `const`.
   */
  function Annotate(m: Manifest): (r: seq<Info>)
    requires Valid(m)
    ensures |r| == |m.keys|
    ensures forall i :: 0 <= i < |r| ==> r[i].name == m.keys[i]
    ensures forall i :: 0 <= i < |r| ==> (r[i].required <==> Required(m, m.keys[i]))
    ensures forall i :: 0 <= i < |r| ==> (Truthy(r[i].constant) <==> m.entries[m.keys[i]].isConst == Some(true))
    ensures forall i :: 0 <= i < |r| ==> r[i].default == m.entries[m.keys[i]].default.GetOr(Nil)
    ensures forall i :: 0 <= i < |r| ==> r[i].desc == m.entries[m.keys[i]].desc.GetOr(Nil)
  {
    AnnotateKeys(m.keys, m)
  }

  /**
   * `Dotenv.load`: variables from the `.env` file are added, but one the
   * environment already sets keeps its value.
   */
  function WithDotenv(env: Env, file: Env): (r: Env)
    ensures r.Keys == env.Keys + file.Keys
    ensures forall n :: n in env ==> r[n] == env[n]
    ensures forall n :: n in file && n !in env ==> r[n] == file[n]
  {
    file + env
  }

  /** The environment `load_params` reads. */
  function EffectiveEnv(env: Env, file: Env, useDotenv: bool): Env {
    if useDotenv then WithDotenv(env, file) else env
  }

  /** One iteration of the `load_params` loop. */
  function Resolve(p: Info, env: Env, params: Params): Params {
    if Truthy(p.constant) then params[p.name := p.default]
    else if p.required then (if p.name in env then params[p.name := Str(env[p.name])] else params)
    else params[p.name := if p.name in env then Str(env[p.name]) else p.default]
  }

  /** The `load_params` loop over the annotated rows, in order. */
  function ResolveAll(ps: seq<Info>, env: Env, params: Params): Params
    decreases |ps|
  {
    if ps == [] then params else ResolveAll(ps[1..], env, Resolve(ps[0], env, params))
  }

  /** `load_params` against the environment `env`. */
  function LoadParams(m: Manifest, env: Env, params: Params): Params
    requires Valid(m)
  {
    ResolveAll(Annotate(m), env, params)
  }

  /** The value `load_params` gives one row, or `previous` when it leaves the name alone. */
  function RuleFor(p: Info, env: Env, previous: Option<Value>): Option<Value> {
    if Truthy(p.constant) then Some(p.default)
    else if p.name in env then Some(Str(env[p.name]))
    else if p.required then previous
    else Some(p.default)
  }

  function Get(params: Params, n: string): Option<Value> {
    if n in params then Some(params[n]) else None
  }

  /** Each name is written by its own row only; other names are left alone. */
  lemma {:induction false} ResolveAllAt(ps: seq<Info>, env: Env, params: Params, n: string)
    requires forall i, j :: 0 <= i < j < |ps| ==> ps[i].name != ps[j].name
    ensures (forall i :: 0 <= i < |ps| ==> ps[i].name != n) ==> Get(ResolveAll(ps, env, params), n) == Get(params, n)
    ensures forall i :: 0 <= i < |ps| && ps[i].name == n ==>
              Get(ResolveAll(ps, env, params), n) == RuleFor(ps[i], env, Get(params, n))
    decreases |ps|
  {
    if ps != [] {
      var next := Resolve(ps[0], env, params);
      ResolveAllAt(ps[1..], env, next, n);
      assert forall i :: 1 <= i < |ps| ==> ps[i] == ps[1..][i - 1];
      if ps[0].name == n {
        assert Get(next, n) == RuleFor(ps[0], env, Get(params, n));
      } else {
        assert Get(next, n) == Get(params, n);
      }
    }
  }

  /**
   * The resolution rules of `load_params`: a const entry takes its declared
   * value whatever the environment holds; an optional entry takes the
   * environment's value, else its default; a required entry takes the
   * environment's value when there is one and is otherwise left as it was.
   * Names outside the manifest are never touched.
   */
  lemma LoadParamsRules(m: Manifest, env: Env, params: Params, n: string)
    requires Valid(m)
    ensures n !in m.entries ==> Get(LoadParams(m, env, params), n) == Get(params, n)
    ensures n in m.entries && m.entries[n].isConst == Some(true) ==>
              Get(LoadParams(m, env, params), n) == Some(m.entries[n].default.GetOr(Nil))
    ensures n in m.entries && m.entries[n].isConst != Some(true) && m.entries[n].default.Some? ==>
              Get(LoadParams(m, env, params), n) ==
                Some(if n in env then Str(env[n]) else m.entries[n].default.value)
    ensures Required(m, n) && m.entries[n].isConst != Some(true) ==>
              Get(LoadParams(m, env, params), n) == (if n in env then Some(Str(env[n])) else Get(params, n))
  {
    var ps := Annotate(m);
    ResolveAllAt(ps, env, params, n);
    if n in m.entries {
      var i :| 0 <= i < |m.keys| && m.keys[i] == n;
      assert ps[i].name == n;
    }
  }

  /** `@params` never gains a name the manifest does not declare. */
  lemma LoadParamsKeys(m: Manifest, env: Env, params: Params)
    requires Valid(m) && params.Keys <= m.entries.Keys
    ensures params.Keys <= LoadParams(m, env, params).Keys <= m.entries.Keys
  {
    var r := LoadParams(m, env, params);
    forall n | n in r ensures n in m.entries {
      LoadParamsRules(m, env, params, n);
    }
    forall n | n in params ensures n in r {
      LoadParamsRules(m, env, params, n);
    }
  }

  function MissingAmong(keys: seq<string>, m: Manifest, params: Params): (r: seq<string>)
    requires forall n :: n in keys ==> n in m.entries
    ensures forall n :: n in r <==> n in keys && Required(m, n) && n !in params
    ensures (forall i, j :: 0 <= i < j < |keys| ==> keys[i] != keys[j]) ==>
              forall i, j :: 0 <= i < j < |r| ==> r[i] != r[j]
    decreases |keys|
  {
    if keys == [] then []
    else
      var rest := MissingAmong(keys[1..], m, params);
      assert forall n :: n in keys[1..] ==> n in keys;
      if Required(m, keys[0]) && keys[0] !in params then [keys[0]] + rest else rest
  }

  /**
   * `missing_params`: the required names without a value, each once, in
   * manifest order.
   */
  function Missing(m: Manifest, params: Params): (r: seq<string>)
    requires Valid(m)
    ensures forall n :: n in r <==> Required(m, n) && n !in params
    ensures forall i, j :: 0 <= i < j < |r| ==> r[i] != r[j]
  {
    MissingAmong(m.keys, m, params)
  }

  /** `include?(name)`: whether the symbolised name is declared. */
  function Includes(m: Manifest, key: Key): (r: Result<bool>)
    ensures r.Failure? <==> key.OtherKey?
    ensures r.Success? ==> (r.value <==> key.name in m.entries)
  {
    match ToSym(key)
    case None => Failure(NotSymbolisable(key.text))
    case Some(n) => Success(n in m.entries)
  }

  /**
   * `config[key]`: an undeclared name raises, a declared one gives its value,
   * or `nil` when it has none. String and Symbol keys are alike.
   */
  function Lookup(m: Manifest, params: Params, key: Key): (r: Result<Value>)
    ensures r.Success? <==> Includes(m, key) == Success(true)
    ensures !key.OtherKey? && key.name !in m.entries ==> r == Failure(UndefinedParameter(key.name))
    ensures r.Success? && key.name in params ==> r.value == params[key.name]
    ensures r.Success? && key.name !in params ==> r.value == Nil
  {
    match ToSym(key)
    case None => Failure(NotSymbolisable(key.text))
    case Some(n) =>
      if n !in m.entries then Failure(UndefinedParameter(n))
      else Success(if n in params then params[n] else Nil)
  }

  function SnapshotOf(keys: seq<string>, m: Manifest, params: Params): (r: seq<(string, Value)>)
    requires forall n :: n in keys ==> n in m.entries
    ensures |r| == |keys|
    ensures forall i :: 0 <= i < |r| ==> r[i].0 == keys[i] && Lookup(m, params, SymKey(keys[i])) == Success(r[i].1)
    decreases |keys|
  {
    if keys == [] then []
    else [(keys[0], if keys[0] in params then params[keys[0]] else Nil)] + SnapshotOf(keys[1..], m, params)
  }

  /**
   * `to_h`: exactly the declared names, in manifest order, each with what
   * `config[name]` returns.
   */
  function Snapshot(m: Manifest, params: Params): (r: seq<(string, Value)>)
    requires Valid(m)
    ensures |r| == |m.keys|
    ensures forall i :: 0 <= i < |r| ==> r[i].0 == m.keys[i] && Lookup(m, params, SymKey(m.keys[i])) == Success(r[i].1)
    ensures forall n :: n in m.entries <==> exists i :: 0 <= i < |r| && r[i].0 == n
  {
    var r := SnapshotOf(m.keys, m, params);
    assert forall n :: n in m.entries ==> exists i :: 0 <= i < |r| && r[i].0 == n by {
      forall n | n in m.entries ensures exists i :: 0 <= i < |r| && r[i].0 == n {
        var i :| 0 <= i < |m.keys| && m.keys[i] == n;
        assert r[i].0 == n;
      }
    }
    r
  }

  /**
   * After a load that raised nothing with `raise_on_missing_params` set, every
   * required name has a value.
   */
  lemma NothingMissing(m: Manifest, params: Params)
    requires Valid(m) && Missing(m, params) == []
    ensures forall n :: n in m.entries && m.entries[n].default.None? ==> n in params
  {
    forall n | n in m.entries && m.entries[n].default.None? ensures n in params {
      assert n !in Missing(m, params);
    }
  }

  /**
   * What `load` leaves behind from a manifest and parameters: the merged
   * manifest with the error raised, if any, and the parameters. A failed
   * merge raises before the parameters are touched; otherwise they are
   * resolved, and the missing required names are reported when asked.
   */
  function LoadOutcome(m: Manifest, params: Params, doc: Document, env: Env, dotenv: Env, opts: Options)
    : (r: (Step<Manifest>, Params))
    requires Valid(m) && params.Keys <= m.entries.Keys
    ensures Valid(r.0.state) && Grows(m, r.0.state) && r.1.Keys <= r.0.state.entries.Keys
    ensures r.0.state == LoadDocument(m, doc, false).state
    ensures LoadDocument(m, doc, false).failure.Some? ==> r.0.failure == LoadDocument(m, doc, false).failure && r.1 == params
    ensures LoadDocument(m, doc, false).failure.None? ==>
              r.1 == LoadParams(r.0.state, EffectiveEnv(env, dotenv, opts.useDotenv), params)
    ensures LoadDocument(m, doc, false).failure.None? ==>
              (r.0.failure.Some? <==> opts.raiseOnMissingParams && Missing(r.0.state, r.1) != [])
    ensures r.0.failure.Some? && LoadDocument(m, doc, false).failure.None? ==>
              r.0.failure.value == MissingParams(Missing(r.0.state, r.1))
  {
    var s := LoadDocument(m, doc, false);
    if s.failure.Some? then (s, params)
    else
      var p := LoadParams(s.state, EffectiveEnv(env, dotenv, opts.useDotenv), params);
      LoadParamsKeys(s.state, EffectiveEnv(env, dotenv, opts.useDotenv), params);
      var missing := Missing(s.state, p);
      (Step(s.state, if opts.raiseOnMissingParams && missing != [] then Some(MissingParams(missing)) else None), p)
  }

  /**
   * A load that raised nothing while `raise_on_missing_params` was set leaves
   * every required name of the merged manifest with a value.
   */
  lemma LoadLeavesNothingMissing(m: Manifest, params: Params, doc: Document, env: Env, dotenv: Env, opts: Options)
    requires Valid(m) && params.Keys <= m.entries.Keys
    requires opts.raiseOnMissingParams
    requires LoadOutcome(m, params, doc, env, dotenv, opts).0.failure.None?
    ensures forall n :: Required(LoadOutcome(m, params, doc, env, dotenv, opts).0.state, n) ==>
              n in LoadOutcome(m, params, doc, env, dotenv, opts).1
  {
    var r := LoadOutcome(m, params, doc, env, dotenv, opts);
    NothingMissing(r.0.state, r.1);
  }
}
