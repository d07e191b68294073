/**
 * The manifest and how declaration fragments are merged into it
 * (`merge_manifest_key`, `merge_manifest_key_hash`, the merge loop of
 * `load_manifest`, and their copies `merge_key`, `merge_key_hash`, `load`).
 */
module Merge {
  import opened Values

  /**
   * One manifest entry: the hash kept for a name, with optional `:desc`,
   * `:const` and `:default` keys.
   */
  datatype Entry = Entry(desc: Option<Value>, isConst: Option<bool>, default: Option<Value>)

  /** The `{}` that `||=` creates for a name seen for the first time. */
  const Blank := Entry(None, None, None)

  /** `:const` and `:default` are only ever written together. */
  predicate WellFormed(e: Entry) {
    e.isConst.Some? <==> e.default.Some?
  }

  /** The `desc`, `const` and `default` fields of a hash-valued declaration. */
  datatype Fields = Fields(desc: Option<Value>, constant: Option<Value>, default: Option<Value>)

  /** A declaration that sets both `const` and `default`. */
  predicate Mixed(f: Fields) {
    f.constant.Some? && f.default.Some?
  }

  /** A scalar that is neither a string nor `nil`: a YAML number or boolean. */
  type Plain = v: Value | v.Int? || v.Bool? witness Int(0)

  /**
   * The parsed value of `name:` in a manifest: nothing (`nil`), a description
   * string, a hash, or some other scalar.
   */
  datatype Fragment = Bare | Described(text: string) | Record(pairs: RawHash) | Scalar(v: Plain)

  /** A parsed manifest document, as `YAML.load(File.read(...))` yields it. */
  datatype Document =
    | Unreadable                                  // File.read or YAML.load raised
    | NullDocument                                // nil or false: nothing declared
    | Mapping(pairs: seq<(Key, Fragment)>)        // a Hash, in insertion order
    | NotAMapping                                 // any other value

  datatype Error =
    | ReadFailed                                  // the file or its YAML could not be read
    | InvalidFormat                               // "Invalid manifest file format"
    | NotSymbolisable(text: string)               // `to_sym` on a key that has none
    | ConstDefaultMix(name: string)               // "Invalid mix of 'const' and 'default' ..."
    | LoadFailed(cause: Error)                    // "Failed to load manifest file: ..."
    | MissingParams(names: seq<string>)           // "Missing required configurable parameters: ..."
    | UndefinedParameter(name: string)            // ArgumentError "Undefined parameter ..."

  datatype Result<+T> = Success(value: T) | Failure(error: Error)

  /** The state reached by a merge, and the error it raised, if any. */
  datatype Step<+T> = Step(state: T, failure: Option<Error>)

  /** The ordered manifest hash: names in insertion order and their entries. */
  datatype Manifest = Manifest(keys: seq<string>, entries: map<string, Entry>)

  const Empty := Manifest([], map[])

  /** Names are unique, listed exactly once, and every entry is well formed. */
  ghost predicate Valid(m: Manifest) {
    && (forall i, j :: 0 <= i < j < |m.keys| ==> m.keys[i] != m.keys[j])
    && (forall n :: n in m.keys <==> n in m.entries)
    && (forall n :: n in m.entries ==> WellFormed(m.entries[n]))
  }

  /**
   * What a merge never undoes: names keep their position, no name is lost, and
   * an entry with a `:default` keeps one.
   */
  ghost predicate Grows(m: Manifest, m': Manifest) {
    && m.keys <= m'.keys
    && m.entries.Keys <= m'.entries.Keys
    && (forall n :: n in m.entries && m.entries[n].default.Some? ==> m'.entries[n].default.Some?)
  }

  lemma GrowsTransitive(m1: Manifest, m2: Manifest, m3: Manifest)
    requires Grows(m1, m2) && Grows(m2, m3)
    ensures Grows(m1, m3)
  {
    assert m1.keys == m2.keys[..|m1.keys|];
    assert m2.keys == m3.keys[..|m2.keys|];
    assert m1.keys == m3.keys[..|m1.keys|];
  }

  /** The fields of a hash declaration; with `stringify` its keys are first stringified. */
  function FieldsOf(h: RawHash, stringify: bool): Fields {
    var g := if stringify then Stringify(h) else h;
    Fields(Lookup(g, StrKey("desc")), Lookup(g, StrKey("const")), Lookup(g, StrKey("default")))
  }

  /** With stringified keys, a field named by a String or by a Symbol is found alike. */
  lemma StringifiedFields(h: RawHash)
    ensures FieldsOf(h, true) == Fields(LookupText(h, "desc"), LookupText(h, "const"), LookupText(h, "default"))
  {
    StringifiedLookup(h, "desc");
    StringifiedLookup(h, "const");
    StringifiedLookup(h, "default");
  }

  /** Without stringifying, a hash whose field keys are all Symbols declares nothing. */
  lemma SymbolFieldsIgnored(h: RawHash)
    requires forall i :: 0 <= i < |h| ==> h[i].0.SymKey?
    ensures FieldsOf(h, false) == Fields(None, None, None)
  {
  }

  /**
   * `merge_manifest_key_hash` on one entry. The description is written first,
   * so it is kept even when the const/default mix is then rejected.
   */
  function MergeFields(e: Entry, f: Fields, name: string): (r: Step<Entry>)
    ensures r.state.desc == (if f.desc.Some? then f.desc else e.desc)
    ensures r.failure.Some? <==> Mixed(f)
    ensures r.failure.Some? ==> r.failure.value == ConstDefaultMix(name)
    ensures r.failure.None? && f.default.Some? ==> r.state.isConst == Some(false) && r.state.default == f.default
    ensures r.failure.None? && f.constant.Some? ==> r.state.isConst == Some(true) && r.state.default == f.constant
    ensures r.failure.Some? || (f.constant.None? && f.default.None?) ==>
              r.state.isConst == e.isConst && r.state.default == e.default
    ensures WellFormed(e) ==> WellFormed(r.state)
  {
    var described := if f.desc.Some? then e.(desc := f.desc) else e;
    if Mixed(f) then Step(described, Some(ConstDefaultMix(name)))
    else if f.default.Some? then Step(described.(isConst := Some(false), default := f.default), None)
    else if f.constant.Some? then Step(described.(isConst := Some(true), default := f.constant), None)
    else Step(described, None)
  }

  /**
   * Two declarations of one name read as one: each field of the later one
   * wins, and `const`/`default` move together as a single slot.
   */
  function Overlay(f1: Fields, f2: Fields): Fields {
    var slot2 := f2.constant.Some? || f2.default.Some?;
    Fields(if f2.desc.Some? then f2.desc else f1.desc,
           if slot2 then f2.constant else f1.constant,
           if slot2 then f2.default else f1.default)
  }

  /** Merging two declarations one after the other is merging their overlay. */
  lemma MergeFieldsTwice(e: Entry, f1: Fields, f2: Fields, name: string)
    requires !Mixed(f1) && !Mixed(f2)
    ensures MergeFields(e, f1, name).failure.None?
    ensures MergeFields(MergeFields(e, f1, name).state, f2, name) == MergeFields(e, Overlay(f1, f2), name)
  {
  }

  /** `merge_manifest_key` on the entry of the name, once it exists. */
  function MergeValue(e: Entry, v: Fragment, stringify: bool, name: string): (r: Step<Entry>)
    ensures r.failure.Some? <==> v.Record? && Mixed(FieldsOf(v.pairs, stringify))
    ensures !v.Record? && !v.Described? ==> r.state == e
    ensures v.Described? ==> r.state == e.(desc := Some(Str(v.text)))
    ensures e.default.Some? ==> r.state.default.Some?
    ensures WellFormed(e) ==> WellFormed(r.state)
  {
    match v
    case Bare => Step(e, None)
    case Described(s) => Step(e.(desc := Some(Str(s))), None)
    case Record(h) => MergeFields(e, FieldsOf(h, stringify), name)
    case Scalar(_) => Step(e, None)
  }

  /** `@manifest[k] ||= {}`: a new name is appended with an empty entry. */
  function Touch(m: Manifest, name: string): (r: Manifest)
    requires Valid(m)
    ensures Valid(r) && Grows(m, r) && name in r.entries
    ensures name in m.entries ==> r == m
    ensures name !in m.entries ==> r.keys == m.keys + [name] && r.entries[name] == Blank
    ensures forall n :: n in m.entries ==> r.entries[n] == m.entries[n]
  {
    if name in m.entries then m else Manifest(m.keys + [name], m.entries[name := Blank])
  }

  /** Whether merging `k: v` goes through without raising. */
  predicate Accepted(k: Key, v: Fragment, stringify: bool) {
    !k.OtherKey? && !(v.Record? && Mixed(FieldsOf(v.pairs, stringify)))
  }

  /** The error raised by merging a pair that is not accepted. */
  function Rejection(k: Key): Error {
    if k.OtherKey? then NotSymbolisable(k.text) else ConstDefaultMix(k.name)
  }

  /**
   * `merge_manifest_key(k, v)`: the key is symbolised, the entry created if
   * new, then the fragment merged into it; no other entry changes.
   */
  function MergeKey(m: Manifest, k: Key, v: Fragment, stringify: bool): (r: Step<Manifest>)
    requires Valid(m)
    ensures Valid(r.state) && Grows(m, r.state)
  {
    match ToSym(k)
    case None => Step(m, Some(NotSymbolisable(k.text)))
    case Some(name) =>
      var touched := Touch(m, name);
      var s := MergeValue(touched.entries[name], v, stringify, name);
      Step(touched.(entries := touched.entries[name := s.state]), s.failure)
  }

  /** A merge raises exactly when the key has no `to_sym` or the hash mixes `const` and `default`. */
  lemma MergeKeyFailure(m: Manifest, k: Key, v: Fragment, stringify: bool)
    requires Valid(m)
    ensures MergeKey(m, k, v, stringify).failure ==
              if Accepted(k, v, stringify) then None else Some(Rejection(k))
  {
  }

  /**
   * A key without `to_sym` changes nothing; otherwise the name is appended
   * when new, and no entry but the merged name's changes.
   */
  lemma MergeKeyFrame(m: Manifest, k: Key, v: Fragment, stringify: bool)
    requires Valid(m)
    ensures k.OtherKey? ==> MergeKey(m, k, v, stringify).state == m
    ensures !k.OtherKey? ==> MergeKey(m, k, v, stringify).state.keys == Touch(m, k.name).keys
    ensures forall n :: n in m.entries && (k.OtherKey? || n != k.name) ==>
              MergeKey(m, k, v, stringify).state.entries[n] == m.entries[n]
  {
  }

  /** A name seen for the first time is appended, with the fragment merged into an empty entry. */
  lemma MergeKeyNew(m: Manifest, name: string, v: Fragment, stringify: bool)
    requires Valid(m) && name !in m.entries
    ensures MergeKey(m, StrKey(name), v, stringify) ==
              var s := MergeValue(Blank, v, stringify, name);
              Step(Manifest(m.keys + [name], m.entries[name := s.state]), s.failure)
  {
    var touched := Touch(m, name);
    assert touched.entries[name := MergeValue(Blank, v, stringify, name).state] == m.entries[name := MergeValue(Blank, v, stringify, name).state];
  }

  /**
   * The `each` loop of `load_manifest`: pairs are merged in order and the
   * first rejected pair stops the loop, leaving the pairs before it merged.
   */
  function MergePairs(m: Manifest, pairs: seq<(Key, Fragment)>, stringify: bool): (r: Step<Manifest>)
    requires Valid(m)
    ensures Valid(r.state) && Grows(m, r.state)
    decreases |pairs|
  {
    if pairs == [] then Step(m, None)
    else
      var s := MergeKey(m, pairs[0].0, pairs[0].1, stringify);
      if s.failure.Some? then s
      else
        var r := MergePairs(s.state, pairs[1..], stringify);
        GrowsTransitive(m, s.state, r.state);
        r
  }

  /** The position of the first pair the merge loop rejects, or the number of pairs when none is. */
  function FirstRejected(pairs: seq<(Key, Fragment)>, stringify: bool): (i: nat)
    ensures i <= |pairs|
    ensures forall j :: 0 <= j < i ==> Accepted(pairs[j].0, pairs[j].1, stringify)
    ensures i < |pairs| ==> !Accepted(pairs[i].0, pairs[i].1, stringify)
    decreases |pairs|
  {
    if pairs == [] || !Accepted(pairs[0].0, pairs[0].1, stringify) then 0
    else
      var i := FirstRejected(pairs[1..], stringify);
      assert forall j :: 1 <= j <= i ==> pairs[j] == pairs[1..][j - 1];
      1 + i
  }

  /** The first rejected position of a non-empty list, one pair at a time. */
  lemma FirstRejectedCons(pairs: seq<(Key, Fragment)>, stringify: bool)
    requires pairs != []
    ensures FirstRejected(pairs, stringify) ==
              if Accepted(pairs[0].0, pairs[0].1, stringify) then 1 + FirstRejected(pairs[1..], stringify) else 0
  {
  }

  /** The merge loop over a non-empty list: the first pair, then the rest unless it raised. */
  lemma MergePairsCons(m: Manifest, pairs: seq<(Key, Fragment)>, stringify: bool)
    requires Valid(m) && pairs != []
    ensures var s := MergeKey(m, pairs[0].0, pairs[0].1, stringify);
            MergePairs(m, pairs, stringify) == if s.failure.Some? then s else MergePairs(s.state, pairs[1..], stringify)
  {
  }

  /** The error the merge loop raises is the one of the first rejected pair. */
  lemma {:induction false} FirstRejection(m: Manifest, pairs: seq<(Key, Fragment)>, stringify: bool)
    requires Valid(m)
    ensures MergePairs(m, pairs, stringify).failure ==
              if FirstRejected(pairs, stringify) < |pairs| then Some(Rejection(pairs[FirstRejected(pairs, stringify)].0))
              else None
    decreases |pairs|
  {
    if pairs == [] {
      return;
    }
    var s := MergeKey(m, pairs[0].0, pairs[0].1, stringify);
    MergeKeyFailure(m, pairs[0].0, pairs[0].1, stringify);
    FirstRejectedCons(pairs, stringify);
    MergePairsCons(m, pairs, stringify);
    if Accepted(pairs[0].0, pairs[0].1, stringify) {
      FirstRejection(s.state, pairs[1..], stringify);
      var i := FirstRejected(pairs[1..], stringify);
      if i < |pairs[1..]| {
        assert pairs[1..][i] == pairs[i + 1];
      }
    }
  }

  /**
   * `load_manifest` after the file is read: nothing to do for an empty
   * document, a format error for a non-Hash, otherwise the merge loop; every
   * error is re-raised as a load failure.
   */
  function LoadDocument(m: Manifest, doc: Document, stringify: bool): (r: Step<Manifest>)
    requires Valid(m)
    ensures Valid(r.state) && Grows(m, r.state)
    ensures !doc.Mapping? ==> r.state == m
    ensures r.failure.None? <==>
              doc.NullDocument? ||
              (doc.Mapping? && forall i :: 0 <= i < |doc.pairs| ==> Accepted(doc.pairs[i].0, doc.pairs[i].1, stringify))
    ensures r.failure.Some? ==> r.failure.value.LoadFailed?
  {
    match doc
    case Unreadable => Step(m, Some(LoadFailed(ReadFailed)))
    case NullDocument => Step(m, None)
    case NotAMapping => Step(m, Some(LoadFailed(InvalidFormat)))
    case Mapping(pairs) =>
      var s := MergePairs(m, pairs, stringify);
      FirstRejection(m, pairs, stringify);
      if s.failure.Some? then Step(s.state, Some(LoadFailed(s.failure.value))) else s
  }

  /** Merging the same declaration twice is merging it once. */
  lemma MergeKeyIdempotent(m: Manifest, k: Key, v: Fragment, stringify: bool)
    requires Valid(m) && Accepted(k, v, stringify)
    ensures MergeKey(MergeKey(m, k, v, stringify).state, k, v, stringify) == MergeKey(m, k, v, stringify)
  {
    var once := MergeKey(m, k, v, stringify);
    var name := k.name;
    var first := MergeValue(Touch(m, name).entries[name], v, stringify, name);
    assert once.state.entries[name] == first.state;
    assert Touch(once.state, name) == once.state;
    assert MergeValue(first.state, v, stringify, name) == first;
    assert once.state.entries[name := first.state] == once.state.entries;
  }
}
