/**
 * The Ruby values the configuration engine handles: YAML scalars, hash keys
 * and insertion-ordered hashes.
 */
module Values {

  datatype Option<+T> = None | Some(value: T) {
    /** The value, or `default` when there is none. */
    function GetOr(default: T): T {
      match this
      case Some(v) => v
      case None => default
    }
  }

  /** A scalar as YAML or the environment delivers it. */
  datatype Value = Nil | Str(s: string) | Int(i: int) | Bool(b: bool)

  /** Ruby truthiness: everything except `nil` and `false`. */
  predicate Truthy(v: Value) {
    !v.Nil? && v != Bool(false)
  }

  /**
   * A hash key: a String, a Symbol, or any other object (an Integer, `true`,
   * ...), which has a `to_s` text but no `to_sym`.
   */
  datatype Key = StrKey(name: string) | SymKey(name: string) | OtherKey(text: string)

  /** `key.to_sym`: defined for String and Symbol keys only. */
  function ToSym(k: Key): Option<string> {
    if k.OtherKey? then None else Some(k.name)
  }

  /** `key.to_s`. */
  function KeyText(k: Key): string {
    if k.OtherKey? then k.text else k.name
  }

  /** A Ruby Hash, as its bindings in insertion order. */
  type RawHash = seq<(Key, Value)>

  /** `h.key?(k) ? h[k] : nothing`; a later binding of the same key wins. */
  function Lookup(h: RawHash, k: Key): (r: Option<Value>)
    ensures r.Some? <==> exists i :: 0 <= i < |h| && h[i].0 == k
    ensures r.Some? ==> exists i :: 0 <= i < |h| && h[i] == (k, r.value)
    decreases |h|
  {
    if h == [] then None
    else if h[|h| - 1].0 == k then Some(h[|h| - 1].1)
    else Lookup(h[..|h| - 1], k)
  }

  /** `h.stringify_keys`: every key replaced by its `to_s`, order kept. */
  function Stringify(h: RawHash): (r: RawHash)
    decreases |h|
  {
    if h == [] then [] else Stringify(h[..|h| - 1]) + [(StrKey(KeyText(h[|h| - 1].0)), h[|h| - 1].1)]
  }

  /** The value of the last binding whose key reads as `n`, String or Symbol alike. */
  function LookupText(h: RawHash, n: string): Option<Value>
    decreases |h|
  {
    if h == [] then None
    else if KeyText(h[|h| - 1].0) == n then Some(h[|h| - 1].1)
    else LookupText(h[..|h| - 1], n)
  }

  /** After `stringify_keys`, a String lookup finds `'desc'` and `:desc` alike. */
  lemma {:induction false} StringifiedLookup(h: RawHash, n: string)
    ensures Lookup(Stringify(h), StrKey(n)) == LookupText(h, n)
    decreases |h|
  {
    if h != [] {
      var init := h[..|h| - 1];
      StringifiedLookup(init, n);
      assert Stringify(h)[..|Stringify(h)| - 1] == Stringify(init) by {
        StringifyLength(init);
      }
    }
  }

  lemma {:induction false} StringifyLength(h: RawHash)
    ensures |Stringify(h)| == |h|
    decreases |h|
  {
    if h != [] {
      StringifyLength(h[..|h| - 1]);
    }
  }

  /** A hash whose keys are all Strings is left as it is by `stringify_keys`. */
  lemma {:induction false} StringifyStringKeys(h: RawHash)
    requires forall i :: 0 <= i < |h| ==> h[i].0.StrKey?
    ensures Stringify(h) == h
    decreases |h|
  {
    if h != [] {
      var init := h[..|h| - 1];
      StringifyStringKeys(init);
      assert init + [h[|h| - 1]] == h;
    }
  }
}
