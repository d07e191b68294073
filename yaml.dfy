/**
 * `Manifest#to_yaml` and `value_to_yaml`: the manifest printed back as
 * manifest text, one block of lines per entry.
 */
module Yaml {
  import opened Values
  import opened Merge

  function Digit(d: nat): (c: char)
    requires d < 10
    ensures '0' <= c <= '9'
  {
    "0123456789"[d]
  }

  function NatText(n: nat): (r: string)
    ensures |r| > 0 && '0' <= r[0] <= '9'
    decreases n
  {
    if n < 10 then [Digit(n)] else NatText(n / 10) + [Digit(n % 10)]
  }

  /** `Integer#inspect`: decimal digits, with a leading `-` when negative. */
  function IntText(i: int): (r: string)
    ensures |r| > 0 && (r[0] == '-' || '0' <= r[0] <= '9')
  {
    if i < 0 then "-" + NatText(-i) else NatText(i)
  }

  /** The escapes `String#inspect` writes for quotes, backslashes and common control characters. */
  function Escape(s: string): string
    decreases |s|
  {
    if s == [] then ""
    else
      var c := s[0];
      var e := if c == '"' then "\\\"" else if c == '\\' then "\\\\"
               else if c == '\n' then "\\n" else if c == '\t' then "\\t"
               else if c == '\r' then "\\r" else [c];
      e + Escape(s[1..])
  }

  /** `inspect` of a scalar. */
  function Inspect(v: Value): string {
    match v
    case Nil => "nil"
    case Bool(b) => if b then "true" else "false"
    case Int(i) => IntText(i)
    case Str(s) => "\"" + Escape(s) + "\""
  }

  /**
   * `value_to_yaml`: `nil` becomes the YAML comment `# nil`, so that it reads
   * back as null; no other value's text starts a comment.
   */
  function ValueToYaml(v: Value): (r: string)
    ensures |r| > 0
    ensures r[0] == '#' <==> v.Nil?
    ensures v.Str? ==> r[0] == '"'
  {
    if v.Nil? then "# nil" else Inspect(v)
  }

  /**
   * The lines `to_yaml` writes for one entry. An entry with a `:const` key is
   * written as a nested block: a bare header, a `desc:` line when it has a
   * description, then a `const:` line when it is const, or else a `default:`
   * line when it has a default. Any other entry is a single line, carrying
   * the description if there is one. Every block ends with an empty line.
   */
  function Block(k: string, e: Entry): (r: seq<string>)
    ensures 2 <= |r| && r[|r| - 1] == ""
    ensures forall i :: 0 <= i < |r| - 1 ==> r[i] != ""
    ensures |k| < |r[0]| && r[0][..|k| + 1] == k + ":"
    ensures e.isConst.Some? ==> r[0] == k + ":"
    ensures e.isConst.None? ==> |r| == 2
  {
    var lines :=
      if e.isConst.Some? then
        [k + ":"]
        + (if e.desc.Some? then ["  desc: " + ValueToYaml(e.desc.value)] else [])
        + (if e.isConst.value then ["  const: " + ValueToYaml(e.default.GetOr(Nil))]
           else if e.default.Some? then ["  default: " + ValueToYaml(e.default.value)]
           else [])
      else if e.desc.Some? then [k + ": " + ValueToYaml(e.desc.value)]
      else [k + ":"];
    assert (k + ":")[..|k| + 1] == k + ":";
    assert e.desc.Some? ==> (k + ": " + ValueToYaml(e.desc.value))[..|k| + 1] == k + ":";
    lines + [""]
  }

  /** The `out` array after the loop has visited `keys`. */
  function Lines(keys: seq<string>, entries: map<string, Entry>): seq<string>
    requires forall n :: n in keys ==> n in entries
    decreases |keys|
  {
    if keys == [] then []
    else Lines(keys[..|keys| - 1], entries) + Block(keys[|keys| - 1], entries[keys[|keys| - 1]])
  }

  /** `out.join("\n")`. */
  function Join(lines: seq<string>, sep: string): string
    decreases |lines|
  {
    if lines == [] then ""
    else if |lines| == 1 then lines[0]
    else lines[0] + sep + Join(lines[1..], sep)
  }

  /** `to_yaml`. */
  function Text(m: Manifest): string
    requires Valid(m)
  {
    Join(Lines(m.keys, m.entries), "\n")
  }

  function CountBlank(lines: seq<string>): nat
    decreases |lines|
  {
    if lines == [] then 0 else (if lines[0] == "" then 1 else 0) + CountBlank(lines[1..])
  }

  lemma {:induction false} CountBlankAppend(a: seq<string>, b: seq<string>)
    ensures CountBlank(a + b) == CountBlank(a) + CountBlank(b)
    decreases |a|
  {
    if a == [] {
      assert a + b == b;
    } else {
      assert (a + b)[0] == a[0];
      assert (a + b)[1..] == a[1..] + b;
      CountBlankAppend(a[1..], b);
    }
  }

  lemma {:induction false} CountBlankLastOnly(lines: seq<string>)
    requires |lines| > 0 && lines[|lines| - 1] == ""
    requires forall i :: 0 <= i < |lines| - 1 ==> lines[i] != ""
    ensures CountBlank(lines) == 1
    decreases |lines|
  {
    if |lines| > 1 {
      CountBlankLastOnly(lines[1..]);
    }
  }

  /**
   * The printed manifest has one empty line per entry, each one closing that
   * entry's block.
   */
  lemma {:induction false} OneBlankPerEntry(keys: seq<string>, entries: map<string, Entry>)
    requires forall n :: n in keys ==> n in entries
    ensures CountBlank(Lines(keys, entries)) == |keys|
    decreases |keys|
  {
    if keys != [] {
      var init := keys[..|keys| - 1];
      var last := keys[|keys| - 1];
      OneBlankPerEntry(init, entries);
      CountBlankAppend(Lines(init, entries), Block(last, entries[last]));
      CountBlankLastOnly(Block(last, entries[last]));
    }
  }

  /** A fragment written back as manifest text. */
  function FieldLines(h: RawHash): seq<string>
    decreases |h|
  {
    if h == [] then [] else ["  " + KeyText(h[0].0) + ": " + ValueToYaml(h[0].1)] + FieldLines(h[1..])
  }

  function Render(k: string, v: Fragment): seq<string> {
    match v
    case Bare => [k + ":"]
    case Described(s) => [k + ": " + ValueToYaml(Str(s))]
    case Scalar(x) => [k + ": " + ValueToYaml(x)]
    case Record(h) => [k + ":"] + FieldLines(h)
  }

  /** The `desc` field of the record written for a const-keyed entry. */
  function DescPart(e: Entry): (r: RawHash)
    ensures |r| <= 1
  {
    if e.desc.Some? then [(StrKey("desc"), e.desc.value)] else []
  }

  /** The `const` or `default` field of the record written for a const-keyed entry. */
  function SlotPart(e: Entry): (r: RawHash)
    requires e.isConst.Some?
    ensures |r| <= 1
  {
    if e.isConst.value then [(StrKey("const"), e.default.GetOr(Nil))]
    else if e.default.Some? then [(StrKey("default"), e.default.value)]
    else []
  }

  /** The declaration that the block of an entry writes. */
  function Declared(e: Entry): Fragment {
    if e.isConst.Some? then Record(DescPart(e) + SlotPart(e))
    else if e.desc.None? then Bare
    else if e.desc.value.Str? then Described(e.desc.value.s)
    else if e.desc.value.Nil? then Bare
    else Scalar(e.desc.value)
  }

  /**
   * Each block is exactly the text of the declaration `Declared` names, except
   * that a `nil` description prints as a trailing comment, which a reader
   * drops, leaving the bare header.
   */
  lemma BlockWritesDeclaration(k: string, e: Entry)
    ensures e.isConst.None? && e.desc == Some(Nil) ==>
              Block(k, e) == [k + ": " + ValueToYaml(Nil), ""] && Declared(e) == Bare
    ensures !(e.isConst.None? && e.desc == Some(Nil)) ==> Block(k, e) == Render(k, Declared(e)) + [""]
  {
    if e.isConst.Some? {
      FieldLinesAppend(DescPart(e), SlotPart(e));
      DescLines(e);
      SlotLines(e);
    }
  }

  /** The `desc:` line of a nested block. */
  lemma DescLines(e: Entry)
    ensures FieldLines(DescPart(e)) == if e.desc.Some? then ["  desc: " + ValueToYaml(e.desc.value)] else []
  {
    if e.desc.Some? {
      FieldLinesOne(DescPart(e)[0]);
      assert "  " + "desc" + ": " + ValueToYaml(e.desc.value) == "  desc: " + ValueToYaml(e.desc.value);
    }
  }

  /** The `const:` or `default:` line of a nested block. */
  lemma SlotLines(e: Entry)
    requires e.isConst.Some?
    ensures FieldLines(SlotPart(e)) ==
              if e.isConst.value then ["  const: " + ValueToYaml(e.default.GetOr(Nil))]
              else if e.default.Some? then ["  default: " + ValueToYaml(e.default.value)]
              else []
  {
    if e.isConst.value {
      FieldLinesOne(SlotPart(e)[0]);
      assert "  " + "const" + ": " + ValueToYaml(e.default.GetOr(Nil)) == "  const: " + ValueToYaml(e.default.GetOr(Nil));
    } else if e.default.Some? {
      FieldLinesOne(SlotPart(e)[0]);
      assert "  " + "default" + ": " + ValueToYaml(e.default.value) == "  default: " + ValueToYaml(e.default.value);
    }
  }

  lemma FieldLinesOne(x: (Key, Value))
    ensures FieldLines([x]) == ["  " + KeyText(x.0) + ": " + ValueToYaml(x.1)]
  {
    assert [x][1..] == [];
  }

  lemma {:induction false} FieldLinesAppend(a: RawHash, b: RawHash)
    ensures FieldLines(a + b) == FieldLines(a) + FieldLines(b)
    decreases |a|
  {
    if a == [] {
      assert a + b == b;
    } else {
      assert (a + b)[0] == a[0];
      assert (a + b)[1..] == a[1..] + b;
      FieldLinesAppend(a[1..], b);
    }
  }

  /**
   * An entry the printer can write so that it reads back as itself: a well
   * formed entry whose description, when it is printed on the header line,
   * is a string.
   */
  predicate Reloadable(e: Entry) {
    WellFormed(e) && (e.isConst.Some? || e.desc.None? || e.desc.value.Str?)
  }

  /**
   * Merging the declaration a block writes into a fresh entry rebuilds the
   * entry exactly when the entry is reloadable; a non-string description on
   * a single-line block reads back as a plain scalar and is lost.
   */
  lemma ReloadEntry(e: Entry, stringify: bool, name: string)
    ensures MergeValue(Blank, Declared(e), stringify, name) == Step(e, None) <==> Reloadable(e)
  {
    if e.isConst.Some? {
      DeclaredFields(e, stringify);
    }
  }

  /** The fields a reader finds in the record written for a const-keyed entry. */
  lemma DeclaredFields(e: Entry, stringify: bool)
    requires e.isConst.Some?
    ensures FieldsOf(Declared(e).pairs, stringify) ==
              Fields(e.desc,
                     if e.isConst.value then Some(e.default.GetOr(Nil)) else None,
                     if e.isConst.value then None else e.default)
  {
    var h := Declared(e).pairs;
    assert h == DescPart(e) + SlotPart(e);
    assert forall i :: 0 <= i < |h| ==> h[i].0.StrKey?;
    StringifyStringKeys(h);
    DeclaredLookup(e, StrKey("desc"));
    DeclaredLookup(e, StrKey("const"));
    DeclaredLookup(e, StrKey("default"));
  }

  lemma DeclaredLookup(e: Entry, k: Key)
    requires e.isConst.Some?
    ensures Lookup(DescPart(e) + SlotPart(e), k) ==
              if |SlotPart(e)| == 1 && SlotPart(e)[0].0 == k then Some(SlotPart(e)[0].1)
              else Lookup(DescPart(e), k)
    ensures Lookup(DescPart(e), k) == if k == StrKey("desc") then e.desc else None
  {
    if e.desc.Some? {
      LookupSnoc([], DescPart(e)[0], k);
      assert [] + [DescPart(e)[0]] == DescPart(e);
    }
    if |SlotPart(e)| == 1 {
      LookupSnoc(DescPart(e), SlotPart(e)[0], k);
      assert DescPart(e) + [SlotPart(e)[0]] == DescPart(e) + SlotPart(e);
    } else {
      assert DescPart(e) + SlotPart(e) == DescPart(e);
    }
  }

  lemma LookupSnoc(h: RawHash, x: (Key, Value), k: Key)
    ensures Lookup(h + [x], k) == if x.0 == k then Some(x.1) else Lookup(h, k)
  {
    assert (h + [x])[..|h|] == h;
  }

  function DeclaredPairs(keys: seq<string>, entries: map<string, Entry>): (r: seq<(Key, Fragment)>)
    requires forall n :: n in keys ==> n in entries
    ensures |r| == |keys|
    ensures forall i :: 0 <= i < |r| ==> r[i] == (StrKey(keys[i]), Declared(entries[keys[i]]))
    decreases |keys|
  {
    if keys == [] then [] else [(StrKey(keys[0]), Declared(entries[keys[0]]))] + DeclaredPairs(keys[1..], entries)
  }

  /** The manifest holding the first `i` names of `m`. */
  function Prefix(m: Manifest, i: nat): Manifest
    requires i <= |m.keys|
    requires forall n :: n in m.keys ==> n in m.entries
  {
    Manifest(m.keys[..i], map n | n in m.keys[..i] :: m.entries[n])
  }

  /**
   * Reading back what `to_yaml` prints rebuilds the manifest, names in the
   * same order, when every entry is reloadable: merging the declarations of
   * the blocks, in order, into an empty manifest gives the manifest again.
   */
  lemma ReloadManifest(m: Manifest, stringify: bool)
    requires Valid(m)
    requires forall n :: n in m.entries ==> Reloadable(m.entries[n])
    ensures MergePairs(Empty, DeclaredPairs(m.keys, m.entries), stringify) == Step(m, None)
  {
    assert Prefix(m, 0) == Empty;
    ReloadFrom(m, 0, stringify);
    assert m.keys[0..] == m.keys;
  }

  lemma PrefixValid(m: Manifest, i: nat)
    requires Valid(m) && i <= |m.keys|
    ensures Valid(Prefix(m, i))
    ensures i == |m.keys| ==> Prefix(m, i) == m
    ensures i < |m.keys| ==> m.keys[i] !in Prefix(m, i).entries
  {
    var p := Prefix(m, i);
    forall a, b | 0 <= a < b < |p.keys| ensures p.keys[a] != p.keys[b] {
      assert p.keys[a] == m.keys[a] && p.keys[b] == m.keys[b];
    }
    if i == |m.keys| {
      assert m.keys[..i] == m.keys;
    }
    if i < |m.keys| {
      forall j | 0 <= j < i ensures m.keys[j] != m.keys[i] { }
    }
  }

  /** Merging the next written declaration extends the prefix by one name. */
  lemma ReloadStep(m: Manifest, i: nat, stringify: bool)
    requires Valid(m) && i < |m.keys|
    requires Reloadable(m.entries[m.keys[i]])
    ensures Valid(Prefix(m, i))
    ensures MergeKey(Prefix(m, i), StrKey(m.keys[i]), Declared(m.entries[m.keys[i]]), stringify) == Step(Prefix(m, i + 1), None)
  {
    PrefixValid(m, i);
    var p := Prefix(m, i);
    var n := m.keys[i];
    PrefixEntries(m, i);
    var next := Prefix(m, i + 1);
    assert next.keys == p.keys + [n] by {
      assert m.keys[..i + 1] == m.keys[..i] + [n];
    }
    MergeFresh(p, n, m.entries[n], stringify, next);
  }

  /** Merging the written declaration of an entry under a new name adds exactly that entry. */
  lemma MergeFresh(p: Manifest, n: string, e: Entry, stringify: bool, next: Manifest)
    requires Valid(p) && n !in p.entries && Reloadable(e)
    requires next.keys == p.keys + [n] && next.entries == p.entries[n := e]
    ensures MergeKey(p, StrKey(n), Declared(e), stringify) == Step(next, None)
  {
    ReloadEntry(e, stringify, n);
    MergeKeyNew(p, n, Declared(e), stringify);
  }

  lemma PrefixEntries(m: Manifest, i: nat)
    requires Valid(m) && i < |m.keys|
    ensures Prefix(m, i + 1).entries == Prefix(m, i).entries[m.keys[i] := m.entries[m.keys[i]]]
  {
    var n := m.keys[i];
    assert m.keys[..i + 1] == m.keys[..i] + [n];
    var a := Prefix(m, i + 1).entries;
    var b := Prefix(m, i).entries[n := m.entries[n]];
    assert a.Keys == b.Keys;
  }

  lemma {:induction false} ReloadFrom(m: Manifest, i: nat, stringify: bool)
    requires Valid(m) && i <= |m.keys|
    requires forall n :: n in m.entries ==> Reloadable(m.entries[n])
    ensures Valid(Prefix(m, i))
    ensures MergePairs(Prefix(m, i), DeclaredPairs(m.keys[i..], m.entries), stringify) == Step(m, None)
    decreases |m.keys| - i
  {
    PrefixValid(m, i);
    var pairs := DeclaredPairs(m.keys[i..], m.entries);
    if i < |m.keys| {
      ReloadStep(m, i, stringify);
      ReloadFrom(m, i + 1, stringify);
      assert m.keys[i..][1..] == m.keys[i + 1..];
      assert pairs[1..] == DeclaredPairs(m.keys[i + 1..], m.entries);
    }
  }
}
