/**
 * `Mimi::Config::Manifest`: the manifest as a Hash of its own, which loads
 * declarations into itself (accepting String or Symbol field keys) and
 * prints itself back as manifest text.
 */
module MimiManifest {
  import opened Values
  import Merge
  import Yaml

  /** What `load` is given: a file name (and the document read from it), a Hash, or anything else. */
  datatype Source =
    | Path(doc: Merge.Document)
    | Given(pairs: seq<(Key, Merge.Fragment)>)
    | Other

  /**
   * The `new_manifest` that `load` goes on with: the parsed file, a copy of
   * the given Hash, or `nil`.
   */
  function SourceDocument(source: Source): Merge.Document {
    match source
    case Path(doc) => doc
    case Given(pairs) => Merge.Mapping(pairs)
    case Other => Merge.NullDocument
  }

  class Manifest {
    /** The declared names, in insertion order. */
    var keys: seq<string>
    /** The entry hash of each declared name. */
    var entries: map<string, Merge.Entry>

    function Contents(): Merge.Manifest
      reads this
    {
      Merge.Manifest(keys, entries)
    }

    ghost predicate Valid()
      reads this
    {
      Merge.Valid(Contents())
    }

    /** `Manifest.new`: an empty Hash. */
    constructor ()
      ensures Valid() && Contents() == Merge.Empty
    {
      keys := [];
      entries := map[];
    }

    /**
     * `load(filename_or_hash)`: a file is read and parsed, a Hash is copied,
     * anything else reads as `nil`; then the same checks and merge loop as
     * `load_manifest`, with field keys stringified. The caller's Hash is a
     * value here and is never changed.
     */
    method Load(source: Source) returns (failure: Option<Merge.Error>)
      requires Valid()
      modifies this
      ensures Merge.Step(Contents(), failure) == Merge.LoadDocument(old(Contents()), SourceDocument(source), true)
      ensures Valid()
    {
      var doc := SourceDocument(source);
      match doc
      case Unreadable => failure := Some(Merge.LoadFailed(Merge.ReadFailed));
      case NullDocument => failure := None;
      case NotAMapping => failure := Some(Merge.LoadFailed(Merge.InvalidFormat));
      case Mapping(pairs) =>
        ghost var start := Contents();
        assert pairs[0..] == pairs;
        var i := 0;
        while i < |pairs|
          invariant 0 <= i <= |pairs|
          invariant Valid()
          invariant Merge.MergePairs(start, pairs, true) == Merge.MergePairs(Contents(), pairs[i..], true)
        {
          assert pairs[i..][1..] == pairs[i + 1..];
          var f := MergeKey(pairs[i].0, pairs[i].1);
          if f.Some? {
            failure := Some(Merge.LoadFailed(f.value));
            return;
          }
          i := i + 1;
        }
        failure := None;
    }

    /**
     * `to_yaml`: one block of lines per entry, in insertion order, joined
     * with newlines.
     */
    method ToYaml() returns (text: string)
      requires Valid()
      ensures text == Yaml.Text(Contents())
    {
      var out: seq<string> := [];
      var i := 0;
      while i < |keys|
        invariant 0 <= i <= |keys|
        invariant out == Yaml.Lines(keys[..i], entries)
      {
        ghost var before := out;
        var k := keys[i];
        var v := entries[k];
        if v.isConst.Some? {
          out := out + [k + ":"];
          if v.desc.Some? {
            out := out + ["  desc: " + Yaml.ValueToYaml(v.desc.value)];
          }
          if v.isConst.value {
            out := out + ["  const: " + Yaml.ValueToYaml(v.default.GetOr(Nil))];
          } else if v.default.Some? {
            out := out + ["  default: " + Yaml.ValueToYaml(v.default.value)];
          }
        } else if v.desc.Some? {
          out := out + [k + ": " + Yaml.ValueToYaml(v.desc.value)];
        } else {
          out := out + [k + ":"];
        }
        out := out + [""];
        assert out == before + Yaml.Block(k, v);
        assert keys[..i + 1][..i] == keys[..i];
        i := i + 1;
      }
      assert keys[..i] == keys;
      text := Yaml.Join(out, "\n");
    }

    /**
     * `merge_key(k, v)`: symbolise the key, create the entry if the name is
     * new, then record a description or merge a hash.
     */
    method MergeKey(k: Key, v: Merge.Fragment) returns (failure: Option<Merge.Error>)
      requires Valid()
      modifies this
      ensures Merge.Step(Contents(), failure) == Merge.MergeKey(old(Contents()), k, v, true)
      ensures Valid()
    {
      if k.OtherKey? {
        assert Merge.MergeKey(Contents(), k, v, true) == Merge.Step(Contents(), Some(Merge.NotSymbolisable(k.text)));
        return Some(Merge.NotSymbolisable(k.text));
      }
      var name := k.name;
      if name !in entries {
        keys := keys + [name];
        entries := entries[name := Merge.Blank];
      }
      ghost var touched := Contents();
      assert touched == Merge.Touch(old(Contents()), name);
      match v {
      case Bare =>
        failure := None;
      case Described(s) =>
        entries := entries[name := entries[name].(desc := Some(Str(s)))];
        failure := None;
      case Record(h) =>
        failure := MergeKeyHash(name, h);
      case Scalar(_) =>
        failure := None;
      }
      ghost var merged := Merge.MergeValue(touched.entries[name], v, true, name);
      assert merged == Merge.Step(entries[name], failure);
      assert Contents() == touched.(entries := touched.entries[name := merged.state]);
    }

    /**
     * `merge_key_hash(k, v)`: on a stringified copy of the hash, write
     * `desc`, reject a `const` and `default` mix, then record the default or
     * the const value.
     */
    method MergeKeyHash(name: string, h: RawHash) returns (failure: Option<Merge.Error>)
      requires Valid() && name in entries
      modifies this
      ensures keys == old(keys)
      ensures entries == old(entries)[name := Merge.MergeFields(old(entries[name]), Merge.FieldsOf(h, true), name).state]
      ensures failure == Merge.MergeFields(old(entries[name]), Merge.FieldsOf(h, true), name).failure
    {
      var g := Stringify(h);
      var desc := Lookup(g, StrKey("desc"));
      var constant := Lookup(g, StrKey("const"));
      var default := Lookup(g, StrKey("default"));
      if desc.Some? {
        entries := entries[name := entries[name].(desc := desc)];
      }
      if constant.Some? && default.Some? {
        return Some(Merge.ConstDefaultMix(name));
      }
      if default.Some? {
        entries := entries[name := entries[name].(isConst := Some(false))];
        entries := entries[name := entries[name].(default := default)];
      } else if constant.Some? {
        entries := entries[name := entries[name].(isConst := Some(true))];
        entries := entries[name := entries[name].(default := constant)];
      }
      failure := None;
    }
  }
}
