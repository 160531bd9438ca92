/**
  Binding configuration to a struct. `NewBundle` turns the struct into a
  nested map and fills every leaf with the resolver's answer for a key built
  from the map keys. The struct walk (`traverseStruct`) derives a key per
  field from its `config` tag or its name, and `setValueWithReflect` picks
  the typed getter by the field's kind. Reflection is replaced by an
  explicit schema: a field is a leaf with a kind and a current value, or a
  nested struct with fields of its own.
 */
module Bundle {
  import opened Wrappers
  import opened Text
  import opened Values
  import opened Coerce
  import opened Resolver
  import FileSource

  // ---------------------------------------------------------------- NewBundle

  /** The prefix `NewBundle` hands to `setMapValues`: a non-empty prefix
      gets a trailing `.`, an empty one stays empty. */
  function BundlePrefix(p: string): string {
    if p != "" then p + "." else ""
  }

  /** Some leaf of the map, at any depth, is nil; `setMapValues` panics on
      it (the type of nil has no kind). */
  predicate HasNilLeaf(m: map<string, Raw>)
    decreases Map(m)
  {
    exists k :: k in m && (m[k].Nil? || (m[k].Map? && HasNilLeaf(m[k].entries)))
  }

  /** The two maps have the same keys at every level, and every nested map
      of the first is a nested map in the second. */
  predicate SameShape(m: map<string, Raw>, r: map<string, Raw>)
    decreases Map(m)
  {
    && r.Keys == m.Keys
    && forall k :: k in m && m[k].Map? ==> r[k].Map? && SameShape(m[k].entries, r[k].entries)
  }

  /** The filling of `setMapValues`: nested maps are descended with the
      lowered key and a `.` appended to the prefix; every other entry is
      overwritten with the resolver's answer, nil included. */
  function Fill(m: map<string, Raw>, prefix: string, u: Util): (r: map<string, Raw>)
    ensures SameShape(m, r)
    decreases Map(m)
  {
    map k | k in m ::
      if m[k].Map? then Map(Fill(m[k].entries, prefix + LowerFirst(k) + ".", u))
      else Get(u, prefix + LowerFirst(k))
  }

  /** `setMapValues`: the filled map, or `None` when it panics on a nil
      leaf. */
  function SetMapValues(m: map<string, Raw>, prefix: string, u: Util): (r: Option<map<string, Raw>>)
    ensures r.None? <==> HasNilLeaf(m)
    ensures r.Some? ==> SameShape(m, r.value)
  {
    if HasNilLeaf(m) then None else Some(Fill(m, prefix, u))
  }

  /** `path` leads through nested maps to an entry that is not a map. */
  predicate LeafPath(m: map<string, Raw>, path: seq<string>)
    decreases |path|
  {
    && |path| >= 1
    && path[0] in m
    && if |path| == 1 then !m[path[0]].Map?
       else m[path[0]].Map? && LeafPath(m[path[0]].entries, path[1..])
  }

  /** Each map key with its first rune lower-cased. */
  function Lowered(path: seq<string>): (r: seq<string>)
    ensures |r| == |path|
    ensures forall i :: 0 <= i < |path| ==> r[i] == LowerFirst(path[i])
  {
    seq(|path|, i requires 0 <= i < |path| => LowerFirst(path[i]))
  }

  /** One entry of the filled map. */
  lemma FillEntry(m: map<string, Raw>, prefix: string, u: Util, k: string)
    requires k in m
    ensures k in Fill(m, prefix, u)
    ensures m[k].Map? ==> Fill(m, prefix, u)[k] == Map(Fill(m[k].entries, prefix + LowerFirst(k) + ".", u))
    ensures !m[k].Map? ==> Fill(m, prefix, u)[k] == Get(u, prefix + LowerFirst(k))
  {
  }

  /** The dotted join of lowered keys peels off its first key. */
  lemma JoinLowered(path: seq<string>)
    requires |path| > 1
    ensures Join(Lowered(path), '.') == LowerFirst(path[0]) + "." + Join(Lowered(path[1..]), '.')
  {
    var l := Lowered(path);
    assert l[1..] == Lowered(path[1..]);
    assert Join(l, '.') == l[0] + ['.'] + Join(l[1..], '.');
  }

  lemma JoinAssoc(a: string, b: string, c: string, d: string)
    ensures a + b + c + d == a + (b + c + d)
  {
  }

  /** The leaf at the end of `path` holds the resolver's answer for the
      prefix followed by the path's lowered keys joined by `.`. */
  lemma {:induction false} FillLeaf(m: map<string, Raw>, prefix: string, u: Util, path: seq<string>)
    requires LeafPath(m, path)
    ensures FileSource.Walk(Fill(m, prefix, u), path) == Get(u, prefix + Join(Lowered(path), '.'))
    decreases |path|
  {
    var r := Fill(m, prefix, u);
    var k := path[0];
    FillEntry(m, prefix, u, k);
    if |path| == 1 {
      assert Lowered(path) == [LowerFirst(k)];
      assert FileSource.Walk(r, path) == r[k];
    } else {
      var inner := prefix + LowerFirst(k) + ".";
      var sub := Fill(m[k].entries, inner, u);
      assert FileSource.Walk(r, path) == FileSource.Walk(sub, path[1..]);
      FillLeaf(m[k].entries, inner, u, path[1..]);
      JoinLowered(path);
      JoinAssoc(prefix, LowerFirst(k), ".", Join(Lowered(path[1..]), '.'));
    }
  }

  /** What `NewBundle` reads into each leaf: with a non-empty prefix `p`,
      the key is `p.` followed by the lowered path; with an empty prefix,
      the lowered path alone, without a leading `.`. */
  lemma NewBundleKeys(p: string, m: map<string, Raw>, u: Util, path: seq<string>)
    requires !HasNilLeaf(m) && LeafPath(m, path)
    ensures SetMapValues(m, BundlePrefix(p), u).Some?
    ensures p != "" ==>
      FileSource.Walk(SetMapValues(m, BundlePrefix(p), u).value, path) == Get(u, p + "." + Join(Lowered(path), '.'))
    ensures p == "" ==>
      FileSource.Walk(SetMapValues(m, BundlePrefix(p), u).value, path) == Get(u, Join(Lowered(path), '.'))
  {
    var q, j := BundlePrefix(p), Join(Lowered(path), '.');
    assert SetMapValues(m, q, u) == Some(Fill(m, q, u));
    FillLeaf(m, q, u, path);
    if p == "" {
      assert q + j == j;
    } else {
      assert q + j == p + "." + j;
    }
  }

  // ---------------------------------------------------------------- retrieveKey

  /** The first comma-separated option of a `config` tag. */
  function TagName(tag: string): string {
    Split(tag, ',')[0]
  }

  /** `retrieveKey`: with a `config` tag, the prefix, a `.` and the tag's
      first option, or `""` when that option is empty; without a tag, the
      prefix, a `.` and the field name with its first rune lower-cased. */
  function RetrieveKey(prefix: string, name: string, tag: Option<string>): (key: string)
    ensures key == "" <==> tag.Some? && TagName(tag.value) == ""
    ensures key != "" ==> |key| > |prefix| && key[..|prefix| + 1] == prefix + "."
    ensures tag.None? ==> key[|prefix| + 1..] == LowerFirst(name)
    ensures tag.Some? && key != "" ==> key[|prefix| + 1..] == TagName(tag.value)
  {
    match tag
    case Some(t) => if TagName(t) != "" then prefix + "." + TagName(t) else ""
    case None => prefix + "." + LowerFirst(name)
  }

  /** Options after the first comma of a tag (`watch`, say) do not change
      the key; a tag without a comma is its own name. */
  lemma TagOptionsIgnored(prefix: string, name: string, t: string, options: string)
    requires ',' !in t
    ensures TagName(t) == t
    ensures RetrieveKey(prefix, name, Some(t + "," + options)) == RetrieveKey(prefix, name, Some(t))
    ensures t != "" ==> RetrieveKey(prefix, name, Some(t)) == prefix + "." + t
    ensures t == "" ==> RetrieveKey(prefix, name, Some(t)) == ""
  {
    SplitNoSep(t, ',');
    SplitCons(t, ',', options);
    assert t + "," + options == t + [','] + options;
  }

  /** Key derivation on concrete untagged fields: only the name's first
      letter is lower-cased, and an empty prefix leaves a leading `.`. */
  lemma RetrieveKeyExamples()
    ensures RetrieveKey("app", "MaxRetries", None) == "app.maxRetries"
    ensures RetrieveKey("app", "URL", None) == "app.uRL"
    ensures RetrieveKey("", "Port", None) == ".port"
  {
  }

  // ---------------------------------------------------------------- traverseStruct

  /** The kind of a non-struct field, as `reflect.Kind` tells them apart. */
  datatype FieldKind =
    | BoolField
    | StringField
    | IntField(ik: IntKind)
    | FloatField(fk: FloatKind)
    | OtherField

  /** A struct field with its `config` tag when it has one: a leaf with its
      kind and current value, or a nested struct. A leaf is `settable` when
      `reflect.Value.Set` can store a value of its kind's predeclared type
      into it at all: the field and every struct field above it are
      exported, and its type is that predeclared type itself, not a defined
      type such as `type Level int` (which has the same kind). */
  datatype Field =
    | Leaf(name: string, tag: Option<string>, kind: FieldKind, settable: bool, value: Raw)
    | Nested(name: string, tag: Option<string>, fields: seq<Field>)

  /** A field processor: given a field's key, kind, settability and current
      value, its new value, or `None` when it panics. */
  type Processor = (string, FieldKind, bool, Raw) -> Option<Raw>

  /** `traverseStruct`: the fields in declaration order, each with its key;
      nested structs are walked with their own key as prefix and never
      handed to the processor; every other field is. With no processor
      nothing changes. `None` when the processor panics. */
  function Traverse(fs: seq<Field>, prefix: string, proc: Option<Processor>): (r: Option<seq<Field>>)
    ensures r.Some? ==> |r.value| == |fs|
    decreases fs
  {
    if |fs| == 0 then Some([])
    else
      var f := fs[0];
      var key := RetrieveKey(prefix, f.name, f.tag);
      var head: Option<Field> :=
        if f.Nested? then
          (match Traverse(f.fields, key, proc)
           case Some(sub) => Some(f.(fields := sub))
           case None => None)
        else if proc.None? then Some(f)
        else
          (match proc.value(key, f.kind, f.settable, f.value)
           case Some(v) => Some(f.(value := v))
           case None => None);
      var tail := Traverse(fs[1..], prefix, proc);
      if head.Some? && tail.Some? then Some([head.value] + tail.value) else None
  }

  /** The non-struct fields at any depth, in declaration order. */
  function Leaves(fs: seq<Field>): (ls: seq<Field>)
    ensures forall i :: 0 <= i < |ls| ==> ls[i].Leaf?
    decreases fs
  {
    if |fs| == 0 then []
    else (if fs[0].Nested? then Leaves(fs[0].fields) else [fs[0]]) + Leaves(fs[1..])
  }

  /** The calls a traversal makes: key and field, in order. */
  function Visits(fs: seq<Field>, prefix: string): (vs: seq<(string, Field)>)
    ensures |vs| == |Leaves(fs)|
    ensures forall i :: 0 <= i < |vs| ==> vs[i].1 == Leaves(fs)[i]
    decreases fs
  {
    if |fs| == 0 then []
    else
      var key := RetrieveKey(prefix, fs[0].name, fs[0].tag);
      var head := if fs[0].Nested? then Visits(fs[0].fields, key) else [(key, fs[0])];
      var tail := Visits(fs[1..], prefix);
      VisitsAppend(head, tail, if fs[0].Nested? then Leaves(fs[0].fields) else [fs[0]], Leaves(fs[1..]));
      head + tail
  }

  /** Calls that match their fields part by part match them as a whole. */
  lemma VisitsAppend(va: seq<(string, Field)>, vb: seq<(string, Field)>, la: seq<Field>, lb: seq<Field>)
    requires |va| == |la| && forall i :: 0 <= i < |va| ==> va[i].1 == la[i]
    requires |vb| == |lb| && forall i :: 0 <= i < |vb| ==> vb[i].1 == lb[i]
    ensures |va + vb| == |la + lb| && forall i :: 0 <= i < |va + vb| ==> (va + vb)[i].1 == (la + lb)[i]
  {
    forall i | 0 <= i < |va + vb| ensures (va + vb)[i].1 == (la + lb)[i] {
      if i >= |va| {
        assert (va + vb)[i] == vb[i - |va|] && (la + lb)[i] == lb[i - |va|];
      }
    }
  }

  /** The struct with every leaf value cleared: names, tags, kinds,
      settability and nesting only. */
  function Erase(fs: seq<Field>): (r: seq<Field>)
    ensures |r| == |fs|
    decreases fs
  {
    if |fs| == 0 then []
    else
      [if fs[0].Nested? then fs[0].(fields := Erase(fs[0].fields)) else fs[0].(value := Nil)]
      + Erase(fs[1..])
  }

  /** Without a processor, traversal changes nothing. */
  lemma {:induction false} TraverseWithoutProcessor(fs: seq<Field>, prefix: string)
    ensures Traverse(fs, prefix, None) == Some(fs)
    decreases fs
  {
    if |fs| > 0 {
      var key := RetrieveKey(prefix, fs[0].name, fs[0].tag);
      if fs[0].Nested? {
        TraverseWithoutProcessor(fs[0].fields, key);
      }
      TraverseWithoutProcessor(fs[1..], prefix);
      assert [fs[0]] + fs[1..] == fs;
    }
  }

  /** A processor that keeps every value changes nothing either. */
  lemma {:induction false} TraverseKeeping(fs: seq<Field>, prefix: string, p: Processor)
    requires forall key, kind, settable, v :: p(key, kind, settable, v) == Some(v)
    ensures Traverse(fs, prefix, Some(p)) == Some(fs)
    decreases fs
  {
    if |fs| > 0 {
      var key := RetrieveKey(prefix, fs[0].name, fs[0].tag);
      if fs[0].Nested? {
        TraverseKeeping(fs[0].fields, key, p);
      } else {
        assert p(key, fs[0].kind, fs[0].settable, fs[0].value) == Some(fs[0].value);
      }
      TraverseKeeping(fs[1..], prefix, p);
      assert [fs[0]] + fs[1..] == fs;
    }
  }

  /** The processor accepts every call of the list. */
  predicate AcceptsAll(p: Processor, vs: seq<(string, Field)>) {
    forall i :: 0 <= i < |vs| && vs[i].1.Leaf? ==> p(vs[i].0, vs[i].1.kind, vs[i].1.settable, vs[i].1.value).Some?
  }

  lemma AcceptsAllAppend(p: Processor, a: seq<(string, Field)>, b: seq<(string, Field)>)
    ensures AcceptsAll(p, a + b) <==> AcceptsAll(p, a) && AcceptsAll(p, b)
  {
    if AcceptsAll(p, a + b) {
      forall i | 0 <= i < |a| && a[i].1.Leaf? ensures p(a[i].0, a[i].1.kind, a[i].1.settable, a[i].1.value).Some? {
        assert (a + b)[i] == a[i];
      }
      forall j | 0 <= j < |b| && b[j].1.Leaf? ensures p(b[j].0, b[j].1.kind, b[j].1.settable, b[j].1.value).Some? {
        assert (a + b)[|a| + j] == b[j];
      }
    }
  }

  /** Traversal completes exactly when the processor accepts every
      non-struct field it is handed. */
  lemma {:induction false} TraverseSucceeds(fs: seq<Field>, prefix: string, p: Processor)
    ensures Traverse(fs, prefix, Some(p)).Some? <==> AcceptsAll(p, Visits(fs, prefix))
    decreases fs
  {
    if |fs| > 0 {
      var f := fs[0];
      var key := RetrieveKey(prefix, f.name, f.tag);
      var head := if f.Nested? then Visits(f.fields, key) else [(key, f)];
      var tail := Visits(fs[1..], prefix);
      assert Visits(fs, prefix) == head + tail;
      TraverseSucceeds(fs[1..], prefix, p);
      AcceptsAllAppend(p, head, tail);
      if f.Nested? {
        TraverseSucceeds(f.fields, key, p);
        assert Traverse(fs, prefix, Some(p)).Some?
          <==> Traverse(f.fields, key, Some(p)).Some? && Traverse(fs[1..], prefix, Some(p)).Some?;
      } else {
        assert head[0] == (key, f);
        assert AcceptsAll(p, head) <==> p(key, f.kind, f.settable, f.value).Some?;
        assert Traverse(fs, prefix, Some(p)).Some?
          <==> p(key, f.kind, f.settable, f.value).Some? && Traverse(fs[1..], prefix, Some(p)).Some?;
      }
    }
  }

  /** Leaf by leaf, `ls` is what the processor made of the calls `vs`:
      the same field with the value the processor returned. */
  predicate Written(p: Processor, vs: seq<(string, Field)>, ls: seq<Field>) {
    && |ls| == |vs|
    && forall i :: 0 <= i < |vs| && vs[i].1.Leaf? && ls[i].Leaf? ==>
         && ls[i] == vs[i].1.(value := ls[i].value)
         && p(vs[i].0, vs[i].1.kind, vs[i].1.settable, vs[i].1.value) == Some(ls[i].value)
  }

  lemma WrittenAppend(p: Processor, va: seq<(string, Field)>, la: seq<Field>, vb: seq<(string, Field)>, lb: seq<Field>)
    requires Written(p, va, la) && Written(p, vb, lb)
    ensures Written(p, va + vb, la + lb)
  {
    forall i | |va| <= i < |va| + |vb|
      ensures (va + vb)[i] == vb[i - |va|] && (la + lb)[i] == lb[i - |va|]
    {
    }
  }

  /** A completed traversal keeps every name, tag, kind, settability and
      the nesting, and each non-struct field holds what the processor
      returned for it. */
  lemma {:induction false} TraverseWrites(fs: seq<Field>, prefix: string, p: Processor)
    requires Traverse(fs, prefix, Some(p)).Some?
    ensures Erase(Traverse(fs, prefix, Some(p)).value) == Erase(fs)
    ensures Written(p, Visits(fs, prefix), Leaves(Traverse(fs, prefix, Some(p)).value))
    decreases fs
  {
    if |fs| > 0 {
      var f := fs[0];
      var key := RetrieveKey(prefix, f.name, f.tag);
      var r := Traverse(fs, prefix, Some(p)).value;
      var t := Traverse(fs[1..], prefix, Some(p));
      assert t.Some? && r[1..] == t.value;
      TraverseWrites(fs[1..], prefix, p);
      if f.Nested? {
        var sub := Traverse(f.fields, key, Some(p));
        assert sub.Some? && r[0] == f.(fields := sub.value);
        TraverseWrites(f.fields, key, p);
        WrittenAppend(p, Visits(f.fields, key), Leaves(sub.value), Visits(fs[1..], prefix), Leaves(t.value));
      } else {
        var v := p(key, f.kind, f.settable, f.value);
        assert v.Some? && r[0] == f.(value := v.value);
        assert Written(p, [(key, f)], [r[0]]);
        WrittenAppend(p, [(key, f)], [r[0]], Visits(fs[1..], prefix), Leaves(t.value));
      }
    }
  }

  // ---------------------------------------------------------------- setValueWithReflect

  /** The integer kinds that are read with `GetInt`; unsigned ones are not. */
  predicate SignedKind(k: IntKind) {
    k.KInt? || k.KInt8? || k.KInt16? || k.KInt32? || k.KInt64?
  }

  /** The getter chosen for the kind finds a value at `key`: `GetBool` for
      bools, `GetString` for strings, `GetInt` for signed integers,
      `GetFloat` for floats; no getter is chosen for any other kind. */
  predicate GetterOk(u: Util, parseFloat: FloatParser, key: string, kind: FieldKind) {
    match kind
    case BoolField => GetBool(u, key).1
    case StringField => GetString(u, key).1
    case IntField(k) => SignedKind(k) && GetInt(u, key).1
    case FloatField(_) => GetFloat(u, key, parseFloat).1
    case OtherField => false
  }

  /** `Value.Set` accepts the getter's result: the field is settable and
      of kind `bool`, `string`, `int` or `float64`, the types the getters
      return. */
  predicate Assignable(kind: FieldKind, settable: bool) {
    settable && (kind == BoolField || kind == StringField || kind == IntField(KInt) || kind == FloatField(KFloat64))
  }

  /** `setValueWithReflect`: the field's new value. A field is written only
      when its getter succeeds, with the getter's value, and is left as it is
      otherwise (other kinds only log a warning). Storing the getter's value
      into a field that cannot take it panics: `None`. That is a narrower
      integer or `float32` field, a defined type, or an unexported field. */
  function SetValue(u: Util, parseFloat: FloatParser, key: string, kind: FieldKind, settable: bool, value: Raw): (r: Option<Raw>)
    ensures r.None? <==> GetterOk(u, parseFloat, key, kind) && !Assignable(kind, settable)
    ensures !GetterOk(u, parseFloat, key, kind) ==> r == Some(value)
    ensures settable && kind == BoolField && GetBool(u, key).1 ==> r == Some(Bool(GetBool(u, key).0))
    ensures settable && kind == StringField && GetString(u, key).1 ==> r == Some(Str(GetString(u, key).0))
    ensures settable && kind == IntField(KInt) && GetInt(u, key).1 ==> r == Some(Int(KInt, GetInt(u, key).0))
    ensures settable && kind == FloatField(KFloat64) && GetFloat(u, key, parseFloat).1 ==>
      r == Some(Float(KFloat64, GetFloat(u, key, parseFloat).0))
  {
    match kind
    case BoolField =>
      var (b, ok) := GetBool(u, key);
      if !ok then Some(value) else if settable then Some(Bool(b)) else None
    case StringField =>
      var (t, ok) := GetString(u, key);
      if !ok then Some(value) else if settable then Some(Str(t)) else None
    case IntField(k) =>
      if !SignedKind(k) then Some(value)
      else
        var (i, ok) := GetInt(u, key);
        if !ok then Some(value) else if settable && k == KInt then Some(Int(KInt, i)) else None
    case FloatField(k) =>
      var (x, ok) := GetFloat(u, key, parseFloat);
      if !ok then Some(value) else if settable && k == KFloat64 then Some(Float(KFloat64, x)) else None
    case OtherField => Some(value)
  }

  /** A binding pass: the struct walk with `setValueWithReflect` as the
      field processor. The package defines both but never composes them
      (its `NewBundle` goes through `setMapValues`); this is how they would
      combine. A completed pass keeps the struct's shape. */
  function Bind(u: Util, parseFloat: FloatParser, fs: seq<Field>, prefix: string): (r: Option<seq<Field>>)
    ensures r.Some? ==> Erase(r.value) == Erase(fs)
  {
    var p: Processor := (key, kind, settable, value) => SetValue(u, parseFloat, key, kind, settable, value);
    var r := Traverse(fs, prefix, Some(p));
    if r.Some? then
      TraverseWrites(fs, prefix, p);
      r
    else r
  }

  /** With nothing configured, binding leaves every field at its value. */
  lemma BindWithoutConfiguration(u: Util, parseFloat: FloatParser, fs: seq<Field>, prefix: string)
    requires forall key :: Get(u, key).Nil?
    ensures Bind(u, parseFloat, fs, prefix) == Some(fs)
  {
    var p: Processor := (key, kind, settable, value) => SetValue(u, parseFloat, key, kind, settable, value);
    forall key, kind, settable, v ensures p(key, kind, settable, v) == Some(v) {
      assert Get(u, key).Nil?;
    }
    TraverseKeeping(fs, prefix, p);
  }

  /** Binding panics exactly when some field that cannot take its getter's
      result (a narrower integer or `float32`, a defined type, an unexported
      field) has a value its getter accepts. */
  lemma BindPanics(u: Util, parseFloat: FloatParser, fs: seq<Field>, prefix: string)
    ensures var vs := Visits(fs, prefix);
      Bind(u, parseFloat, fs, prefix).None? <==>
        exists i :: 0 <= i < |vs| && GetterOk(u, parseFloat, vs[i].0, vs[i].1.kind) && !Assignable(vs[i].1.kind, vs[i].1.settable)
  {
    var p: Processor := (key, kind, settable, value) => SetValue(u, parseFloat, key, kind, settable, value);
    TraverseSucceeds(fs, prefix, p);
  }

  /** A completed binding keeps the struct's shape, and a field whose value
      changed had its getter succeed at its key. */
  lemma BindWritesOnSuccess(u: Util, parseFloat: FloatParser, fs: seq<Field>, prefix: string)
    requires Bind(u, parseFloat, fs, prefix).Some?
    ensures var r := Bind(u, parseFloat, fs, prefix).value;
      Erase(r) == Erase(fs)
    ensures var vs, ls := Visits(fs, prefix), Leaves(Bind(u, parseFloat, fs, prefix).value);
      && |ls| == |vs|
      && forall i :: 0 <= i < |vs| ==>
           && ls[i].kind == vs[i].1.kind && ls[i].settable == vs[i].1.settable
           && (ls[i].value != vs[i].1.value ==> GetterOk(u, parseFloat, vs[i].0, vs[i].1.kind))
           && SetValue(u, parseFloat, vs[i].0, vs[i].1.kind, vs[i].1.settable, vs[i].1.value) == Some(ls[i].value)
  {
    var p: Processor := (key, kind, settable, value) => SetValue(u, parseFloat, key, kind, settable, value);
    TraverseWrites(fs, prefix, p);
  }
}
