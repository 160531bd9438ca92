/**
  The file configuration source: a YAML document, already parsed into a
  nested map (a nil map is the empty map), searched by a dotted key that
  descends one map level per `.`-separated segment.
 */
module FileSource {
  import opened Text
  import opened Values

  /** `Name()` of the file source. */
  const Name: string := "File"

  /** The entry under `k`, or nil when there is none (Go's map index). */
  function Entry(m: map<string, Raw>, k: string): Raw {
    if k in m then m[k] else Nil
  }

  /** The descent along `segs`: every segment but the last must name a
      nested map; the last segment's entry is the answer. */
  function Walk(tree: map<string, Raw>, segs: seq<string>): (r: Raw)
    requires |segs| >= 1
    ensures |segs| == 1 ==> r == Entry(tree, segs[0])
    ensures |segs| > 1 && (segs[0] !in tree || !tree[segs[0]].Map?) ==> r == Nil
    decreases |segs|
  {
    if |segs| == 1 then Entry(tree, segs[0])
    else if segs[0] in tree && tree[segs[0]].Map? then Walk(tree[segs[0]].entries, segs[1..])
    else Nil
  }

  /** `fileConfigSource.Get`: the walk along the key's `.`-separated segments. */
  function Get(tree: map<string, Raw>, key: string): (r: Raw)
    ensures '.' !in key ==> r == Entry(tree, key)
    ensures tree == map[] ==> r.Nil?
  {
    if '.' in key then Walk(tree, Split(key, '.'))
    else
      SplitNoSep(key, '.');
      Walk(tree, Split(key, '.'))
  }

  /** The loop of `fileConfigSource.Get`, step for step; it computes the
      recursive walk. */
  method Lookup(tree: map<string, Raw>, key: string) returns (r: Raw)
    ensures r == Get(tree, key)
  {
    var segs := Split(key, '.');
    var val := tree;
    var i := 0;
    while i < |segs| - 1
      invariant 0 <= i <= |segs| - 1
      invariant Walk(val, segs[i..]) == Walk(tree, segs)
    {
      if segs[i] !in val || !val[segs[i]].Map? {
        return Nil;
      }
      assert segs[i..][1..] == segs[i + 1..];
      val := val[segs[i]].entries;
      i := i + 1;
    }
    r := Entry(val, segs[|segs| - 1]);
  }

  /** A key without `.` is one top-level lookup: the loop runs zero times.
      A present empty string is `""`, not absent. */
  lemma GetSingleSegment(tree: map<string, Raw>, key: string)
    requires '.' !in key
    ensures Get(tree, key) == Entry(tree, key)
    ensures key in tree && tree[key] == Str("") ==> Get(tree, key) == Str("")
  {
    SplitNoSep(key, '.');
  }

  /** The first segment descends one level; a missing or non-map first
      segment ends the walk with nil. */
  lemma GetDescends(tree: map<string, Raw>, seg: string, rest: string)
    requires '.' !in seg
    ensures Get(tree, seg + "." + rest) ==
      if seg in tree && tree[seg].Map? then Get(tree[seg].entries, rest) else Nil
  {
    SplitCons(seg, '.', rest);
    assert seg + "." + rest == seg + ['.'] + rest;
    var segs := Split(seg + "." + rest, '.');
    assert segs[1..] == Split(rest, '.');
  }

  /** The tree holding `v` at the end of the path `segs`. */
  function Nest(segs: seq<string>, v: Raw): map<string, Raw>
    requires |segs| >= 1
    decreases |segs|
  {
    if |segs| == 1 then map[segs[0] := v] else map[segs[0] := Map(Nest(segs[1..], v))]
  }

  /** Walking a path through the tree built along it reaches the value. */
  lemma {:induction false} WalkNest(segs: seq<string>, v: Raw)
    requires |segs| >= 1
    ensures Walk(Nest(segs, v), segs) == v
    decreases |segs|
  {
    if |segs| > 1 {
      WalkNest(segs[1..], v);
    }
  }

  /** Round trip: the dotted key made of a path's segments finds the value
      stored at the end of that path, whatever it is (a nested map, an empty
      string, nil). */
  lemma {:induction false} GetNest(segs: seq<string>, v: Raw)
    requires |segs| >= 1
    requires forall i :: 0 <= i < |segs| ==> '.' !in segs[i]
    ensures Get(Nest(segs, v), Join(segs, '.')) == v
    decreases |segs|
  {
    if |segs| == 1 {
      GetSingleSegment(Nest(segs, v), segs[0]);
    } else {
      GetNest(segs[1..], v);
      GetDescends(Nest(segs, v), segs[0], Join(segs[1..], '.'));
      assert Join(segs, '.') == segs[0] + "." + Join(segs[1..], '.');
    }
  }

  /** An empty tree has nothing under any key. */
  lemma EmptyTreeIsNil(key: string)
    ensures Get(map[], key) == Nil
  {
  }

  /** Only `.` separates segments: a key that walks through a leaf
      (a string, a number) finds nothing, and so does a missing segment. */
  lemma GetThroughLeafIsNil(tree: map<string, Raw>, seg: string, rest: string)
    requires '.' !in seg
    requires seg !in tree || !tree[seg].Map?
    ensures Get(tree, seg + "." + rest) == Nil
  {
    GetDescends(tree, seg, rest);
  }

  /** A key written as dot-free segments joined by `.` walks exactly
      those segments. */
  lemma GetJoin(tree: map<string, Raw>, segs: seq<string>)
    requires |segs| >= 1
    requires forall i :: 0 <= i < |segs| ==> '.' !in segs[i]
    ensures Get(tree, Join(segs, '.')) == Walk(tree, segs)
  {
    SplitJoin(segs, '.');
  }

  /** The nested part of the test document used by the deep and use-case
      tests: spaces, dashes and underscores stay inside their segment, and
      an inner node's key returns the nested map itself. */
  function TestTree(): map<string, Raw> {
    map[
      "some-config" := Map(map[
        "protocol" := Str("tcp"),
        "address" := Map(map["ip" := Str("127.0.0.2"), "port" := Float(KFloat64, 3000.0)])]),
      "deep-config" := Map(Nest(["l1", "l2", "l_3", "l-4", "l 5", "6l"], Float(KFloat64, 6.0))),
      "empty-string-value" := Str("")]
  }

  /** Use-case lookup: a leaf two levels down. */
  lemma TestTreeProtocol()
    ensures Get(TestTree(), Join(["some-config", "protocol"], '.')) == Str("tcp")
  {
    var segs := ["some-config", "protocol"];
    GetJoin(TestTree(), segs);
    assert Walk(TestTree(), segs) == Walk(TestTree()["some-config"].entries, segs[1..]);
  }

  /** Use-case lookup: a number three levels down. */
  lemma TestTreePort()
    ensures Get(TestTree(), Join(["some-config", "address", "port"], '.')) == Float(KFloat64, 3000.0)
  {
    var segs := ["some-config", "address", "port"];
    GetJoin(TestTree(), segs);
    var inner := TestTree()["some-config"].entries;
    assert Walk(TestTree(), segs) == Walk(inner, segs[1..]);
    assert Walk(inner, segs[1..]) == Walk(inner["address"].entries, segs[2..]);
  }

  /** An inner node's key returns the nested map itself. */
  lemma TestTreeInnerNode()
    ensures Get(TestTree(), Join(["some-config", "address"], '.')) == TestTree()["some-config"].entries["address"]
  {
    GetJoin(TestTree(), ["some-config", "address"]);
  }

  /** A key that continues past a leaf is nil. */
  lemma TestTreePastLeaf()
    ensures Get(TestTree(), Join(["some-config", "protocol", "name"], '.')) == Nil
  {
    var segs := ["some-config", "protocol", "name"];
    GetJoin(TestTree(), segs);
    assert Walk(TestTree(), segs) == Walk(TestTree()["some-config"].entries, segs[1..]);
  }

  /** A key naming a missing entry is nil. */
  lemma TestTreeMissing()
    ensures Get(TestTree(), Join(["some-config", "missing"], '.')) == Nil
  {
    var segs := ["some-config", "missing"];
    GetJoin(TestTree(), segs);
    var inner := TestTree()["some-config"].entries;
    assert Walk(TestTree(), segs) == Walk(inner, segs[1..]);
    assert inner.Keys == {"protocol", "address"};
    assert "missing"[0] != "protocol"[0] && "missing"[0] != "address"[0];
  }

  /** The deep key `deep-config.l1.l2.l_3.l-4.l 5.6l`. */
  lemma TestTreeDeepKey()
    ensures Get(TestTree(), Join(["deep-config", "l1", "l2", "l_3", "l-4", "l 5", "6l"], '.')) == Float(KFloat64, 6.0)
  {
    var segs := ["deep-config", "l1", "l2", "l_3", "l-4", "l 5", "6l"];
    GetJoin(TestTree(), segs);
    assert Walk(TestTree(), segs) == Walk(Nest(segs[1..], Float(KFloat64, 6.0)), segs[1..]);
    WalkNest(segs[1..], Float(KFloat64, 6.0));
  }

  /** A present empty string is `""`. */
  lemma TestTreeEmptyString()
    ensures Get(TestTree(), "empty-string-value") == Str("")
  {
    GetSingleSegment(TestTree(), "empty-string-value");
  }
}
