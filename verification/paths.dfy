/**
  Go's `path.Clean` and two-element `path.Join`, which the remote sources
  use to place a key under their namespace. Cleaning drops empty and `.`
  elements, lets `..` cancel the element before it, and never leaves a
  trailing slash.
 */
module Paths {
  import opened Text

  /** One element applied to the stack of kept elements: empty and `.`
      vanish, `..` removes the last kept element (or, in a relative path
      with nothing to remove, is kept itself), anything else is pushed. */
  function Push(stack: seq<string>, elem: string, rooted: bool): seq<string> {
    if elem == "" || elem == "." then stack
    else if elem == ".." then
      if |stack| > 0 && stack[|stack| - 1] != ".." then stack[..|stack| - 1]
      else if rooted then stack
      else stack + [".."]
    else stack + [elem]
  }

  /** The stack after pushing `elems` left to right; cleaning never adds
      elements. */
  function Resolve(stack: seq<string>, elems: seq<string>, rooted: bool): (r: seq<string>)
    ensures |r| <= |stack| + |elems|
    decreases |elems|
  {
    if |elems| == 0 then stack else Resolve(Push(stack, elems[0], rooted), elems[1..], rooted)
  }

  /** `path.Clean`: never empty, and rooted exactly when the input is. */
  function Clean(p: string): (r: string)
    ensures |r| > 0
    ensures r[0] == '/' <==> p != "" && p[0] == '/'
  {
    if p == "" then "."
    else
      var rooted := p[0] == '/';
      var segs := Split(p, '/');
      var kept := Resolve([], segs, rooted);
      ResolveKept([], segs, rooted);
      if rooted then "/" + Join(kept, '/')
      else if |kept| == 0 then "."
      else
        JoinHead(kept, '/');
        Join(kept, '/')
  }

  /** `path.Join(a, b)`: the non-empty elements joined by `/` and cleaned;
      `""` when both are empty. A non-empty result is clean, and rooted
      exactly when its first non-empty element is. */
  function JoinPath(a: string, b: string): (r: string)
    ensures r == "" <==> a == "" && b == ""
    ensures r != "" ==> Clean(r) == r
    ensures a != "" ==> (r[0] == '/' <==> a[0] == '/')
    ensures a == "" && b != "" ==> (r[0] == '/' <==> b[0] == '/')
  {
    if a == "" && b == "" then ""
    else
      var p := if a == "" then b else a + "/" + b;
      CleanIdempotent(p);
      Clean(p)
  }

  /** An element that cleaning keeps as it is. */
  predicate Normal(elem: string) {
    elem != "" && elem != "." && elem != ".." && '/' !in elem
  }

  /** What a stack of kept elements looks like: normal elements after a
      run of `..`, and no `..` at all in a rooted path. */
  predicate Kept(stack: seq<string>, rooted: bool) {
    && (forall i :: 0 <= i < |stack| ==> stack[i] == ".." || Normal(stack[i]))
    && (forall i, j :: 0 <= i < j < |stack| && stack[j] == ".." ==> stack[i] == "..")
    && (rooted ==> forall i :: 0 <= i < |stack| ==> stack[i] != "..")
  }

  lemma PushKept(stack: seq<string>, elem: string, rooted: bool)
    requires Kept(stack, rooted) && '/' !in elem
    ensures Kept(Push(stack, elem, rooted), rooted)
  {
    if elem == ".." && |stack| > 0 && stack[|stack| - 1] == ".." {
      forall i | 0 <= i < |stack| ensures stack[i] == ".." {
        if i < |stack| - 1 {
          assert stack[|stack| - 1] == "..";
        }
      }
    }
  }

  /** Resolving keeps the stack's shape. */
  lemma {:induction false} ResolveKept(stack: seq<string>, elems: seq<string>, rooted: bool)
    requires Kept(stack, rooted)
    requires forall i :: 0 <= i < |elems| ==> '/' !in elems[i]
    ensures Kept(Resolve(stack, elems, rooted), rooted)
    decreases |elems|
  {
    if |elems| > 0 {
      PushKept(stack, elems[0], rooted);
      ResolveKept(Push(stack, elems[0], rooted), elems[1..], rooted);
    }
  }

  /** Elements that already have the kept shape are pushed unchanged. */
  lemma {:induction false} ResolveKeptElems(stack: seq<string>, elems: seq<string>, rooted: bool)
    requires Kept(stack + elems, rooted)
    ensures Resolve(stack, elems, rooted) == stack + elems
    decreases |elems|
  {
    if |elems| > 0 {
      var all := stack + elems;
      assert all[|stack|] == elems[0];
      assert elems[0] == ".." || Normal(elems[0]);
      if elems[0] == ".." {
        assert !rooted;
        if |stack| > 0 {
          assert all[|stack| - 1] == "..";
        }
      }
      assert Push(stack, elems[0], rooted) == stack + [elems[0]];
      assert (stack + [elems[0]]) + elems[1..] == all;
      ResolveKeptElems(stack + [elems[0]], elems[1..], rooted);
    }
  }

  /** A join starts with its first element's first character. */
  lemma JoinHead(elems: seq<string>, sep: char)
    requires |elems| >= 1 && |elems[0]| > 0
    ensures |Join(elems, sep)| > 0 && Join(elems, sep)[0] == elems[0][0]
  {
    if |elems| > 1 {
      assert Join(elems, sep) == elems[0] + [sep] + Join(elems[1..], sep);
    }
  }

  /** Relative cleaning of a non-empty kept stack reproduces it. */
  lemma CleanJoinKept(kept: seq<string>)
    requires |kept| >= 1 && Kept(kept, false)
    ensures Clean(Join(kept, '/')) == Join(kept, '/')
  {
    JoinHead(kept, '/');
    SplitJoin(kept, '/');
    ResolveKeptElems([], kept, false);
    assert [] + kept == kept;
  }

  /** Cleaning is idempotent, and its result is never empty. */
  lemma CleanIdempotent(p: string)
    ensures |Clean(p)| > 0
    ensures Clean(Clean(p)) == Clean(p)
  {
    SplitNoSep(".", '/');
    if p != "" {
      var rooted := p[0] == '/';
      var kept := Resolve([], Split(p, '/'), rooted);
      ResolveKept([], Split(p, '/'), rooted);
      if rooted {
        var r := "/" + Join(kept, '/');
        SplitCons("", '/', Join(kept, '/'));
        assert r == "" + ['/'] + Join(kept, '/');
        if |kept| == 0 {
          assert Split(r, '/') == ["", ""];
        } else {
          SplitJoin(kept, '/');
          ResolveKeptElems([], kept, true);
          assert [] + kept == kept;
        }
      } else if |kept| > 0 {
        CleanJoinKept(kept);
      }
    }
  }

  /** A relative path that is already clean: normal elements joined by `/`. */
  predicate CleanRelative(elems: seq<string>) {
    |elems| >= 1 && forall i :: 0 <= i < |elems| ==> Normal(elems[i])
  }

  /** Cleaning a clean relative path changes nothing. */
  lemma CleanIsIdentityOnCleanPaths(elems: seq<string>)
    requires CleanRelative(elems)
    ensures Clean(Join(elems, '/')) == Join(elems, '/')
  {
    CleanJoinKept(elems);
  }

  /** Joining two clean relative paths just puts a slash between them. */
  lemma JoinCleanPaths(a: seq<string>, b: seq<string>)
    requires CleanRelative(a) && CleanRelative(b)
    ensures JoinPath(Join(a, '/'), Join(b, '/')) == Join(a, '/') + "/" + Join(b, '/')
  {
    JoinAppend(a, b, '/');
    JoinHead(a, '/');
    CleanJoinKept(a + b);
    assert Join(a, '/') + "/" + Join(b, '/') == Join(a, '/') + ['/'] + Join(b, '/');
  }

  /** An empty or `.` element between two clean paths is dropped: `a//b`
      and `a/./b` clean to `a/b`. */
  lemma CleanDropsEmptyElements(a: seq<string>, b: seq<string>, skip: string)
    requires CleanRelative(a) && CleanRelative(b)
    requires skip == "" || skip == "."
    ensures Clean(Join(a, '/') + "/" + skip + "/" + Join(b, '/')) == Join(a, '/') + "/" + Join(b, '/')
  {
    JoinSkip(a, b, skip);
    CleanSkipsElement(a, b, skip);
    JoinAppend(a, b, '/');
    assert Join(a, '/') + "/" + Join(b, '/') == Join(a, '/') + ['/'] + Join(b, '/');
  }

  /** An empty or `.` element between two clean relative paths leaves the
      same clean path as leaving it out. */
  lemma CleanSkipsElement(a: seq<string>, b: seq<string>, skip: string)
    requires CleanRelative(a) && CleanRelative(b)
    requires skip == "" || skip == "."
    ensures Clean(Join(a + ([skip] + b), '/')) == Join(a + b, '/')
  {
    SlashFree(a, b, skip);
    CleanJoinRelative(a + ([skip] + b));
    ResolveSkip(a, b, skip);
  }

  lemma SlashFree(a: seq<string>, b: seq<string>, skip: string)
    requires CleanRelative(a) && CleanRelative(b) && '/' !in skip
    ensures var elems := a + ([skip] + b);
      && elems[0] == a[0]
      && forall i :: 0 <= i < |elems| ==> '/' !in elems[i]
  {
    var elems := a + ([skip] + b);
    forall i | 0 <= i < |elems| ensures '/' !in elems[i] {
      if i < |a| {
        assert elems[i] == a[i];
      } else if i > |a| {
        assert elems[i] == b[i - |a| - 1];
      }
    }
  }

  lemma JoinSkip(a: seq<string>, b: seq<string>, skip: string)
    requires |a| >= 1 && |b| >= 1
    ensures Join(a, '/') + "/" + skip + "/" + Join(b, '/') == Join(a + ([skip] + b), '/')
  {
    JoinAppend(a, [skip] + b, '/');
    JoinAppend([skip], b, '/');
  }

  /** Cleaning a relative path of slash-free elements is resolving the
      elements and joining what is kept. */
  lemma CleanJoinRelative(elems: seq<string>)
    requires |elems| >= 1 && |elems[0]| > 0 && elems[0][0] != '/'
    requires forall i :: 0 <= i < |elems| ==> '/' !in elems[i]
    ensures Clean(Join(elems, '/')) ==
      var kept := Resolve([], elems, false); if |kept| == 0 then "." else Join(kept, '/')
  {
    JoinHead(elems, '/');
    SplitJoin(elems, '/');
  }

  /** The elements of `a`, a skipped element, then those of `b`, resolve to
      `a + b`. */
  lemma ResolveSkip(a: seq<string>, b: seq<string>, skip: string)
    requires CleanRelative(a) && CleanRelative(b)
    requires skip == "" || skip == "."
    ensures Resolve([], a + ([skip] + b), false) == a + b
  {
    CleanRelativeKept(a, b);
    ResolveKeptElems([], a, false);
    assert [] + a == a;
    ResolveSplit([], a, [skip] + b, false);
    assert ([skip] + b)[1..] == b;
    ResolveKeptElems(a, b, false);
  }

  /** Clean relative paths, alone or joined, have the kept shape. */
  lemma CleanRelativeKept(a: seq<string>, b: seq<string>)
    requires CleanRelative(a) && CleanRelative(b)
    ensures Kept([] + a, false) && Kept(a + b, false)
  {
    assert [] + a == a;
    forall i | 0 <= i < |a + b| ensures Normal((a + b)[i]) {
      if i >= |a| {
        assert (a + b)[i] == b[i - |a|];
      }
    }
  }

  /** Resolving a concatenation is resolving its parts in turn. */
  lemma {:induction false} ResolveSplit(stack: seq<string>, xs: seq<string>, ys: seq<string>, rooted: bool)
    ensures Resolve(stack, xs + ys, rooted) == Resolve(Resolve(stack, xs, rooted), ys, rooted)
    decreases |xs|
  {
    if |xs| == 0 {
      assert xs + ys == ys;
    } else {
      assert (xs + ys)[1..] == xs[1..] + ys;
      ResolveSplit(Push(stack, xs[0], rooted), xs[1..], ys, rooted);
    }
  }
}
