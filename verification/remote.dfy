/**
  The two key-value store sources, consul and etcd. Both place a
  configuration key under a namespace
  `environments/<env>/services/<name>/<version>/config`, with every `.` of
  the key turned into `/`, and return nil on any failure. The store and the
  client are given as a value: whether the store answered, and what it
  holds.
 */
module Remote {
  import opened Wrappers
  import opened Text
  import opened Values
  import opened Coerce
  import opened Paths
  import FileSource

  /** What a store client sees: whether requests succeed, and the values
      stored under each path. */
  datatype Store = Store(reachable: bool, kv: map<string, string>)

  /** A configured consul source: the client address (the client's default
      when absent) and the namespace. */
  datatype ConsulConfig = ConsulConfig(address: Option<string>, path: string)

  /** A configured etcd source. */
  datatype EtcdConfig = EtcdConfig(
    endpoint: Option<string>,
    startRetryDelay: int,
    maxRetryDelay: int,
    path: string)

  const ConsulName: string := "consul"
  const EtcdName: string := "etcd"

  /** The namespace under which a service's keys live,
      `environments/<env>/services/<name>/<version>/config`: a relative
      path whose six elements are read back by splitting on `/`, as long as
      the three settings hold no `/`. */
  function Namespace(env: string, name: string, version: string): (r: string)
    ensures '/' !in env && '/' !in name && '/' !in version ==>
      Split(r, '/') == ["environments", env, "services", name, version, "config"]
    ensures |r| > 0 && r[0] != '/'
  {
    var parts := ["environments", env, "services", name, version, "config"];
    JoinHead(parts, '/');
    if '/' !in env && '/' !in name && '/' !in version then
      assert forall i :: 0 <= i < |parts| ==> '/' !in parts[i];
      SplitJoin(parts, '/');
      Join(parts, '/')
    else Join(parts, '/')
  }

  /** The store path of a configuration key: dots become slashes, and the
      result is joined under the namespace with `path.Join`. */
  function StorePath(ns: string, key: string): (r: string)
    ensures r == "" <==> ns == "" && key == ""
    ensures r != "" ==> Clean(r) == r
    ensures ns != "" ==> (r[0] == '/' <==> ns[0] == '/')
  {
    JoinPath(ns, ReplaceAll(key, '.', '/'))
  }

  /** `consulConfigSource.Get`: the stored bytes, or nil when the request
      fails or nothing is stored under the path. */
  function ConsulGet(ns: string, store: Store, key: string): (r: Raw)
    ensures r.Nil? || r.Bytes?
    ensures r.Bytes? <==> store.reachable && StorePath(ns, key) in store.kv
    ensures r.Bytes? ==> r.data == store.kv[StorePath(ns, key)]
  {
    var p := StorePath(ns, key);
    if store.reachable && p in store.kv then Bytes(store.kv[p]) else Nil
  }

  /** `etcdConfigSource.Get`: the node's value as a native string, or nil
      on any error (a missing key is an error for etcd). */
  function EtcdGet(cfg: EtcdConfig, store: Store, key: string): (r: Raw)
    ensures r.Nil? || r.Str?
    ensures r.Str? <==> store.reachable && StorePath(cfg.path, key) in store.kv
    ensures r.Str? ==> r.s == store.kv[StorePath(cfg.path, key)]
  {
    var p := StorePath(cfg.path, key);
    if store.reachable && p in store.kv then Str(store.kv[p]) else Nil
  }

  // ---------------------------------------------------------------- key paths

  /** Replacing every `a` by `b` is splitting on `a` and joining with `b`,
      when `b` does not occur. */
  lemma {:induction false} ReplaceAllIsSplitJoin(s: string, a: char, b: char)
    requires b !in s
    ensures ReplaceAll(s, a, b) == Join(Split(s, a), b)
    decreases |s|
  {
    if |s| > 0 {
      ReplaceAllIsSplitJoin(s[1..], a, b);
      var rest := Split(s[1..], a);
      assert ReplaceAll(s, a, b) == [if s[0] == a then b else s[0]] + ReplaceAll(s[1..], a, b);
      if s[0] != a {
        var parts := Split(s, a);
        assert parts[1..] == rest[1..];
        if |rest| > 1 {
          assert Join(rest, b) == rest[0] + [b] + Join(rest[1..], b);
        }
      } else {
        assert Split(s, a)[1..] == rest;
      }
    }
  }

  /** A configuration key whose dot-separated segments are all normal path
      elements. */
  predicate PlainKey(key: string) {
    CleanRelative(Split(key, '.'))
  }

  /** For a plain key under a clean namespace, the store path is the
      namespace, a slash, and the key with its dots turned into slashes. */
  lemma StorePathOfPlainKey(nsElems: seq<string>, key: string)
    requires CleanRelative(nsElems) && PlainKey(key)
    ensures StorePath(Join(nsElems, '/'), key) == Join(nsElems, '/') + "/" + ReplaceAll(key, '.', '/')
  {
    var segs := Split(key, '.');
    assert '/' !in key by {
      JoinSplit(key, '.');
      NoCharInJoin(segs, '.', '/');
    }
    ReplaceAllIsSplitJoin(key, '.', '/');
    JoinCleanPaths(nsElems, segs);
  }

  /** A character that is neither the separator nor in any part is not in
      the join. */
  lemma {:induction false} NoCharInJoin(parts: seq<string>, sep: char, c: char)
    requires c != sep
    requires forall i :: 0 <= i < |parts| ==> c !in parts[i]
    ensures c !in Join(parts, sep)
    decreases |parts|
  {
    if |parts| > 1 {
      NoCharInJoin(parts[1..], sep, c);
    }
  }

  /** The namespace built from normal elements is a clean path. */
  lemma NamespaceIsClean(env: string, name: string, version: string)
    requires Normal(env) && Normal(name) && Normal(version)
    ensures CleanRelative(["environments", env, "services", name, version, "config"])
  {
  }

  /** Segments that hold neither `.` nor `/` (they may be empty). */
  predicate Segments(xs: seq<string>) {
    |xs| >= 1 && forall i :: 0 <= i < |xs| ==> '.' !in xs[i] && '/' !in xs[i]
  }

  /** The key made of such segments turns into the same segments joined
      by slashes. */
  lemma DotsToSlashes(xs: seq<string>)
    requires Segments(xs)
    ensures ReplaceAll(Join(xs, '.'), '.', '/') == Join(xs, '/')
  {
    NoCharInJoin(xs, '.', '/');
    ReplaceAllIsSplitJoin(Join(xs, '.'), '.', '/');
    SplitJoin(xs, '.');
  }

  /** The store path of a key made of segments is the cleaned join of the
      namespace's elements and the key's segments. */
  lemma StorePathOfSegments(nsElems: seq<string>, xs: seq<string>)
    requires CleanRelative(nsElems) && Segments(xs)
    ensures StorePath(Join(nsElems, '/'), Join(xs, '.')) == Clean(Join(nsElems + xs, '/'))
  {
    DotsToSlashes(xs);
    JoinHead(nsElems, '/');
    JoinAppend(nsElems, xs, '/');
    assert Join(nsElems, '/') + "/" + Join(xs, '/') == Join(nsElems, '/') + ['/'] + Join(xs, '/');
  }

  /** Unlike the file source, the remote sources do not see empty key
      segments: `a..b` reads the same entry as `a.b`. */
  lemma EmptySegmentAliases(nsElems: seq<string>, a: seq<string>, b: seq<string>)
    requires CleanRelative(nsElems) && CleanRelative(a) && CleanRelative(b)
    requires Segments(a) && Segments(b)
    ensures StorePath(Join(nsElems, '/'), Join(a + [""] + b, '.'))
         == StorePath(Join(nsElems, '/'), Join(a + b, '.'))
  {
    SegmentsWithEmpty(a, b);
    EmptySegmentCleans(nsElems, a, b);
    SameCleanPath(nsElems, a + [""] + b, a + b);
  }

  /** Under the namespace, an empty segment between two clean paths cleans
      away. */
  lemma EmptySegmentCleans(nsElems: seq<string>, a: seq<string>, b: seq<string>)
    requires CleanRelative(nsElems) && CleanRelative(a) && CleanRelative(b)
    ensures Clean(Join(nsElems + (a + [""] + b), '/')) == Clean(Join(nsElems + (a + b), '/'))
  {
    var na := nsElems + a;
    CleanRelativeAppend(nsElems, a);
    CleanRelativeAppend(na, b);
    Regroup(nsElems, a, [""], b);
    CleanSkipsElement(na, b, "");
    CleanIsIdentityOnCleanPaths(na + b);
  }

  lemma Regroup<T>(n: seq<T>, a: seq<T>, m: seq<T>, b: seq<T>)
    ensures n + (a + m + b) == (n + a) + (m + b)
    ensures n + (a + b) == (n + a) + b
  {
  }

  /** Two keys whose segments clean to the same path under the namespace
      have the same store path. */
  lemma SameCleanPath(nsElems: seq<string>, x: seq<string>, y: seq<string>)
    requires CleanRelative(nsElems) && Segments(x) && Segments(y)
    requires Clean(Join(nsElems + x, '/')) == Clean(Join(nsElems + y, '/'))
    ensures StorePath(Join(nsElems, '/'), Join(x, '.')) == StorePath(Join(nsElems, '/'), Join(y, '.'))
  {
    StorePathOfSegments(nsElems, x);
    StorePathOfSegments(nsElems, y);
  }

  lemma CleanRelativeAppend(x: seq<string>, y: seq<string>)
    requires CleanRelative(x) && CleanRelative(y)
    ensures CleanRelative(x + y)
  {
    assert forall i :: 0 <= i < |x + y| ==> (x + y)[i] == if i < |x| then x[i] else y[i - |x|];
  }

  lemma SegmentsWithEmpty(a: seq<string>, b: seq<string>)
    requires Segments(a) && Segments(b)
    ensures Segments(a + [""] + b)
  {
    var s := a + [""] + b;
    assert forall i :: 0 <= i < |s| ==> s[i] == if i < |a| then a[i] else if i == |a| then "" else b[i - |a| - 1];
  }

  // ---------------------------------------------------------------- rendering

  function IntKindName(k: IntKind): string {
    match k
    case KInt => "int"
    case KInt8 => "int8"
    case KInt16 => "int16"
    case KInt32 => "int32"
    case KInt64 => "int64"
    case KUint => "uint"
    case KUint8 => "uint8"
    case KUint16 => "uint16"
    case KUint32 => "uint32"
    case KUint64 => "uint64"
  }

  /** How `fmt`'s `%s` verb renders an untyped value: strings and byte
      slices as their text, anything else as a `%!s(type=value)` complaint.
      Floats, maps and lists are rendered by `other`, which is not modelled. */
  function Render(v: Raw, other: Raw -> string): (r: string)
    ensures CoerceString(v).1 ==> r == CoerceString(v).0
    ensures v.Nil? || v.Bool? || v.Int? ==> |r| > 4 && r[..4] == "%!s("
  {
    match v
    case Str(s) => s
    case Bytes(d) => d
    case Nil => "%!s(<nil>)"
    case Bool(b) => "%!s(bool=" + FormatBool(b) + ")"
    case Int(k, i) => "%!s(" + IntKindName(k) + "=" + Itoa(i) + ")"
    case _ => other(v)
  }

  /** For the values `GetString` accepts, `%s` renders exactly the text
      `GetString` returns; nil renders as a complaint, not as `""`. */
  lemma RenderAgreesWithCoerceString(v: Raw, other: Raw -> string)
    ensures CoerceString(v).1 ==> Render(v, other) == CoerceString(v).0
    ensures v.Nil? ==> Render(v, other) == "%!s(<nil>)" && CoerceString(v) == ("", false)
  {
  }

  // ---------------------------------------------------------------- consul init

  /** The settings the consul source reads from the local file, as key
      segments; the dotted keys are these segments joined by `.`. */
  const ConsulHostsPath: seq<string> := ["kumuluzee", "config", "consul", "hosts"]
  const EnvNamePath: seq<string> := ["kumuluzee", "env", "name"]
  const NamePath: seq<string> := ["kumuluzee", "name"]
  const VersionPath: seq<string> := ["kumuluzee", "version"]

  const ConsulHostsKey: string := Join(ConsulHostsPath, '.')
  const EnvNameKey: string := Join(EnvNamePath, '.')
  const NameKey: string := Join(NamePath, '.')
  const VersionKey: string := Join(VersionPath, '.')

  /** A setting of the local file, found by walking its key segments. */
  function Setting(local: map<string, Raw>, path: seq<string>): Raw
    requires |path| >= 1
  {
    FileSource.Walk(local, path)
  }

  /** Each setting is what the file source's `Get` returns for its dotted
      key. */
  lemma SettingsAreFileValues(local: map<string, Raw>)
    ensures Setting(local, ConsulHostsPath) == FileSource.Get(local, ConsulHostsKey)
    ensures Setting(local, EnvNamePath) == FileSource.Get(local, EnvNameKey)
    ensures Setting(local, NamePath) == FileSource.Get(local, NameKey)
    ensures Setting(local, VersionPath) == FileSource.Get(local, VersionKey)
  {
    FileSource.GetJoin(local, ConsulHostsPath);
    FileSource.GetJoin(local, EnvNamePath);
    FileSource.GetJoin(local, NamePath);
    FileSource.GetJoin(local, VersionPath);
  }

  /** A consul address setting that does not panic: absent, or a string. */
  predicate HostsUsable(local: map<string, Raw>) {
    var hosts := Setting(local, ConsulHostsPath); hosts.Nil? || hosts.Str?
  }

  /** `initConsulConfigSource`, reading its settings from the local file
      configuration: the address when one is set, and a namespace from the
      raw values, with no defaults. `clientOk` says whether the client could
      be created; when it could not, there is no source. A set address that
      is not a string makes the source panic, so it is excluded. */
  function InitConsul(local: map<string, Raw>, clientOk: bool, other: Raw -> string): (r: Option<ConsulConfig>)
    requires HostsUsable(local)
    ensures r.Some? <==> clientOk
    ensures r.Some? ==> r.value.path == Namespace(
      Render(Setting(local, EnvNamePath), other),
      Render(Setting(local, NamePath), other),
      Render(Setting(local, VersionPath), other))
    ensures r.Some? ==> (r.value.address.Some? <==> Setting(local, ConsulHostsPath).Str?)
    ensures r.Some? && r.value.address.Some? ==> r.value.address.value == Setting(local, ConsulHostsPath).s
  {
    if !clientOk then None
    else
      var hosts := Setting(local, ConsulHostsPath);
      var address := if hosts.Str? then Some(hosts.s) else None;
      Some(ConsulConfig(address, Namespace(
        Render(Setting(local, EnvNamePath), other),
        Render(Setting(local, NamePath), other),
        Render(Setting(local, VersionPath), other))))
  }

  /** A consul namespace from a local file without the service settings
      spells nil out in all three places. */
  lemma ConsulNamespaceWithoutSettings(clientOk: bool, other: Raw -> string)
    requires clientOk
    ensures InitConsul(map[], clientOk, other).value.path
      == Namespace("%!s(<nil>)", "%!s(<nil>)", "%!s(<nil>)")
  {
  }
}
