/**
  `Util`, the resolver: an ordered list of configuration sources, asked in
  turn for a key until one answers with something other than nil, and the
  typed getters that coerce that one answer.
 */
module Resolver {
  import opened Wrappers
  import opened Values
  import opened Coerce
  import opened Remote
  import opened Watch
  import EnvSource
  import FileSource

  /** A configuration source with what it reads from. */
  datatype Source =
    | Env(vars: map<string, string>)
    | File(tree: map<string, Raw>)
    | Consul(consul: ConsulConfig, consulStore: Store)
    | Etcd(etcd: EtcdConfig, etcdStore: Store)

  /** `Name()` of each source. */
  function Name(src: Source): string {
    match src
    case Env(_) => EnvSource.Name
    case File(_) => FileSource.Name
    case Consul(_, _) => ConsulName
    case Etcd(_, _) => EtcdName
  }

  /** `Get(key)` of each source. */
  /** The environment and the remote stores answer only text or nil: the
      environment and etcd a native string, consul a byte slice, so every
      such answer reads through `GetString`. An empty file answers nil. */
  function SourceGet(src: Source, key: string): (r: Raw)
    ensures src.Env? ==> (r.Nil? <==> key !in src.vars)
    ensures src.Env? || src.Etcd? ==> r.Nil? || r.Str?
    ensures src.Consul? ==> r.Nil? || r.Bytes?
    ensures !src.File? && !r.Nil? ==> CoerceString(r).1
    ensures src.File? && src.tree == map[] ==> r.Nil?
  {
    match src
    case Env(vars) => EnvSource.Get(vars, key)
    case File(tree) => FileSource.Get(tree, key)
    case Consul(c, store) => ConsulGet(c.path, store, key)
    case Etcd(c, store) => EtcdGet(c, store, key)
  }

  datatype Util = Util(sources: seq<Source>)

  /** The first answer other than nil, in list order; nil when every
      source answers nil. */
  function GetFrom(sources: seq<Source>, key: string): (r: Raw)
    ensures r.Nil? <==> forall i :: 0 <= i < |sources| ==> SourceGet(sources[i], key).Nil?
    ensures !r.Nil? ==> exists i :: (0 <= i < |sources| && r == SourceGet(sources[i], key)
      && forall j :: 0 <= j < i ==> SourceGet(sources[j], key).Nil?)
    decreases |sources|
  {
    if |sources| == 0 then Nil
    else
      var v := SourceGet(sources[0], key);
      if !v.Nil? then v
      else
        var r := GetFrom(sources[1..], key);
        assert forall i :: 1 <= i < |sources| ==> sources[i] == sources[1..][i - 1];
        r
  }

  /** `Util.Get`: nil exactly when every source answers nil, otherwise the
      answer of the first source that gives one. */
  function Get(u: Util, key: string): (r: Raw)
    ensures r.Nil? <==> forall i :: 0 <= i < |u.sources| ==> SourceGet(u.sources[i], key).Nil?
    ensures !r.Nil? ==> exists i :: (0 <= i < |u.sources| && r == SourceGet(u.sources[i], key)
      && forall j :: 0 <= j < i ==> SourceGet(u.sources[j], key).Nil?)
  {
    GetFrom(u.sources, key)
  }

  /** The loop of `Util.Get`, step for step. */
  method GetLoop(u: Util, key: string) returns (val: Raw)
    ensures val == Get(u, key)
  {
    val := Nil;
    var i := 0;
    while i < |u.sources|
      invariant 0 <= i <= |u.sources|
      invariant val.Nil?
      invariant forall j :: 0 <= j < i ==> SourceGet(u.sources[j], key).Nil?
    {
      val := SourceGet(u.sources[i], key);
      if !val.Nil? {
        FirstAnswerWins(u, key, i);
        return;
      }
      i := i + 1;
    }
  }

  /** Priority: the first source that answers decides, whatever the later
      sources hold. */
  lemma FirstAnswerWins(u: Util, key: string, i: nat)
    requires i < |u.sources|
    requires !SourceGet(u.sources[i], key).Nil?
    requires forall j :: 0 <= j < i ==> SourceGet(u.sources[j], key).Nil?
    ensures Get(u, key) == SourceGet(u.sources[i], key)
  {
  }

  // ---------------------------------------------------------------- typed getters

  /** `Util.GetBool`: succeeds exactly when the first answer is a byte
      slice that parses as a bool or a native bool. */
  function GetBool(u: Util, key: string): (r: (bool, bool))
    ensures var v := Get(u, key);
      && (r.1 <==> (v.Bytes? && ParseBool(v.data).Some?) || v.Bool?)
      && (r.1 && v.Bytes? ==> r.0 == ParseBool(v.data).value)
      && (v.Bool? ==> r.0 == v.b)
      && (!r.1 ==> !r.0)
  {
    CoerceBool(Get(u, key))
  }

  /** `Util.GetInt`: succeeds exactly when the first answer is a byte slice
      that `Atoi` accepts or a native `int`. */
  function GetInt(u: Util, key: string): (r: (int, bool))
    ensures var v := Get(u, key);
      && (r.1 <==> (v.Bytes? && Atoi(v.data).Some?) || (v.Int? && v.ikind == KInt))
      && (r.1 && v.Bytes? ==> r.0 == Atoi(v.data).value)
      && (r.1 && v.Int? ==> r.0 == v.i)
      && (!r.1 ==> r.0 == 0)
  {
    CoerceInt(Get(u, key))
  }

  /** `Util.GetFloat`, with `strconv.ParseFloat` as a parameter: succeeds
      exactly when the first answer is a byte slice that parses or a native
      `float64`. */
  function GetFloat(u: Util, key: string, parseFloat: FloatParser): (r: (real, bool))
    ensures var v := Get(u, key);
      && (r.1 <==> (v.Bytes? && parseFloat(v.data).Some?) || (v.Float? && v.fkind == KFloat64))
      && (r.1 && v.Bytes? ==> r.0 == parseFloat(v.data).value)
      && (r.1 && v.Float? ==> r.0 == v.f)
      && (!r.1 ==> r.0 == 0.0)
  {
    CoerceFloat(Get(u, key), parseFloat)
  }

  /** `Util.GetString`: succeeds exactly when the first answer is a native
      string or a byte slice, with its text. */
  function GetString(u: Util, key: string): (r: (string, bool))
    ensures var v := Get(u, key);
      && (r.1 <==> v.Str? || v.Bytes?)
      && (v.Str? ==> r.0 == v.s)
      && (v.Bytes? ==> r.0 == v.data)
      && (!r.1 ==> r.0 == "")
  {
    CoerceString(Get(u, key))
  }

  /** The getters look at the first answer only: when it cannot be coerced,
      they fail even if a later source holds a value of the right type. An
      environment variable `"3000"` hides a native integer in the file. */
  lemma FirstAnswerHidesLaterValues(vars: map<string, string>, tree: map<string, Raw>, key: string, n: int)
    requires key in vars && '.' !in key && key in tree && tree[key] == Int(KInt, n)
    ensures GetInt(Util([Env(vars), File(tree)]), key) == (0, false)
    ensures GetInt(Util([File(tree)]), key) == (n, true)
    ensures GetString(Util([Env(vars), File(tree)]), key) == (vars[key], true)
  {
    FileSource.GetSingleSegment(tree, key);
    FirstAnswerWins(Util([Env(vars), File(tree)]), key, 0);
    FirstAnswerWins(Util([File(tree)]), key, 0);
  }

  /** A key nobody holds fails every getter with its zero value. */
  lemma MissingKeyFailsAllGetters(u: Util, key: string, parseFloat: FloatParser)
    requires forall i :: 0 <= i < |u.sources| ==> SourceGet(u.sources[i], key).Nil?
    ensures Get(u, key) == Nil
    ensures GetBool(u, key) == (false, false) && GetInt(u, key) == (0, false)
    ensures GetFloat(u, key, parseFloat) == (0.0, false) && GetString(u, key) == ("", false)
  {
  }

  /** How YAML scalars from the file source read back through the getters
      (the YAML decoder gives float64 for every number): a number reads as
      a float only, a quoted scalar as a string only, a bool as a bool. */
  lemma FileScalars(tree: map<string, Raw>, key: string, parseFloat: FloatParser)
    requires '.' !in key && key in tree
    ensures var u := Util([File(tree)]);
      && (tree[key].Float? && tree[key].fkind == KFloat64 ==>
            GetFloat(u, key, parseFloat) == (tree[key].f, true)
            && GetInt(u, key) == (0, false) && GetString(u, key) == ("", false)
            && GetBool(u, key) == (false, false))
      && (tree[key].Str? ==>
            GetString(u, key) == (tree[key].s, true)
            && GetInt(u, key) == (0, false) && GetFloat(u, key, parseFloat) == (0.0, false)
            && GetBool(u, key) == (false, false))
      && (tree[key].Bool? ==>
            GetBool(u, key) == (tree[key].b, true)
            && GetInt(u, key) == (0, false) && GetFloat(u, key, parseFloat) == (0.0, false)
            && GetString(u, key) == ("", false))
  {
    FileSource.GetSingleSegment(tree, key);
    if !tree[key].Nil? {
      FirstAnswerWins(Util([File(tree)]), key, 0);
    }
  }

  /** The use-case lookups through `Util`: nested strings are read, the
      port (a YAML number) reads as a float and not as an int. */
  lemma UseCaseThroughUtil(parseFloat: FloatParser)
    ensures GetString(Util([File(FileSource.TestTree())]), Text.Join(["some-config", "protocol"], '.')) == ("tcp", true)
    ensures GetInt(Util([File(FileSource.TestTree())]), Text.Join(["some-config", "address", "port"], '.')) == (0, false)
    ensures GetFloat(Util([File(FileSource.TestTree())]), Text.Join(["some-config", "address", "port"], '.'), parseFloat) == (3000.0, true)
  {
    FileSource.TestTreeProtocol();
    FileSource.TestTreePort();
    var u := Util([File(FileSource.TestTree())]);
    FirstAnswerWins(u, Text.Join(["some-config", "protocol"], '.'), 0);
    FirstAnswerWins(u, Text.Join(["some-config", "address", "port"], '.'), 0);
  }

  // ---------------------------------------------------------------- NewUtil

  /** `NewUtil`: the environment source, then the file source when the
      file could be read and parsed, then the consul source when the
      extension is `"consul"` and its client could be created. The etcd
      extension adds nothing, and sources are not sorted. The consul source
      reads its settings from the file source, which must be present; a
      consul address that is not a string is excluded, as it panics. */
  function NewUtil(
    extension: string, vars: map<string, string>, file: Option<map<string, Raw>>,
    consulClientOk: bool, consulStore: Store, other: Raw -> string): (u: Util)
    requires extension == ConsulName ==> file.Some?
    requires extension == ConsulName ==> HostsUsable(file.value)
    ensures 1 <= |u.sources| <= 3 && u.sources[0] == Env(vars)
    ensures forall i :: 0 <= i < |u.sources| ==> !u.sources[i].Etcd?
    ensures file.Some? ==> |u.sources| >= 2 && u.sources[1] == File(file.value)
    ensures file.None? ==> forall i :: 0 <= i < |u.sources| ==> !u.sources[i].File?
    ensures forall i :: 0 <= i < |u.sources| - 1 ==> !u.sources[i].Consul?
    ensures u.sources[|u.sources| - 1].Consul? <==> extension == ConsulName && consulClientOk
    ensures extension == ConsulName && consulClientOk ==>
      u.sources[|u.sources| - 1] == Consul(InitConsul(file.value, consulClientOk, other).value, consulStore)
  {
    var local := if file.Some? then [Env(vars), File(file.value)] else [Env(vars)];
    if extension == ConsulName then
      match InitConsul(file.value, consulClientOk, other)
      case Some(c) => Util(local + [Consul(c, consulStore)])
      case None => Util(local)
    else Util(local)
  }

  /** Any extension other than `"consul"`, `"etcd"` included, gives the
      same sources as no extension. */
  lemma OnlyConsulExtends(
    extension: string, vars: map<string, string>, file: Option<map<string, Raw>>,
    ok: bool, store: Store, other: Raw -> string)
    requires extension != ConsulName
    ensures NewUtil(extension, vars, file, ok, store, other) == NewUtil("", vars, file, ok, store, other)
    ensures NewUtil(EtcdName, vars, file, ok, store, other) == NewUtil("", vars, file, ok, store, other)
  {
  }

  /** The environment shadows the file, which shadows consul: a set
      variable always wins, and the file answers before the store. */
  lemma NewUtilPriority(
    extension: string, vars: map<string, string>, file: Option<map<string, Raw>>,
    ok: bool, store: Store, other: Raw -> string, key: string)
    requires extension == ConsulName ==> file.Some?
    requires extension == ConsulName ==> HostsUsable(file.value)
    ensures var u := NewUtil(extension, vars, file, ok, store, other);
      && (key in vars ==> Get(u, key) == Str(vars[key]))
      && (key !in vars && file.Some? && !FileSource.Get(file.value, key).Nil? ==>
            Get(u, key) == FileSource.Get(file.value, key))
  {
    var u := NewUtil(extension, vars, file, ok, store, other);
    if key in vars {
      FirstAnswerWins(u, key, 0);
    } else if file.Some? && !FileSource.Get(file.value, key).Nil? {
      FirstAnswerWins(u, key, 1);
    }
  }

  // ---------------------------------------------------------------- Subscribe

  /** A started watch loop: the store source it runs against and its
      initial state. */
  datatype WatchStart =
    | ConsulWatch(consul: ConsulConfig, consulStore: Store, consulState: ConsulState)
    | EtcdWatch(etcd: EtcdConfig, etcdStore: Store, etcdState: EtcdState)

  /** A source whose name is `"consul"` or `"etcd"`. */
  predicate IsStore(src: Source) {
    Name(src) == ConsulName || Name(src) == EtcdName
  }

  /** What the source's own `Subscribe` starts; the environment and file
      sources have none. */
  function StartWatch(src: Source, key: string): (r: Option<WatchStart>)
    ensures r.Some? <==> IsStore(src)
    ensures r.Some? ==> (r.value.ConsulWatch? <==> src.Consul?)
    ensures r.Some? && r.value.ConsulWatch? ==>
      && r.value.consul == src.consul && r.value.consulStore == src.consulStore
      && r.value.consulState.key == key && r.value.consulState.previous == "" && r.value.consulState.waitIndex == 0
    ensures r.Some? && r.value.EtcdWatch? ==>
      && r.value.etcd == src.etcd && r.value.etcdStore == src.etcdStore
      && r.value.etcdState.key == key && r.value.etcdState.previous == ""
      && r.value.etcdState.retryDelay == src.etcd.startRetryDelay
  {
    match src
    case Consul(c, store) => Some(ConsulWatch(c, store, ConsulStart(key)))
    case Etcd(c, store) => Some(EtcdWatch(c, store, EtcdStart(c, key)))
    case _ => None
  }

  /** Where the loop over the sources stops: the index of the first store
      source, or the number of sources when there is none. */
  function FirstStore(sources: seq<Source>): (i: nat)
    ensures i <= |sources|
    ensures forall j :: 0 <= j < i ==> !IsStore(sources[j])
    ensures i < |sources| ==> IsStore(sources[i])
    decreases |sources|
  {
    if |sources| == 0 || IsStore(sources[0]) then 0
    else
      var i := FirstStore(sources[1..]);
      assert forall j :: 1 <= j < |sources| ==> sources[j] == sources[1..][j - 1];
      1 + i
  }

  function SubscribeFrom(sources: seq<Source>, key: string): (r: Option<WatchStart>)
    ensures r.None? <==> forall i :: 0 <= i < |sources| ==> !IsStore(sources[i])
    ensures r.Some? ==> exists i :: (0 <= i < |sources| && IsStore(sources[i])
      && (forall j :: 0 <= j < i ==> !IsStore(sources[j]))
      && r == StartWatch(sources[i], key))
  {
    var i := FirstStore(sources);
    if i < |sources| then StartWatch(sources[i], key) else None
  }

  /** `Util.Subscribe`: the watch goes to the first store source only. */
  function Subscribe(u: Util, key: string): (r: Option<WatchStart>)
    ensures r.None? <==> forall i :: 0 <= i < |u.sources| ==> !IsStore(u.sources[i])
    ensures r.Some? ==> exists i :: (0 <= i < |u.sources| && IsStore(u.sources[i])
      && (forall j :: 0 <= j < i ==> !IsStore(u.sources[j]))
      && r == StartWatch(u.sources[i], key))
  {
    SubscribeFrom(u.sources, key)
  }

  /** On a resolver from `NewUtil`, a watch starts exactly when the consul
      source is present, and it starts with no value seen and index 0. */
  lemma SubscribeOnNewUtil(
    extension: string, vars: map<string, string>, file: Option<map<string, Raw>>,
    ok: bool, store: Store, other: Raw -> string, key: string)
    requires extension == ConsulName ==> file.Some?
    requires extension == ConsulName ==> HostsUsable(file.value)
    ensures var w := Subscribe(NewUtil(extension, vars, file, ok, store, other), key);
      && (w.Some? <==> extension == ConsulName && ok)
      && (w.Some? ==> w.value.ConsulWatch? && w.value.consulState == ConsulStart(key))
  {
    var u := NewUtil(extension, vars, file, ok, store, other);
    assert forall i :: 0 <= i < |u.sources| ==> (IsStore(u.sources[i]) <==> u.sources[i].Consul?);
  }
}
