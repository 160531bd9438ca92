/**
  The service settings both remote sources need: the environment name,
  the service name and version that make up the namespace, and the etcd
  retry delays. `loadServiceConfiguration` reads them with the typed
  getters and fills in defaults; the etcd constructor reads the namespace
  parts raw with `getOrDefault` and formats them with `%s`.
 */
module Service {
  import opened Wrappers
  import opened Text
  import opened Values
  import opened Coerce
  import opened Remote
  import opened Resolver

  const StartRetryDelayKey: string := Join(["kumuluzee", "config", "start-retry-delay-ms"], '.')
  const MaxRetryDelayKey: string := Join(["kumuluzee", "config", "max-retry-delay-ms"], '.')
  const EtcdHostsKey: string := Join(["kumuluzee", "config", "etcd", "hosts"], '.')

  const DefaultEnvName: string := "dev"
  const DefaultVersion: string := "1.0.0"
  const DefaultStartRetryDelay: int := 500
  const DefaultMaxRetryDelay: int := 900000

  /** `getOrDefault`: the resolver's raw answer, or the default when it is
      nil. No coercion takes place. */
  function GetOrDefault(u: Util, key: string, default: Raw): (r: Raw)
    ensures !Get(u, key).Nil? ==> r == Get(u, key)
    ensures Get(u, key).Nil? ==> r == default
    ensures !default.Nil? ==> !r.Nil?
  {
    var v := Get(u, key);
    if v.Nil? then default else v
  }

  /** A typed getter's answer, or a default when it fails. */
  function Or<T>(answer: (T, bool), default: T): T {
    if answer.1 then answer.0 else default
  }

  datatype ServiceConfig = ServiceConfig(
    envName: string,
    name: string,
    version: string,
    startRetryDelay: int,
    maxRetryDelay: int)

  /** `loadServiceConfiguration`: each setting through its typed getter,
      with `"dev"`, `"1.0.0"`, 500 and 900000 as defaults; the service name
      has none and is `""` when missing. */
  function LoadServiceConfiguration(u: Util): (c: ServiceConfig)
    ensures GetString(u, EnvNameKey).1 ==> c.envName == GetString(u, EnvNameKey).0
    ensures !GetString(u, EnvNameKey).1 ==> c.envName == DefaultEnvName
    ensures GetString(u, NameKey).1 ==> c.name == GetString(u, NameKey).0
    ensures !GetString(u, NameKey).1 ==> c.name == ""
    ensures GetString(u, VersionKey).1 ==> c.version == GetString(u, VersionKey).0
    ensures !GetString(u, VersionKey).1 ==> c.version == DefaultVersion
    ensures GetInt(u, StartRetryDelayKey).1 ==> c.startRetryDelay == GetInt(u, StartRetryDelayKey).0
    ensures !GetInt(u, StartRetryDelayKey).1 ==> c.startRetryDelay == DefaultStartRetryDelay
    ensures GetInt(u, MaxRetryDelayKey).1 ==> c.maxRetryDelay == GetInt(u, MaxRetryDelayKey).0
    ensures !GetInt(u, MaxRetryDelayKey).1 ==> c.maxRetryDelay == DefaultMaxRetryDelay
  {
    ServiceConfig(
      Or(GetString(u, EnvNameKey), DefaultEnvName),
      GetString(u, NameKey).0,
      Or(GetString(u, VersionKey), DefaultVersion),
      Or(GetInt(u, StartRetryDelayKey), DefaultStartRetryDelay),
      Or(GetInt(u, MaxRetryDelayKey), DefaultMaxRetryDelay))
  }

  /** `newEtcdConfigSource`: the endpoint when a hosts string is set, the
      delays as `loadServiceConfiguration` reads them, and a namespace from
      the raw values formatted with `%s`, with `"dev"` and `"1.0.0"` as
      defaults and none for the name. `clientOk` says whether the client
      could be created; when it could not, there is no source. */
  function NewEtcdConfigSource(u: Util, clientOk: bool, other: Raw -> string): (r: Option<EtcdConfig>)
    ensures r.Some? <==> clientOk
    ensures r.Some? ==> (r.value.endpoint.Some? <==> GetString(u, EtcdHostsKey).1)
    ensures r.Some? && r.value.endpoint.Some? ==> r.value.endpoint.value == GetString(u, EtcdHostsKey).0
    ensures r.Some? ==> r.value.path == Namespace(
      Render(GetOrDefault(u, EnvNameKey, Str(DefaultEnvName)), other),
      Render(GetOrDefault(u, NameKey, Nil), other),
      Render(GetOrDefault(u, VersionKey, Str(DefaultVersion)), other))
  {
    if !clientOk then None
    else
      var hosts := GetString(u, EtcdHostsKey);
      var load := LoadServiceConfiguration(u);
      Some(EtcdConfig(
        if hosts.1 then Some(hosts.0) else None,
        load.startRetryDelay,
        load.maxRetryDelay,
        Namespace(
          Render(GetOrDefault(u, EnvNameKey, Str(DefaultEnvName)), other),
          Render(GetOrDefault(u, NameKey, Nil), other),
          Render(GetOrDefault(u, VersionKey, Str(DefaultVersion)), other))))
  }

  /** The etcd source retries with the delays `loadServiceConfiguration`
      reads. */
  lemma EtcdDelaysAreLoaded(u: Util, other: Raw -> string)
    ensures NewEtcdConfigSource(u, true, other).value.startRetryDelay == LoadServiceConfiguration(u).startRetryDelay
    ensures NewEtcdConfigSource(u, true, other).value.maxRetryDelay == LoadServiceConfiguration(u).maxRetryDelay
  {
  }

  /** When the three namespace settings are text (or the optional ones are
      missing), the etcd namespace is built from the loaded settings. */
  lemma EtcdNamespaceIsLoaded(u: Util, other: Raw -> string)
    requires Get(u, EnvNameKey).Nil? || Get(u, EnvNameKey).Str? || Get(u, EnvNameKey).Bytes?
    requires Get(u, NameKey).Str? || Get(u, NameKey).Bytes?
    requires Get(u, VersionKey).Nil? || Get(u, VersionKey).Str? || Get(u, VersionKey).Bytes?
    ensures var c := LoadServiceConfiguration(u);
      NewEtcdConfigSource(u, true, other).value.path == Namespace(c.envName, c.name, c.version)
  {
  }

  /** With nothing configured, the loaded settings are all defaults, while
      the etcd namespace spells the missing service name as `%!s(<nil>)`. */
  lemma NothingConfigured(u: Util, other: Raw -> string)
    requires forall key :: Get(u, key).Nil?
    ensures LoadServiceConfiguration(u) == ServiceConfig(DefaultEnvName, "", DefaultVersion, 500, 900000)
    ensures NewEtcdConfigSource(u, true, other).value.path == Namespace("dev", "%!s(<nil>)", "1.0.0")
    ensures NewEtcdConfigSource(u, true, other).value.endpoint.None?
  {
    assert Get(u, EnvNameKey).Nil? && Get(u, NameKey).Nil? && Get(u, VersionKey).Nil?;
    assert Get(u, StartRetryDelayKey).Nil? && Get(u, MaxRetryDelayKey).Nil? && Get(u, EtcdHostsKey).Nil?;
  }
}
