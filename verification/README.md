# kumuluzee-go-config in Dafny

A model of the configuration library for KumuluzEE Go services. It covers:

- **The resolver.** `Util` holds an ordered list of configuration sources. `Get` returns the first answer that is not nil. `GetBool`, `GetInt`, `GetFloat` and `GetString` coerce that one answer by fixed, asymmetric rules: only byte slices are parsed, and a native value must already have the exact Go type asked for.
- **The sources.**
  - Environment: a verbatim variable lookup.
  - File: a YAML tree searched by a dotted key, one map level per `.`-separated segment.
  - Consul and etcd: a store path `environments/<env>/services/<name>/<version>/config/<key with . as />`, placed with `path.Join`.
- **The two watch loops**, each as one pure step over its state:
  - etcd: the value seen last and the retry delay, with exponential backoff and a cap.
  - consul: the value seen last and the wait index.
- **Struct binding.**
  - `NewBundle`/`setMapValues` fill a nested map from the resolver.
  - The struct helpers derive a key per field (`retrieveKey`), walk nested structs (`traverseStruct`), and choose the getter by field kind (`setValueWithReflect`).
- **The service settings** (`loadServiceConfiguration`, `getOrDefault`, the etcd constructor), and `assertAsNumber`.

The environment-key spellings `normalizeKey`, `normalizeKeyUpper`, `parseKeyLegacy1` and `parseKeyLegacy2` have no implementation among the files modelled. They are defined here as string functions that reproduce the repository's test vectors.

## Modelling choices

- Go's `interface{}` values are `Values.Raw`: nil, native string, byte slice (held as its text), bool, one of the ten integer kinds, float32 or float64 (a `real`), nested map, or list.
- Integers are unbounded. `Atoi` accepts exactly the int64 range. The one place where 64-bit wrap-around matters, the etcd delay doubling, is written out with `Watch.Wrap64`, and the etcd loop steps with it.
- External things are given as values:
  - the environment is a map;
  - the parsed YAML file is an optional tree (absent when it cannot be read);
  - a remote store is `Remote.Store`: whether it answers, and its key-value map;
  - whether a client can be created is a `bool` parameter;
  - `strconv.ParseFloat` is a parameter `FloatParser`;
  - `%s` formatting of floats, maps and lists is a parameter `other`.
- A Go panic is an `Option` result of `None` where the operation is modelled: `setMapValues` on a nil leaf, and setting an `int`/`float64` into a narrower field. The consul and `NewUtil` panics are excluded by a `requires` instead (see Left out).
- Each watch loop is an infinite self-recursive goroutine. It is modelled as a step function (`Watch.EtcdStepOf`, `Watch.ConsulStepOf`) and a finite run of steps over a list of observations (`Watch.EtcdRun`, `Watch.ConsulRun`). Sleeps and callbacks are recorded in the run's trace.
- The files come from different revisions of the package and do not compile together. `config/config.go:57` and `:68` pass arguments that `config/env_config.go:8` and `config/consul_config.go:17` do not take, and `Util.Subscribe` calls a `Subscribe` that the file and environment sources (which have `Watch`) lack. Each file's logic is modelled as written.
- The doc comment of `Util.Get` (`config/config.go:163-164`) says the sources are checked by their ordinal numbers. `NewUtil` never sorts them (the `TODO` at `config/config.go:78`), so the model keeps the order in which `NewUtil` appends them. Other behaviours of the code that the model follows:
  - the sources are the environment, then the file when it was read, then consul (`config/config.go:57-71`);
  - extension `"etcd"` adds no source (`config/config.go:72-73`);
  - `Util.Subscribe` starts the watch of the first consul or etcd source only (`config/config.go:155-160`);
  - `envConfigSource.Get` looks the key up exactly as given, with no other spelling (`config/env_config.go:15-21`);
  - `Util.GetBool` parses byte slices only, never native strings (`config/config.go:184-202`).

## Model

| member | source | states |
|---|---|---|
| Resolver.Get | config/config.go:166-178 | nil exactly when every source answers nil; otherwise the answer of a source before which all answered nil |
| Resolver.GetBool | config/config.go:184-202 | ok exactly when the first answer is a byte slice ParseBool accepts or a native bool, with that value; (false,false) otherwise |
| Resolver.GetInt | config/config.go:208-226 | ok exactly when the first answer is a byte slice Atoi accepts or a native int, with that value; (0,false) otherwise |
| Resolver.GetFloat | config/config.go:232-250 | ok exactly when the first answer is a byte slice ParseFloat accepts or a native float64, with that value; (0,false) otherwise |
| Resolver.GetString | config/config.go:256-269 | ok exactly when the first answer is a native string or a byte slice, with its text; ("",false) otherwise |
| Resolver.SourceGet | config/config.go:170 | each source's own `Get`: the environment answers nil exactly for an unset variable; the environment and etcd answer native strings, consul byte slices, so every non-nil answer of theirs reads through GetString; an empty file answers nil |
| Resolver.GetFrom | config/config.go:166-178 | the answer is nil exactly when every source answers nil; otherwise it is the answer of a source before which all answered nil |
| Resolver.GetLoop | config/config.go:166-178 | the loop that stops at the first non-nil answer computes the resolver's answer |
| Resolver.FirstAnswerWins | config/config.go:170-176 | if source i answers and all earlier ones answer nil, the resolver returns source i's answer whatever later sources hold |
| Resolver.FirstAnswerHidesLaterValues | config/config.go:208-226 | an environment string "3000" hides a native int in the file: GetInt fails through both sources but succeeds on the file alone; GetString returns the variable |
| Resolver.MissingKeyFailsAllGetters | config/config.go:184-269 | a key no source holds gives (false,false), (0,false), (0,false) and ("",false) |
| Resolver.FileScalars | config/file_config_test.go:14-119 | YAML scalars through the getters: a float64 reads only as a float (not as a bool, an int or a string), a quoted scalar only as a string, a bool only as a bool (not as an int, a float or a string) |
| Resolver.UseCaseThroughUtil | config/file_config_test.go:128-136 | the use-case keys: protocol reads "tcp"; the port (a YAML number) reads as float 3000 and not as an int |
| Resolver.NewUtil | config/config.go:51-78 | environment first; the file second exactly when it was read; no etcd source; consul only last, present exactly for extension "consul" with a client, configured from the file |
| Resolver.OnlyConsulExtends | config/config.go:67-76 | every extension other than "consul", "etcd" included, gives the same sources as none |
| Resolver.NewUtilPriority | config/config.go:55-71 | a set environment variable always wins; otherwise a non-nil file value wins over the store |
| Resolver.Subscribe | config/config.go:151-161 | no watch exactly when no source is named "consul" or "etcd"; otherwise the watch of the first such source only |
| Resolver.StartWatch | config/consul_config.go:74-77 | a watch exactly for a consul or etcd source, against that source's store and settings, from no value seen: wait index 0 for consul, the start delay for etcd (`config/etcd_config.go:85-88`) |
| Resolver.FirstStore | config/config.go:155-160 | the loop stops at the first source named "consul" or "etcd", or runs past the end when there is none |
| Resolver.SubscribeFrom | config/config.go:151-161 | no watch exactly when no source is named "consul" or "etcd"; otherwise the watch of the first such source only |
| Resolver.SubscribeOnNewUtil | config/config.go:151-161 | on a resolver from NewUtil a watch starts exactly for extension "consul" with a client, with no value seen and wait index 0 |
| Coerce.CoerceBool | config/config.go:184-202 | ok exactly for a byte slice ParseBool accepts or a native bool, with that value; (false,false) otherwise |
| Coerce.CoerceInt | config/config.go:208-226 | ok exactly for a byte slice Atoi accepts or a native int (no other integer kind), with that value; (0,false) otherwise |
| Coerce.CoerceFloat | config/config.go:232-250 | ok exactly for a byte slice ParseFloat accepts or a native float64, with that value; (0,false) otherwise |
| Coerce.CoerceString | config/config.go:256-269 | ok exactly for a native string or a byte slice, with its text; ("",false) otherwise |
| Coerce.NoStringification | config/config.go:256-269 | numbers, bools, nil, maps and lists never read as strings |
| Coerce.QuotedNumeralAsymmetry | config/config.go:208-250 | a numeral in a byte slice reads as an int; the same numeral as a native string reads as neither int nor float, but as a string both ways |
| Coerce.BoolTextAsymmetry | config/config.go:184-202 | "true" in a byte slice is a bool; the native string "true" and the number 1 are not |
| Coerce.NumericKindsAreExact | config/config.go:208-250 | a float64 is not an int, an int is not a float, int64 is not int, float32 is not float64 |
| Coerce.ParseBool | config/config.go:188 | true exactly for 1, t, T, TRUE, true, True; false exactly for 0, f, F, FALSE, false, False |
| Coerce.ParseFormatBool | config/config.go:188 | ParseBool reads back both formatted bools |
| Coerce.Atoi | config/config.go:212 | accepts exactly an optional sign followed by one or more decimal digits whose value fits in int64 |
| Coerce.AtoiItoa | config/config.go:212 | Atoi reads back every int64 that Itoa writes |
| Coerce.AtoiExamples | config/config.go:212 | "+007" is 7, "-4" is -4; "", "-", "11.65425" and "1_000" are refused |
| Values.AssertAsNumber | config/common.go:33-63 | ok exactly for the signed, unsigned and float kinds, carrying the value; (0,false) otherwise |
| Values.AssertAsNumberKinds | config/helper_func.go:11-41 | every numeric kind gives its value; string, bytes, bool and nil give (0,false) |
| EnvSource.Get | config/env_config.go:15-21 | nil exactly when the variable is unset; otherwise the variable's value as a native string |
| EnvSource.GetIsVerbatim | config/env_config.go:15-21 | a variable under another spelling does not answer; a variable set to "" answers "" |
| EnvSource.NormalizeKey | config/env_config_test.go:14-15 | the same length, each ASCII letter or digit kept, every other character one underscore |
| EnvSource.NormalizeKeyVectors | config/env_config_test.go:14-21 | the four normalizeKey test vectors |
| EnvSource.NormalizeKeyUpperVectors | config/env_config_test.go:14-22 | the four normalizeKeyUpper test vectors |
| EnvSource.NormalizeKeyUpper | config/env_config_test.go:16 | the same length; each ASCII letter upper-cased, each digit kept, every other character an underscore |
| EnvSource.ParseKeyLegacy1 | config/env_config_test.go:17 | no bracket, dash, dot or lower-case letter is left; only deleted brackets and dashes make it shorter than the key |
| EnvSource.ParseKeyLegacy2 | config/env_config_test.go:18 | the same length; every dot becomes an underscore and every other character is upper-cased in place |
| EnvSource.Legacy1From | config/env_config_test.go:17 | the first legacy spelling holds no bracket, dash or dot, and is never longer than the key |
| EnvSource.ParseKeyLegacy1PlainVector | config/env_config_test.go:14-23 | parseKeyLegacy1 test vector "kumuluzee" |
| EnvSource.ParseKeyLegacy1IndexVector | config/env_config_test.go:14-23 | parseKeyLegacy1 test vector "KumuluzEE[0]" |
| EnvSource.ParseKeyLegacy1DottedVector | config/env_config_test.go:14-23 | parseKeyLegacy1 test vector "lev1.lev2[5].LEV3" |
| EnvSource.ParseKeyLegacy1SymbolVector | config/env_config_test.go:14-23 | parseKeyLegacy1 test vector "v€ry-c00l", the euro sign kept |
| EnvSource.ParseKeyLegacy2Vectors | config/env_config_test.go:14-24 | the four parseKeyLegacy2 test vectors |
| EnvSource.NormalizeKeyIdempotent | config/env_config_test.go:15 | normalising twice is normalising once; the result is letters, digits and underscores |
| EnvSource.SpellingsAgreeOnPlainKeys | config/env_config_test.go:14-18 | on letters, digits and dots, the upper normalised spelling and both legacy spellings coincide |
| EnvSource.Legacy1WithoutDeletions | config/env_config_test.go:17-18 | without brackets and dashes the two legacy spellings agree |
| EnvSource.LegacySpellings | config/env_config_test.go:17-18 | neither legacy spelling leaves a dot; the first leaves no bracket or dash |
| FileSource.Get | config/file_config.go:41-61 | a key without a dot is one top-level lookup; an empty tree answers nil for every key |
| FileSource.Walk | config/file_config.go:48-60 | a one-segment walk is the entry itself; a missing or non-map first segment ends in nil |
| FileSource.Lookup | config/file_config.go:41-61 | the loop over the split key computes the recursive walk |
| FileSource.GetSingleSegment | config/file_config.go:48-60 | a key without a dot is one top-level lookup; a present "" is "" |
| FileSource.GetDescends | config/file_config.go:43-56 | the first segment descends one map level, or the answer is nil |
| FileSource.GetThroughLeafIsNil | config/file_config.go:52-56 | a key that continues past a leaf or a missing entry is nil |
| FileSource.GetJoin | config/file_config.go:43 | a key made of dot-free segments walks exactly those segments |
| FileSource.WalkNest | config/file_config.go:48-60 | walking a path through the tree built along it reaches the stored value |
| FileSource.GetNest | config/file_config.go:41-61 | round trip: the dotted key of a path finds whatever is stored at its end |
| FileSource.EmptyTreeIsNil | config/file_config.go:49-50 | an empty tree has nothing under any key |
| FileSource.TestTreeProtocol | config/file_config_test.go:128-130 | "some-config.protocol" is "tcp" |
| FileSource.TestTreePort | config/file_config_test.go:134-136 | "some-config.address.port" is the float64 3000 |
| FileSource.TestTreeInnerNode | config/file_config.go:60 | an inner node's key returns the nested map |
| FileSource.TestTreePastLeaf | config/file_config.go:52-56 | a key past a leaf is nil |
| FileSource.TestTreeMissing | config/file_config.go:60 | a missing last segment is nil |
| FileSource.TestTreeDeepKey | config/file_config_test.go:177 | spaces, dashes and underscores stay inside their segment of the deep key |
| FileSource.TestTreeEmptyString | config/file_config_test.go:57 | a present empty string is "" |
| Paths.Clean | config/consul_config.go:61 | path.Clean never returns "" and is rooted exactly when its input is |
| Paths.JoinPath | config/consul_config.go:61 | path.Join is "" exactly when both parts are; otherwise its result is clean, and rooted exactly when its first non-empty part is |
| Paths.CleanSkipsElement | config/consul_config.go:61 | an empty or "." element between two clean relative paths cleans away |
| Paths.CleanIdempotent | config/consul_config.go:61 | path.Clean never returns "" and cleaning twice is cleaning once |
| Paths.CleanIsIdentityOnCleanPaths | config/consul_config.go:61 | normal elements joined by "/" are already clean |
| Paths.JoinCleanPaths | config/consul_config.go:61 | path.Join of two clean relative paths is the first, "/", the second |
| Paths.CleanDropsEmptyElements | config/consul_config.go:61 | an empty or "." element between clean paths is dropped |
| Paths.Resolve | config/consul_config.go:61 | path.Clean's element loop: it never yields more elements than the stack and the input together |
| Paths.ResolveKept | config/consul_config.go:61 | the loop keeps its stack as normal elements after a run of "..", with no ".." at all in a rooted path |
| Paths.ResolveSplit | config/consul_config.go:61 | cleaning resolves a concatenation of elements part by part |
| Remote.Namespace | config/consul_config.go:42 | a non-empty relative path; when the three settings hold no "/", splitting it on "/" gives environments, env, services, name, version, config |
| Remote.StorePath | config/consul_config.go:58-61 | "" exactly when namespace and key are; otherwise clean, and rooted exactly when a non-empty namespace is |
| Remote.Render | config/consul_config.go:38-42 | %s gives a native string's or a byte slice's text; nil, bools and ints render as a "%!s(" complaint |
| Remote.ConsulGet | config/consul_config.go:54-72 | bytes exactly when the store answers and holds the key's store path, with the stored value; nil otherwise |
| Remote.EtcdGet | config/etcd_config.go:70-83 | a native string exactly when the store answers and holds the store path, with the stored value; nil otherwise |
| Remote.ReplaceAllIsSplitJoin | config/consul_config.go:58 | turning every dot into a slash is splitting on dots and joining with slashes |
| Remote.StorePathOfPlainKey | config/consul_config.go:58-61 | under a clean namespace a plain key's store path is namespace, "/", key with dots as slashes |
| Remote.StorePathOfSegments | config/consul_config.go:58-61 | the store path of a segmented key is the cleaned join of namespace and key segments |
| Remote.EmptySegmentAliases | config/consul_config.go:58-61 | the stores do not see empty key segments: "a..b" reads the same entry as "a.b" |
| Remote.NamespaceIsClean | config/consul_config.go:42 | a namespace built from normal elements is a clean relative path |
| Remote.RenderAgreesWithCoerceString | config/consul_config.go:38-42 | %s renders what GetString accepts as its text, and nil as "%!s(<nil>)" |
| Remote.SettingsAreFileValues | config/consul_config.go:23-40 | each consul setting is the file source's answer for its dotted key |
| Remote.InitConsul | config/consul_config.go:17-48 | a source exactly when the client is created; the address exactly when the hosts setting is a string; the namespace from the raw settings rendered with %s |
| Remote.ConsulNamespaceWithoutSettings | config/consul_config.go:38-42 | without the settings the namespace spells "%!s(<nil>)" in all three places |
| Watch.Wrap64 | config/etcd_config.go:117 | int64 multiplication's result: always in the int64 range, equal to the exact value when that is in range, and congruent to it modulo 2^64 |
| Watch.SlashKey | config/etcd_config.go:104 | the key the loops pass on holds no dot |
| Watch.SlashKeyStable | config/etcd_config.go:104-107 | replacing again changes nothing, and the slash key has the same store path |
| Watch.EtcdStart | config/etcd_config.go:85-88 | the etcd loop starts with no value seen and the start delay |
| Watch.NextDelay | config/etcd_config.go:117-120 | the next delay is never above the maximum, is the maximum or the double, and is the double when that fits |
| Watch.EtcdStepOf | config/etcd_config.go:100-131 | a failure sleeps the current delay, notifies nothing, forgets the value and grows the delay as the code does (int64 doubling, then the cap); a value is notified exactly when it changed, is remembered, and resets the delay |
| Watch.EtcdRun | config/etcd_config.go:100-131 | the loop's self-calls over a list of watch results: each iteration sleeps or notifies at most once, so there are at most as many sleeps and notifications together as results |
| Watch.EtcdRunNotes | config/etcd_config.go:121-130 | every notification reports the key in slash form; a run where every watch delivers a value never sleeps and ends at the start delay |
| Watch.FailureRunDelay | config/etcd_config.go:110-121 | for start and maximum delays in [0, 2^62), after n failures the delay is the start doubled n times, capped; nothing notified, n sleeps |
| Watch.FailureRunSleeps | config/etcd_config.go:113-120 | for start and maximum delays in [0, 2^62), in a failure run the first sleep is the start delay, every later one is at most the maximum, and they never shrink (except right after a start above the maximum) |
| Watch.StartAboveMaxShrinks | config/etcd_config.go:113-120 | a start delay above the maximum (and below 2^62) is slept once in full, then the maximum |
| Watch.HugeStartWraps | config/etcd_config.go:113-120 | a start delay of 2^62 + 1 with maximum 2^62 is slept in full, then a negative time, because the doubling wraps |
| Watch.NegativeStartShrinks | config/etcd_config.go:48-52 | a configured start delay of -1 is not refused, and three failures sleep -1, -2 and -4 |
| Watch.SuccessResetsDelay | config/etcd_config.go:127-130 | a value after failures resets the delay to the start delay and is remembered |
| Watch.FailuresThenValue | config/etcd_config.go:110-130 | after failures, a non-empty value is notified once, because the failures forgot the previous value |
| Watch.EtcdRedeliversAfterFailure | config/etcd_config.go:121-130 | value, failure, same value notifies the value twice |
| Watch.NextDelayAsWritten | config/etcd_config.go:117-120 | the update as written (int64 doubling, then the cap) is never above the maximum |
| Watch.AsWrittenAgreesWithoutOverflow | config/etcd_config.go:117-120 | where doubling fits in int64, the update as written is the intended one |
| Watch.DelayOverflow | config/etcd_config.go:117-120 | from 2^62 with maximum int64-max the update as written gives int64-min, then 0, then 0; the intended update stays at the maximum |
| Watch.DelayOverflowRun | config/etcd_config.go:110-121 | from 2^62 with maximum int64-max, three failures sleep 2^62, int64-min and 0, and leave the delay at 0 |
| Watch.NextDelayStaysInRange | config/etcd_config.go:117-120 | the intended update keeps a delay between its old value and the maximum |
| Watch.ConsulStart | config/consul_config.go:74-77 | the consul loop starts with no value seen and wait index 0 |
| Watch.ConsulStepOf | config/consul_config.go:79-116 | a pair is notified exactly when it changed and hands on its index; a missing pair notifies "" exactly when a value was seen and hands on the metadata index or 0 |
| Watch.ConsulRun | config/consul_config.go:79-116 | the loop's self-calls over a list of replies: at most one notification per reply, and after any reply the loop watches the key in slash form |
| Watch.ConsulStepRemembers | config/consul_config.go:101-114 | an iteration remembers what it notifies, which differs from the value seen before; without a notification the value seen stays |
| Watch.ConsulNotesChange | config/consul_config.go:101-114 | the value seen last is the last one notified, and consecutive notifications always differ |
| Watch.ConsulNotesFromStart | config/consul_config.go:76-109 | from Subscribe's start the first notification is never "" and no two in a row are equal |
| Watch.ConsulFailureIsRemoval | config/consul_config.go:106-114 | a failure while a value was seen reports "" once, waits on index 0, and a second failure reports nothing |
| Bundle.Fill | config/config.go:129-145 | the filled map has the same keys at every level and keeps every nested map |
| Bundle.SetMapValues | config/config.go:129-145 | a panic exactly when some leaf at any depth is nil; otherwise a map of the same shape |
| Bundle.FillLeaf | config/config.go:129-145 | the leaf at the end of a path holds the resolver's answer for the prefix and the lowered path joined by "." |
| Bundle.NewBundleKeys | config/config.go:107-109 | NewBundle reads a leaf under "p." and the lowered path, or the lowered path alone when p is empty |
| Bundle.RetrieveKey | config/bundle_helpers.go:40-57 | the key is "" exactly when a tag has an empty first option; otherwise the prefix, ".", then the tag's first option or the name with its first rune lower-cased |
| Bundle.TagOptionsIgnored | config/bundle_helpers.go:45-49 | options after the tag's first comma do not change the key |
| Bundle.RetrieveKeyExamples | config/bundle_helpers.go:50-53 | "MaxRetries" becomes "maxRetries", "URL" becomes "uRL", and an empty prefix leaves a leading "." |
| Bundle.Traverse | config/bundle_helpers.go:10-38 | a completed traversal returns as many fields as the struct has (its shape and what it writes are stated by `Bundle.TraverseWrites`) |
| Bundle.Visits | config/bundle_helpers.go:22-37 | the processor is handed exactly the non-struct fields at any depth, in declaration order |
| Bundle.TraverseWithoutProcessor | config/bundle_helpers.go:33-35 | without a processor, traversal changes nothing |
| Bundle.TraverseKeeping | config/bundle_helpers.go:22-37 | a processor that keeps every value changes nothing |
| Bundle.TraverseSucceeds | config/bundle_helpers.go:22-37 | traversal completes exactly when the processor accepts every field it is handed |
| Bundle.TraverseWrites | config/bundle_helpers.go:22-37 | a completed traversal keeps names, tags, kinds, settability and nesting, and each field holds the processor's value for its visit |
| Bundle.SetValue | config/bundle_helpers.go:59-95 | written only when the kind's getter succeeds, with its value; left as is otherwise; a panic exactly when a getter succeeds for a field `Value.Set` cannot store its result into: a narrower int or float32, a defined type such as `type Level int`, or an unexported field |
| Bundle.Bind | config/bundle_helpers.go:59-95 | traverseStruct with setValueWithReflect as the processor, a composition the package defines the parts for but does not perform (NewBundle goes through setMapValues); a completed pass keeps the struct's shape |
| Bundle.BindWithoutConfiguration | config/bundle_helpers.go:59-95 | with nothing configured, binding leaves every field as it was |
| Bundle.BindPanics | config/bundle_helpers.go:71-90 | binding panics exactly when a visited field that cannot take its getter's result (a narrower int or float32, a defined type, an unexported field) has a value its getter accepts |
| Bundle.BindWritesOnSuccess | config/bundle_helpers.go:59-95 | binding keeps the struct's shape; every field holds what setValueWithReflect sets for its key, kind and old value, and a field whose value changed had its getter succeed at that key |
| Service.GetOrDefault | config/helper_func.go:3-9 | the resolver's raw answer when not nil, with no coercion; the default otherwise; never nil with a non-nil default |
| Service.LoadServiceConfiguration | config/common.go:3-31 | each setting is its getter's value when ok; otherwise "dev", "", "1.0.0", 500 and 900000 |
| Service.NewEtcdConfigSource | config/etcd_config.go:23-68 | a source exactly when the client is created; the endpoint exactly when the hosts string is set; the namespace from raw values with "dev" and "1.0.0" defaults and none for the name |
| Service.EtcdDelaysAreLoaded | config/etcd_config.go:48-58 | the etcd delays are the loaded service settings |
| Service.EtcdNamespaceIsLoaded | config/etcd_config.go:44-62 | when the name and the set settings are text, the etcd namespace uses the loaded settings |
| Service.NothingConfigured | config/etcd_config.go:44-62 | with nothing configured, the settings are the defaults and "", while the etcd namespace spells the name "%!s(<nil>)" |
| Text.Split | config/file_config.go:43 | never empty, and no piece holds the separator |
| Text.JoinSplit | config/file_config.go:43 | joining the pieces of a split gives the string back |
| Text.SplitJoin | config/file_config.go:43 | splitting a join of separator-free pieces gives the pieces back |
| Text.ReplaceAll | config/consul_config.go:58 | the same length, every occurrence replaced and nothing else changed |
| Text.ReplaceAllIdempotent | config/etcd_config.go:104 | no occurrence is left, and replacing again changes nothing |
| Text.LowerFirst | config/bundle_helpers.go:51-52 | the first rune lower-cased and the rest kept; an empty name becomes the error rune |

## Left out

- Logging (`logger.go` is not part of this model, and all `lgr`/`Logger` calls are omitted). Goroutines and `time.Sleep`: sleeps are recorded in the etcd trace, not taken. The unbounded recursion of the watch loops is modelled as finite runs.
- YAML parsing, `ioutil.ReadFile`, `os.LookupEnv` and the consul and etcd clients. Their results are parameters.
- The ten-minute consul wait time and its parse. The watch request's options are not modelled beyond the wait index.
- `strconv.ParseFloat`, which is a parameter. Float formatting by `%s`, which is a parameter (`Render`'s `other`). The rounding of large integers in `assertAsNumber`'s `float64(t)`, because numbers are reals.
- `unicode.ToLower`, `unicode.ToUpper` and the key spellings are modelled on the ASCII range only.
- mapstructure's struct-to-map and map-to-struct conversions around `setMapValues`, and their panics, which are not part of this model. `Bundle.Fill` works on the map.
- `Bundle.Traverse`'s processor is given the key, kind, settability and value of a field. It is not given the field's name or tags, which `setValueWithReflect` does not use.
- Bundle.SetValue: whether a field is settable (exported, reached through exported fields, and of its kind's predeclared type rather than a defined type) is given with each field. The model does not derive it from Go's type declarations and identifier case.
- The `TODO` to register watches on tagged fields in `NewBundle`, which is not implemented in the source.
- The file and environment sources' `Watch`, which does nothing, and the `ordinal` methods, which nothing uses.
- Remote.InitConsul: a consul address setting that is not a string makes `consulAddress.(string)` panic. This case is excluded by `requires HostsUsable(local)` rather than modelled.
- Resolver.NewUtil: the consul extension without a readable file dereferences a nil source. This case is excluded by a `requires`, and the same requires is on `Resolver.NewUtilPriority` and `Resolver.SubscribeOnNewUtil`.
- Watch.ConsulStepOf: a pair with nil metadata would panic on `meta.LastIndex`. The model always has an index with a pair.
- Watch.EtcdStepOf: `time.Duration(retryDelay) * time.Millisecond` can overflow for a huge delay, and Go sleeps no time for a negative one. Only the delay value is recorded in the trace.
- FailureRunDelay: stated only for start and maximum delays in [0, 2^62). Nothing in `config/etcd_config.go:48-58` checks the configured delays. From 2^62 the doubling wraps (`Watch.HugeStartWraps`, `Watch.DelayOverflowRun`), and a negative start makes the delays shrink (`Watch.NegativeStartShrinks`).
- FailureRunSleeps: stated only for start and maximum delays in [0, 2^62), for the same reason as `Watch.FailureRunDelay`.
- StartAboveMaxShrinks: stated only for start delays below 2^62 and a maximum in [0, 2^62). A larger start wraps on its first doubling (`Watch.HugeStartWraps`).
- The `GetInt` test vectors on YAML numbers (`file_config_test.go` lines 14, 25, 35, 134 and 177) are not provable against the `GetInt` shown. They expect a float64 from the YAML decoder to read as an int, which `GetInt` does not do. `Resolver.UseCaseThroughUtil` and `Resolver.FileScalars` state what the code does instead.
- Service.LoadServiceConfiguration: `int64(sdl)` is the identity, assuming Go's `int` is 64 bits wide.
- Each typed getter calls `Get` twice. The model reads once, which is the same for sources that answer consistently.

## Findings

| source | as written | input that shows it | evidently intended | confidence | as-written member | corrected member |
|---|---|---|---|---|---|---|
| config/etcd_config.go:117-120 | the next retry delay is `retryDelay * 2` in int64, then capped at the maximum | `max-retry-delay-ms` = 9223372036854775807 and a delay of 2^62: doubling wraps to -2^63, the next failure's sleep of -2^63 ms wraps to 0 ns in `time.Duration`, so the loop retries immediately with no backoff, and the delay then doubles to 0 and stays there | a delay that doubles up to the maximum and stays there | not executed | Watch.NextDelayAsWritten, Watch.DelayOverflow, Watch.DelayOverflowRun | Watch.NextDelay, Watch.NextDelayStaysInRange |
