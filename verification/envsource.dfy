/**
  The environment configuration source: a verbatim lookup of the key in the
  process environment, given here as a map from variable names to values.
  A variable set to the empty string is present, not absent.

  The module also holds the four environment-key spellings that the
  repository's tests pin down (`normalizeKey`, `normalizeKeyUpper`,
  `parseKeyLegacy1`, `parseKeyLegacy2`); `Get` itself does not use them.
 */
module EnvSource {
  import opened Text
  import opened Values

  /** `Name()` of the environment source. */
  const Name: string := "Environment"

  /** `envConfigSource.Get`: the value of exactly the variable `key`, as a
      native string, or nil when it is unset. */
  function Get(env: map<string, string>, key: string): (r: Raw)
    ensures r.Nil? <==> key !in env
    ensures key in env ==> r == Str(env[key])
    ensures r.Nil? || r.Str?
  {
    if key in env then Str(env[key]) else Nil
  }

  /** No spelling but the key itself is consulted: a variable under the
      upper-cased or normalised spelling does not answer for `key`, and a
      variable set to `""` answers with `""`. */
  lemma GetIsVerbatim(env: map<string, string>, key: string)
    requires key !in env
    ensures Get(env, key) == Nil
    ensures Get(env[NormalizeKeyUpper(key) := "x"], key) == Nil || NormalizeKeyUpper(key) == key
    ensures Get(env[key := ""], key) == Str("")
  {
  }

  // ---------------------------------------------------------------- key spellings

  predicate IsAlnum(c: char) {
    IsAsciiUpper(c) || IsAsciiLower(c) || IsAsciiDigit(c)
  }

  /** Every character that is not an ASCII letter or digit becomes one `_`. */
  function NormalizeKey(k: string): (r: string)
    ensures |r| == |k|
    ensures forall i :: 0 <= i < |k| ==> r[i] == (if IsAlnum(k[i]) then k[i] else '_')
  {
    seq(|k|, i requires 0 <= i < |k| => if IsAlnum(k[i]) then k[i] else '_')
  }

  /** `NormalizeKey`, upper-cased: ASCII letters upper-cased, digits kept,
      every other character one `_`. */
  function NormalizeKeyUpper(k: string): (r: string)
    ensures |r| == |k|
    ensures forall i :: 0 <= i < |k| ==> r[i] == (if IsAlnum(k[i]) then ToUpper(k[i]) else '_')
  {
    Upper(NormalizeKey(k))
  }

  /** The characters the first legacy spelling deletes. */
  predicate Dropped(c: char) {
    c == '[' || c == ']' || c == '-'
  }

  /** What the first legacy spelling makes of a character it keeps. */
  function Legacy1Char(c: char): char {
    ToUpper(if c == '.' then '_' else c)
  }

  /** The first legacy spelling of `k[i..]`: `[`, `]` and `-` deleted,
      `.` turned into `_`, upper-cased. */
  function Legacy1From(k: string, i: nat): (r: string)
    requires i <= |k|
    ensures forall j :: 0 <= j < |r| ==> !Dropped(r[j]) && r[j] != '.' && !IsAsciiLower(r[j])
    ensures |r| <= |k| - i
    ensures (forall j :: i <= j < |k| ==> !Dropped(k[j])) ==> |r| == |k| - i
    decreases |k| - i
  {
    if i == |k| then ""
    else if Dropped(k[i]) then Legacy1From(k, i + 1)
    else [Legacy1Char(k[i])] + Legacy1From(k, i + 1)
  }

  /** The first legacy spelling: no bracket, dash or dot is left, nothing
      is lower-case, and only deletions shorten the key. */
  function ParseKeyLegacy1(k: string): (r: string)
    ensures forall j :: 0 <= j < |r| ==> !Dropped(r[j]) && r[j] != '.' && !IsAsciiLower(r[j])
    ensures |r| <= |k|
    ensures (forall j :: 0 <= j < |k| ==> !Dropped(k[j])) ==> |r| == |k|
  {
    Legacy1From(k, 0)
  }

  /** A character-by-character check that the first legacy spelling of
      `k[i..]` is `out[j..]`; it evaluates on literals without building
      sequences. */
  predicate Legacy1To(k: string, i: nat, out: string, j: nat)
    requires i <= |k| && j <= |out|
    decreases |k| - i
  {
    if i == |k| then j == |out|
    else if Dropped(k[i]) then Legacy1To(k, i + 1, out, j)
    else j < |out| && out[j] == Legacy1Char(k[i]) && Legacy1To(k, i + 1, out, j + 1)
  }

  lemma {:induction false} Legacy1ToSound(k: string, i: nat, out: string, j: nat)
    requires i <= |k| && j <= |out|
    requires Legacy1To(k, i, out, j)
    ensures Legacy1From(k, i) == out[j..]
    decreases |k| - i
  {
    if i < |k| {
      if Dropped(k[i]) {
        Legacy1ToSound(k, i + 1, out, j);
      } else {
        Legacy1ToSound(k, i + 1, out, j + 1);
        assert out[j..] == [out[j]] + out[j + 1..];
      }
    }
  }

  /** Only `.` turned into `_`, upper-cased: every dot becomes `_`, and
      every other character is upper-cased in place. */
  function ParseKeyLegacy2(k: string): (r: string)
    ensures |r| == |k|
    ensures forall i :: 0 <= i < |k| ==> r[i] == (if k[i] == '.' then '_' else ToUpper(k[i]))
  {
    Upper(ReplaceAll(k, '.', '_'))
  }

  /** The `normalizeKey` test vectors. */
  lemma NormalizeKeyVectors()
    ensures NormalizeKey("kumuluzee") == "kumuluzee"
    ensures NormalizeKey("KumuluzEE[0]") == "KumuluzEE_0_"
    ensures NormalizeKey("lev1.lev2[5].LEV3") == "lev1_lev2_5__LEV3"
    ensures NormalizeKey("v€ry-c00l") == "v_ry_c00l"
  {
  }

  /** The `normalizeKeyUpper` test vectors. */
  lemma NormalizeKeyUpperVectors()
    ensures NormalizeKeyUpper("kumuluzee") == "KUMULUZEE"
    ensures NormalizeKeyUpper("KumuluzEE[0]") == "KUMULUZEE_0_"
    ensures NormalizeKeyUpper("lev1.lev2[5].LEV3") == "LEV1_LEV2_5__LEV3"
    ensures NormalizeKeyUpper("v€ry-c00l") == "V_RY_C00L"
  {
  }

  /** The `parseKeyLegacy1` test vector for a plain key. */
  lemma ParseKeyLegacy1PlainVector()
    ensures ParseKeyLegacy1("kumuluzee") == "KUMULUZEE"
  {
    assert Legacy1To("kumuluzee", 0, "KUMULUZEE", 0);
    Legacy1ToSound("kumuluzee", 0, "KUMULUZEE", 0);
  }

  /** The `parseKeyLegacy1` test vector for an indexed key: brackets are
      dropped. */
  lemma ParseKeyLegacy1IndexVector()
    ensures ParseKeyLegacy1("KumuluzEE[0]") == "KUMULUZEE0"
  {
    assert Legacy1To("KumuluzEE[0]", 6, "KUMULUZEE0", 6);
    assert Legacy1To("KumuluzEE[0]", 0, "KUMULUZEE0", 0);
    Legacy1ToSound("KumuluzEE[0]", 0, "KUMULUZEE0", 0);
  }

  /** The `parseKeyLegacy1` test vector for a key with a dash and a
      non-ASCII letter: the dash is dropped, the letter kept. */
  lemma ParseKeyLegacy1SymbolVector()
    ensures ParseKeyLegacy1("v€ry-c00l") == "V€RYC00L"
  {
    assert Legacy1To("v€ry-c00l", 0, "V€RYC00L", 0);
    Legacy1ToSound("v€ry-c00l", 0, "V€RYC00L", 0);
  }

  /** The `parseKeyLegacy1` test vector for the dotted key. */
  lemma ParseKeyLegacy1DottedVector()
    ensures ParseKeyLegacy1("lev1.lev2[5].LEV3") == "LEV1_LEV25_LEV3"
  {
    var k, out := "lev1.lev2[5].LEV3", "LEV1_LEV25_LEV3";
    assert Legacy1To(k, 13, out, 11);
    assert Legacy1To(k, 9, out, 9);
    assert Legacy1To(k, 4, out, 4);
    assert Legacy1To(k, 0, out, 0);
    Legacy1ToSound(k, 0, out, 0);
  }

  /** The `parseKeyLegacy2` test vectors. */
  lemma ParseKeyLegacy2Vectors()
    ensures ParseKeyLegacy2("kumuluzee") == "KUMULUZEE"
    ensures ParseKeyLegacy2("KumuluzEE[0]") == "KUMULUZEE[0]"
    ensures ParseKeyLegacy2("lev1.lev2[5].LEV3") == "LEV1_LEV2[5]_LEV3"
    ensures ParseKeyLegacy2("v€ry-c00l") == "V€RY-C00L"
  {
  }

  /** Normalising twice is normalising once, and the result is all letters,
      digits and underscores. */
  lemma NormalizeKeyIdempotent(k: string)
    ensures NormalizeKey(NormalizeKey(k)) == NormalizeKey(k)
    ensures forall i :: 0 <= i < |k| ==> IsAlnum(NormalizeKey(k)[i]) || NormalizeKey(k)[i] == '_'
  {
  }

  /** On a key made only of letters, digits and dots, the normalised
      upper-case spelling and both legacy spellings coincide. */
  lemma SpellingsAgreeOnPlainKeys(k: string)
    requires forall i :: 0 <= i < |k| ==> IsAlnum(k[i]) || k[i] == '.'
    ensures NormalizeKeyUpper(k) == ParseKeyLegacy1(k) == ParseKeyLegacy2(k)
  {
    Legacy1WithoutDeletions(k, 0);
  }

  /** Without brackets and dashes the first legacy spelling deletes
      nothing and agrees with the second. */
  lemma {:induction false} Legacy1WithoutDeletions(k: string, i: nat)
    requires i <= |k|
    requires forall j :: 0 <= j < |k| ==> !Dropped(k[j])
    ensures Legacy1From(k, i) == ParseKeyLegacy2(k)[i..]
    decreases |k| - i
  {
    if i < |k| {
      Legacy1WithoutDeletions(k, i + 1);
      var l2 := ParseKeyLegacy2(k);
      assert l2[i..] == [l2[i]] + l2[i + 1..];
    }
  }

  /** Neither legacy spelling leaves a `.` behind, and the first never
      leaves a bracket or a dash. */
  lemma LegacySpellings(k: string)
    ensures '.' !in ParseKeyLegacy2(k) && '.' !in ParseKeyLegacy1(k)
    ensures forall c :: c in ParseKeyLegacy1(k) ==> !Dropped(c)
  {
    ReplaceAllIdempotent(k, '.', '_');
  }
}
