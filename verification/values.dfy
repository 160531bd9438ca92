/**
  The untyped values (`interface{}`) that configuration sources hand back:
  nil, native strings, byte slices, bools, the Go numeric kinds, nested maps
  from a YAML document, and YAML sequences. float64 and float32 values are
  modelled by the real number they denote.
 */
module Values {

  /** Go's integer kinds. */
  datatype IntKind =
    | KInt | KInt8 | KInt16 | KInt32 | KInt64
    | KUint | KUint8 | KUint16 | KUint32 | KUint64

  /** Go's floating-point kinds. */
  datatype FloatKind = KFloat32 | KFloat64

  datatype Raw =
    | Nil
    | Str(s: string)
    | Bytes(data: string)
    | Bool(b: bool)
    | Int(ikind: IntKind, i: int)
    | Float(fkind: FloatKind, f: real)
    | Map(entries: map<string, Raw>)
    | List(items: seq<Raw>)

  /** True of the signed, unsigned and floating-point kinds. */
  predicate IsNumber(v: Raw) {
    v.Int? || v.Float?
  }

  /**
    `assertAsNumber`: the value as a float64 for every numeric kind, and
    `(0, false)` for anything else (bool, string, bytes, nil, maps, lists).
   */
  function AssertAsNumber(v: Raw): (r: (real, bool))
    ensures r.1 <==> IsNumber(v)
    ensures v.Int? ==> r.0 == v.i as real
    ensures v.Float? ==> r.0 == v.f
    ensures !r.1 ==> r.0 == 0.0
  {
    match v
    case Int(_, i) => (i as real, true)
    case Float(_, f) => (f, true)
    case _ => (0.0, false)
  }

  /** Every numeric kind is accepted with its own value, and the answer for
      a non-number is `(0, false)` whatever its payload. */
  lemma AssertAsNumberKinds(k: IntKind, i: int, fk: FloatKind, f: real, s: string, b: bool)
    ensures AssertAsNumber(Int(k, i)) == (i as real, true)
    ensures AssertAsNumber(Float(fk, f)) == (f, true)
    ensures AssertAsNumber(Str(s)) == AssertAsNumber(Bytes(s)) == AssertAsNumber(Bool(b)) == (0.0, false)
    ensures AssertAsNumber(Nil) == (0.0, false)
  {
  }
}
