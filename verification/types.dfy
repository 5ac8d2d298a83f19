/** `src/ty.rs`: the route-type enum with its conversions to and from `i8`,
    and `I32ButSilly`, an `i32` that arrives as a JSON string. */
module Types {
  import opened Outcomes
  import opened Text
  import opened Json
  import opened Integers
  import opened Helpers

  /** `RouteType`, `#[repr(i8)]`: five named kinds and any other code. */
  datatype RouteType = Train | Tram | Bus | VLine | NightBus | Other(code: int8)

  /** `Into<i8>`: the named kinds are 0 to 4, `Other` carries its code. */
  function ToI8(r: RouteType): int8 {
    match r
    case Train => 0
    case Tram => 1
    case Bus => 2
    case VLine => 3
    case NightBus => 4
    case Other(v) => v
  }

  /** A route type `From<i8>` can produce: `Other` never holds 0 to 4. */
  predicate Canonical(r: RouteType) {
    !(r.Other? && 0 <= r.code <= 4)
  }

  /** `From<i8>`: codes 0 to 4 name a kind, anything else is `Other`. The
      conversion back to `i8` gives the code back. */
  function FromI8(v: int8): (r: RouteType)
    ensures ToI8(r) == v
    ensures Canonical(r)
    ensures r.Other? <==> !(0 <= v <= 4)
  {
    match v
    case 0 => Train
    case 1 => Tram
    case 2 => Bus
    case 3 => VLine
    case 4 => NightBus
    case _ => Other(v)
  }

  /** Converting to `i8` and back is the identity exactly on canonical
      route types; `Other(1)` comes back as `Tram`. */
  lemma FromToI8(r: RouteType)
    ensures FromI8(ToI8(r)) == r <==> Canonical(r)
    ensures r == Other(1) ==> FromI8(ToI8(r)) == Tram
  {
  }

  /** `Serialize`: the `i8` code as a JSON integer. */
  function Serialize(r: RouteType): JsonScalar {
    JInt(ToI8(r))
  }

  /** `Display`: the `i8` code in decimal. */
  function Display(r: RouteType): string {
    IntToString(ToI8(r))
  }

  /** `Deserialize`: an `i8` from a JSON integer, then `From<i8>`. */
  function Deserialize(v: JsonValue): (r: Result<RouteType, DeError>)
    ensures r.Ok? <==> v.Scalar? && v.v.JInt? && -128 <= v.v.n < 128
    ensures r.Ok? ==> ToI8(r.value) == v.v.n && Canonical(r.value)
  {
    match v
    case Scalar(JInt(n)) => if -128 <= n < 128 then Ok(FromI8(n)) else Err(InvalidValue("i8"))
    case _ => Err(InvalidType("i8"))
  }

  /** What `Serialize` writes, `Deserialize` reads back as the canonical
      route type with the same code. */
  lemma DeserializeSerialize(r: RouteType)
    ensures Deserialize(Scalar(Serialize(r))) == Ok(FromI8(ToI8(r)))
    ensures Canonical(r) ==> Deserialize(Scalar(Serialize(r))) == Ok(r)
  {
    FromToI8(r);
  }

  /** `Display` and `Serialize` agree: the displayed text is how the query
      encoder renders the serialised value, and it parses back to the code. */
  lemma DisplayMatchesSerialize(r: RouteType)
    ensures Display(r) == Render(Serialize(r))
    ensures Clean(Render(Serialize(r))) == Display(r)
    ensures ParseI32(Display(r)) == Ok(ToI8(r))
  {
    CleanRenderedInt(ToI8(r));
    ParseIntToString(ToI8(r));
  }

  /* ---------- I32ButSilly ---------- */

  /** `I32ButSilly::deserialize`: a JSON string parsed by `i32::from_str`;
      the error carries the `{:?}` form of the parse error. */
  function DecodeI32ButSilly(v: JsonValue): (r: Result<int32, DeError>)
    ensures !(v.Scalar? && v.v.JStr?) ==> r == Err(InvalidType("a string"))
  {
    match v
    case Scalar(JStr(s)) =>
      (match ParseI32(s)
       case Ok(n) => Ok(n)
       case Err(k) => Err(Custom(ErrorDebug(k))))
    case _ => Err(InvalidType("a string"))
  }

  /** It accepts exactly the strings holding an in-range 32-bit literal
      (no whitespace, optional sign), with that value. */
  lemma I32ButSillyAccepts(v: JsonValue)
    ensures DecodeI32ButSilly(v).Ok? <==>
              v.Scalar? && v.v.JStr? && IsLiteral(v.v.s) && InI32(LiteralValue(v.v.s))
    ensures DecodeI32ButSilly(v).Ok? ==> DecodeI32ButSilly(v).value == LiteralValue(v.v.s)
  {
    if v.Scalar? && v.v.JStr? {
      ParseI32Accepts(v.v.s);
    }
  }

  /** A 32-bit integer written as a JSON string decodes to itself. */
  lemma I32ButSillyRoundTrip(n: int32)
    ensures DecodeI32ButSilly(Scalar(JStr(IntToString(n)))) == Ok(n)
  {
    ParseIntToString(n);
  }

  /** `I32ButSilly` and the intended `de_string_as_i32` accept the same
      inputs with the same value; they differ only in the error text (`{:?}`
      against `Display` of the parse error). */
  lemma StringIntDecodersAgree(s: string)
    ensures DecodeI32ButSilly(Scalar(JStr(s))).Ok? == IntendedDeStringAsI32(Scalar(JStr(s))).Ok?
    ensures DecodeI32ButSilly(Scalar(JStr(s))).Ok? ==>
              DecodeI32ButSilly(Scalar(JStr(s))).value == IntendedDeStringAsI32(Scalar(JStr(s))).value
    ensures s == "" ==> DecodeI32ButSilly(Scalar(JStr(s))) == Err(Custom("ParseIntError { kind: Empty }"))
    ensures s == "" ==> IntendedDeStringAsI32(Scalar(JStr(s))) == Err(Custom("cannot parse integer from empty string"))
  {
    ParseI32Accepts(s);
    if s == "" {
      assert ParseI32(s) == Err(Empty);
      assert ErrorDebug(Empty) == "ParseIntError { kind: " + "Empty" + " }";
      assert "ParseIntError { kind: " + "Empty" + " }" == "ParseIntError { kind: Empty }";
      assert DecodeI32ButSilly(Scalar(JStr(s))) == Err(Custom(ErrorDebug(Empty)));
    }
  }
}
