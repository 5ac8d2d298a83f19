/** Fixed-width integers and Rust's `i32::from_str` (radix 10): an optional
    `+` or `-`, then one or more ASCII digits, read left to right with an
    overflow check after every digit. Nothing is trimmed. */
module Integers {
  import opened Outcomes
  import opened Text

  const I32Min: int := -0x8000_0000
  const I32Max: int := 0x7FFF_FFFF

  predicate InI32(n: int) {
    I32Min <= n <= I32Max
  }

  type int32 = n: int | I32Min <= n <= I32Max
  type int8 = n: int | -128 <= n < 128
  type uint8 = n: int | 0 <= n < 256

  /** `std::num::IntErrorKind`, as far as `from_str` can produce it. */
  datatype IntErrorKind = Empty | InvalidDigit | PosOverflow | NegOverflow

  /** `Display` of a `ParseIntError`. */
  function ErrorDisplay(k: IntErrorKind): string {
    match k
    case Empty => "cannot parse integer from empty string"
    case InvalidDigit => "invalid digit found in string"
    case PosOverflow => "number too large to fit in target type"
    case NegOverflow => "number too small to fit in target type"
  }

  /** `{:?}` of a `ParseIntError`. */
  function ErrorDebug(k: IntErrorKind): string {
    "ParseIntError { kind: "
    + (match k
       case Empty => "Empty"
       case InvalidDigit => "InvalidDigit"
       case PosOverflow => "PosOverflow"
       case NegOverflow => "NegOverflow")
    + " }"
  }

  function Signed(magnitude: nat, negative: bool): int {
    if negative then 0 - magnitude else magnitude
  }

  /** Reads `digits[i..]` onto the value `acc` read so far; a negative number
      is built by subtraction so that `I32Min` itself is reachable. */
  function Accumulate(digits: string, i: nat, acc: int32, negative: bool): (r: Result<int32, IntErrorKind>)
    requires i <= |digits|
    ensures r != Err(Empty)
    decreases |digits| - i
  {
    if i == |digits| then Ok(acc)
    else if !IsDigit(digits[i]) then Err(InvalidDigit)
    else
      var next := if negative then acc * 10 - DigitValue(digits[i]) else acc * 10 + DigitValue(digits[i]);
      if !InI32(next) then Err(if negative then NegOverflow else PosOverflow)
      else Accumulate(digits, i + 1, next, negative)
  }

  /** `i32::from_str`. A lone sign is an invalid digit. */
  function ParseI32(s: string): Result<int32, IntErrorKind> {
    if |s| == 0 then Err(Empty)
    else if (s[0] == '+' || s[0] == '-') && |s| == 1 then Err(InvalidDigit)
    else if s[0] == '+' then Accumulate(s[1..], 0, 0, false)
    else if s[0] == '-' then Accumulate(s[1..], 0, 0, true)
    else Accumulate(s, 0, 0, false)
  }

  /* ---------- the reference reading ---------- */

  /** The digits after an optional leading sign. */
  function Unsigned(s: string): string {
    if |s| > 0 && (s[0] == '+' || s[0] == '-') then s[1..] else s
  }

  predicate IsNegative(s: string) {
    |s| > 0 && s[0] == '-'
  }

  /** An integer literal: an optional sign and at least one digit. */
  predicate IsLiteral(s: string) {
    |Unsigned(s)| >= 1 && AllDigits(Unsigned(s))
  }

  function LiteralValue(s: string): int
    requires IsLiteral(s)
  {
    Signed(DigitsValue(Unsigned(s)), IsNegative(s))
  }

  lemma {:induction false} DigitsPrefixMonotone(s: string, k: nat)
    requires k <= |s| && AllDigits(s)
    ensures AllDigits(s[..k]) && DigitsValue(s[..k]) <= DigitsValue(s)
    decreases |s| - k
  {
    if k < |s| {
      DigitsPrefixMonotone(s, k + 1);
      assert s[..k + 1][..k] == s[..k];
    } else {
      assert s[..k] == s;
    }
  }

  lemma {:induction false} AccumulateReads(digits: string, i: nat, acc: int32, negative: bool)
    requires i <= |digits|
    requires AllDigits(digits[..i]) && acc == Signed(DigitsValue(digits[..i]), negative)
    ensures var r := Accumulate(digits, i, acc, negative);
      && (r.Ok? <==> AllDigits(digits) && InI32(Signed(DigitsValue(digits), negative)))
      && (r.Ok? ==> r.value == Signed(DigitsValue(digits), negative))
      && (AllDigits(digits) && !InI32(Signed(DigitsValue(digits), negative)) ==>
            r == Err(if negative then NegOverflow else PosOverflow))
    decreases |digits| - i
  {
    if i == |digits| {
      assert digits[..i] == digits;
    } else if !IsDigit(digits[i]) {
    } else {
      var p := digits[..i + 1];
      assert p[..|p| - 1] == digits[..i];
      var next := if negative then acc * 10 - DigitValue(digits[i]) else acc * 10 + DigitValue(digits[i]);
      assert next == Signed(DigitsValue(p), negative);
      if InI32(next) {
        AccumulateReads(digits, i + 1, next, negative);
      } else if AllDigits(digits) {
        DigitsPrefixMonotone(digits, i + 1);
      }
    }
  }

  /** `from_str` accepts exactly the literals whose value fits in 32 bits,
      and then yields that value. */
  lemma ParseI32Accepts(s: string)
    ensures ParseI32(s).Ok? <==> IsLiteral(s) && InI32(LiteralValue(s))
    ensures ParseI32(s).Ok? ==> ParseI32(s).value == LiteralValue(s)
    ensures IsLiteral(s) && !InI32(LiteralValue(s)) ==>
              ParseI32(s) == Err(if IsNegative(s) then NegOverflow else PosOverflow)
    ensures ParseI32(s) == Err(Empty) <==> s == ""
  {
    if |s| > 0 {
      var u := Unsigned(s);
      assert u[..0] == [];
      AccumulateReads(u, 0, 0, IsNegative(s));
    }
  }

  /** Reading back the decimal rendering of a 32-bit integer gives it back. */
  lemma ParseIntToString(n: int32)
    ensures ParseI32(IntToString(n)) == Ok(n)
  {
    var s := IntToString(n);
    var m: int := n;
    NatToStringValue(if m < 0 then -m else m);
    if n < 0 {
      assert Unsigned(s) == NatToString(-m);
    } else {
      assert Unsigned(s) == NatToString(m);
    }
    ParseI32Accepts(s);
  }
}
