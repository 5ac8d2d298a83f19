/** The byte encodings the request signer uses: `str::as_bytes` (UTF-8) for
    the key and the signed path, and `hex::encode` (lower case) for the
    digest. Each comes with its decoder. */
module Encoding {
  import opened Outcomes
  import opened Text

  type byte = b: int | 0 <= b < 256

  predicate IsContinuation(b: byte) {
    0x80 <= b < 0xC0
  }

  /** A Unicode scalar value: what a Dafny `char` holds. */
  predicate IsScalarValue(n: int) {
    0 <= n < 0xD800 || 0xE000 <= n < 0x11_0000
  }

  /* ---------- UTF-8 ---------- */

  /** The UTF-8 encoding of one scalar value: one to four bytes, the first
      marking the length, the rest continuation bytes holding six bits each. */
  function Utf8Char(c: char): (r: seq<byte>)
    ensures 1 <= |r| <= 4
    ensures c as int < 0x80 <==> |r| == 1
    ensures |r| == 1 ==> r[0] == c as int
    ensures forall i :: 1 <= i < |r| ==> IsContinuation(r[i])
  {
    var n := c as int;
    if n < 0x80 then [n]
    else if n < 0x800 then [0xC0 + n / 64, 0x80 + n % 64]
    else if n < 0x1_0000 then [0xE0 + n / 4096, 0x80 + (n / 64) % 64, 0x80 + n % 64]
    else [0xF0 + n / 262144, 0x80 + (n / 4096) % 64, 0x80 + (n / 64) % 64, 0x80 + n % 64]
  }

  /** `str::as_bytes`. */
  function Utf8(s: string): (r: seq<byte>)
    ensures |s| <= |r| <= 4 * |s|
    decreases |s|
  {
    if |s| == 0 then [] else Utf8Char(s[0]) + Utf8(s[1..])
  }

  /** How many bytes the sequence starting with lead byte `b` takes, or 0 if
      `b` cannot start one. */
  function SequenceLength(b: byte): nat {
    if b < 0x80 then 1
    else if 0xC0 <= b < 0xE0 then 2
    else if 0xE0 <= b < 0xF0 then 3
    else if 0xF0 <= b < 0xF8 then 4
    else 0
  }

  /** The scalar value of a complete sequence whose first byte is its lead
      byte, if the bytes form one. */
  function DecodeChar(bs: seq<byte>): (r: Option<char>)
    requires 1 <= |bs| == SequenceLength(bs[0])
  {
    var b := seq(|bs|, i requires 0 <= i < |bs| => bs[i] as int);
    var n: int :=
      if |b| == 1 then b[0]
      else if |b| == 2 then (b[0] - 0xC0) * 64 + (b[1] - 0x80)
      else if |b| == 3 then (b[0] - 0xE0) * 4096 + (b[1] - 0x80) * 64 + (b[2] - 0x80)
      else (b[0] - 0xF0) * 262144 + (b[1] - 0x80) * 4096 + (b[2] - 0x80) * 64 + (b[3] - 0x80);
    if (forall i :: 1 <= i < |bs| ==> IsContinuation(bs[i])) && IsScalarValue(n) then Some(n as char) else None
  }

  /** UTF-8 decoding: `None` when the bytes are not a sequence of complete
      encoded scalar values. */
  function Utf8Decode(bs: seq<byte>): (r: Option<string>)
    decreases |bs|
  {
    if |bs| == 0 then Some("")
    else
      var k := SequenceLength(bs[0]);
      if k == 0 || |bs| < k then None
      else
        match DecodeChar(bs[..k])
        case None => None
        case Some(c) =>
          match Utf8Decode(bs[k..])
          case None => None
          case Some(rest) => Some([c] + rest)
  }

  lemma Utf8CharTwo(n: int)
    requires 0x80 <= n < 0x800
    ensures 0xC0 <= 0xC0 + n / 64 < 0xE0
    ensures (n / 64) * 64 + n % 64 == n
  {
  }

  lemma Utf8CharThree(n: int)
    requires 0x800 <= n < 0x1_0000
    ensures 0xE0 <= 0xE0 + n / 4096 < 0xF0
    ensures (n / 4096) * 4096 + ((n / 64) % 64) * 64 + n % 64 == n
  {
    assert n / 64 == (n / 4096) * 64 + (n / 64) % 64;
  }

  lemma Utf8CharFour(n: int)
    requires 0x1_0000 <= n < 0x11_0000
    ensures 0xF0 <= 0xF0 + n / 262144 < 0xF8
    ensures (n / 262144) * 262144 + ((n / 4096) % 64) * 4096 + ((n / 64) % 64) * 64 + n % 64 == n
  {
    assert n / 4096 == (n / 262144) * 64 + (n / 4096) % 64;
    assert n / 64 == (n / 4096) * 64 + (n / 64) % 64;
  }

  /** One character's bytes decode back to the character. */
  lemma DecodeUtf8Char(c: char)
    ensures SequenceLength(Utf8Char(c)[0]) == |Utf8Char(c)|
    ensures DecodeChar(Utf8Char(c)) == Some(c)
  {
    var n := c as int;
    if n < 0x80 {
    } else if n < 0x800 {
      Utf8CharTwo(n);
    } else if n < 0x1_0000 {
      Utf8CharThree(n);
    } else {
      Utf8CharFour(n);
    }
  }

  /** Decoding the UTF-8 bytes of a string gives the string back; so the
      bytes determine the string. */
  lemma {:induction false} Utf8RoundTrip(s: string)
    ensures Utf8Decode(Utf8(s)) == Some(s)
    decreases |s|
  {
    if |s| > 0 {
      var head, bs := Utf8Char(s[0]), Utf8(s);
      DecodeUtf8Char(s[0]);
      Utf8RoundTrip(s[1..]);
      assert bs[..|head|] == head;
      assert bs[|head|..] == Utf8(s[1..]);
      assert [s[0]] + s[1..] == s;
    }
  }

  lemma Utf8Injective(s: string, t: string)
    requires Utf8(s) == Utf8(t)
    ensures s == t
  {
    Utf8RoundTrip(s);
    Utf8RoundTrip(t);
  }

  /* ---------- lower-case hexadecimal ---------- */

  /** `hex::encode`: two lower-case digits per byte, high nibble first. */
  function HexEncode(bs: seq<byte>): (r: string)
    ensures |r| == 2 * |bs|
    ensures forall i :: 0 <= i < |r| ==> IsLowerHex(r[i])
    decreases |bs|
  {
    if |bs| == 0 then "" else [HexDigit(bs[0] / 16), HexDigit(bs[0] % 16)] + HexEncode(bs[1..])
  }

  /** Reads pairs of lower-case hex digits; `None` for an odd length or any
      other character. */
  function HexDecode(s: string): (r: Option<seq<byte>>)
    ensures r.Some? ==> 2 * |r.value| == |s|
    decreases |s|
  {
    if |s| == 0 then Some([])
    else if |s| == 1 || !IsLowerHex(s[0]) || !IsLowerHex(s[1]) then None
    else
      match HexDecode(s[2..])
      case None => None
      case Some(rest) => Some([HexValue(s[0]) * 16 + HexValue(s[1])] + rest)
  }

  lemma HexDigitValue(d: nat)
    requires d < 16
    ensures HexValue(HexDigit(d)) == d
  {
    var c := HexDigit(d);
    assert HexDigit(HexValue(c)) == c;
  }

  /** Decoding two hex digits in front of `rest`. */
  lemma HexDecodePair(hi: char, lo: char, rest: string)
    requires IsLowerHex(hi) && IsLowerHex(lo)
    ensures HexDecode([hi, lo] + rest) ==
              match HexDecode(rest)
              case None => None
              case Some(r) => Some([HexValue(hi) * 16 + HexValue(lo)] + r)
  {
    assert ([hi, lo] + rest)[2..] == rest;
  }

  lemma {:induction false} HexRoundTrip(bs: seq<byte>)
    ensures HexDecode(HexEncode(bs)) == Some(bs)
    decreases |bs|
  {
    if |bs| > 0 {
      var hi, lo := HexDigit(bs[0] / 16), HexDigit(bs[0] % 16);
      var rest := HexEncode(bs[1..]);
      HexRoundTrip(bs[1..]);
      HexDecodePair(hi, lo, rest);
      HexDigitValue(bs[0] / 16);
      HexDigitValue(bs[0] % 16);
      assert [bs[0]] + bs[1..] == bs;
    }
  }
}
