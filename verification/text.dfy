/** String helpers the client relies on from Rust's standard library:
    decimal rendering of integers (`Display` for integer types), splitting on
    a character (`str::split`), joining (`[String]::join`), trimming
    (`str::trim`, `trim_start_matches`, `trim_end_matches`) and lower-case
    hexadecimal digits. Strings are sequences of Unicode scalar values. */
module Text {

  /* ---------- digits ---------- */

  predicate IsDigit(c: char) {
    '0' <= c <= '9'
  }

  function DigitChar(d: nat): (c: char)
    requires d < 10
    ensures IsDigit(c)
  {
    "0123456789"[d]
  }

  function DigitValue(c: char): (d: nat)
    requires IsDigit(c)
    ensures d < 10 && DigitChar(d) == c
  {
    c as int - '0' as int
  }

  predicate AllDigits(s: string) {
    forall i :: 0 <= i < |s| ==> IsDigit(s[i])
  }

  /** The value of a string of decimal digits, most significant first. */
  function DigitsValue(s: string): nat
    requires AllDigits(s)
  {
    if |s| == 0 then 0 else DigitsValue(s[..|s| - 1]) * 10 + DigitValue(s[|s| - 1])
  }

  function Pow10(k: nat): nat {
    if k == 0 then 1 else 10 * Pow10(k - 1)
  }

  lemma {:induction false} DigitsBound(s: string)
    requires AllDigits(s)
    ensures DigitsValue(s) < Pow10(|s|)
    decreases |s|
  {
    if |s| > 0 {
      DigitsBound(s[..|s| - 1]);
    }
  }

  /** Decimal rendering of a natural number, without leading zeros. */
  function NatToString(n: nat): (r: string)
    ensures 1 <= |r|
    ensures AllDigits(r)
    ensures |r| > 1 ==> r[0] != '0'
    decreases n
  {
    if n < 10 then [DigitChar(n)] else NatToString(n / 10) + [DigitChar(n % 10)]
  }

  lemma {:induction false} NatToStringValue(n: nat)
    ensures DigitsValue(NatToString(n)) == n
    decreases n
  {
    if n >= 10 {
      var r := NatToString(n);
      NatToStringValue(n / 10);
      assert r[..|r| - 1] == NatToString(n / 10);
    }
  }

  /** Rust's `Display` for signed integers: an optional `-`, then the digits. */
  function IntToString(n: int): (r: string)
    ensures 1 <= |r|
    ensures n < 0 <==> r[0] == '-'
    ensures forall i :: 0 < i < |r| ==> IsDigit(r[i])
    ensures n >= 0 ==> IsDigit(r[0])
  {
    if n < 0 then "-" + NatToString(-n) else NatToString(n)
  }

  /** `n` in decimal, left-padded with zeros to at least `width` digits. */
  function ZeroPad(n: nat, width: nat): string
    decreases width
  {
    if |NatToString(n)| >= width then NatToString(n) else "0" + ZeroPad(n, width - 1)
  }

  /** The padded text is `width` digits long unless `n` needs more, and it
      reads back as `n`. */
  lemma {:induction false} ZeroPadDigits(n: nat, width: nat)
    ensures |ZeroPad(n, width)| == if |NatToString(n)| < width then width else |NatToString(n)|
    ensures AllDigits(ZeroPad(n, width))
    ensures DigitsValue(ZeroPad(n, width)) == n
    decreases width
  {
    NatToStringValue(n);
    if |NatToString(n)| < width {
      ZeroPadDigits(n, width - 1);
      LeadingZero(ZeroPad(n, width - 1));
    }
  }

  lemma {:induction false} LeadingZero(s: string)
    requires AllDigits(s)
    ensures AllDigits("0" + s) && DigitsValue("0" + s) == DigitsValue(s)
    decreases |s|
  {
    if |s| > 0 {
      var t := "0" + s;
      assert t[..|t| - 1] == "0" + s[..|s| - 1];
      LeadingZero(s[..|s| - 1]);
    }
  }

  /** The lower-case hexadecimal digit for `d`. */
  function HexDigit(d: nat): (c: char)
    requires d < 16
    ensures IsDigit(c) || 'a' <= c <= 'f'
  {
    "0123456789abcdef"[d]
  }

  predicate IsLowerHex(c: char) {
    IsDigit(c) || 'a' <= c <= 'f'
  }

  function HexValue(c: char): (d: nat)
    requires IsLowerHex(c)
    ensures d < 16 && HexDigit(d) == c
  {
    if IsDigit(c) then c as int - '0' as int else c as int - 'a' as int + 10
  }

  /* ---------- splitting and joining ---------- */

  /** `str::split(sep)`: the pieces between occurrences of `sep`. There is
      always at least one piece; the empty string splits into one empty
      piece and each occurrence of `sep` starts a new piece. */
  function Split(s: string, sep: char): (r: seq<string>)
    ensures 1 <= |r|
    ensures forall i :: 0 <= i < |r| ==> sep !in r[i]
    decreases |s|
  {
    if |s| == 0 then [[]]
    else
      var rest := Split(s[1..], sep);
      if s[0] == sep then [[]] + rest
      else [[s[0]] + rest[0]] + rest[1..]
  }

  /** `[String]::join(sep)`: the pieces with `sep` between neighbours. */
  function Join(parts: seq<string>, sep: char): string
  {
    if |parts| == 0 then ""
    else if |parts| == 1 then parts[0]
    else parts[0] + [sep] + Join(parts[1..], sep)
  }

  /** Joining the pieces of a split gives back the original string. */
  lemma {:induction false} JoinSplit(s: string, sep: char)
    ensures Join(Split(s, sep), sep) == s
    decreases |s|
  {
    if |s| > 0 {
      var rest := Split(s[1..], sep);
      JoinSplit(s[1..], sep);
      if s[0] == sep {
        assert Split(s, sep) == [[]] + rest;
        assert Join([[]] + rest, sep) == [] + [sep] + Join(rest, sep);
      } else {
        var r := Split(s, sep);
        assert r == [[s[0]] + rest[0]] + rest[1..];
        if |rest| == 1 {
          assert Join(r, sep) == [s[0]] + rest[0];
        } else {
          assert Join(rest, sep) == rest[0] + [sep] + Join(rest[1..], sep);
          assert r[1..] == rest[1..];
          assert Join(r, sep) == [s[0]] + rest[0] + [sep] + Join(rest[1..], sep);
        }
      }
    }
  }

  lemma {:induction false} SplitWithout(x: string, sep: char)
    requires sep !in x
    ensures Split(x, sep) == [x]
    decreases |x|
  {
    if |x| > 0 {
      SplitWithout(x[1..], sep);
      assert [x[0]] + x[1..] == x;
    }
  }

  lemma {:induction false} SplitAtFirst(x: string, sep: char, y: string)
    requires sep !in x
    ensures Split(x + [sep] + y, sep) == [x] + Split(y, sep)
    decreases |x|
  {
    var s := x + [sep] + y;
    if |x| == 0 {
      assert s[1..] == y;
    } else {
      assert s[1..] == x[1..] + [sep] + y;
      SplitAtFirst(x[1..], sep, y);
      assert [x[0]] + x[1..] == x;
    }
  }

  /** Splitting at an occurrence of the separator splits each side on its own. */
  lemma {:induction false} SplitConcat(x: string, sep: char, y: string)
    ensures Split(x + [sep] + y, sep) == Split(x, sep) + Split(y, sep)
    decreases |x|
  {
    var s := x + [sep] + y;
    if |x| == 0 {
      assert s[1..] == y;
    } else {
      assert s[1..] == x[1..] + [sep] + y;
      SplitConcat(x[1..], sep, y);
      var left := Split(x[1..], sep);
      if x[0] != sep {
        assert ([[x[0]] + left[0]] + left[1..]) + Split(y, sep)
            == [[x[0]] + (left + Split(y, sep))[0]] + (left + Split(y, sep))[1..];
      }
    }
  }

  /** A trailing separator adds one empty piece. */
  lemma {:induction false} SplitTrailingSeparator(s: string, sep: char)
    ensures Split(s + [sep], sep) == Split(s, sep) + [[]]
    decreases |s|
  {
    if |s| == 0 {
      assert [sep][1..] == [];
    } else {
      assert (s + [sep])[1..] == s[1..] + [sep];
      SplitTrailingSeparator(s[1..], sep);
    }
  }

  /** Splitting a join of separator-free pieces gives back the pieces. */
  lemma {:induction false} SplitJoin(parts: seq<string>, sep: char)
    requires 1 <= |parts|
    requires forall i :: 0 <= i < |parts| ==> sep !in parts[i]
    ensures Split(Join(parts, sep), sep) == parts
    decreases |parts|
  {
    if |parts| == 1 {
      SplitWithout(parts[0], sep);
    } else {
      SplitJoin(parts[1..], sep);
      SplitAtFirst(parts[0], sep, Join(parts[1..], sep));
      assert [parts[0]] + parts[1..] == parts;
    }
  }

  /** Joining concatenated non-empty groups equals joining the joins of the groups. */
  lemma {:induction false} JoinConcat(a: seq<string>, b: seq<string>, sep: char)
    requires 1 <= |a| && 1 <= |b|
    ensures Join(a + b, sep) == Join(a, sep) + [sep] + Join(b, sep)
    decreases |a|
  {
    if |a| == 1 {
      assert (a + b)[1..] == b;
    } else {
      JoinConcat(a[1..], b, sep);
      assert (a + b)[1..] == a[1..] + b;
    }
  }

  /** The position of the first `c` in `s`, or `|s|` when there is none. */
  function FirstIndex(s: string, c: char): (i: nat)
    ensures i <= |s|
    ensures i < |s| <==> c in s
    ensures i < |s| ==> s[i] == c
    ensures forall j :: 0 <= j < i ==> s[j] != c
    decreases |s|
  {
    if |s| == 0 then 0 else if s[0] == c then 0 else 1 + FirstIndex(s[1..], c)
  }

  /** The first `c` of `x + y` is in `x` when `x` has one, else in `y`. */
  lemma FirstIndexConcat(x: string, y: string, c: char)
    ensures c in x ==> FirstIndex(x + y, c) == FirstIndex(x, c)
    ensures c !in x ==> FirstIndex(x + y, c) == |x| + FirstIndex(y, c)
  {
    if c in x {
      var k := FirstIndex(x, c);
      assert (x + y)[k] == c;
    } else {
      var k := FirstIndex(y, c);
      if k < |y| {
        assert (x + y)[|x| + k] == c;
      }
      forall j | 0 <= j < |x| + k ensures (x + y)[j] != c {
        if j < |x| { assert (x + y)[j] == x[j]; } else { assert (x + y)[j] == y[j - |x|]; }
      }
    }
  }

  /* ---------- trimming ---------- */

  /** The characters a trim removes: whitespace (`str::trim`) or the
      double quote (`trim_start_matches('"')`, `trim_end_matches('"')`). */
  datatype CharClass = Whitespace | Quote {
    predicate Holds(c: char) {
      match this
      case Whitespace => IsWhitespace(c)
      case Quote => c == '"'
    }
  }

  /** The length of the longest prefix of `s` whose characters belong to `k`. */
  function LeadingCount(s: string, k: CharClass): (n: nat)
    ensures n <= |s|
    ensures n < |s| ==> !k.Holds(s[n])
    decreases |s|
  {
    if |s| > 0 && k.Holds(s[0]) then 1 + LeadingCount(s[1..], k) else 0
  }

  /** The length of the longest suffix of `s` whose characters belong to `k`. */
  function TrailingCount(s: string, k: CharClass): (n: nat)
    ensures n <= |s|
    ensures n < |s| ==> !k.Holds(s[|s| - 1 - n])
    decreases |s|
  {
    if |s| > 0 && k.Holds(s[|s| - 1]) then 1 + TrailingCount(s[..|s| - 1], k) else 0
  }

  /** Drops the longest prefix whose characters all belong to `k`. */
  function TrimStart(s: string, k: CharClass): string {
    s[LeadingCount(s, k)..]
  }

  /** Drops the longest suffix whose characters all belong to `k`. */
  function TrimEnd(s: string, k: CharClass): string {
    s[..|s| - TrailingCount(s, k)]
  }

  /** Rust's `char::is_whitespace`: the Unicode White_Space property. */
  predicate IsWhitespace(c: char) {
    || '\t' <= c <= '\r'
    || c == ' '
    || c == '\U{0085}'
    || c == '\U{00A0}'
    || c == '\U{1680}'
    || '\U{2000}' <= c <= '\U{200A}'
    || c == '\U{2028}'
    || c == '\U{2029}'
    || c == '\U{202F}'
    || c == '\U{205F}'
    || c == '\U{3000}'
  }

  /** `str::trim`: whitespace removed from both ends. */
  function Trim(s: string): string {
    TrimEnd(TrimStart(s, Whitespace), Whitespace)
  }
}
