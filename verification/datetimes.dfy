/** The part of chrono's `NaiveDateTime` the client uses: the value itself,
    the three `format` patterns it writes (`%Y-%m-%dT%H:%M:%S` and
    `%Y-%m-%d %H:%M`) and strict fixed-width parsers for the two patterns it
    reads (`%Y-%m-%dT%H:%M:%S` and `%Y-%m-%dT%H:%M:%S%.3fZ`). */
module DateTimes {
  import opened Outcomes
  import opened Text

  /** A date and time without zone. As in chrono, a leap second is a time
      whose `second` is 59 and whose `nano` is at least one second. */
  datatype DateTime = DateTime(year: int, month: int, day: int,
                               hour: int, minute: int, second: int, nano: int)

  const MinYear: int := -262144
  const MaxYear: int := 262143
  const NanosPerSecond: int := 1_000_000_000

  predicate IsLeapYear(y: int) {
    y % 4 == 0 && (y % 100 != 0 || y % 400 == 0)
  }

  function DaysInMonth(y: int, m: int): int
    requires 1 <= m <= 12
  {
    if m == 2 then (if IsLeapYear(y) then 29 else 28)
    else if m == 4 || m == 6 || m == 9 || m == 11 then 30
    else 31
  }

  predicate Valid(d: DateTime) {
    && MinYear <= d.year <= MaxYear
    && 1 <= d.month <= 12
    && 1 <= d.day <= DaysInMonth(d.year, d.month)
    && 0 <= d.hour < 24
    && 0 <= d.minute < 60
    && 0 <= d.second < 60
    && 0 <= d.nano < 2 * NanosPerSecond
    && (d.nano >= NanosPerSecond ==> d.second == 59)
  }

  /** chrono's `NaiveDateTime`: only valid values exist. */
  type NaiveDateTime = d: DateTime | Valid(d) witness DateTime(1970, 1, 1, 0, 0, 0, 0)

  /** A time on a whole second (a leap second counts as whole): what the
      second-resolution formats can represent. */
  predicate WholeSecond(d: DateTime) {
    d.nano == 0 || d.nano == NanosPerSecond
  }

  /* ---------- formatting ---------- */

  /** `%Y`: four zero-padded digits for years 0 to 9999, otherwise an explicit
      sign and at least four digits. */
  function FormatYear(y: int): string {
    if 0 <= y <= 9999 then ZeroPad(y, 4)
    else if y < 0 then "-" + ZeroPad(-y, 4)
    else "+" + ZeroPad(y, 4)
  }

  /** `%S`: a leap second prints as 60. */
  function ShownSecond(d: DateTime): int {
    if d.nano >= NanosPerSecond then d.second + 1 else d.second
  }

  function FormatDate(d: DateTime): string
    requires Valid(d)
  {
    FormatYear(d.year) + "-" + ZeroPad(d.month, 2) + "-" + ZeroPad(d.day, 2)
  }

  /** `format("%Y-%m-%dT%H:%M:%S")`. */
  function FormatIso8601(d: DateTime): string
    requires Valid(d)
  {
    FormatDate(d) + "T" + ZeroPad(d.hour, 2) + ":" + ZeroPad(d.minute, 2) + ":"
    + ZeroPad(ShownSecond(d), 2)
  }

  /** `format("%Y-%m-%d %H:%M")`. */
  function FormatTouch(d: DateTime): string
    requires Valid(d)
  {
    FormatDate(d) + " " + ZeroPad(d.hour, 2) + ":" + ZeroPad(d.minute, 2)
  }

  lemma {:induction false} NatToStringLength(n: nat, k: nat)
    requires n < Pow10(k)
    requires 1 <= k
    ensures |NatToString(n)| <= k
    decreases k
  {
    if n >= 10 {
      NatToStringLength(n / 10, k - 1);
    }
  }

  lemma PadWidth(n: nat, w: nat)
    requires 1 <= w <= 4 && n < Pow10(w)
    ensures |ZeroPad(n, w)| == w && AllDigits(ZeroPad(n, w))
  {
    NatToStringLength(n, w);
    ZeroPadDigits(n, w);
  }

  /** Every character of the ISO form is a digit or one of `-`, `+`, `T`, `:`. */
  predicate IsoChar(c: char) {
    IsDigit(c) || c == '-' || c == '+' || c == 'T' || c == ':'
  }

  predicate AllIsoChars(s: string) {
    forall i :: 0 <= i < |s| ==> IsoChar(s[i])
  }

  lemma IsoCharsConcat(a: string, b: string)
    requires AllIsoChars(a) && AllIsoChars(b)
    ensures AllIsoChars(a + b)
  {
    forall i | 0 <= i < |a + b| ensures IsoChar((a + b)[i]) {
      if i >= |a| { assert (a + b)[i] == b[i - |a|]; }
    }
  }

  lemma PadIsoChars(n: nat, w: nat)
    ensures AllIsoChars(ZeroPad(n, w))
  {
    ZeroPadDigits(n, w);
  }

  lemma FormatIsoChars(d: DateTime)
    requires Valid(d)
    ensures forall i :: 0 <= i < |FormatIso8601(d)| ==> IsoChar(FormatIso8601(d)[i])
  {
    var y := FormatYear(d.year);
    assert AllIsoChars(y) by {
      PadIsoChars(if d.year < 0 then -d.year else d.year, 4);
      if !(0 <= d.year <= 9999) {
        IsoCharsConcat(if d.year < 0 then "-" else "+", ZeroPad(if d.year < 0 then -d.year else d.year, 4));
      }
    }
    PadIsoChars(d.month, 2);
    PadIsoChars(d.day, 2);
    PadIsoChars(d.hour, 2);
    PadIsoChars(d.minute, 2);
    PadIsoChars(ShownSecond(d), 2);
    IsoCharsConcat(y, "-");
    IsoCharsConcat(y + "-", ZeroPad(d.month, 2));
    IsoCharsConcat(y + "-" + ZeroPad(d.month, 2), "-");
    IsoCharsConcat(y + "-" + ZeroPad(d.month, 2) + "-", ZeroPad(d.day, 2));
    var date := FormatDate(d);
    IsoCharsConcat(date, "T");
    IsoCharsConcat(date + "T", ZeroPad(d.hour, 2));
    IsoCharsConcat(date + "T" + ZeroPad(d.hour, 2), ":");
    IsoCharsConcat(date + "T" + ZeroPad(d.hour, 2) + ":", ZeroPad(d.minute, 2));
    IsoCharsConcat(date + "T" + ZeroPad(d.hour, 2) + ":" + ZeroPad(d.minute, 2), ":");
    IsoCharsConcat(date + "T" + ZeroPad(d.hour, 2) + ":" + ZeroPad(d.minute, 2) + ":", ZeroPad(ShownSecond(d), 2));
  }

  lemma FormatDateWidth(d: DateTime)
    requires Valid(d) && 0 <= d.year <= 9999
    ensures |FormatDate(d)| == 10
  {
    PadWidth(d.year, 4);
    PadWidth(d.month, 2);
    PadWidth(d.day, 2);
  }

  lemma TouchLayout(date: string, h: string, mi: string, se: string)
    requires |date| == 10 && |h| == 2 && |mi| == 2
    ensures var iso := date + "T" + h + ":" + mi + ":" + se;
      date + " " + h + ":" + mi == iso[..10] + " " + iso[11..16]
  {
    var iso := date + "T" + h + ":" + mi + ":" + se;
    assert iso[..10] == date;
    assert iso[11..16] == h + ":" + mi;
  }

  /** For years 0 to 9999 the touch format is exactly 16 characters: the ISO
      form with the `T` replaced by a space and the seconds dropped. */
  lemma FormatTouchDropsSeconds(d: DateTime)
    requires Valid(d) && 0 <= d.year <= 9999
    ensures |FormatTouch(d)| == 16
    ensures |FormatIso8601(d)| == 19
    ensures FormatTouch(d) == FormatIso8601(d)[..10] + " " + FormatIso8601(d)[11..16]
  {
    FormatDateWidth(d);
    PadWidth(d.hour, 2);
    PadWidth(d.minute, 2);
    PadWidth(ShownSecond(d), 2);
    TouchLayout(FormatDate(d), ZeroPad(d.hour, 2), ZeroPad(d.minute, 2), ZeroPad(ShownSecond(d), 2));
  }

  /* ---------- strict parsing ---------- */

  /** chrono's `ParseErrorKind`; `{:?}` of a `ParseError` prints
      `ParseError(<kind>)`. */
  datatype ParseErrorKind = OutOfRange | Impossible | NotEnough | Invalid | TooShort | TooLong | BadFormat

  function KindName(k: ParseErrorKind): string {
    match k
    case OutOfRange => "OutOfRange"
    case Impossible => "Impossible"
    case NotEnough => "NotEnough"
    case Invalid => "Invalid"
    case TooShort => "TooShort"
    case TooLong => "TooLong"
    case BadFormat => "BadFormat"
  }

  function ParseErrorDebug(k: ParseErrorKind): string {
    "ParseError(" + KindName(k) + ")"
  }

  /** Fixed-width shapes: `#` stands for one ASCII digit, every other
      character for itself. */
  const IsoShape: string := "####-##-##T##:##:##"

  predicate FitsAt(c: char, t: char) {
    if t == '#' then IsDigit(c) else c == t
  }

  /** Whether `s` fits `shape` over their common length. */
  predicate PrefixFits(s: string, shape: string) {
    forall i :: 0 <= i < |s| && i < |shape| ==> FitsAt(s[i], shape[i])
  }

  predicate Fits(s: string, shape: string) {
    |s| == |shape| && PrefixFits(s, shape)
  }

  /** How text that does not fit a shape fails: a wrong character anywhere
      in the common length, else missing characters, else extra ones. */
  function ShapeError(s: string, shape: string): ParseErrorKind
    requires !Fits(s, shape)
  {
    if !PrefixFits(s, shape) then Invalid
    else if |s| < |shape| then TooShort
    else TooLong
  }

  function Field(s: string, i: nat, n: nat): nat
    requires i + n <= |s|
    requires AllDigits(s[i..i + n])
  {
    DigitsValue(s[i..i + n])
  }

  /** Builds the value from the fields of a text that fits the ISO shape;
      a shown second of 60 is a leap second. */
  function Assemble(s: string, nano: int): Result<NaiveDateTime, ParseErrorKind>
    requires |s| >= 19 && PrefixFits(s, IsoShape)
    requires 0 <= nano < NanosPerSecond
  {
    var sec := Field(s, 17, 2);
    var d := DateTime(Field(s, 0, 4), Field(s, 5, 2), Field(s, 8, 2), Field(s, 11, 2), Field(s, 14, 2),
                      if sec == 60 then 59 else sec,
                      if sec == 60 then nano + NanosPerSecond else nano);
    if sec <= 60 && Valid(d) then Ok(d) else Err(OutOfRange)
  }

  /** `NaiveDateTime::parse_from_str(s, "%Y-%m-%dT%H:%M:%S")`, restricted to
      exactly four year digits and two digits for every other field. */
  function ParseIso8601(s: string): (r: Result<NaiveDateTime, ParseErrorKind>)
    ensures r.Ok? ==> WholeSecond(r.value) && Fits(s, IsoShape)
    ensures !Fits(s, IsoShape) ==> r == Err(ShapeError(s, IsoShape))
  {
    if !Fits(s, IsoShape) then Err(ShapeError(s, IsoShape)) else Assemble(s, 0)
  }

  /** The length of the run of ASCII digits `t` starts with. */
  function DigitRunLength(t: string): (n: nat)
    ensures n <= |t|
    ensures forall i :: 0 <= i < n ==> IsDigit(t[i])
    ensures n < |t| ==> !IsDigit(t[n])
    decreases |t|
  {
    if |t| == 0 || !IsDigit(t[0]) then 0 else 1 + DigitRunLength(t[1..])
  }

  lemma {:induction false} Pow10Add(a: nat, b: nat)
    ensures Pow10(a) * Pow10(b) == Pow10(a + b)
    decreases a
  {
    if a > 0 {
      Pow10Add(a - 1, b);
      assert Pow10(a) * Pow10(b) == 10 * (Pow10(a - 1) * Pow10(b));
    }
  }

  lemma ScaledBelow(v: nat, k: nat)
    requires k <= 9 && v < Pow10(k)
    ensures v * Pow10(9 - k) < NanosPerSecond
  {
    Pow10Add(k, 9 - k);
    assert Pow10(9) == NanosPerSecond;
    assert v * Pow10(9 - k) <= (Pow10(k) - 1) * Pow10(9 - k);
  }

  /** The nanoseconds a run of fraction digits stands for: the first nine
      digits count, scaled to nine places, and any further digits are
      skipped. */
  function FractionNanos(digits: string): (n: nat)
    requires AllDigits(digits)
    ensures n < NanosPerSecond
    ensures |digits| <= 9 ==> n == DigitsValue(digits) * Pow10(9 - |digits|)
  {
    var k := if |digits| < 9 then |digits| else 9;
    assert |digits| <= 9 ==> digits[..k] == digits;
    assert AllDigits(digits[..k]);
    DigitsBound(digits[..k]);
    ScaledBelow(DigitsValue(digits[..k]), k);
    DigitsValue(digits[..k]) * Pow10(9 - k)
  }

  /** `NaiveDateTime::parse_from_str(s, "%Y-%m-%dT%H:%M:%S%.3fZ")`: the ISO
      fields, restricted as in `ParseIso8601`; then chrono's `%.3f`, which
      reads nothing unless a `.` follows and otherwise one or more digits;
      then a literal `Z` that must end the text. */
  function ParseRfc3339(s: string): (r: Result<NaiveDateTime, ParseErrorKind>)
    ensures r.Ok? ==> |s| >= 20 && Fits(s[..19], IsoShape) && s[|s| - 1] == 'Z'
    ensures r.Ok? && |s| > 20 ==> s[19] == '.' && |s| >= 22 && AllDigits(s[20..|s| - 1])
  {
    if !PrefixFits(s, IsoShape) then Err(Invalid)
    else if |s| < 19 then Err(TooShort)
    else
      var iso, rest := s[..19], s[19..];
      assert Fits(iso, IsoShape) by {
        forall i | 0 <= i < 19 ensures FitsAt(iso[i], IsoShape[i]) {
          assert iso[i] == s[i];
        }
      }
      var dot := |rest| > 0 && rest[0] == '.';
      var n := if dot then DigitRunLength(rest[1..]) else 0;
      if dot && n == 0 then Err(if |rest| == 1 then TooShort else Invalid)
      else
        var after := if dot then rest[1 + n..] else rest;
        if |after| == 0 then Err(TooShort)
        else if after[0] != 'Z' then Err(Invalid)
        else if |after| > 1 then Err(TooLong)
        else
          assert s[|s| - 1] == after[0];
          assert dot ==> s[20..|s| - 1] == rest[1..][..n];
          Assemble(iso, if dot then FractionNanos(rest[1..][..n]) else 0)
  }

  /** Where each field sits in a text laid out like the ISO form. */
  lemma IsoLayout(y: string, mo: string, dd: string, h: string, mi: string, se: string)
    requires |y| == 4 && |mo| == 2 && |dd| == 2 && |h| == 2 && |mi| == 2 && |se| == 2
    requires AllDigits(y) && AllDigits(mo) && AllDigits(dd)
    requires AllDigits(h) && AllDigits(mi) && AllDigits(se)
    ensures var s := y + "-" + mo + "-" + dd + "T" + h + ":" + mi + ":" + se;
      && Fits(s, IsoShape)
      && s[0..4] == y && s[5..7] == mo && s[8..10] == dd
      && s[11..13] == h && s[14..16] == mi && s[17..19] == se
  {
    var s := y + "-" + mo + "-" + dd + "T" + h + ":" + mi + ":" + se;
    assert s[0..4] == y;
    assert s[5..7] == mo;
    assert s[8..10] == dd;
    assert s[11..13] == h;
    assert s[14..16] == mi;
    assert s[17..19] == se;
    forall i | 0 <= i < 19 ensures FitsAt(s[i], IsoShape[i]) {
      if i < 4 { assert s[i] == s[0..4][i]; }
      else if 5 <= i < 7 { assert s[i] == s[5..7][i - 5]; }
      else if 8 <= i < 10 { assert s[i] == s[8..10][i - 8]; }
      else if 11 <= i < 13 { assert s[i] == s[11..13][i - 11]; }
      else if 14 <= i < 16 { assert s[i] == s[14..16][i - 14]; }
      else if 17 <= i < 19 { assert s[i] == s[17..19][i - 17]; }
    }
  }

  /** The ISO form of a value in years 0 to 9999 fits the ISO shape and
      carries the value's fields at their fixed positions. */
  lemma IsoFields(d: DateTime)
    requires Valid(d) && 0 <= d.year <= 9999
    ensures var s := FormatIso8601(d);
      && Fits(s, IsoShape)
      && s[0..4] == ZeroPad(d.year, 4) && s[5..7] == ZeroPad(d.month, 2)
      && s[8..10] == ZeroPad(d.day, 2) && s[11..13] == ZeroPad(d.hour, 2)
      && s[14..16] == ZeroPad(d.minute, 2) && s[17..19] == ZeroPad(ShownSecond(d), 2)
  {
    PadWidth(d.year, 4);
    PadWidth(d.month, 2);
    PadWidth(d.day, 2);
    PadWidth(d.hour, 2);
    PadWidth(d.minute, 2);
    PadWidth(ShownSecond(d), 2);
    var y, mo, dd := ZeroPad(d.year, 4), ZeroPad(d.month, 2), ZeroPad(d.day, 2);
    var h, mi, se := ZeroPad(d.hour, 2), ZeroPad(d.minute, 2), ZeroPad(ShownSecond(d), 2);
    var s := FormatIso8601(d);
    assert s == y + "-" + mo + "-" + dd + "T" + h + ":" + mi + ":" + se;
    IsoLayout(y, mo, dd, h, mi, se);
  }

  /** A field written by `ZeroPad` reads back as the padded number. */
  lemma FieldValue(s: string, i: nat, n: nat, v: nat)
    requires i + n <= |s| && s[i..i + n] == ZeroPad(v, n)
    ensures AllDigits(s[i..i + n]) && Field(s, i, n) == v
  {
    ZeroPadDigits(v, n);
  }

  /** The sub-second part of a valid `nano`, and how a leap second shows it. */
  lemma SubSecond(n: int)
    requires 0 <= n < 2 * NanosPerSecond
    ensures n % NanosPerSecond == if n >= NanosPerSecond then n - NanosPerSecond else n
  {
  }

  /** Text holding the zero-padded fields of a valid value at their ISO
      positions, the shown second included, assembles back into that value
      with its sub-second part. */
  lemma AssembleFields(s: string, d: DateTime)
    requires Fits(s, IsoShape) && Valid(d) && 0 <= d.year <= 9999
    requires s[0..4] == ZeroPad(d.year, 4) && s[5..7] == ZeroPad(d.month, 2)
    requires s[8..10] == ZeroPad(d.day, 2) && s[11..13] == ZeroPad(d.hour, 2)
    requires s[14..16] == ZeroPad(d.minute, 2) && s[17..19] == ZeroPad(ShownSecond(d), 2)
    ensures Assemble(s, d.nano % NanosPerSecond) == Ok(d)
  {
    FieldValue(s, 0, 4, d.year);
    FieldValue(s, 5, 2, d.month);
    FieldValue(s, 8, 2, d.day);
    FieldValue(s, 11, 2, d.hour);
    FieldValue(s, 14, 2, d.minute);
    FieldValue(s, 17, 2, ShownSecond(d));
    AssembleRead(s, d);
  }

  /** Text whose fields read as those of a valid value assembles back into
      it. */
  lemma AssembleRead(s: string, d: DateTime)
    requires |s| >= 19 && PrefixFits(s, IsoShape) && Valid(d)
    requires AllDigits(s[0..4]) && AllDigits(s[5..7]) && AllDigits(s[8..10])
    requires AllDigits(s[11..13]) && AllDigits(s[14..16]) && AllDigits(s[17..19])
    requires Field(s, 0, 4) == d.year && Field(s, 5, 2) == d.month && Field(s, 8, 2) == d.day
    requires Field(s, 11, 2) == d.hour && Field(s, 14, 2) == d.minute && Field(s, 17, 2) == ShownSecond(d)
    ensures Assemble(s, d.nano % NanosPerSecond) == Ok(d)
  {
    SubSecond(d.nano);
  }

  /** The fields of the ISO form, with the sub-second part, assemble back
      into the value, for years 0 to 9999, leap seconds included. */
  lemma AssembleFormat(d: DateTime)
    requires Valid(d) && 0 <= d.year <= 9999
    ensures |FormatIso8601(d)| == 19 && Fits(FormatIso8601(d), IsoShape)
    ensures Assemble(FormatIso8601(d), d.nano % NanosPerSecond) == Ok(d)
  {
    IsoFields(d);
    AssembleFields(FormatIso8601(d), d);
  }

  /** Parsing what the ISO formatter wrote gives the value back, for
      whole-second times in years 0 to 9999 (where `%Y` writes four digits). */
  lemma ParseFormatIso8601(d: DateTime)
    requires Valid(d) && WholeSecond(d) && 0 <= d.year <= 9999
    ensures ParseIso8601(FormatIso8601(d)) == Ok(d)
  {
    AssembleFormat(d);
    SubSecond(d.nano);
  }

  /** Text that fits the ISO shape at its start fits it over the first 19
      characters, whatever follows. */
  lemma IsoPrefix(t: string, u: string)
    requires Fits(t, IsoShape)
    ensures PrefixFits(t + u, IsoShape) && |t + u| >= 19 && (t + u)[..19] == t && (t + u)[19..] == u
  {
    var s := t + u;
    forall i | 0 <= i < |s| && i < |IsoShape| ensures FitsAt(s[i], IsoShape[i]) {
      assert s[i] == t[i];
    }
  }

  /** Without a fraction the RFC 3339 parser reads exactly what the ISO
      parser reads, followed by `Z`. */
  lemma Rfc3339WithoutFraction(t: string)
    requires Fits(t, IsoShape)
    ensures ParseRfc3339(t + "Z") == ParseIso8601(t)
  {
    IsoPrefix(t, "Z");
  }

  /** The digit run of `f + "Z"` is `f`, followed by the `Z`. */
  lemma DigitRunBeforeZ(f: string)
    requires AllDigits(f)
    ensures DigitRunLength(f + "Z") == |f|
    ensures (f + "Z")[..|f|] == f && (f + "Z")[|f| + 1..] == []
    decreases |f|
  {
    var t := f + "Z";
    var n := DigitRunLength(t);
    assert t[|f|] == 'Z';
    assert forall i :: 0 <= i < |f| ==> t[i] == f[i];
    assert IsDigit(t[n]) ==> n >= |f|;
  }

  /** With a fraction of any length the parser reads the ISO fields and the
      fraction's nanoseconds, the first nine digits counting. */
  lemma Rfc3339WithFraction(t: string, f: string)
    requires Fits(t, IsoShape) && |f| >= 1 && AllDigits(f)
    ensures ParseRfc3339(t + "." + f + "Z") == Assemble(t, FractionNanos(f))
  {
    var rest := "." + f + "Z";
    assert t + "." + f + "Z" == t + rest;
    IsoPrefix(t, rest);
    FractionTail(rest, f);
  }

  /** How `%.3f` and the `Z` read what follows the ISO fields. */
  lemma FractionTail(rest: string, f: string)
    requires rest == "." + f + "Z" && |f| >= 1 && AllDigits(f)
    ensures |rest| > 0 && rest[0] == '.' && DigitRunLength(rest[1..]) == |f|
    ensures rest[1..][..|f|] == f && rest[1 + |f|..] == "Z"
  {
    assert rest[1..] == f + "Z";
    DigitRunBeforeZ(f);
  }

  /** A whole-second time written in the ISO form with a `Z` parses back. */
  lemma ParseFormatRfc3339Whole(d: DateTime)
    requires Valid(d) && WholeSecond(d) && 0 <= d.year <= 9999
    ensures ParseRfc3339(FormatIso8601(d) + "Z") == Ok(d)
  {
    IsoFields(d);
    Rfc3339WithoutFraction(FormatIso8601(d));
    ParseFormatIso8601(d);
  }

  /** Three padded digits stand for that many milliseconds. */
  lemma MillisFraction(m: nat)
    requires m < 1000
    ensures |ZeroPad(m, 3)| == 3 && AllDigits(ZeroPad(m, 3))
    ensures FractionNanos(ZeroPad(m, 3)) == m * 1_000_000
  {
    PadWidth(m, 3);
    ZeroPadDigits(m, 3);
    var f := ZeroPad(m, 3);
    assert f[..3] == f;
    assert Pow10(6) == 1_000_000;
  }

  /** A time on a whole millisecond, written as `%Y-%m-%dT%H:%M:%S%.3fZ`
      writes it (three fraction digits), parses back, for years 0 to 9999. */
  lemma ParseFormatRfc3339Millis(d: DateTime)
    requires Valid(d) && 0 <= d.year <= 9999 && d.nano % 1_000_000 == 0
    ensures var m := (d.nano % NanosPerSecond) / 1_000_000;
      ParseRfc3339(FormatIso8601(d) + "." + ZeroPad(m, 3) + "Z") == Ok(d)
  {
    var m := (d.nano % NanosPerSecond) / 1_000_000;
    var t, f := FormatIso8601(d), ZeroPad(m, 3);
    WholeMillis(d.nano);
    MillisFraction(m);
    AssembleFormat(d);
    Rfc3339WithFraction(t, f);
    assert FractionNanos(f) == d.nano % NanosPerSecond;
  }

  /** A whole number of milliseconds stays whole within its second. */
  lemma WholeMillis(n: int)
    requires 0 <= n < 2 * NanosPerSecond && n % 1_000_000 == 0
    ensures (n % NanosPerSecond) / 1_000_000 < 1000
    ensures (n % NanosPerSecond) / 1_000_000 * 1_000_000 == n % NanosPerSecond
  {
    SubSecond(n);
  }

  /** chrono scales a short fraction up to nanoseconds, so a trailing zero
      within the first nine digits changes nothing: `.5` and `.50` are the
      same half second. */
  lemma FractionTrailingZero(f: string)
    requires AllDigits(f) && |f| < 9
    ensures AllDigits(f + "0") && FractionNanos(f + "0") == FractionNanos(f)
  {
    var g := f + "0";
    assert AllDigits(g) by {
      assert forall i :: 0 <= i < |f| ==> g[i] == f[i];
    }
    assert g[..|g| - 1] == f;
    assert DigitsValue(g) == DigitsValue(f) * 10;
    ScaleShift(DigitsValue(f), 9 - |g|);
  }

  lemma ScaleShift(v: nat, m: nat)
    ensures v * 10 * Pow10(m) == v * Pow10(m + 1)
  {
    assert Pow10(m + 1) == 10 * Pow10(m);
  }

  /** Digits past the ninth are read and skipped: they do not change the
      value. */
  lemma FractionSkipsPastNinth(f: string, g: string)
    requires AllDigits(f + g) && |f| >= 9
    ensures AllDigits(f) && FractionNanos(f + g) == FractionNanos(f)
  {
    assert forall i :: 0 <= i < |f| ==> f[i] == (f + g)[i];
    assert (f + g)[..9] == f[..9];
  }
}
