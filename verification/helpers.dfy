/** `src/helpers.rs`: the scalar canonicaliser `clean`, the query encoder
    `to_query`, and the field decoders and encoders used by the option and
    response structs.

    Foreign code the helpers call is passed in as a function parameter:
    `url_escape::encode_query` as `encodeQuery`, `f64::from_str` as
    `parseF64`, and chrono's `%H:%M:%S` parse into a `NaiveDateTime` as
    `parseServiceTime`. */
module Helpers {
  import opened Outcomes
  import opened Text
  import opened Json
  import opened DateTimes
  import opened Integers

  /* ================= clean ================= */

  /** Every leading and every trailing `"` removed. */
  function Unquote(s: string): (r: string)
    ensures |r| <= |s|
    ensures r == [] || (r[0] != '"' && r[|r| - 1] != '"')
  {
    TrimEnd(TrimStart(s, Quote), Quote)
  }

  /** `clean`: trims whitespace, then removes every leading and every
      trailing `"` (not just one pair). */
  function Clean(s: string): (r: string)
    ensures |r| <= |s|
    ensures r == [] || (r[0] != '"' && r[|r| - 1] != '"')
  {
    Unquote(Trim(s))
  }

  /** What `clean` returns is a contiguous piece of its input. */
  lemma CleanIsSlice(s: string)
    ensures exists i, j :: 0 <= i <= j <= |s| && Clean(s) == s[i..j]
  {
    var a := TrimStart(s, Whitespace);
    var b := TrimEnd(a, Whitespace);
    var c := TrimStart(b, Quote);
    var d := TrimEnd(c, Quote);
    var i := LeadingCount(s, Whitespace) + LeadingCount(b, Quote);
    forall n | 0 <= n < |d| ensures d[n] == s[i + n] {
      assert d[n] == c[n] == b[LeadingCount(b, Quote) + n];
    }
    assert d == s[i..i + |d|];
  }

  lemma TrimStartKeeps(s: string, k: CharClass)
    requires s == [] || !k.Holds(s[0])
    ensures TrimStart(s, k) == s
  {
  }

  lemma TrimEndKeeps(s: string, k: CharClass)
    requires s == [] || !k.Holds(s[|s| - 1])
    ensures TrimEnd(s, k) == s
  {
  }

  lemma TrimStartDrops(s: string, k: CharClass)
    requires |s| > 0 && k.Holds(s[0])
    ensures TrimStart(s, k) == TrimStart(s[1..], k)
  {
  }

  lemma TrimEndDrops(s: string, k: CharClass)
    requires |s| > 0 && k.Holds(s[|s| - 1])
    ensures TrimEnd(s, k) == TrimEnd(s[..|s| - 1], k)
  {
  }

  /** A text with no whitespace at either end is only unquoted. */
  lemma CleanTrimmed(s: string)
    requires s == [] || (!IsWhitespace(s[0]) && !IsWhitespace(s[|s| - 1]))
    ensures Clean(s) == Unquote(s)
  {
    TrimStartKeeps(s, Whitespace);
    TrimEndKeeps(s, Whitespace);
  }

  /** A quoted text loses its opening quote and then every trailing quote. */
  lemma CleanQuoted(x: string)
    requires x == [] || x[0] != '"'
    ensures Clean("\"" + x + "\"") == TrimEnd(x, Quote)
  {
    var q := "\"" + x + "\"";
    CleanTrimmed(q);
    var t := x + "\"";
    assert q[1..] == t;
    TrimStartDrops(q, Quote);
    if x == [] {
      TrimStartDrops(t, Quote);
      assert t[1..] == [];
    } else {
      TrimStartKeeps(t, Quote);
      TrimEndDrops(t, Quote);
      assert t[..|t| - 1] == x;
    }
  }

  /** Wrapping a text that neither starts nor ends with `"` in one pair of
      quotes is undone by `clean`. */
  lemma CleanUnwraps(s: string)
    requires s == [] || (s[0] != '"' && s[|s| - 1] != '"')
    ensures Clean("\"" + s + "\"") == s
  {
    CleanQuoted(s);
    TrimEndKeeps(s, Quote);
  }

  /** Spaces just inside the quotes survive one pass of `clean`. */
  lemma CleanKeepsInnerSpaces(x: string)
    requires x != [] && x[0] != ' ' && x[|x| - 1] != ' '
    ensures Clean("\" " + x + " \"") == " " + x + " "
  {
    var y := " " + x + " ";
    assert "\" " + x + " \"" == "\"" + y + "\"";
    CleanUnwraps(y);
  }

  /** ... and come off on the next pass, so `clean` is not idempotent. */
  lemma CleanTrimsSpaces(x: string)
    requires x != [] && !IsWhitespace(x[0]) && !IsWhitespace(x[|x| - 1])
    requires x[0] != '"' && x[|x| - 1] != '"'
    ensures Clean(" " + x + " ") == x
  {
    var y := " " + x + " ";
    TrimStartDrops(y, Whitespace);
    var z := x + " ";
    assert y[1..] == z;
    TrimStartKeeps(z, Whitespace);
    TrimEndDrops(z, Whitespace);
    assert z[..|z| - 1] == x;
    TrimEndKeeps(x, Whitespace);
    TrimStartKeeps(x, Quote);
    TrimEndKeeps(x, Quote);
  }

  lemma DropsTwoLeadingQuotes(x: string)
    requires x != [] && x[0] != '"'
    ensures TrimStart("\"\"" + x + "\"\"", Quote) == x + "\"\""
  {
    var q := "\"\"" + x + "\"\"";
    TrimStartDrops(q, Quote);
    TrimStartDrops(q[1..], Quote);
    assert q[1..][1..] == x + "\"\"";
    TrimStartKeeps(x + "\"\"", Quote);
  }

  lemma DropsTwoTrailingQuotes(x: string)
    requires x != [] && x[|x| - 1] != '"'
    ensures TrimEnd(x + "\"\"", Quote) == x
  {
    var t := x + "\"\"";
    TrimEndDrops(t, Quote);
    var u := x + "\"";
    assert t[..|t| - 1] == u;
    TrimEndDrops(u, Quote);
    assert u[..|u| - 1] == x;
    TrimEndKeeps(x, Quote);
  }

  /** `clean` removes every surrounding quote, not one pair. */
  lemma CleanStripsEveryQuote(x: string)
    requires x != [] && x[0] != '"' && x[|x| - 1] != '"'
    ensures Clean("\"\"" + x + "\"\"") == x
  {
    CleanTrimmed("\"\"" + x + "\"\"");
    DropsTwoLeadingQuotes(x);
    DropsTwoTrailingQuotes(x);
  }

  /* ---------- clean after Value::to_string ---------- */

  lemma {:induction false} EscapeAppend(a: string, c: char)
    ensures Escape(a + [c]) == Escape(a) + EscapeChar(c)
    decreases |a|
  {
    if a == [] {
      assert [c][1..] == [];
    } else {
      assert (a + [c])[1..] == a[1..] + [c];
      EscapeAppend(a[1..], c);
    }
  }

  /** A string value comes out of `clean` as its JSON-escaped text, as long
      as it does not end with `"`. */
  lemma CleanRenderedString(s: string)
    requires s == [] || s[|s| - 1] != '"'
    ensures Clean(Render(JStr(s))) == Escape(s)
  {
    EscapeEnds(s);
    EscapedUnwraps(Render(JStr(s)), Escape(s));
  }

  /** A rendered string is the escaped text in quotes, which `clean` undoes
      when the escaped text neither starts nor ends with a quote. */
  lemma EscapedUnwraps(rendered: string, e: string)
    requires rendered == "\"" + e + "\""
    requires e == [] || (e[0] != '"' && e[|e| - 1] != '"')
    ensures Clean(rendered) == e
  {
    CleanUnwraps(e);
  }

  /** An escaped quote at the end of a quoted text is cut to its backslash. */
  lemma CleanCutsEscapedQuote(e: string)
    requires e == [] || e[0] != '"'
    ensures Clean("\"" + (e + "\\\"") + "\"") == e + "\\"
  {
    var x := e + "\\\"";
    CleanQuoted(x);
    TrimEndDrops(x, Quote);
    assert x[..|x| - 1] == e + "\\";
    TrimEndKeeps(e + "\\", Quote);
  }

  /** A string value ending with `"` loses that quote: its escape `\"` is
      cut to a lone backslash, because `clean` strips every trailing quote. */
  lemma CleanRenderedStringEndingInQuote(s: string)
    requires |s| > 0 && s[|s| - 1] == '"'
    ensures Clean(Render(JStr(s))) == Escape(s[..|s| - 1]) + "\\"
  {
    var a := s[..|s| - 1];
    assert s == a + ['"'];
    EscapeAppend(a, '"');
    if a != [] {
      EscapeEnds(a);
    }
    CleanCutsEscapedQuote(Escape(a));
  }

  /** The concrete case: the value `a"` is sent as `a\`. */
  lemma QuoteEndingValueTruncated()
    ensures Clean(Render(JStr("a\""))) == "a\\"
  {
    var s := "a\"";
    assert s[..|s| - 1] == ['a'];
    assert ['a'][1..] == [];
    CleanRenderedStringEndingInQuote(s);
  }

  lemma CleanRenderedInt(n: int)
    ensures Clean(Render(JInt(n))) == IntToString(n)
  {
    var s := IntToString(n);
    TrimStartKeeps(s, Whitespace);
    TrimEndKeeps(s, Whitespace);
    TrimStartKeeps(s, Quote);
    TrimEndKeeps(s, Quote);
  }

  lemma CleanRenderedBool(b: bool)
    ensures Clean(Render(JBool(b))) == if b then "true" else "false"
  {
    var s := if b then "true" else "false";
    TrimStartKeeps(s, Whitespace);
    TrimEndKeeps(s, Whitespace);
    TrimStartKeeps(s, Quote);
    TrimEndKeeps(s, Quote);
  }

  /* ================= to_query ================= */

  type Entry = (string, JsonValue)

  /** The entries of a JSON object, listed in the object's iteration order:
      each key once, each with its value, and nothing else. Which order
      serde_json's map uses is left open. */
  predicate Enumerates(entries: seq<Entry>, obj: map<string, JsonValue>) {
    && (forall i :: 0 <= i < |entries| ==> entries[i].0 in obj && obj[entries[i].0] == entries[i].1)
    && (forall i, j :: 0 <= i < j < |entries| ==> entries[i].0 != entries[j].0)
    && (forall k :: k in obj ==> exists i :: 0 <= i < |entries| && entries[i].0 == k)
  }

  /** An object with a single key is listed as that one entry. */
  lemma EnumeratesSingleton(entries: seq<Entry>, obj: map<string, JsonValue>, key: string)
    requires Enumerates(entries, obj)
    requires key in obj && forall k :: k in obj ==> k == key
    ensures entries == [(key, obj[key])]
  {
    var i :| 0 <= i < |entries| && entries[i].0 == key;
    assert entries[0].0 == key && entries[|entries| - 1].0 == key;
    assert |entries| == 1;
  }

  /** One `key=value` segment per array element, in element order; each value
      is URL-escaped. */
  function ElementSegments(key: string, xs: seq<JsonScalar>, encodeQuery: string -> string): (r: seq<string>)
    ensures |r| == |xs|
    ensures forall i :: 0 <= i < |xs| ==> r[i] == key + "=" + encodeQuery(Clean(Render(xs[i])))
    decreases |xs|
  {
    if |xs| == 0 then [] else [key + "=" + encodeQuery(Clean(Render(xs[0])))] + ElementSegments(key, xs[1..], encodeQuery)
  }

  /** What one entry contributes to the `&`-joined list: a scalar gives one
      unescaped segment, an array the `&`-join of its element segments. */
  function EntryText(key: string, v: JsonValue, encodeQuery: string -> string): string {
    match v
    case Scalar(x) => key + "=" + Clean(Render(x))
    case Array(xs) => Join(ElementSegments(key, xs, encodeQuery), '&')
  }

  function EntryTexts(entries: seq<Entry>, encodeQuery: string -> string): (r: seq<string>)
    ensures |r| == |entries|
    decreases |entries|
  {
    if |entries| == 0 then []
    else [EntryText(entries[0].0, entries[0].1, encodeQuery)] + EntryTexts(entries[1..], encodeQuery)
  }

  /** `to_query`, given the entries of the serialised object in iteration order. */
  function ToQuery(entries: seq<Entry>, encodeQuery: string -> string): (r: string)
    ensures |entries| == 0 ==> r == ""
  {
    Join(EntryTexts(entries, encodeQuery), '&')
  }

  /** `to_query` of a serialised object, whatever the map's iteration order. */
  function ObjectQuery(obj: map<string, JsonValue>, entries: seq<Entry>, encodeQuery: string -> string): (r: string)
    requires Enumerates(entries, obj)
    ensures obj == map[] ==> r == ""
  {
    assert |entries| > 0 ==> entries[0].0 in obj;
    ToQuery(entries, encodeQuery)
  }

  /* ---------- the segments a query splits into ---------- */

  /** The `&`-separated segments an entry stands for: one per scalar, one per
      array element, and a single empty segment for an empty array. */
  function EntrySegments(key: string, v: JsonValue, encodeQuery: string -> string): (r: seq<string>)
    ensures 1 <= |r|
  {
    match v
    case Scalar(x) => [key + "=" + Clean(Render(x))]
    case Array(xs) => if |xs| == 0 then [""] else ElementSegments(key, xs, encodeQuery)
  }

  function Segments(entries: seq<Entry>, encodeQuery: string -> string): seq<string>
    decreases |entries|
  {
    if |entries| == 0 then []
    else EntrySegments(entries[0].0, entries[0].1, encodeQuery) + Segments(entries[1..], encodeQuery)
  }

  lemma {:induction false} QueryJoinsSegments(entries: seq<Entry>, encodeQuery: string -> string)
    requires 1 <= |entries|
    ensures 1 <= |Segments(entries, encodeQuery)|
    ensures ToQuery(entries, encodeQuery) == Join(Segments(entries, encodeQuery), '&')
    decreases |entries|
  {
    var k, v := entries[0].0, entries[0].1;
    var head := EntrySegments(k, v, encodeQuery);
    assert Join(head, '&') == EntryText(k, v, encodeQuery);
    var texts := EntryTexts(entries, encodeQuery);
    if |entries| == 1 {
      assert Segments(entries, encodeQuery) == head + [];
      assert head + [] == head;
    } else {
      QueryJoinsSegments(entries[1..], encodeQuery);
      var rest := Segments(entries[1..], encodeQuery);
      JoinConcat(head, rest, '&');
      assert texts[1..] == EntryTexts(entries[1..], encodeQuery);
    }
  }

  /** Decoding a query by splitting on `&` gives back exactly the segments of
      the entries, in entry order, when no segment itself contains `&`. */
  lemma SplitQuery(entries: seq<Entry>, encodeQuery: string -> string)
    requires 1 <= |entries|
    requires forall i :: 0 <= i < |Segments(entries, encodeQuery)| ==> '&' !in Segments(entries, encodeQuery)[i]
    ensures Split(ToQuery(entries, encodeQuery), '&') == Segments(entries, encodeQuery)
  {
    QueryJoinsSegments(entries, encodeQuery);
    SplitJoin(Segments(entries, encodeQuery), '&');
  }

  /** The segments of two runs of entries are those of the first run, then
      those of the second. */
  lemma {:induction false} SegmentsAppend(a: seq<Entry>, b: seq<Entry>, encodeQuery: string -> string)
    ensures Segments(a + b, encodeQuery) == Segments(a, encodeQuery) + Segments(b, encodeQuery)
    decreases |a|
  {
    if |a| == 0 {
      assert a + b == b;
    } else {
      var head := EntrySegments(a[0].0, a[0].1, encodeQuery);
      assert (a + b)[0] == a[0] && (a + b)[1..] == a[1..] + b;
      assert Segments(a[1..] + b, encodeQuery) == Segments(a[1..], encodeQuery) + Segments(b, encodeQuery) by {
        SegmentsAppend(a[1..], b, encodeQuery);
      }
      ConcatAssoc(head, Segments(a[1..], encodeQuery), Segments(b, encodeQuery));
    }
  }

  lemma SplitAround<T>(s: seq<T>, i: nat)
    requires i < |s|
    ensures s == s[..i] + ([s[i]] + s[i + 1..])
  {
  }

  lemma ConcatAssoc<T>(a: seq<T>, b: seq<T>, c: seq<T>)
    ensures a + (b + c) == (a + b) + c
  {
  }

  /** The segments of all entries are those before entry `i`, then entry
      `i`'s own, then those after it. */
  lemma SegmentsAround(entries: seq<Entry>, i: nat, encodeQuery: string -> string)
    requires i < |entries|
    ensures Segments(entries, encodeQuery) ==
              Segments(entries[..i], encodeQuery)
              + EntrySegments(entries[i].0, entries[i].1, encodeQuery)
              + Segments(entries[i + 1..], encodeQuery)
  {
    var rest := [entries[i]] + entries[i + 1..];
    SplitAround(entries, i);
    SegmentsAppend(entries[..i], rest, encodeQuery);
    SegmentsAppend([entries[i]], entries[i + 1..], encodeQuery);
    assert Segments([entries[i]], encodeQuery) == EntrySegments(entries[i].0, entries[i].1, encodeQuery) by {
      assert [entries[i]][1..] == [];
    }
  }

  lemma ConcatRegroup<T>(a: seq<T>, b: seq<T>, c: seq<T>, d: seq<T>)
    ensures a + (b + c + d) == (a + b) + c + d
  {
  }

  /** Every segment a field of the object stands for is among the segments
      of the query, whatever the object's iteration order. */
  lemma FieldSegmentsPresent(entries: seq<Entry>, obj: map<string, JsonValue>, key: string, encodeQuery: string -> string)
    requires Enumerates(entries, obj)
    requires key in obj
    ensures forall s :: s in EntrySegments(key, obj[key], encodeQuery) ==> s in Segments(entries, encodeQuery)
  {
    var i :| 0 <= i < |entries| && entries[i].0 == key;
    SegmentsAround(entries, i, encodeQuery);
  }

  /** Scalar values are not escaped, so an `&` inside one splits it into two
      segments of the query. */
  lemma OneScalarQuery(key: string, x: JsonScalar, encodeQuery: string -> string)
    ensures ToQuery([(key, Scalar(x))], encodeQuery) == key + "=" + Clean(Render(x))
  {
    assert EntryTexts([(key, Scalar(x))], encodeQuery) == [key + "=" + Clean(Render(x))];
  }

  /** Two texts of plain characters joined by `&` come through `clean`
      unchanged. */
  lemma CleanKeepsPlainJoin(a: string, b: string)
    requires forall i :: 0 <= i < |a| ==> Plain(a[i])
    requires forall i :: 0 <= i < |b| ==> Plain(b[i])
    ensures Clean(Render(JStr(a + "&" + b))) == a + "&" + b
  {
    var v := a + "&" + b;
    forall i | 0 <= i < |v| ensures Plain(v[i]) {
      if i > |a| { assert v[i] == b[i - |a| - 1]; }
    }
    EscapePlain(v);
    CleanRenderedString(v);
  }

  lemma ScalarAmpersandSplits(key: string, a: string, b: string, encodeQuery: string -> string)
    requires '&' !in key && '&' !in a && '&' !in b
    requires forall i :: 0 <= i < |a| ==> Plain(a[i])
    requires forall i :: 0 <= i < |b| ==> Plain(b[i])
    ensures Split(ToQuery([(key, Scalar(JStr(a + "&" + b)))], encodeQuery), '&') == [key + "=" + a, b]
  {
    var v := a + "&" + b;
    CleanKeepsPlainJoin(a, b);
    OneScalarQuery(key, JStr(v), encodeQuery);
    var head := key + "=" + a;
    ConcatRegroup(key + "=", a, "&", b);
    SplitAtFirst(head, '&', b);
    SplitWithout(b, '&');
  }

  /* ================= date and time fields ================= */

  /** serde's errors as the decoders raise them: a custom message, a value of
      the wrong JSON type or an out-of-range value (each with a description
      of what was expected), a missing field. */
  datatype DeError =
    | Custom(message: string)
    | InvalidType(expected: string)
    | InvalidValue(expected: string)
    | MissingField(field: string)

  /** `ser_iso_8601`. */
  function SerIso8601(date: Option<NaiveDateTime>): JsonScalar {
    match date
    case Some(d) => JStr(FormatIso8601(d))
    case None => JNull
  }

  /** `ser_touch_utc`. */
  function SerTouchUtc(date: Option<NaiveDateTime>): JsonScalar {
    match date
    case Some(d) => JStr(FormatTouch(d))
    case None => JNull
  }

  /** `de_iso_8601`: a JSON string parsed with `%Y-%m-%dT%H:%M:%S`. */
  function DeIso8601(v: JsonValue): (r: Result<NaiveDateTime, DeError>)
    ensures r.Ok? <==> v.Scalar? && v.v.JStr? && ParseIso8601(v.v.s).Ok?
    ensures r.Ok? ==> r.value == ParseIso8601(v.v.s).value
    ensures v.Scalar? && v.v.JStr? && r.Err? ==>
              r == Err(Custom("Error deser iso_8601 '" + v.v.s + "': " + ParseErrorDebug(ParseIso8601(v.v.s).error)))
    ensures !(v.Scalar? && v.v.JStr?) ==> r == Err(InvalidType("a string"))
  {
    match v
    case Scalar(JStr(s)) =>
      (match ParseIso8601(s)
       case Ok(d) => Ok(d)
       case Err(k) => Err(Custom("Error deser iso_8601 '" + s + "': " + ParseErrorDebug(k))))
    case _ => Err(InvalidType("a string"))
  }

  /** `de_service_time`: JSON null and the empty string both mean no time;
      anything else goes to the time parser. */
  function DeServiceTime(v: JsonValue, parseServiceTime: string -> Result<NaiveDateTime, ParseErrorKind>)
    : (r: Result<Option<NaiveDateTime>, DeError>)
    ensures v == Scalar(JNull) || v == Scalar(JStr("")) ==> r == Ok(None)
    ensures r.Ok? && r.value.Some? ==> v.Scalar? && v.v.JStr? && v.v.s != ""
    ensures v.Scalar? && v.v.JStr? && v.v.s != "" && parseServiceTime(v.v.s).Ok? ==>
              r == Ok(Some(parseServiceTime(v.v.s).value))
    ensures v.Scalar? && v.v.JStr? && v.v.s != "" && parseServiceTime(v.v.s).Err? ==>
              r == Err(Custom("Error deser service_time '" + v.v.s + "': " + ParseErrorDebug(parseServiceTime(v.v.s).error)))
    ensures !(v.Scalar? && (v.v.JStr? || v.v.JNull?)) ==> r == Err(InvalidType("a string"))
  {
    match v
    case Scalar(JNull) => Ok(None)
    case Scalar(JStr(s)) =>
      if |s| == 0 then Ok(None)
      else
        (match parseServiceTime(s)
         case Ok(d) => Ok(Some(d))
         case Err(k) => Err(Custom("Error deser service_time '" + s + "': " + ParseErrorDebug(k))))
    case _ => Err(InvalidType("a string"))
  }

  /** A time comes out exactly when a non-empty string parses, and then it
      is the parsed time; a failure's message starts with the raw text, in
      quotes. */
  lemma DeServiceTimeDelegates(v: JsonValue, parseServiceTime: string -> Result<NaiveDateTime, ParseErrorKind>)
    ensures DeServiceTime(v, parseServiceTime).Ok? && DeServiceTime(v, parseServiceTime).value.Some? <==>
              v.Scalar? && v.v.JStr? && v.v.s != "" && parseServiceTime(v.v.s).Ok?
    ensures DeServiceTime(v, parseServiceTime).Ok? && DeServiceTime(v, parseServiceTime).value.Some? ==>
              DeServiceTime(v, parseServiceTime).value.value == parseServiceTime(v.v.s).value
    ensures DeServiceTime(v, parseServiceTime).Err? && v.Scalar? && v.v.JStr? ==>
              var m := DeServiceTime(v, parseServiceTime).error;
              var head := "Error deser service_time '" + v.v.s + "'";
              m.Custom? && |m.message| > |head| && m.message[..|head|] == head
  {
    if v.Scalar? && v.v.JStr? && v.v.s != "" && parseServiceTime(v.v.s).Err? {
      var s := v.v.s;
      var tail := ": " + ParseErrorDebug(parseServiceTime(s).error);
      var head := "Error deser service_time '" + s + "'";
      assert "Error deser service_time '" + s + "': " + ParseErrorDebug(parseServiceTime(s).error) == head + tail;
      assert (head + tail)[..|head|] == head;
    }
  }

  /** `de_rfc3339`: a JSON string parsed with `%Y-%m-%dT%H:%M:%S%.3fZ`. */
  function DeRfc3339(v: JsonValue): (r: Result<NaiveDateTime, DeError>)
    ensures r.Ok? <==> v.Scalar? && v.v.JStr? && ParseRfc3339(v.v.s).Ok?
    ensures r.Ok? ==> r.value == ParseRfc3339(v.v.s).value
    ensures v.Scalar? && v.v.JStr? && r.Err? ==>
              r == Err(Custom("Error deser rfc3339 '" + v.v.s + "': " + ParseErrorDebug(ParseRfc3339(v.v.s).error)))
    ensures !(v.Scalar? && v.v.JStr?) ==> r == Err(InvalidType("a string"))
  {
    match v
    case Scalar(JStr(s)) =>
      (match ParseRfc3339(s)
       case Ok(d) => Ok(d)
       case Err(k) => Err(Custom("Error deser rfc3339 '" + s + "': " + ParseErrorDebug(k))))
    case _ => Err(InvalidType("a string"))
  }

  /** `opt_de_rfc3339`: null means no value; a string must parse. */
  function OptDeRfc3339(v: JsonValue): (r: Result<Option<NaiveDateTime>, DeError>)
    ensures v == Scalar(JNull) ==> r == Ok(None)
    ensures v != Scalar(JNull) ==> r == (match DeRfc3339(v) case Ok(d) => Ok(Some(d)) case Err(e) => Err(e))
  {
    match v
    case Scalar(JNull) => Ok(None)
    case Scalar(JStr(s)) =>
      (match ParseRfc3339(s)
       case Ok(d) => Ok(Some(d))
       case Err(k) => Err(Custom("Error deser rfc3339 '" + s + "': " + ParseErrorDebug(k))))
    case _ => Err(InvalidType("a string"))
  }

  /** A serialised ISO date reaches the query as the formatted text itself:
      it needs no JSON escaping, so `clean` only removes the quotes. */
  lemma CleanSerIso8601(d: NaiveDateTime)
    ensures Clean(Render(SerIso8601(Some(d)))) == FormatIso8601(d)
  {
    var f := FormatIso8601(d);
    FormatIsoChars(d);
    EscapePlain(f);
    assert f[0] != '"' && f[|f| - 1] != '"';
    CleanRenderedString(f);
  }

  /** Same for the touch format, whose space stays unescaped in the query. */
  lemma CleanSerTouchUtc(d: NaiveDateTime)
    ensures Clean(Render(SerTouchUtc(Some(d)))) == FormatTouch(d)
    ensures ' ' in FormatTouch(d)
  {
    var f := FormatTouch(d);
    var iso := FormatIso8601(d);
    FormatIsoChars(d);
    assert f == FormatDate(d) + " " + ZeroPad(d.hour, 2) + ":" + ZeroPad(d.minute, 2);
    assert f[|FormatDate(d)|] == ' ';
    forall i | 0 <= i < |f| ensures Plain(f[i]) {
      if i < |FormatDate(d)| {
        assert f[i] == iso[i];
      }
    }
    EscapePlain(f);
    CleanRenderedString(f);
  }

  /** `de_iso_8601` reads back what `ser_iso_8601` wrote, for whole-second
      times in years 0 to 9999. */
  lemma DeSerIso8601(d: NaiveDateTime)
    requires WholeSecond(d) && 0 <= d.year <= 9999
    ensures DeIso8601(Scalar(SerIso8601(Some(d)))) == Ok(d)
  {
    ParseFormatIso8601(d);
  }

  /* ================= deserialize_path ================= */

  /** Rust's `ParseFloatError` message. */
  function FloatErrorText(s: string): string {
    if |s| == 0 then "cannot parse float from empty string" else "invalid float literal"
  }

  /** The text a coordinate token is parsed from: everything before its
      first `,`. */
  function CoordinateText(token: string): string {
    Split(token, ',')[0]
  }

  function ParseCoordinate(token: string, parseF64: string -> Option<real>): (r: Result<real, DeError>)
    ensures r.Ok? <==> parseF64(CoordinateText(token)).Some?
    ensures r.Ok? ==> r.value == parseF64(CoordinateText(token)).value
  {
    var t := CoordinateText(token);
    match parseF64(t)
    case Some(x) => Ok(x)
    case None => Err(Custom("could not parse f64: " + FloatErrorText(t)))
  }

  /** The chunks-of-two loop over the tokens of one path string: the first
      token of a chunk is the latitude, the second the longitude. The first
      failure ends the loop. */
  function PathPoints(tokens: seq<string>, parseF64: string -> Option<real>): Result<seq<(real, real)>, DeError>
    decreases |tokens|
  {
    if |tokens| == 0 then Ok([])
    else
      var lat :- ParseCoordinate(tokens[0], parseF64);
      if |tokens| == 1 then Err(MissingField("longitude"))
      else
        var lon :- ParseCoordinate(tokens[1], parseF64);
        var rest :- PathPoints(tokens[2..], parseF64);
        Ok([(lat, lon)] + rest)
  }

  /** The points of one path string, split on single spaces. */
  function ParsePath(path: string, parseF64: string -> Option<real>): Result<seq<(real, real)>, DeError> {
    PathPoints(Split(path, ' '), parseF64)
  }

  function ParsePaths(paths: seq<JsonScalar>, parseF64: string -> Option<real>)
    : Result<seq<seq<(real, real)>>, DeError>
    decreases |paths|
  {
    if |paths| == 0 then Ok([])
    else
      var first :- (match paths[0]
                    case JStr(p) => ParsePath(p, parseF64)
                    case _ => Err(InvalidType("a string")));
      var rest :- ParsePaths(paths[1..], parseF64);
      Ok([first] + rest)
  }

  /** `deserialize_path`: a JSON array of path strings, one list of points per
      string. */
  function DeserializePath(v: JsonValue, parseF64: string -> Option<real>)
    : Result<seq<seq<(real, real)>>, DeError>
  {
    match v
    case Array(paths) => ParsePaths(paths, parseF64)
    case Scalar(_) => Err(InvalidType("a list of lists of tuples of f64"))
  }

  /** Every coordinate text parses. */
  predicate AllCoordinatesParse(tokens: seq<string>, parseF64: string -> Option<real>) {
    forall i :: 0 <= i < |tokens| ==> parseF64(CoordinateText(tokens[i])).Some?
  }

  /** The path loop succeeds exactly when there is an even number of tokens
      and each parses; then point `j` is made of tokens `2j` and `2j+1`. An
      odd count of parsable tokens fails on the missing longitude, and the
      latitude is never reported missing. */
  lemma {:induction false} PathPointsShape(tokens: seq<string>, parseF64: string -> Option<real>)
    ensures var r := PathPoints(tokens, parseF64);
      && (r.Ok? <==> |tokens| % 2 == 0 && AllCoordinatesParse(tokens, parseF64))
      && (r.Ok? ==> |r.value| == |tokens| / 2
                    && forall j :: 0 <= j < |r.value| ==>
                         r.value[j] == (parseF64(CoordinateText(tokens[2 * j])).value,
                                        parseF64(CoordinateText(tokens[2 * j + 1])).value))
      && (|tokens| % 2 == 1 && AllCoordinatesParse(tokens, parseF64) ==> r == Err(MissingField("longitude")))
      && r != Err(MissingField("latitude"))
    decreases |tokens|
  {
    if |tokens| >= 2 {
      PathPointsShape(tokens[2..], parseF64);
      var r := PathPoints(tokens, parseF64);
      if AllCoordinatesParse(tokens, parseF64) {
        assert parseF64(CoordinateText(tokens[0])).Some?;
        assert parseF64(CoordinateText(tokens[1])).Some?;
        assert AllCoordinatesParse(tokens[2..], parseF64) by {
          forall i | 0 <= i < |tokens[2..]| ensures parseF64(CoordinateText(tokens[2..][i])).Some? {
            assert tokens[2..][i] == tokens[i + 2];
          }
        }
        if r.Ok? {
          var rest := PathPoints(tokens[2..], parseF64).value;
          forall j | 1 <= j < |r.value|
            ensures r.value[j] == (parseF64(CoordinateText(tokens[2 * j])).value,
                                   parseF64(CoordinateText(tokens[2 * j + 1])).value)
          {
            assert r.value[j] == rest[j - 1];
            assert tokens[2..][2 * (j - 1)] == tokens[2 * j];
            assert tokens[2..][2 * (j - 1) + 1] == tokens[2 * j + 1];
          }
        }
      } else if r.Ok? {
        assert AllCoordinatesParse(tokens[2..], parseF64);
        forall i | 0 <= i < |tokens| ensures parseF64(CoordinateText(tokens[i])).Some? {
          if i >= 2 {
            assert tokens[2..][i - 2] == tokens[i];
          }
        }
      }
    }
  }

  /** The outer list has one inner list per input string, in input order. */
  lemma {:induction false} ParsePathsShape(paths: seq<JsonScalar>, parseF64: string -> Option<real>)
    ensures var r := ParsePaths(paths, parseF64);
      && (r.Ok? <==> forall i :: 0 <= i < |paths| ==> paths[i].JStr? && ParsePath(paths[i].s, parseF64).Ok?)
      && (r.Ok? ==> |r.value| == |paths|
                    && forall i :: 0 <= i < |paths| ==> r.value[i] == ParsePath(paths[i].s, parseF64).value)
    decreases |paths|
  {
    if |paths| > 0 {
      ParsePathsShape(paths[1..], parseF64);
      var r := ParsePaths(paths, parseF64);
      if r.Ok? {
        forall i | 1 <= i < |paths|
          ensures paths[i].JStr? && ParsePath(paths[i].s, parseF64).Ok?
          ensures r.value[i] == ParsePath(paths[i].s, parseF64).value
        {
          assert paths[1..][i - 1] == paths[i];
        }
      }
    }
  }

  /** The coordinate text is the longest prefix of the token without a `,`. */
  lemma CoordinateTextIsPrefix(token: string)
    ensures var t := CoordinateText(token);
      && ',' !in t && t <= token
      && (|t| < |token| ==> token[|t|] == ',')
  {
    var parts := Split(token, ',');
    JoinSplit(token, ',');
    if |parts| > 1 {
      assert Join(parts, ',') == parts[0] + [','] + Join(parts[1..], ',');
    }
  }

  /** A coordinate as the service writes it: no space and no comma. */
  predicate IsCoordinateText(t: string) {
    ' ' !in t && ',' !in t
  }

  /** The tokens of a path written as `lat, lon lat, lon ...`: each latitude
      followed by a comma, then its longitude. */
  function PathTokens(coords: seq<(string, string)>): (r: seq<string>)
    ensures |r| == 2 * |coords|
    ensures forall j :: 0 <= j < |coords| ==> r[2 * j] == coords[j].0 + "," && r[2 * j + 1] == coords[j].1
    decreases |coords|
  {
    if |coords| == 0 then []
    else
      var rest := PathTokens(coords[1..]);
      var r := [coords[0].0 + ",", coords[0].1] + rest;
      assert forall j :: 1 <= j < |coords| ==> r[2 * j] == rest[2 * (j - 1)] && coords[1..][j - 1] == coords[j];
      r
  }

  lemma PathTokenTexts(coords: seq<(string, string)>)
    requires forall j :: 0 <= j < |coords| ==> IsCoordinateText(coords[j].0) && IsCoordinateText(coords[j].1)
    ensures var tokens := PathTokens(coords);
      forall j :: 0 <= j < |coords| ==>
        CoordinateText(tokens[2 * j]) == coords[j].0 && CoordinateText(tokens[2 * j + 1]) == coords[j].1
  {
    var tokens := PathTokens(coords);
    forall j | 0 <= j < |coords|
      ensures CoordinateText(tokens[2 * j]) == coords[j].0 && CoordinateText(tokens[2 * j + 1]) == coords[j].1
    {
      assert tokens[2 * j] == coords[j].0 + [','] + "";
      SplitAtFirst(coords[j].0, ',', "");
      SplitWithout(coords[j].1, ',');
    }
  }

  lemma {:induction false} PathTokensParse(coords: seq<(string, string)>, parseF64: string -> Option<real>)
    requires forall j :: 0 <= j < |coords| ==> IsCoordinateText(coords[j].0) && IsCoordinateText(coords[j].1)
    requires forall j :: 0 <= j < |coords| ==> parseF64(coords[j].0).Some? && parseF64(coords[j].1).Some?
    ensures forall i :: 0 <= i < |PathTokens(coords)| ==> ' ' !in PathTokens(coords)[i]
    ensures AllCoordinatesParse(PathTokens(coords), parseF64)
    decreases |coords|
  {
    if |coords| > 0 {
      var rest := coords[1..];
      assert forall j :: 0 <= j < |rest| ==> rest[j] == coords[j + 1];
      PathTokensParse(rest, parseF64);
      var lat, lon := coords[0].0, coords[0].1;
      assert lat + "," == lat + [','] + "";
      SplitAtFirst(lat, ',', "");
      SplitWithout(lon, ',');
      var tokens := PathTokens(coords);
      var tail := PathTokens(rest);
      assert tokens == [lat + ",", lon] + tail;
      forall i | 2 <= i < |tokens|
        ensures ' ' !in tokens[i] && parseF64(CoordinateText(tokens[i])).Some?
      {
        assert tokens[i] == tail[i - 2];
      }
    }
  }

  /** A path written in the service's format decodes to its points, in
      order, when every coordinate parses. */
  lemma PathRoundTrip(coords: seq<(string, string)>, parseF64: string -> Option<real>)
    requires 1 <= |coords|
    requires forall j :: 0 <= j < |coords| ==> IsCoordinateText(coords[j].0) && IsCoordinateText(coords[j].1)
    requires forall j :: 0 <= j < |coords| ==> parseF64(coords[j].0).Some? && parseF64(coords[j].1).Some?
    ensures var r := ParsePath(Join(PathTokens(coords), ' '), parseF64);
      && r.Ok? && |r.value| == |coords|
      && forall j :: 0 <= j < |coords| ==> r.value[j] == (parseF64(coords[j].0).value, parseF64(coords[j].1).value)
  {
    var tokens := PathTokens(coords);
    PathTokensParse(coords, parseF64);
    SplitJoin(tokens, ' ');
    PathPointsShape(tokens, parseF64);
    var r := PathPoints(tokens, parseF64);
    PathTokenTexts(coords);
    forall j | 0 <= j < |coords|
      ensures r.value[j] == (parseF64(coords[j].0).value, parseF64(coords[j].1).value)
    {
      assert CoordinateText(tokens[2 * j]) == coords[j].0;
    }
  }

  /** A trailing space leaves an empty last token, and `f64` rejects the
      empty string, so the whole path fails to decode. */
  lemma TrailingSpaceFails(path: string, parseF64: string -> Option<real>)
    requires parseF64("") == None
    ensures ParsePath(path + " ", parseF64).Err?
  {
    var tokens := Split(path + " ", ' ');
    SplitTrailingSeparator(path, ' ');
    assert tokens[|tokens| - 1] == "";
    assert CoordinateText("") == "";
    PathPointsShape(tokens, parseF64);
  }

  /* ================= de_string_as_i32 ================= */

  /** What the visitor of `de_string_as_i32` expects, as its `expecting`
      writes it. */
  const StringI32Expecting := "a string representing an integer"

  /** `de_string_as_i32` as written: it asks serde_json for an `i32`. serde_json
      answers `deserialize_i32` by reading a number, and refuses any other
      JSON type as an invalid type before the visitor is asked; a number is
      handed to `visit_i64` or `visit_u64`, which the visitor leaves at
      serde's refusing defaults. Only `visit_str` is implemented, and this
      path never calls it, so every value is refused. */
  function DeStringAsI32(v: JsonValue): (r: Result<int32, DeError>)
    ensures r == Err(InvalidType(StringI32Expecting))
  {
    match v
    case Scalar(JInt(_)) => VisitNumberDefault()
    case _ => Err(InvalidType(StringI32Expecting))
  }

  /** serde's default `visit_i64` / `visit_u64`: the value is of the wrong type
      for this visitor. */
  function VisitNumberDefault(): Result<int32, DeError> {
    Err(InvalidType(StringI32Expecting))
  }

  /** The visitor reached the way its `expecting` text and its one
      `visit_str` method intend (through `deserialize_str` or
      `deserialize_any`): a string is parsed with `i32::from_str` and a
      parse error becomes a custom error with its `Display` text; every other
      JSON type is refused. */
  function IntendedDeStringAsI32(v: JsonValue): (r: Result<int32, DeError>)
    ensures !(v.Scalar? && v.v.JStr?) ==> r == Err(InvalidType(StringI32Expecting))
  {
    match v
    case Scalar(JStr(s)) =>
      (match ParseI32(s)
       case Ok(n) => Ok(n)
       case Err(k) => Err(Custom(ErrorDisplay(k))))
    case _ => Err(InvalidType(StringI32Expecting))
  }

  /** The intended decoder succeeds exactly on strings holding an in-range
      32-bit literal, with its value. */
  lemma IntendedDeStringAsI32Accepts(v: JsonValue)
    ensures IntendedDeStringAsI32(v).Ok? <==>
              v.Scalar? && v.v.JStr? && IsLiteral(v.v.s) && InI32(LiteralValue(v.v.s))
    ensures IntendedDeStringAsI32(v).Ok? ==> IntendedDeStringAsI32(v).value == LiteralValue(v.v.s)
  {
    if v.Scalar? && v.v.JStr? {
      ParseI32Accepts(v.v.s);
    }
  }

  /** As written, the decoder refuses the very strings it was written for:
      every 32-bit integer, written as a JSON string, is refused, where the
      intended decoder reads it back. */
  lemma DeStringAsI32RefusesStrings(n: int32)
    ensures DeStringAsI32(Scalar(JStr(IntToString(n)))).Err?
    ensures IntendedDeStringAsI32(Scalar(JStr(IntToString(n)))) == Ok(n)
  {
    ParseIntToString(n);
  }
}
