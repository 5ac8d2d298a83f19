/** The JSON values the query encoder sees after `serde_json::to_value`, and
    their text form as `serde_json::Value::to_string` writes it (compact, with
    serde_json's string escaping). Only the shapes the option structs can
    produce are modelled: null, integers, booleans, strings, and arrays of
    those. */
module Json {
  import opened Outcomes
  import opened Text

  datatype JsonScalar = JNull | JBool(b: bool) | JInt(n: int) | JStr(s: string)

  datatype JsonValue = Scalar(v: JsonScalar) | Array(elems: seq<JsonScalar>)

  /* ---------- string escaping ---------- */

  /** A character serde_json writes through unchanged inside a string. */
  predicate Plain(c: char) {
    c != '"' && c != '\\' && c >= ' '
  }

  /** serde_json's escape for one character: the two-character forms for the
      quote, the backslash and five control characters, `\u00xx` (lower-case
      hex) for the other control characters, the character itself otherwise. */
  function EscapeChar(c: char): (r: string)
    ensures 1 <= |r|
    ensures Plain(c) <==> r == [c]
    ensures !Plain(c) ==> r[0] == '\\'
  {
    if c == '"' then "\\\""
    else if c == '\\' then "\\\\"
    else if c == '\U{0008}' then "\\b"
    else if c == '\t' then "\\t"
    else if c == '\n' then "\\n"
    else if c == '\U{000C}' then "\\f"
    else if c == '\r' then "\\r"
    else if c < ' ' then "\\u00" + [HexDigit(c as int / 16), HexDigit(c as int % 16)]
    else [c]
  }

  function Escape(s: string): string
    decreases |s|
  {
    if |s| == 0 then "" else EscapeChar(s[0]) + Escape(s[1..])
  }

  /** `Value::to_string` of a scalar. */
  function Render(v: JsonScalar): string {
    match v
    case JNull => "null"
    case JBool(b) => if b then "true" else "false"
    case JInt(n) => IntToString(n)
    case JStr(s) => "\"" + Escape(s) + "\""
  }

  /* ---------- the inverse: reading a JSON string body back ---------- */

  predicate IsHex(c: char) {
    IsDigit(c) || 'a' <= c <= 'f' || 'A' <= c <= 'F'
  }

  function AnyHexValue(c: char): (d: nat)
    requires IsHex(c)
    ensures d < 16
  {
    if IsDigit(c) then c as int - '0' as int
    else if 'a' <= c <= 'f' then c as int - 'a' as int + 10
    else c as int - 'A' as int + 10
  }

  /** Decodes the text between the quotes of a JSON string (RFC 8259,
      section 7), without surrogate-pair escapes. An unescaped quote or
      control character, or a malformed escape, gives `None`. */
  function Unescape(s: string): Option<string>
    decreases |s|
  {
    if |s| == 0 then Some("")
    else if s[0] != '\\' then
      if !Plain(s[0]) then None
      else match Unescape(s[1..])
        case Some(t) => Some([s[0]] + t)
        case None => None
    else if |s| < 2 then None
    else
      var e := s[1];
      var simple :=
        if e == '"' then Some('"')
        else if e == '\\' then Some('\\')
        else if e == '/' then Some('/')
        else if e == 'b' then Some('\U{0008}')
        else if e == 'f' then Some('\U{000C}')
        else if e == 'n' then Some('\n')
        else if e == 'r' then Some('\r')
        else if e == 't' then Some('\t')
        else None;
      if simple.Some? then
        match Unescape(s[2..])
        case Some(t) => Some([simple.value] + t)
        case None => None
      else if e == 'u' && |s| >= 6 && IsHex(s[2]) && IsHex(s[3]) && IsHex(s[4]) && IsHex(s[5]) then
        var code := ((AnyHexValue(s[2]) * 16 + AnyHexValue(s[3])) * 16 + AnyHexValue(s[4])) * 16
                    + AnyHexValue(s[5]);
        if 0xD800 <= code < 0xE000 then None
        else match Unescape(s[6..])
          case Some(t) => Some([code as char] + t)
          case None => None
      else None
  }

  lemma UnescapeAfterControl(c: char, t: string)
    requires c < ' ' && c != '\U{0008}' && c != '\t' && c != '\n' && c != '\U{000C}' && c != '\r'
    ensures Unescape(EscapeChar(c) + t) ==
            match Unescape(t) case Some(u) => Some([c] + u) case None => None
  {
    var s := EscapeChar(c) + t;
    var hi, lo := c as int / 16, c as int % 16;
    assert s == "\\u00" + [HexDigit(hi), HexDigit(lo)] + t;
    assert s[6..] == t;
    assert AnyHexValue(s[4]) == hi && AnyHexValue(s[5]) == lo;
  }

  lemma UnescapeAfterChar(c: char, t: string)
    ensures Unescape(EscapeChar(c) + t) ==
            match Unescape(t) case Some(u) => Some([c] + u) case None => None
  {
    var s := EscapeChar(c) + t;
    if Plain(c) {
      assert s[1..] == t;
    } else if c < ' ' && c != '\U{0008}' && c != '\t' && c != '\n' && c != '\U{000C}' && c != '\r' {
      UnescapeAfterControl(c, t);
    } else {
      assert s[2..] == t;
    }
  }

  /** Reading back what serde_json wrote recovers the string. */
  lemma {:induction false} UnescapeEscape(s: string)
    ensures Unescape(Escape(s)) == Some(s)
    decreases |s|
  {
    if |s| > 0 {
      assert Escape(s) == EscapeChar(s[0]) + Escape(s[1..]);
      UnescapeEscape(s[1..]);
      UnescapeAfterChar(s[0], Escape(s[1..]));
      assert [s[0]] + s[1..] == s;
    }
  }

  /** Escaping leaves strings of plain characters unchanged. */
  lemma {:induction false} EscapePlain(s: string)
    requires forall i :: 0 <= i < |s| ==> Plain(s[i])
    ensures Escape(s) == s
    decreases |s|
  {
    if |s| > 0 {
      EscapePlain(s[1..]);
      assert [s[0]] + s[1..] == s;
    }
  }

  /** The escaped text never starts with a quote, and ends with one exactly
      when the original ends with a quote (escaped as a backslash-quote). */
  lemma {:induction false} EscapeEnds(s: string)
    ensures |Escape(s)| >= |s|
    ensures |s| > 0 ==> Escape(s)[0] != '"'
    ensures |s| > 0 ==> (Escape(s)[|Escape(s)| - 1] == '"' <==> s[|s| - 1] == '"')
    decreases |s|
  {
    if |s| > 0 {
      EscapeEnds(s[1..]);
      if |s| == 1 {
        assert Escape(s) == EscapeChar(s[0]);
      } else {
        assert s[1..][|s[1..]| - 1] == s[|s| - 1];
      }
    }
  }
}
