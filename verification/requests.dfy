/** `Client::rq` in `src/core.rs`, up to the network: the developer id is
    added to the path as the last query parameter, the augmented path is
    signed with HMAC-SHA1 under the developer key, and the signature is
    appended to the URL. After the request, the response status and the
    decoded body decide between a value and an error. */
module Requests {
  import opened Outcomes
  import opened Text
  import opened Encoding

  /** `API_URL`: the origin every request goes to. */
  const ApiUrl: string := "https://timetableapi.ptv.vic.gov.au"

  /* ---------- the augmented path ---------- */

  predicate EndsWithQuestionMark(path: string) {
    |path| > 0 && path[|path| - 1] == '?'
  }

  /** What comes between the path and `devid=`: a `?` to start a query, no
      character after a trailing `?`, and `&` to add to an existing query. */
  function Separator(path: string): (sep: string)
    ensures |sep| <= 1
    ensures sep == "" <==> '?' in path && EndsWithQuestionMark(path)
  {
    if '?' !in path then "?" else if EndsWithQuestionMark(path) then "" else "&"
  }

  /** The path `rq` signs and requests: `/`, the path, the separator, then
      the developer id as the parameter `devid`. */
  function AugmentPath(path: string, devid: string): (aug: string)
    ensures |path| + 7 + |devid| <= |aug| <= |path| + 8 + |devid|
    ensures aug[0] == '/'
    ensures aug[1..|path| + 1] == path
    ensures aug[|aug| - |devid| - 6..] == "devid=" + devid
  {
    "/" + path + Separator(path) + "devid=" + devid
  }

  /** The augmented path always has a query. */
  lemma AugmentedHasQuery(path: string, devid: string)
    ensures '?' in AugmentPath(path, devid)
  {
    var aug := AugmentPath(path, devid);
    if '?' in path {
      var i := FirstIndex(path, '?');
      assert aug[1 + i] == path[i];
    } else {
      assert aug[|path| + 1] == '?';
    }
  }

  /** The three separator cases, spelled out. */
  lemma AugmentPathCases(path: string, devid: string)
    ensures '?' !in path ==> AugmentPath(path, devid) == "/" + path + "?devid=" + devid
    ensures '?' in path && EndsWithQuestionMark(path) ==> AugmentPath(path, devid) == "/" + path + "devid=" + devid
    ensures '?' in path && !EndsWithQuestionMark(path) ==> AugmentPath(path, devid) == "/" + path + "&devid=" + devid
  {
  }

  /* ---------- the query the server reads ---------- */

  /** The query part of a path: everything after its first `?`. */
  function QueryOf(path: string): string {
    var i := FirstIndex(path, '?');
    if i < |path| then path[i + 1..] else ""
  }

  /** The parameters of a path's query: none for an empty query, otherwise
      the `&`-separated pieces. */
  function Params(path: string): seq<string> {
    if QueryOf(path) == "" then [] else Split(QueryOf(path), '&')
  }

  /** Text after a `?` lands in the query. */
  lemma QueryOfAppend(x: string, y: string)
    requires '?' in x
    ensures QueryOf(x + y) == QueryOf(x) + y
  {
    var i := FirstIndex(x, '?');
    FirstIndexConcat(x, y, '?');
    QueryOfAt(x, i);
    QueryOfAt(x + y, i);
    SuffixOfConcat(x, y, i + 1);
  }

  lemma QueryOfAt(s: string, i: nat)
    requires i < |s| && FirstIndex(s, '?') == i
    ensures QueryOf(s) == s[i + 1..]
  {
  }

  lemma SuffixOfConcat(x: string, y: string, k: nat)
    requires k <= |x|
    ensures (x + y)[k..] == x[k..] + y
  {
  }

  /** Text before the first `?` does not. */
  lemma QueryOfAfter(x: string, y: string)
    requires '?' !in x
    ensures QueryOf(x + y) == QueryOf(y)
  {
    var i := FirstIndex(y, '?');
    assert FirstIndex(x + y, '?') == |x| + i by {
      FirstIndexConcat(x, y, '?');
    }
    if i < |y| {
      assert (x + y)[|x| + i + 1..] == y[i + 1..];
    }
  }

  lemma QueryOfPrefixed(path: string, sep: string, rest: string)
    requires '?' in path
    ensures QueryOf("/" + path + sep + rest) == QueryOf(path) + sep + rest
  {
    QueryOfAfter("/", path);
    QueryOfAppend("/" + path, sep);
    QueryOfAppend("/" + path + sep, rest);
  }

  lemma QueryOfFresh(path: string, rest: string)
    requires '?' !in path && '?' !in rest
    ensures QueryOf("/" + path + "?" + rest) == rest
  {
    assert '?' !in "/" + path;
    QueryOfAfter("/" + path, "?" + rest);
    assert "/" + path + "?" + rest == ("/" + path) + ("?" + rest);
    assert FirstIndex("?" + rest, '?') == 0;
  }

  /** A query that is empty is one whose first `?` ends the path. */
  lemma EmptyQuery(path: string)
    requires '?' in path
    ensures QueryOf(path) == "" <==> FirstIndex(path, '?') == |path| - 1
  {
  }

  /** The augmented path with the developer id parameter as one piece. */
  lemma AugmentPathShape(path: string, devid: string)
    ensures AugmentPath(path, devid) == "/" + path + Separator(path) + ("devid=" + devid)
  {
  }

  /** The parameters of `/path` + `sep` + `d`, when `sep` keeps `d` a
      parameter of its own. */
  lemma ParamsAfterSeparator(path: string, sep: string, d: string)
    requires '?' !in d && '&' !in d && d != ""
    requires sep == "?" ==> '?' !in path
    requires sep == "" ==> '?' in path && QueryOf(path) == ""
    requires sep == "&" ==> '?' in path && QueryOf(path) != ""
    requires sep == "?" || sep == "" || sep == "&"
    ensures Params("/" + path + sep + d) == Params(path) + [d]
  {
    SplitWithout(d, '&');
    if sep == "?" {
      QueryOfFresh(path, d);
    } else if sep == "" {
      QueryOfPrefixed(path, "", d);
      assert QueryOf(path) + "" + d == d;
    } else {
      QueryOfPrefixed(path, "&", d);
      var q := QueryOf(path);
      SplitConcat(q, '&', d);
      assert q + "&" + d == q + ['&'] + d;
    }
  }

  /** When the path has no query, or a non-empty one that does not end in
      `?`, the developer id becomes one more parameter after the path's own
      parameters, which are left as they were. */
  lemma DevidIsLastParam(path: string, devid: string)
    requires '?' !in devid && '&' !in devid
    requires '?' in path && EndsWithQuestionMark(path) ==> QueryOf(path) == ""
    ensures Params(AugmentPath(path, devid)) == Params(path) + ["devid=" + devid]
  {
    AugmentPathShape(path, devid);
    if '?' in path && !EndsWithQuestionMark(path) {
      EmptyQuery(path);
    }
    ParamsAfterSeparator(path, Separator(path), "devid=" + devid);
  }

  /** A path whose query is non-empty but ends in `?` (a value ending in `?`
      is not escaped) gets no separator: the developer id is glued onto the
      last parameter and is no parameter of its own. */
  lemma DevidSwallowed(base: string, param: string, devid: string)
    requires '?' !in base && '?' !in param && '&' !in param
    requires '?' !in devid && '&' !in devid
    ensures var path := base + "?" + param + "?";
      Params(AugmentPath(path, devid)) == [param + "?" + ("devid=" + devid)]
      && "devid=" + devid !in Params(AugmentPath(path, devid))
  {
    var path := base + "?" + param + "?";
    var d := "devid=" + devid;
    var q := param + "?" + d;
    assert QueryOf(AugmentPath(path, devid)) == q by {
      TrailingQueryOf(base, param);
      AugmentPathShape(path, devid);
      QueryOfPrefixed(path, "", d);
      assert param + "?" + "" + d == q;
    }
    assert Split(q, '&') == [q] by {
      SplitWithout(q, '&');
    }
    assert Params(AugmentPath(path, devid)) == [q];
    assert |q| > |d|;
  }

  /** The query of `base?param?` is `param?`. */
  lemma TrailingQueryOf(base: string, param: string)
    requires '?' !in base
    ensures var path := base + "?" + param + "?";
      '?' in path && EndsWithQuestionMark(path) && QueryOf(path) == param + "?"
  {
    var path := base + "?" + param + "?";
    assert path == base + ("?" + param + "?");
    QueryOfAfter(base, "?" + param + "?");
    assert ("?" + param + "?")[1..] == param + "?";
    assert path[|path| - 1] == '?';
  }

  /** The separator as intended: nothing only after a `?` that starts an
      empty query. */
  function IntendedSeparator(path: string): string {
    if '?' !in path then "?" else if QueryOf(path) == "" then "" else "&"
  }

  function IntendedAugmentPath(path: string, devid: string): (aug: string)
    ensures |aug| >= |path| + 1 && aug[0] == '/' && aug[1..|path| + 1] == path
  {
    "/" + path + IntendedSeparator(path) + ("devid=" + devid)
  }

  /** With the intended separator the developer id is always a parameter of
      its own, after the path's own parameters. */
  lemma IntendedDevidIsLastParam(path: string, devid: string)
    requires '?' !in devid && '&' !in devid
    ensures Params(IntendedAugmentPath(path, devid)) == Params(path) + ["devid=" + devid]
  {
    ParamsAfterSeparator(path, IntendedSeparator(path), "devid=" + devid);
  }

  /** Both separators agree on every path but those whose non-empty query
      ends in `?`. */
  lemma IntendedAgrees(path: string, devid: string)
    requires '?' in path && EndsWithQuestionMark(path) ==> QueryOf(path) == ""
    ensures IntendedAugmentPath(path, devid) == AugmentPath(path, devid)
  {
    AugmentPathShape(path, devid);
    if '?' in path && !EndsWithQuestionMark(path) {
      EmptyQuery(path);
    }
  }

  /* ---------- signing ---------- */

  /** An HMAC-SHA1 digest: 20 bytes. */
  type Digest = d: seq<byte> | |d| == 20
    witness [0, 0, 0, 0, 0, 0, 0, 0, 0, 0, 0, 0, 0, 0, 0, 0, 0, 0, 0, 0]

  /** The signature of the augmented path: the hex digest of HMAC-SHA1 keyed
      with the developer key's bytes over the path's bytes. */
  function Signature(aug: string, key: string, hmac: (seq<byte>, seq<byte>) -> Digest): (sig: string)
    ensures |sig| == 40
    ensures forall i :: 0 <= i < |sig| ==> IsLowerHex(sig[i])
  {
    HexEncode(hmac(Utf8(key), Utf8(aug)))
  }

  /** How a server takes a signed URL apart: the origin, the signed path,
      and the 40-character signature after `&signature=`. */
  function SplitSignedUrl(url: string): Option<(string, string)> {
    if |url| >= |ApiUrl| + 51 && url[..|ApiUrl|] == ApiUrl && url[|url| - 51..|url| - 40] == "&signature="
    then Some((url[|ApiUrl|..|url| - 51], url[|url| - 40..]))
    else None
  }

  /** Any path joined to the origin and a 40-character signature splits back
      into the two. */
  lemma SplitJoined(aug: string, sig: string)
    requires |sig| == 40
    ensures SplitSignedUrl(ApiUrl + aug + "&signature=" + sig) == Some((aug, sig))
  {
    var url := ApiUrl + aug + "&signature=" + sig;
    assert url[..|ApiUrl|] == ApiUrl;
    assert url[|ApiUrl|..|url| - 51] == aug;
    assert url[|url| - 51..|url| - 40] == "&signature=";
    assert url[|url| - 40..] == sig;
  }

  /** The URL `rq` requests for `path`. The signed bytes are exactly the
      augmented path: neither the origin nor the signature is covered, and
      the URL splits back into the two. */
  function SignedUrl(path: string, devid: string, key: string, hmac: (seq<byte>, seq<byte>) -> Digest): (url: string)
    ensures |url| == |ApiUrl| + |AugmentPath(path, devid)| + 51
    ensures SplitSignedUrl(url)
         == Some((AugmentPath(path, devid), Signature(AugmentPath(path, devid), key, hmac)))
  {
    var aug := AugmentPath(path, devid);
    var sig := Signature(aug, key, hmac);
    SplitJoined(aug, sig);
    ApiUrl + aug + "&signature=" + sig
  }

  /** A server holding the developer key accepts the URL when the signature
      is the digest of exactly the signed path. */
  predicate Verifies(url: string, key: string, hmac: (seq<byte>, seq<byte>) -> Digest) {
    match SplitSignedUrl(url)
    case None => false
    case Some((aug, sig)) => HexDecode(sig) == Some(hmac(Utf8(key), Utf8(aug)))
  }

  /** Every URL `rq` builds passes the server's check. */
  lemma SignedUrlVerifies(path: string, devid: string, key: string, hmac: (seq<byte>, seq<byte>) -> Digest)
    ensures Verifies(SignedUrl(path, devid, key, hmac), key, hmac)
  {
    HexRoundTrip(hmac(Utf8(key), Utf8(AugmentPath(path, devid))));
  }

  /* ---------- classifying the response ---------- */

  /** An HTTP status code, as `http::StatusCode` holds it. */
  type StatusCode = n: int | 100 <= n < 1000 witness 200

  predicate IsSuccess(status: StatusCode) {
    200 <= status < 300
  }

  /** `Display` of a status code: the number, a space, and the canonical
      reason phrase, or `<unknown status code>` when there is none. */
  function StatusText(status: StatusCode, reason: StatusCode -> Option<string>): string {
    IntToString(status) + " "
    + (match reason(status)
       case Some(phrase) => phrase
       case None => "<unknown status code>")
  }

  /** Why a request failed: the server's status (with its message when the
      error body decodes), or a success body that does not decode. */
  datatype RequestError = Failed(message: string) | UndecodableBody

  const FailedPrefix: string := "Request failed: "

  /** The end of `rq`: a non-success status is an error whose message names
      the status and, when the body decodes as an API error, its message; a
      success status yields the decoded body. */
  function Classify<T>(status: StatusCode, body: Option<T>, envelope: Option<string>,
                       reason: StatusCode -> Option<string>): (r: Result<T, RequestError>)
    ensures !IsSuccess(status) ==> r.Err? && r.error.Failed?
    ensures !IsSuccess(status) && envelope.None? ==> r == Err(Failed(FailedPrefix + StatusText(status, reason)))
    ensures !IsSuccess(status) && envelope.Some? ==>
              r == Err(Failed(FailedPrefix + StatusText(status, reason) + " - " + envelope.value))
    ensures IsSuccess(status) ==> (r.Ok? <==> body.Some?)
    ensures IsSuccess(status) && body.None? ==> r == Err(UndecodableBody)
    ensures r.Ok? ==> r.value == body.value
  {
    if !IsSuccess(status) then
      match envelope
      case Some(message) => Err(Failed(FailedPrefix + StatusText(status, reason) + " - " + message))
      case None => Err(Failed(FailedPrefix + StatusText(status, reason)))
    else
      match body
      case Some(v) => Ok(v)
      case None => Err(UndecodableBody)
  }

  /** Reading a failure message back, knowing the status: `None` when it
      names only the status, the API's message when it carries one. */
  function EnvelopeOf(message: string, status: StatusCode, reason: StatusCode -> Option<string>): Option<string> {
    var head := FailedPrefix + StatusText(status, reason);
    if |message| >= |head| + 3 && message[..|head| + 3] == head + " - " then Some(message[|head| + 3..])
    else None
  }

  /** The two message formats are told apart, and the API's message is
      recovered exactly, whatever it says. */
  lemma FailureMessageRecovers<T>(status: StatusCode, body: Option<T>, envelope: Option<string>,
                                  reason: StatusCode -> Option<string>)
    requires !IsSuccess(status)
    ensures EnvelopeOf(Classify(status, body, envelope, reason).error.message, status, reason) == envelope
  {
    var head := FailedPrefix + StatusText(status, reason);
    var m := Classify(status, body, envelope, reason).error.message;
    match envelope
    case Some(text) =>
      assert m == head + " - " + text;
      assert m[..|head| + 3] == head + " - ";
      assert m[|head| + 3..] == text;
    case None =>
      assert m == head;
  }
}
