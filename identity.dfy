/**
 * The client and user identifiers: `getClientId` of split-test/worker.js,
 * `generateClientId` of split-test/test.js and `getUserId` of
 * split-test/worker-advanced.js. Request headers are `Option`s, `None` when
 * the header is absent.
 */
module Identity {
  import opened Strings
  import opened Optional
  import opened Base64
  import opened Hashing
  import opened CookieParsing

  /** `${ip}:${userAgent}:${accept}` */
  function Fingerprint(a: string, b: string, c: string): string {
    a + ":" + b + ":" + c
  }

  /** `.replace(/[^a-zA-Z0-9]/g, '').substring(0, 32)` */
  function ShortId(encoded: string): string {
    Prefix(StripNonAlphanumeric(encoded), 32)
  }

  /** At most 32 characters, all ASCII letters and digits. */
  predicate IsShortId(id: string) {
    |id| <= 32 && forall k :: 0 <= k < |id| ==> IsAlphanumeric(id[k])
  }

  lemma ShortIdShape(encoded: string)
    ensures IsShortId(ShortId(encoded))
  {
    var stripped := StripNonAlphanumeric(encoded);
    assert ShortId(encoded) == Prefix(stripped, 32);
  }

  /**
   * `getClientId(request)`: the fingerprint of the `CF-Connecting-IP`,
   * `User-Agent` and `Accept` headers through `btoa`. It throws (`None`)
   * exactly for a fingerprint with a character above U+00FF; otherwise the
   * id is at most 32 letters and digits.
   */
  function GetClientId(ip: Option<string>, userAgent: Option<string>, accept: Option<string>): (r: Option<string>)
    ensures r.Some? <==> IsLatin1(Fingerprint(OrEmpty(ip), OrEmpty(userAgent), OrEmpty(accept)))
    ensures r.Some? ==> IsShortId(r.value)
  {
    match Btoa(Fingerprint(OrEmpty(ip), OrEmpty(userAgent), OrEmpty(accept)))
    case None => None
    case Some(encoded) =>
      ShortIdShape(encoded);
      Some(ShortId(encoded))
  }

  /** `generateClientId(ip, userAgent, accept)`: the same through the UTF-8 bytes of `Buffer.from`, which never throws. */
  function GenerateClientId(ip: string, userAgent: string, accept: string): (r: string)
    ensures IsShortId(r)
  {
    ShortIdShape(Encode(Utf8Bytes(Fingerprint(ip, userAgent, accept))));
    ShortId(Encode(Utf8Bytes(Fingerprint(ip, userAgent, accept))))
  }

  /** For ASCII headers the worker and the test script derive the same identifier. */
  lemma ClientIdsAgreeOnAscii(ip: string, userAgent: string, accept: string)
    requires IsAscii(Fingerprint(ip, userAgent, accept))
    ensures GetClientId(Some(ip), Some(userAgent), Some(accept)) == Some(GenerateClientId(ip, userAgent, accept))
  {
    AsciiBytesAgree(Fingerprint(ip, userAgent, accept));
  }

  lemma {:induction false} StripAppend(x: string, y: string)
    ensures StripNonAlphanumeric(x + y) == StripNonAlphanumeric(x) + StripNonAlphanumeric(y)
  {
    if |x| > 0 {
      assert (x + y)[0] == x[0] && (x + y)[1..] == x[1..] + y;
      StripAppend(x[1..], y);
    } else {
      assert x + y == y;
    }
  }

  /**
   * Only the start of the fingerprint counts: once a whole number of byte
   * groups encodes to 32 alphanumerics, the bytes after them do not change
   * the identifier.
   */
  lemma ShortIdIgnoresTail(head: seq<Byte>, tail: seq<Byte>)
    requires |head| % 3 == 0 && |StripNonAlphanumeric(Encode(head))| >= 32
    ensures ShortId(Encode(head + tail)) == ShortId(Encode(head))
  {
    EncodeAppend(head, tail);
    StripAppend(Encode(head), Encode(tail));
    var x := StripNonAlphanumeric(Encode(head));
    assert (x + StripNonAlphanumeric(Encode(tail)))[..32] == x[..32];
  }

  /**
   * `getUserId(request)`: the `session_id` cookie, else the `customer_id`
   * cookie, else `hashString` of the `CF-Connecting-IP`, `User-Agent` and
   * `Accept-Language` headers joined by `:`.
   */
  function GetUserId(cookieHeader: Option<string>, ip: Option<string>, userAgent: Option<string>, language: Option<string>): (id: string)
    ensures id != ""
  {
    var cookies := Cookies(OrEmpty(cookieHeader));
    if "session_id" in cookies && cookies["session_id"] != "" then cookies["session_id"]
    else if "customer_id" in cookies && cookies["customer_id"] != "" then cookies["customer_id"]
    else HashText(Fingerprint(OrEmpty(ip), OrEmpty(userAgent), OrEmpty(language)))
  }

  /** A `session_id` cookie decides the identifier, whatever else the request holds. */
  lemma SessionCookieWins(cookieHeader: Option<string>, ip: Option<string>, userAgent: Option<string>, language: Option<string>)
    requires "session_id" in Cookies(OrEmpty(cookieHeader))
    ensures GetUserId(cookieHeader, ip, userAgent, language) == Cookies(OrEmpty(cookieHeader))["session_id"]
  {
    CookiesWellFormed(OrEmpty(cookieHeader), "session_id");
  }

  /** Appending `; session_id=<v>` to any header makes `v` the identifier. */
  lemma AppendedSessionWins(header: string, session: string, ip: Option<string>, userAgent: Option<string>, language: Option<string>)
    requires IsCookieValue(session)
    ensures GetUserId(Some(header + "; " + "session_id" + "=" + session), ip, userAgent, language) == session
  {
    assert IsCookieName("session_id");
    var full := header + "; " + "session_id" + "=" + session;
    AppendPair(header, "session_id", session);
    var cookies := Cookies(full);
    assert "session_id" in cookies && cookies["session_id"] == session;
  }

  /** Without a session cookie, a `customer_id` cookie decides the identifier. */
  lemma CustomerCookieNext(cookieHeader: Option<string>, ip: Option<string>, userAgent: Option<string>, language: Option<string>)
    requires "session_id" !in Cookies(OrEmpty(cookieHeader)) && "customer_id" in Cookies(OrEmpty(cookieHeader))
    ensures GetUserId(cookieHeader, ip, userAgent, language) == Cookies(OrEmpty(cookieHeader))["customer_id"]
  {
    CookiesWellFormed(OrEmpty(cookieHeader), "customer_id");
  }

  /** With neither cookie set by any piece of the header, the identifier is the fingerprint hash. */
  lemma FingerprintLast(header: string, ip: Option<string>, userAgent: Option<string>, language: Option<string>)
    requires forall k :: 0 <= k < |Split(header, ';')| ==>
               !SetsName(SegmentEntry(Split(header, ';')[k]), "session_id")
               && !SetsName(SegmentEntry(Split(header, ';')[k]), "customer_id")
    ensures GetUserId(Some(header), ip, userAgent, language)
              == HashText(Fingerprint(OrEmpty(ip), OrEmpty(userAgent), OrEmpty(language)))
  {
    LastPieceWins(header, Split(header, ';'), "session_id", 0);
    LastPieceWins(header, Split(header, ';'), "customer_id", 0);
  }

  /** Without a `Cookie` header, the identifier is the fingerprint hash. */
  lemma NoCookieHeader(ip: Option<string>, userAgent: Option<string>, language: Option<string>)
    ensures GetUserId(None, ip, userAgent, language)
              == HashText(Fingerprint(OrEmpty(ip), OrEmpty(userAgent), OrEmpty(language)))
  {
    NoSeparators(OrEmpty(None));
  }
}
