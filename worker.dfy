/**
 * Variant resolution and the response rewriting of split-test/worker.js:
 * `getVariant` with its KV store, the `Set-Cookie` and `Vary` headers of
 * `modifyResponse`, and the `cacheKey` of `modifyRequest`.
 */
module Worker {
  import opened Strings
  import opened Optional
  import opened Sampler
  import opened WorkerConfig
  import opened CookieParsing
  import opened Identity

  /**
   * The KV namespace `SPLIT_TESTS`: values by key, and the `expirationTtl`
   * (seconds) each key was last written with. Expiry itself is not modelled.
   */
  class KvNamespace {
    var entries: map<string, string>
    var ttls: map<string, nat>

    constructor ()
      ensures entries == map[] && ttls == map[]
    {
      entries := map[];
      ttls := map[];
    }

    /** `await SPLIT_TESTS.get(key)`: `None` (the source's `null`) for a missing key. */
    function Get(key: string): (r: Option<string>)
      reads this
      ensures r.Some? <==> key in entries
      ensures r.Some? ==> r.value == entries[key]
    {
      if key in entries then Some(entries[key]) else None
    }

    /** `await SPLIT_TESTS.put(key, value, { expirationTtl })` */
    method Put(key: string, value: string, expirationTtl: nat)
      modifies this
      ensures entries == old(entries)[key := value]
      ensures ttls == old(ttls)[key := expirationTtl]
      ensures Get(key) == Some(value)
      ensures forall k :: k != key ==> Get(k) == old(Get(k))
    {
      entries := entries[key := value];
      ttls := ttls[key := expirationTtl];
    }
  }

  predicate HasVariant(variants: seq<Variant>, id: string) {
    exists i :: 0 <= i < |variants| && variants[i].id == id
  }

  /** `variants.find(v => v.id === id)` */
  function FindVariant(variants: seq<Variant>, id: string): (r: Option<Variant>)
    ensures r.Some? <==> HasVariant(variants, id)
    ensures r.Some? ==> r.value.id == id
  {
    if |variants| == 0 then None
    else if variants[0].id == id then Some(variants[0])
    else
      var r := FindVariant(variants[1..], id);
      assert r.Some? ==> HasVariant(variants, id) by {
        if r.Some? {
          var i :| 0 <= i < |variants[1..]| && variants[1..][i].id == id;
          assert variants[i + 1].id == id;
        }
      }
      assert HasVariant(variants, id) ==> HasVariant(variants[1..], id) by {
        if HasVariant(variants, id) {
          var i :| 0 <= i < |variants| && variants[i].id == id;
          assert i > 0 && variants[1..][i - 1].id == id;
        }
      }
      r
  }

  /** `if (x) { const variant = test.variants.find(...); if (variant) ... }`: a truthy value naming a listed variant. */
  predicate Names(test: TestDefinition, x: Option<string>) {
    x.Some? && x.value != "" && HasVariant(test.variants, x.value)
  }

  /** `cookies[test.cookie]` for the `Cookie` header, `''` when the header is absent. */
  function CookieValue(test: TestDefinition, cookieHeader: Option<string>): Option<string> {
    var cookies := Cookies(OrEmpty(cookieHeader));
    if test.cookie in cookies then Some(cookies[test.cookie]) else None
  }

  /** `${test.id}:${clientId}` */
  function KvKey(testId: string, clientId: string): string {
    testId + ":" + clientId
  }

  /** The id `assignVariant(test.variants)` returns for the uniform value `u`. */
  function Drawn(test: TestDefinition, u: real): string
    requires |test.variants| > 0
  {
    test.variants[PickIndex(test.variants, Draw(test.variants, u))].id
  }

  /** The first source, in the order forced parameter, cookie, stored value, that names a listed variant; else the draw. */
  function Resolve(test: TestDefinition, forced: Option<string>, cookie: Option<string>, stored: Option<string>, drawn: string): (r: string)
    ensures r == drawn || (Names(test, Some(r)) && (Some(r) == forced || Some(r) == cookie || Some(r) == stored))
    ensures Names(test, forced) ==> r == forced.value
    ensures !Names(test, forced) && Names(test, cookie) ==> r == cookie.value
    ensures !Names(test, forced) && !Names(test, cookie) && Names(test, stored) ==> r == stored.value
  {
    if Names(test, forced) then forced.value
    else if Names(test, cookie) then cookie.value
    else if Names(test, stored) then stored.value
    else drawn
  }

  /** The resolved variant is always one of the test's variants. */
  lemma ResolveIsListed(test: TestDefinition, forced: Option<string>, cookie: Option<string>, stored: Option<string>, u: real)
    requires |test.variants| > 0
    ensures HasVariant(test.variants, Resolve(test, forced, cookie, stored, Drawn(test, u)))
  {
    var k := PickIndex(test.variants, Draw(test.variants, u));
    assert test.variants[k].id == Drawn(test, u);
  }

  /** A value that names no listed variant, empty or unknown, is skipped as if absent. */
  lemma UnknownFallsThrough(test: TestDefinition, forced: Option<string>, cookie: Option<string>, stored: Option<string>, drawn: string)
    requires !Names(test, forced)
    ensures Resolve(test, forced, cookie, stored, drawn) == Resolve(test, None, cookie, stored, drawn)
    ensures !Names(test, cookie) ==> Resolve(test, forced, cookie, stored, drawn) == Resolve(test, None, None, stored, drawn)
    ensures !Names(test, cookie) && !Names(test, stored) ==> Resolve(test, forced, cookie, stored, drawn) == drawn
  {
  }

  /**
   * Stickiness: once a listed variant is stored, a request without a forced
   * value or cookie that names a listed variant gets it back, whatever it draws.
   */
  lemma StoredVariantSticks(test: TestDefinition, stored: string, forced: Option<string>, cookie: Option<string>, drawn: string)
    requires Names(test, Some(stored))
    requires !Names(test, forced) && !Names(test, cookie)
    ensures Resolve(test, forced, cookie, Some(stored), drawn) == stored
  {
  }

  /** The KV key `${test.id}:${clientId}` of the requesting client, `None` where `getClientId` throws. */
  function ClientKey(test: TestDefinition, ip: Option<string>, userAgent: Option<string>, accept: Option<string>): Option<string> {
    match GetClientId(ip, userAgent, accept)
    case None => None
    case Some(clientId) => Some(KvKey(test.id, clientId))
  }

  /** One `if (x) { const variant = test.variants.find(v => v.id === x); if (variant) return variant.id; }` step. */
  method Lookup(test: TestDefinition, x: Option<string>) returns (r: Option<string>)
    ensures r.Some? <==> Names(test, x)
    ensures r.Some? ==> r.value == x.value
  {
    r := None;
    if x.Some? && x.value != "" {
      var found := FindVariant(test.variants, x.value);
      if found.Some? {
        r := Some(found.value.id);
      }
    }
  }

  /**
   * `getVariant(request, test)`. The KV store is `null` when `useKV` is off
   * or `SPLIT_TESTS` is not bound (the shipped configuration has `useKV:
   * false`). The result is `None` where `getClientId` throws.
   */
  method GetVariant(test: TestDefinition, forced: Option<string>, cookieHeader: Option<string>,
                    ip: Option<string>, userAgent: Option<string>, accept: Option<string>,
                    kv: KvNamespace?, u: real) returns (variant: Option<string>)
    requires |test.variants| > 0
    modifies kv
    ensures variant.None? <==> (kv != null && !Names(test, forced) && !Names(test, CookieValue(test, cookieHeader))
                                && ClientKey(test, ip, userAgent, accept).None?)
    ensures variant.Some? ==> variant.value == Resolve(test, forced, CookieValue(test, cookieHeader),
              if kv == null || ClientKey(test, ip, userAgent, accept).None? then None
              else old(kv.Get(ClientKey(test, ip, userAgent, accept).value)),
              Drawn(test, u))
    ensures kv != null && !Names(test, forced) && !Names(test, CookieValue(test, cookieHeader))
              && ClientKey(test, ip, userAgent, accept).Some?
              && !Names(test, old(kv.Get(ClientKey(test, ip, userAgent, accept).value))) ==>
              kv.entries == old(kv.entries)[ClientKey(test, ip, userAgent, accept).value := variant.value]
              && kv.ttls == old(kv.ttls)[ClientKey(test, ip, userAgent, accept).value := test.durationMs / 1000]
    ensures kv != null && (Names(test, forced) || Names(test, CookieValue(test, cookieHeader))
              || ClientKey(test, ip, userAgent, accept).None?
              || Names(test, old(kv.Get(ClientKey(test, ip, userAgent, accept).value)))) ==>
              unchanged(kv)
  {
    ghost var cookieValue := CookieValue(test, cookieHeader);
    ghost var clientKey := ClientKey(test, ip, userAgent, accept);
    ghost var stored := if kv == null || clientKey.None? then None else kv.Get(clientKey.value);
    var cookies := ParseCookies(OrEmpty(cookieHeader));

    var fromForced := Lookup(test, forced);
    if fromForced.Some? {
      return fromForced;
    }

    var cookieVariant := if test.cookie in cookies then Some(cookies[test.cookie]) else None;
    assert cookieVariant == cookieValue;
    var fromCookie := Lookup(test, cookieVariant);
    if fromCookie.Some? {
      return fromCookie;
    }

    var key := "";
    if kv != null {
      var clientId := GetClientId(ip, userAgent, accept);
      if clientId.None? {
        return None;
      }
      key := KvKey(test.id, clientId.value);
      assert ClientKey(test, ip, userAgent, accept) == Some(key);
      var kvVariant := kv.Get(key);
      assert kvVariant == stored;
      var fromKv := Lookup(test, kvVariant);
      if fromKv.Some? {
        return fromKv;
      }
    }

    var chosen := AssignVariant(test.variants, u);
    assert chosen == Drawn(test, u);

    if kv != null {
      kv.Put(key, chosen, test.durationMs / 1000);
    }

    return Some(chosen);
  }

  /**
   * Two requests from the same client without forced value or cookie: with
   * the KV store, the second gets the variant the first was given.
   */
  method ReturningVisitor(test: TestDefinition, ip: Option<string>, userAgent: Option<string>, accept: Option<string>,
                          kv: KvNamespace, u1: real, u2: real) returns (first: Option<string>, second: Option<string>)
    requires |test.variants| > 0
    requires GetClientId(ip, userAgent, accept).Some?
    requires forall i :: 0 <= i < |test.variants| ==> test.variants[i].id != ""
    modifies kv
    ensures first.Some? && first == second
  {
    assert CookieValue(test, None) == None by {
      NoPairs();
    }
    var key := KvKey(test.id, GetClientId(ip, userAgent, accept).value);
    assert ClientKey(test, ip, userAgent, accept) == Some(key);
    var stored := kv.Get(key);
    first := GetVariant(test, None, None, ip, userAgent, accept, kv, u1);
    ResolveIsListed(test, None, None, stored, u1);
    assert Names(test, kv.Get(key)) by {
      if !Names(test, stored) {
        var k := PickIndex(test.variants, Draw(test.variants, u1));
        assert first.value == test.variants[k].id != "";
      }
    }
    second := GetVariant(test, None, None, ip, userAgent, accept, kv, u2);
  }

  /** The `Set-Cookie` value of `modifyResponse`: the cookie-pair, then `Max-Age` in seconds, `Path`, `SameSite` and `Secure`. */
  function SetCookieHeader(test: TestDefinition, variant: string): (r: string)
    ensures StartsWith(r, test.cookie + "=" + variant + ";")
  {
    var pair := test.cookie + "=" + variant;
    var rest := Join(["Max-Age=" + NatToString(test.durationMs / 1000), "Path=/", "SameSite=Lax", "Secure"], "; ");
    assert (pair + "; " + rest)[..|pair| + 1] == pair + ";";
    Join([pair, "Max-Age=" + NatToString(test.durationMs / 1000),
          "Path=/", "SameSite=Lax", "Secure"], "; ")
  }

  /**
   * After the cookie-pair come `Max-Age` in whole seconds of the test's
   * duration, `Path=/`, `SameSite=Lax` and `Secure`, in this order and
   * nothing else.
   */
  lemma SetCookieAttributes(test: TestDefinition, variant: string)
    requires IsCookieName(test.cookie) && IsCookieValue(variant)
    ensures SetCookieParts(SetCookieHeader(test, variant))
              == [test.cookie + "=" + variant, "Max-Age=" + NatToString(test.durationMs / 1000),
                  "Path=/", "SameSite=Lax", "Secure"]
  {
    PairIsTrimmed(test.cookie, variant);
    var maxAge := "Max-Age=" + NatToString(test.durationMs / 1000);
    assert IsTrimmed(maxAge) && ';' !in maxAge by {
      assert maxAge[|maxAge| - 1] == NatToString(test.durationMs / 1000)[|NatToString(test.durationMs / 1000)| - 1];
    }
    JoinedParts([test.cookie + "=" + variant, maxAge, "Path=/", "SameSite=Lax", "Secure"]);
  }

  /**
   * The round trip: the cookie the browser sends back parses to the variant,
   * so the next request finds it through the cookie.
   */
  lemma SetCookieRoundTrip(test: TestDefinition, variant: string)
    requires IsCookieName(test.cookie) && IsCookieValue(variant)
    ensures Cookies(CookiePair(SetCookieHeader(test, variant))) == map[test.cookie := variant]
    ensures CookieValue(test, Some(CookiePair(SetCookieHeader(test, variant)))) == Some(variant)
  {
    var pair := test.cookie + "=" + variant;
    var rest := Join(["Max-Age=" + NatToString(test.durationMs / 1000), "Path=/", "SameSite=Lax", "Secure"], "; ");
    assert SetCookieHeader(test, variant) == pair + [';'] + (" " + rest);
    SplitAtSeparator(pair, ';', " " + rest);
    PairIsTrimmed(test.cookie, variant);
    SplitWithoutSeparator(pair, ';');
    SinglePair(test.cookie, variant);
  }

  /** The tokens of a `Vary` value: split on `,` and trimmed; none for an absent or empty header. */
  function VaryTokens(vary: string): (tokens: seq<string>)
    ensures forall k :: 0 <= k < |tokens| ==> IsTrimmed(tokens[k]) && ',' !in tokens[k]
  {
    if vary == "" then []
    else
      var parts := Split(vary, ',');
      seq(|parts|, k requires 0 <= k < |parts| => TrimSub(parts[k]))
  }

  /** Trimming a piece without `,` leaves a trimmed piece without `,`. */
  function TrimSub(part: string): (t: string)
    requires ',' !in part
    ensures t == Trim(part) && IsTrimmed(t) && ',' !in t
  {
    TrimWithin(part);
    Trim(part)
  }

  /**
   * The `Vary` value after `modifyResponse`: unchanged when the variant header
   * is already one of its tokens, else the tokens with the header appended,
   * joined by `, `.
   */
  function UpdatedVary(vary: Option<string>, header: string): (r: Option<string>)
    ensures r.Some?
  {
    var tokens := VaryTokens(OrEmpty(vary));
    if header in tokens then vary else Some(Join(tokens + [header], ", "))
  }

  lemma JoinedTokens(tokens: seq<string>)
    requires |tokens| > 0 && tokens[|tokens| - 1] != ""
    requires forall k :: 0 <= k < |tokens| ==> IsTrimmed(tokens[k]) && ',' !in tokens[k]
    ensures Join(tokens, ", ") != ""
    ensures |Split(Join(tokens, ", "), ',')| == |tokens|
    ensures Split(Join(tokens, ", "), ',')[0] == tokens[0]
    ensures forall k :: 1 <= k < |tokens| ==> Split(Join(tokens, ", "), ',')[k] == " " + tokens[k]
  {
    SplitJoined(tokens, ',');
    if |tokens| > 1 {
      assert Join(tokens, ", ") == tokens[0] + ", " + Join(tokens[1..], ", ");
    }
  }

  lemma TokensOfJoin(tokens: seq<string>)
    requires |tokens| > 0 && tokens[|tokens| - 1] != ""
    requires forall k :: 0 <= k < |tokens| ==> IsTrimmed(tokens[k]) && ',' !in tokens[k]
    ensures VaryTokens(Join(tokens, ", ")) == tokens
  {
    var joined := Join(tokens, ", ");
    JoinedTokens(tokens);
    TrimmedPieces(tokens, Split(joined, ','));
  }

  lemma TrimmedPieces(tokens: seq<string>, parts: seq<string>)
    requires |parts| == |tokens| > 0
    requires forall k :: 0 <= k < |tokens| ==> IsTrimmed(tokens[k])
    requires forall k :: 0 <= k < |parts| ==> ',' !in parts[k]
    requires parts[0] == tokens[0]
    requires forall k :: 1 <= k < |tokens| ==> parts[k] == " " + tokens[k]
    ensures seq(|parts|, k requires 0 <= k < |parts| => TrimSub(parts[k])) == tokens
  {
    forall k | 0 <= k < |tokens| ensures TrimSub(parts[k]) == tokens[k] {
      PieceTrims(tokens, parts, k);
    }
  }

  lemma PieceTrims(tokens: seq<string>, parts: seq<string>, k: int)
    requires 0 <= k < |tokens| == |parts|
    requires IsTrimmed(tokens[k])
    requires k == 0 ==> parts[k] == tokens[k]
    requires k > 0 ==> parts[k] == " " + tokens[k]
    ensures Trim(parts[k]) == tokens[k]
  {
    if k == 0 {
      TrimOfTrimmed(tokens[0]);
    } else {
      TrimAfterBlank(tokens[k]);
    }
  }

  /** A header already listed leaves `Vary` exactly as it was. */
  lemma VaryKeptWhenListed(vary: Option<string>, header: string)
    requires header in VaryTokens(OrEmpty(vary))
    ensures UpdatedVary(vary, header) == vary
  {
  }

  /** Otherwise the tokens keep their order and the header is appended once. */
  lemma VaryAppendsOnce(vary: Option<string>, header: string)
    requires header != "" && IsTrimmed(header) && ',' !in header
    requires header !in VaryTokens(OrEmpty(vary))
    ensures UpdatedVary(vary, header).Some?
    ensures VaryTokens(UpdatedVary(vary, header).value) == VaryTokens(OrEmpty(vary)) + [header]
  {
    TokensOfJoin(VaryTokens(OrEmpty(vary)) + [header]);
  }

  /** Updating `Vary` twice is updating it once. */
  lemma VaryIdempotent(vary: Option<string>, header: string)
    requires header != "" && IsTrimmed(header) && ',' !in header
    ensures UpdatedVary(UpdatedVary(vary, header), header) == UpdatedVary(vary, header)
  {
    if header !in VaryTokens(OrEmpty(vary)) {
      VaryAppendsOnce(vary, header);
      var tokens := VaryTokens(OrEmpty(vary)) + [header];
      assert tokens[|tokens| - 1] == header;
    }
  }

  /** The configured variant header `X-AB-Variant` qualifies for the `Vary` lemmas. */
  lemma VariantHeaderIsToken()
    ensures VariantHeader != "" && IsTrimmed(VariantHeader) && ',' !in VariantHeader
  {
  }

  /** `cf.cacheKey` of `modifyRequest`: `${url.pathname}:${test.id}:${variant}` */
  function CacheKey(pathname: string, testId: string, variant: string): (r: string)
    ensures StartsWith(r, pathname + ":")
    ensures |variant| + 1 <= |r| && r[|r| - |variant| - 1..] == ":" + variant
  {
    pathname + ":" + testId + ":" + variant
  }

  /** With test ids and variants free of `:`, the key determines the path, the test and the variant. */
  lemma CacheKeyInjective(p1: string, t1: string, v1: string, p2: string, t2: string, v2: string)
    requires ':' !in t1 && ':' !in v1 && ':' !in t2 && ':' !in v2
    requires CacheKey(p1, t1, v1) == CacheKey(p2, t2, v2)
    ensures p1 == p2 && t1 == t2 && v1 == v2
  {
    assert CacheKey(p1, t1, v1) == (p1 + ":" + t1) + [':'] + v1;
    assert CacheKey(p2, t2, v2) == (p2 + ":" + t2) + [':'] + v2;
    SeparatedTails(p1 + ":" + t1, v1, p2 + ":" + t2, v2, ':');
    assert p1 + ":" + t1 == p1 + [':'] + t1;
    assert p2 + ":" + t2 == p2 + [':'] + t2;
    SeparatedTails(p1, t1, p2, t2, ':');
  }
}
