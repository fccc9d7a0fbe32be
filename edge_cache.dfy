/**
 * The caching and response rewriting of split-test/worker-advanced.js: the
 * cache keys of `modifyRequestAdvanced` and `fetchWithCache`, the decision
 * of `fetchWithCache` to keep only successful responses, and the `Vary` and
 * `Set-Cookie` headers of `modifyResponseAdvanced`.
 */
module EdgeCache {
  import opened Strings
  import opened Optional
  import opened CookieParsing

  /** `test.cacheTtl || 300`: an absent or zero TTL means five minutes. */
  function CacheTtl(cacheTtl: Option<nat>): (ttl: nat)
    ensures ttl > 0
    ensures cacheTtl.Some? && cacheTtl.value > 0 ==> ttl == cacheTtl.value
    ensures cacheTtl.None? || cacheTtl.value == 0 ==> ttl == 300
  {
    if cacheTtl.Some? && cacheTtl.value != 0 then cacheTtl.value else 300
  }

  /** `${test.id}:${variant}`, the `X-Split-Test` header and the `_ab` parameter. */
  function SplitTestTag(testId: string, variant: string): string {
    testId + ":" + variant
  }

  /** A test id without `:` can be read back from the tag, and so can the variant. */
  lemma SplitTestTagInjective(t1: string, v1: string, t2: string, v2: string)
    requires ':' !in t1 && ':' !in t2
    requires SplitTestTag(t1, v1) == SplitTestTag(t2, v2)
    ensures t1 == t2 && v1 == v2
  {
    assert SplitTestTag(t1, v1) == t1 + [':'] + v1;
    assert SplitTestTag(t2, v2) == t2 + [':'] + v2;
    SeparatedHeads(t1, v1, t2, v2, ':');
  }

  /** `cf.cacheKey` of `modifyRequestAdvanced`: `${test.id}:${variant}:${url.pathname}` */
  function EdgeCacheKey(testId: string, variant: string, pathname: string): string {
    testId + ":" + variant + ":" + pathname
  }

  /** The URL of the cache entry in `fetchWithCache`. */
  function CacheUrl(testId: string, variant: string, pathname: string): string {
    "https://cache.split-test.com/" + testId + "/" + variant + pathname
  }

  /** Same test and path, different variants: different keys and different URLs. */
  lemma KeysSeparateVariants(testId: string, v1: string, v2: string, pathname: string)
    requires v1 != v2
    ensures EdgeCacheKey(testId, v1, pathname) != EdgeCacheKey(testId, v2, pathname)
    ensures CacheUrl(testId, v1, pathname) != CacheUrl(testId, v2, pathname)
  {
    var head := testId + ":";
    var base := "https://cache.split-test.com/" + testId + "/";
    assert EdgeCacheKey(testId, v1, pathname) == head + v1 + (":" + pathname);
    assert EdgeCacheKey(testId, v2, pathname) == head + v2 + (":" + pathname);
    MiddleDiffers(head, v1, v2, ":" + pathname);
    assert CacheUrl(testId, v1, pathname) == base + v1 + pathname;
    assert CacheUrl(testId, v2, pathname) == base + v2 + pathname;
    MiddleDiffers(base, v1, v2, pathname);
  }

  lemma MiddleDiffers(head: string, x: string, y: string, tail: string)
    requires x != y
    ensures head + x + tail != head + y + tail
  {
    if |x| == |y| {
      var k := Mismatch(x, y);
      assert (head + x + tail)[|head| + k] == x[k];
      assert (head + y + tail)[|head| + k] == y[k];
    }
  }

  /** With test ids and variants free of `:`, the edge key determines test, variant and path. */
  lemma EdgeCacheKeyInjective(t1: string, v1: string, p1: string, t2: string, v2: string, p2: string)
    requires ':' !in t1 && ':' !in v1 && ':' !in t2 && ':' !in v2
    requires EdgeCacheKey(t1, v1, p1) == EdgeCacheKey(t2, v2, p2)
    ensures t1 == t2 && v1 == v2 && p1 == p2
  {
    assert EdgeCacheKey(t1, v1, p1) == t1 + [':'] + (v1 + [':'] + p1);
    assert EdgeCacheKey(t2, v2, p2) == t2 + [':'] + (v2 + [':'] + p2);
    SeparatedHeads(t1, v1 + [':'] + p1, t2, v2 + [':'] + p2, ':');
    SeparatedHeads(v1, p1, v2, p2, ':');
  }

  /** With test ids and variants free of `/` and paths starting with `/`, the URL determines all three. */
  lemma CacheUrlInjective(t1: string, v1: string, p1: string, t2: string, v2: string, p2: string)
    requires '/' !in t1 && '/' !in v1 && '/' !in t2 && '/' !in v2
    requires |p1| > 0 && p1[0] == '/' && |p2| > 0 && p2[0] == '/'
    requires CacheUrl(t1, v1, p1) == CacheUrl(t2, v2, p2)
    ensures t1 == t2 && v1 == v2 && p1 == p2
  {
    var base := "https://cache.split-test.com/";
    assert CacheUrl(t1, v1, p1) == base + (t1 + [ '/' ] + (v1 + [ '/' ] + p1[1..]));
    assert CacheUrl(t2, v2, p2) == base + (t2 + [ '/' ] + (v2 + [ '/' ] + p2[1..]));
    var r1 := t1 + ['/'] + (v1 + ['/'] + p1[1..]);
    var r2 := t2 + ['/'] + (v2 + ['/'] + p2[1..]);
    assert r1 == (base + r1)[|base|..] == (base + r2)[|base|..] == r2;
    SeparatedHeads(t1, v1 + ['/'] + p1[1..], t2, v2 + ['/'] + p2[1..], '/');
    SeparatedHeads(v1, p1[1..], v2, p2[1..], '/');
    assert p1 == [p1[0]] + p1[1..] && p2 == [p2[0]] + p2[1..];
  }

  /** A response: its status and its headers. */
  datatype Response = Response(status: int, headers: map<string, string>)

  /** `response.ok` */
  predicate Ok(r: Response) {
    200 <= r.status <= 299
  }

  /** A successful origin response with `Cache-Control: public, max-age=<ttl>` set. */
  function Cacheable(origin: Response, cacheTtl: Option<nat>): Response {
    origin.(headers := origin.headers["Cache-Control" := "public, max-age=" + NatToString(CacheTtl(cacheTtl))])
  }

  /** Every stored response is a successful one. */
  predicate AllOk(entries: map<string, Response>) {
    forall k :: k in entries ==> Ok(entries[k])
  }

  /** `caches.default`, keyed by the cache URL. */
  class Cache {
    var entries: map<string, Response>

    constructor ()
      ensures entries == map[]
    {
      entries := map[];
    }

    /** The cached response for `key`, if there is one (`cache.match`). */
    function Match(key: string): (r: Option<Response>)
      reads this
      ensures r.Some? <==> key in entries
      ensures r.Some? ==> r.value == entries[key]
    {
      if key in entries then Some(entries[key]) else None
    }

    /**
     * `fetchWithCache` as intended: a hit is returned as it is; on a miss the
     * origin's response (`origin`) is returned, and when it is successful it
     * first gets its `Cache-Control` header and is stored.
     */
    method FetchWithCache(key: string, origin: Response, cacheTtl: Option<nat>) returns (response: Response)
      modifies this
      ensures (response, entries) == Fetched(old(entries), key, origin, cacheTtl)
      ensures AllOk(old(entries)) ==> AllOk(entries)
    {
      var cached := Match(key);
      if cached.Some? {
        return cached.value;
      }
      response := origin;
      if Ok(response) {
        var headers := response.headers["Cache-Control" := "public, max-age=" + NatToString(CacheTtl(cacheTtl))];
        response := Response(response.status, headers);
        entries := entries[key := response];
      }
    }
  }

  /** The outcome of one call: the response and the entries afterwards. */
  function Fetched(entries: map<string, Response>, key: string, origin: Response, cacheTtl: Option<nat>): (r: (Response, map<string, Response>))
    ensures r.1.Keys == entries.Keys + (if Ok(origin) then {key} else {})
    ensures forall k :: k in entries ==> r.1[k] == entries[k]
    ensures key in entries ==> r.0 == entries[key]
    ensures key !in entries && !Ok(origin) ==> r.0 == origin
    ensures key !in entries && Ok(origin) ==>
              r.1[key] == r.0 && r.0.status == origin.status
              && "Cache-Control" in r.0.headers
              && r.0.headers["Cache-Control"] == "public, max-age=" + NatToString(CacheTtl(cacheTtl))
  {
    if key in entries then (entries[key], entries)
    else if Ok(origin) then (Cacheable(origin, cacheTtl), entries[key := Cacheable(origin, cacheTtl)])
    else (origin, entries)
  }

  /** A failed origin response is never stored, and a stored one serves every later request for the key. */
  lemma CachedResponseServes(entries: map<string, Response>, key: string, origin: Response, later: Response, cacheTtl: Option<nat>)
    ensures var (r1, after) := Fetched(entries, key, origin, cacheTtl);
            (!Ok(origin) && key !in entries ==> key !in after)
            && (key in after ==> Fetched(after, key, later, cacheTtl) == (r1, after))
            && (AllOk(entries) ==> AllOk(after))
  {
  }

  /**
   * `fetchWithCache` as written: the store of a successful miss goes through
   * `ctx.waitUntil`, and `ctx` is not in scope there, so that call throws a
   * `ReferenceError` (`None`) before anything is stored.
   */
  function FetchedAsWritten(entries: map<string, Response>, key: string, origin: Response, cacheTtl: Option<nat>): (r: Option<(Response, map<string, Response>)>)
    ensures r.None? <==> key !in entries && Ok(origin)
    ensures r.Some? ==> r.value.1 == entries
  {
    if key in entries then Some((entries[key], entries))
    else if Ok(origin) then None
    else Some((origin, entries))
  }

  /** As written, the cache stays empty and every cacheable page request fails. */
  lemma AsWrittenNeverCaches(key: string, origin: Response, cacheTtl: Option<nat>)
    requires Ok(origin)
    ensures FetchedAsWritten(map[], key, origin, cacheTtl).None?
    ensures Fetched(map[], key, origin, cacheTtl).1 == map[key := Cacheable(origin, cacheTtl)]
    ensures forall entries, o: Response :: FetchedAsWritten(entries, key, o, cacheTtl).Some? ==>
              FetchedAsWritten(entries, key, o, cacheTtl).value.1 == entries
  {
  }

  /** The marker `modifyResponseAdvanced` looks for in `Vary`. */
  const SplitTestHeader: string := "X-Split-Test"

  /** The `Vary` value after `modifyResponseAdvanced`: appended unless the text already occurs in it. */
  function AdvancedVary(vary: Option<string>): (r: Option<string>)
    ensures r.Some?
  {
    var v := OrEmpty(vary);
    if Contains(v, SplitTestHeader) then vary
    else Some(if v != "" then v + ", " + SplitTestHeader else SplitTestHeader)
  }

  /** The result always mentions the header, keeps the old value as its start, and a second update changes nothing. */
  lemma AdvancedVaryIdempotent(vary: Option<string>)
    ensures AdvancedVary(vary).Some? && Contains(AdvancedVary(vary).value, SplitTestHeader)
    ensures StartsWith(AdvancedVary(vary).value, OrEmpty(vary))
    ensures AdvancedVary(AdvancedVary(vary)) == AdvancedVary(vary)
  {
    var v := OrEmpty(vary);
    if !Contains(v, SplitTestHeader) {
      var r := AdvancedVary(vary).value;
      var at := |r| - |SplitTestHeader|;
      assert r[at..] == SplitTestHeader;
      assert OccursAt(r, SplitTestHeader, at);
      assert r[..|v|] == v;
    } else {
      assert !Contains("", SplitTestHeader);
      assert v[..|v|] == v;
    }
  }

  /** The check is on text, not on tokens: any header whose name contains `X-Split-Test` suppresses the append. */
  lemma AdvancedVarySubstring(vary: string, rest: string)
    ensures AdvancedVary(Some(vary + SplitTestHeader + rest)) == Some(vary + SplitTestHeader + rest)
  {
    var v := vary + SplitTestHeader + rest;
    assert v[|vary|..|vary| + |SplitTestHeader|] == SplitTestHeader;
    assert OccursAt(v, SplitTestHeader, |vary|);
  }

  /** `test.cookieDuration || 2592000`, in seconds. */
  function CookieMaxAge(cookieDuration: Option<nat>): nat {
    if cookieDuration.Some? && cookieDuration.value != 0 then cookieDuration.value else 2592000
  }

  /** The default lifetime is 30 days. */
  lemma DefaultLifetime()
    ensures CookieMaxAge(None) == 30 * 24 * 60 * 60
    ensures CookieMaxAge(Some(0)) == 30 * 24 * 60 * 60
  {
  }

  /** The `Set-Cookie` value of `modifyResponseAdvanced`. */
  function AdvancedSetCookie(testId: string, variant: string, cookieDuration: Option<nat>): (r: string)
    ensures StartsWith(r, "split_" + testId + "=" + variant + ";")
  {
    var pair := "split_" + testId + "=" + variant;
    var rest := Join(["Max-Age=" + NatToString(CookieMaxAge(cookieDuration)), "Path=/", "SameSite=Lax", "Secure", "HttpOnly"], "; ");
    assert (pair + "; " + rest)[..|pair| + 1] == pair + ";";
    Join([pair, "Max-Age=" + NatToString(CookieMaxAge(cookieDuration)),
          "Path=/", "SameSite=Lax", "Secure", "HttpOnly"], "; ")
  }

  /**
   * After the cookie-pair come `Max-Age` of `cookieDuration || 2592000`,
   * `Path=/`, `SameSite=Lax`, `Secure` and `HttpOnly`, in this order and
   * nothing else.
   */
  lemma AdvancedSetCookieAttributes(testId: string, variant: string, cookieDuration: Option<nat>)
    requires IsCookieName("split_" + testId) && IsCookieValue(variant)
    ensures SetCookieParts(AdvancedSetCookie(testId, variant, cookieDuration))
              == ["split_" + testId + "=" + variant, "Max-Age=" + NatToString(CookieMaxAge(cookieDuration)),
                  "Path=/", "SameSite=Lax", "Secure", "HttpOnly"]
  {
    PairIsTrimmed("split_" + testId, variant);
    var maxAge := "Max-Age=" + NatToString(CookieMaxAge(cookieDuration));
    assert IsTrimmed(maxAge) && ';' !in maxAge by {
      assert maxAge[|maxAge| - 1] == NatToString(CookieMaxAge(cookieDuration))[|NatToString(CookieMaxAge(cookieDuration))| - 1];
    }
    JoinedParts(["split_" + testId + "=" + variant, maxAge, "Path=/", "SameSite=Lax", "Secure", "HttpOnly"]);
  }

  /** The cookie the browser returns carries the variant under `split_<test id>`. */
  lemma AdvancedSetCookieRoundTrip(testId: string, variant: string, cookieDuration: Option<nat>)
    requires IsCookieName("split_" + testId) && IsCookieValue(variant)
    ensures Cookies(CookiePair(AdvancedSetCookie(testId, variant, cookieDuration))) == map["split_" + testId := variant]
  {
    var name := "split_" + testId;
    var pair := name + "=" + variant;
    var rest := Join(["Max-Age=" + NatToString(CookieMaxAge(cookieDuration)), "Path=/", "SameSite=Lax", "Secure", "HttpOnly"], "; ");
    assert AdvancedSetCookie(testId, variant, cookieDuration) == pair + [';'] + (" " + rest);
    SplitAtSeparator(pair, ';', " " + rest);
    PairIsTrimmed(name, variant);
    SplitWithoutSeparator(pair, ';');
    SinglePair(name, variant);
  }
}
