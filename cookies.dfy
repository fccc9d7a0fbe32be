/**
 * `parseCookies(cookieString)`, which appears with the same body in
 * split-test/worker.js, split-test/worker-advanced.js and split-test/test.js:
 * split the `Cookie` header on `;`, trim each piece, split it on `=`, and
 * keep the first two pieces as name and value when both are non-empty.
 * A later piece with the same name overwrites an earlier one.
 */
module CookieParsing {
  import opened Strings
  import opened Optional

  datatype Entry = Entry(name: string, value: string)

  /** What one `;`-separated piece contributes: `const [key, value] = cookie.trim().split('=')`, kept when `key && value`. */
  function SegmentEntry(segment: string): (e: Option<Entry>)
    ensures e.Some? ==> WellFormed(e.value)
  {
    var parts := Split(Trim(segment), '=');
    if parts[0] != "" && |parts| > 1 && parts[1] != "" then Some(Entry(parts[0], parts[1])) else None
  }

  /** Name and value are non-empty and hold no `=`. */
  predicate WellFormed(e: Entry) {
    e.name != "" && e.value != "" && '=' !in e.name && '=' !in e.value
  }

  /** The piece's entry sets the cookie `name`. */
  predicate SetsName(e: Option<Entry>, name: string) {
    e.Some? && e.value.name == name
  }

  /** The cookies after one piece: its entry, when it has one, overwrites the name. */
  function Added(cookies: map<string, string>, e: Option<Entry>): map<string, string> {
    match e
    case Some(entry) => cookies[entry.name := entry.value]
    case None => cookies
  }

  /** The entries of the pieces, in order. */
  function Entries(segments: seq<string>): seq<Option<Entry>> {
    if |segments| == 0 then []
    else Entries(segments[..|segments| - 1]) + [SegmentEntry(segments[|segments| - 1])]
  }

  lemma {:induction false} EntriesIndex(segments: seq<string>)
    ensures |Entries(segments)| == |segments|
    ensures forall k :: 0 <= k < |segments| ==> Entries(segments)[k] == SegmentEntry(segments[k])
  {
    if |segments| > 0 {
      var n := |segments| - 1;
      EntriesIndex(segments[..n]);
      forall k | 0 <= k < n ensures Entries(segments)[k] == SegmentEntry(segments[k]) {
        assert segments[..n][k] == segments[k];
      }
    }
  }

  /** The object the `forEach` fills from the entries, one after the other. */
  function Collect(entries: seq<Option<Entry>>): map<string, string> {
    if |entries| == 0 then map[]
    else Added(Collect(entries[..|entries| - 1]), entries[|entries| - 1])
  }

  /** The cookies of a `Cookie` header. */
  function Cookies(header: string): map<string, string> {
    Collect(Entries(Split(header, ';')))
  }

  /** Every cookie parsed has a non-empty name and value without `=`. */
  lemma CookiesWellFormed(header: string, name: string)
    requires name in Cookies(header)
    ensures name != "" && Cookies(header)[name] != "" && '=' !in name && '=' !in Cookies(header)[name]
  {
    var segments := Split(header, ';');
    EntriesIndex(segments);
    CollectWellFormed(Entries(segments), name);
  }

  lemma {:induction false} CollectWellFormed(entries: seq<Option<Entry>>, name: string)
    requires forall k :: 0 <= k < |entries| && entries[k].Some? ==> WellFormed(entries[k].value)
    requires name in Collect(entries)
    ensures WellFormed(Entry(name, Collect(entries)[name]))
  {
    var n := |entries| - 1;
    var init := entries[..n];
    if !SetsName(entries[n], name) {
      assert forall k :: 0 <= k < |init| && init[k].Some? ==> WellFormed(init[k].value) by {
        forall k | 0 <= k < |init| && init[k].Some? ensures WellFormed(init[k].value) {
          assert init[k] == entries[k];
        }
      }
      CollectWellFormed(init, name);
    }
  }

  /** The body of the `forEach` of `parseCookies`, for one piece. */
  method AddSegment(cookies: map<string, string>, segment: string) returns (next: map<string, string>)
    ensures next == Added(cookies, SegmentEntry(segment))
  {
    next := cookies;
    var parts := Split(Trim(segment), '=');
    var key := parts[0];
    if |parts| > 1 {
      var value := parts[1];
      if key != "" && value != "" {
        next := next[key := value];
      }
    }
  }

  /** `parseCookies(cookieString)` */
  method ParseCookies(cookieString: string) returns (cookies: map<string, string>)
    ensures cookies == Cookies(cookieString)
  {
    var segments := Split(cookieString, ';');
    cookies := map[];
    for i := 0 to |segments|
      invariant cookies == Collect(Entries(segments[..i]))
    {
      assert segments[..i + 1] == segments[..i] + [segments[i]];
      EntriesAppend(segments[..i], segments[i]);
      CollectAppend(Entries(segments[..i]), SegmentEntry(segments[i]));
      cookies := AddSegment(cookies, segments[i]);
    }
    assert segments[..|segments|] == segments;
  }

  lemma EntriesAppend(segments: seq<string>, last: string)
    ensures Entries(segments + [last]) == Entries(segments) + [SegmentEntry(last)]
  {
    assert (segments + [last])[..|segments|] == segments;
  }

  lemma CollectAppend(entries: seq<Option<Entry>>, last: Option<Entry>)
    ensures Collect(entries + [last]) == Added(Collect(entries), last)
  {
    assert (entries + [last])[..|entries|] == entries;
  }

  /** A name is present exactly when some entry sets it. */
  lemma {:induction false} CollectHasName(entries: seq<Option<Entry>>, name: string)
    ensures name in Collect(entries) <==> exists i :: 0 <= i < |entries| && SetsName(entries[i], name)
  {
    if |entries| > 0 {
      var n := |entries| - 1;
      var init := entries[..n];
      CollectHasName(init, name);
      if exists i :: 0 <= i < |entries| && SetsName(entries[i], name) {
        var i :| 0 <= i < |entries| && SetsName(entries[i], name);
        if i < n {
          assert init[i] == entries[i];
        }
      }
      if exists i :: 0 <= i < |init| && SetsName(init[i], name) {
        var i :| 0 <= i < |init| && SetsName(init[i], name);
        assert entries[i] == init[i];
      }
    }
  }

  /** The entry at `i` is the last one that sets `name`. */
  predicate LastSetting(entries: seq<Option<Entry>>, i: nat, name: string)
    requires i < |entries|
  {
    SetsName(entries[i], name) && forall j :: i < j < |entries| ==> !SetsName(entries[j], name)
  }

  /** The value of a present name is the one of the last entry that sets it. */
  lemma {:induction false} CollectLastWins(entries: seq<Option<Entry>>, i: nat, name: string)
    requires i < |entries| && LastSetting(entries, i, name)
    ensures name in Collect(entries) && Collect(entries)[name] == entries[i].value.value
  {
    var n := |entries| - 1;
    var init := entries[..n];
    if i < n {
      assert LastSetting(init, i, name) by {
        forall j | i < j < n ensures !SetsName(init[j], name) {
          assert init[j] == entries[j];
        }
      }
      CollectLastWins(init, i, name);
    }
  }

  /**
   * In terms of the header's pieces: a cookie is present exactly when some
   * piece sets it, and then its value is the one of the last piece that sets it.
   */
  lemma LastPieceWins(header: string, segments: seq<string>, name: string, i: nat)
    requires segments == Split(header, ';') && i < |segments|
    ensures name in Cookies(header) <==>
              exists k :: 0 <= k < |segments| && SetsName(SegmentEntry(segments[k]), name)
    ensures SetsName(SegmentEntry(segments[i]), name)
            && (forall j :: i < j < |segments| ==> !SetsName(SegmentEntry(segments[j]), name)) ==>
              name in Cookies(header) && Cookies(header)[name] == SegmentEntry(segments[i]).value.value
  {
    var es := Entries(segments);
    EntriesIndex(segments);
    CollectHasName(es, name);
    if exists k :: 0 <= k < |es| && SetsName(es[k], name) {
      var k :| 0 <= k < |es| && SetsName(es[k], name);
      assert SetsName(SegmentEntry(segments[k]), name);
    }
    if SetsName(SegmentEntry(segments[i]), name)
       && (forall j :: i < j < |segments| ==> !SetsName(SegmentEntry(segments[j]), name)) {
      assert LastSetting(es, i, name);
      CollectLastWins(es, i, name);
    }
  }

  /** A cookie-name character: a visible ASCII character that is not a separator (RFC 2616 section 2.2, referenced by RFC 6265 section 4.1.1). */
  predicate NameChar(c: char) {
    '!' <= c <= '~' && c != '(' && c != ')' && c != '<' && c != '>' && c != '@' && c != ','
    && c != ';' && c != ':' && c != '\\' && c != '"' && c != '/' && c != '[' && c != ']'
    && c != '?' && c != '=' && c != '{' && c != '}'
  }

  /** A cookie-octet of RFC 6265 section 4.1.1 other than `=`, which the parser cuts at. */
  predicate ValueChar(c: char) {
    (c == '!' || ('#' <= c <= '+') || ('-' <= c <= ':') || ('<' <= c <= '[') || (']' <= c <= '~'))
    && c != '='
  }

  predicate IsCookieName(s: string) {
    |s| > 0 && forall k :: 0 <= k < |s| ==> NameChar(s[k])
  }

  predicate IsCookieValue(s: string) {
    |s| > 0 && forall k :: 0 <= k < |s| ==> ValueChar(s[k])
  }

  /** A piece that trims to `name=value`, possibly followed by `=...`, sets `name` to `value`. */
  lemma SegmentOfPair(segment: string, name: string, value: string, rest: string)
    requires IsCookieName(name) && IsCookieValue(value)
    requires rest == "" || rest[0] == '='
    requires Trim(segment) == name + "=" + value + rest
    ensures SegmentEntry(segment) == Some(Entry(name, value))
  {
    assert '=' !in name && '=' !in value;
    SplitWithoutSeparator(name, '=');
    SplitWithoutSeparator(value, '=');
    if rest == "" {
      assert name + "=" + value + rest == name + ['='] + value;
      SplitAtSeparator(name, '=', value);
    } else {
      assert name + "=" + value + rest == name + ['='] + (value + ['='] + rest[1..]);
      SplitAtSeparator(name, '=', value + ['='] + rest[1..]);
      SplitAtSeparator(value, '=', rest[1..]);
    }
  }

  lemma PairIsTrimmed(name: string, value: string)
    requires IsCookieName(name) && IsCookieValue(value)
    ensures IsTrimmed(name + "=" + value)
    ensures ';' !in name + "=" + value && ';' !in " " + name + "=" + value
  {
    assert (name + "=" + value)[0] == name[0];
    assert (name + "=" + value)[|name + "=" + value| - 1] == value[|value| - 1];
  }

  /** A header holding one cookie-pair parses to that one cookie. */
  lemma SinglePair(name: string, value: string)
    requires IsCookieName(name) && IsCookieValue(value)
    ensures Cookies(name + "=" + value) == map[name := value]
  {
    PairIsTrimmed(name, value);
    SplitWithoutSeparator(name + "=" + value, ';');
    TrimOfTrimmed(name + "=" + value);
    SegmentOfPair(name + "=" + value, name, value, "");
    EntriesAppend([], name + "=" + value);
    CollectAppend([], SegmentEntry(name + "=" + value));
  }

  /** The piece ` name=value` after a `;` contributes the pair. */
  lemma PieceOfPair(name: string, value: string)
    requires IsCookieName(name) && IsCookieValue(value)
    ensures SegmentEntry(" " + name + "=" + value) == Some(Entry(name, value))
  {
    var t := name + "=" + value;
    PairIsTrimmed(name, value);
    assert " " + name + "=" + value == " " + t;
    TrimAfterBlank(t);
    assert t == name + "=" + value + "";
    SegmentOfPair(" " + t, name, value, "");
  }

  /** Appending `; name=value` to any header sets `name` to `value` and leaves every other cookie as it was. */
  lemma AppendPair(header: string, name: string, value: string)
    requires IsCookieName(name) && IsCookieValue(value)
    ensures Cookies(header + "; " + name + "=" + value) == Cookies(header)[name := value]
  {
    var piece := " " + name + "=" + value;
    var segments := Split(header, ';');
    PairIsTrimmed(name, value);
    assert header + "; " + name + "=" + value == header + [';'] + piece;
    SplitAtSeparator(header, ';', piece);
    SplitWithoutSeparator(piece, ';');
    assert Split(header + "; " + name + "=" + value, ';') == segments + [piece];
    PieceOfPair(name, value);
    EntriesAppend(segments, piece);
    CollectAppend(Entries(segments), SegmentEntry(piece));
  }

  /** A header with neither `;` nor `=` gives no cookies. */
  lemma NoSeparators(header: string)
    requires ';' !in header && '=' !in header
    ensures Cookies(header) == map[]
  {
    SplitWithoutSeparator(header, ';');
    TrimWithin(header);
    SplitWithoutSeparator(Trim(header), '=');
    EntriesAppend([], header);
    CollectAppend([], SegmentEntry(header));
  }

  /** The empty header and `malformed` give no cookies. */
  lemma NoPairs()
    ensures Cookies("") == map[]
    ensures Cookies("malformed") == map[]
  {
    NoSeparators("");
    NoSeparators("malformed");
  }

  /** Only the first two `=`-pieces of a pair count: `name=value=rest` sets `name` to `value`. */
  lemma ExtraPieceDropped(name: string, value: string, rest: string)
    requires IsCookieName(name) && IsCookieValue(value) && IsCookieValue(rest)
    ensures Cookies(name + "=" + value + "=" + rest) == map[name := value]
  {
    var s := name + "=" + value + "=" + rest;
    assert s[0] == name[0] && s[|s| - 1] == rest[|rest| - 1];
    assert ';' !in s;
    SplitWithoutSeparator(s, ';');
    TrimOfTrimmed(s);
    assert s == name + "=" + value + ("=" + rest);
    SegmentOfPair(s, name, value, "=" + rest);
    EntriesAppend([], s);
    CollectAppend([], SegmentEntry(s));
  }

  /** `key=value=extra` keeps only `key=value`. */
  lemma ExtraEqualsDropped(header: string)
    requires header == "key" + "=" + "value" + "=" + "extra"
    ensures Cookies(header) == map["key" := "value"]
  {
    NameTokens();
    ValueTokens();
    ExtraPieceDropped("key", "value", "extra");
  }

  lemma NameTokens()
    ensures IsCookieName("ab_homepage_hero") && IsCookieName("ab_product_layout")
    ensures IsCookieName("session") && IsCookieName("cart") && IsCookieName("key")
  {
  }

  lemma ValueTokens()
    ensures IsCookieValue("variant-a") && IsCookieValue("variant-b") && IsCookieValue("control")
    ensures IsCookieValue("123") && IsCookieValue("abc") && IsCookieValue("value") && IsCookieValue("extra")
  {
  }

  /** The first header of the cookie-parsing cases of split-test/test.js, `ab_homepage_hero=variant-a`: one pair. */
  lemma FixtureOnePair(header: string)
    requires header == "ab_homepage_hero" + "=" + "variant-a"
    ensures Cookies(header) == map["ab_homepage_hero" := "variant-a"]
  {
    NameTokens();
    ValueTokens();
    SinglePair("ab_homepage_hero", "variant-a");
  }

  /** The second header, `ab_homepage_hero=control; ab_product_layout=variant-b`: two pairs. */
  lemma FixtureTwoPairs(header: string)
    requires header == "ab_homepage_hero" + "=" + "control" + "; " + "ab_product_layout" + "=" + "variant-b"
    ensures Cookies(header) == map["ab_homepage_hero" := "control", "ab_product_layout" := "variant-b"]
  {
    NameTokens();
    ValueTokens();
    SinglePair("ab_homepage_hero", "control");
    AppendPair("ab_homepage_hero" + "=" + "control", "ab_product_layout", "variant-b");
  }

  /** The third header, `session=123; ab_homepage_hero=variant-a; cart=abc`: the test cookie among two others. */
  lemma FixtureThreePairs(header: string)
    requires header == "session" + "=" + "123" + "; " + "ab_homepage_hero" + "=" + "variant-a" + "; " + "cart" + "=" + "abc"
    ensures Cookies(header) == map["session" := "123", "ab_homepage_hero" := "variant-a", "cart" := "abc"]
  {
    NameTokens();
    ValueTokens();
    var first := "session" + "=" + "123";
    var second := first + "; " + "ab_homepage_hero" + "=" + "variant-a";
    SinglePair("session", "123");
    AppendPair(first, "ab_homepage_hero", "variant-a");
    AppendPair(second, "cart", "abc");
  }

  /** The cookie-pair a browser keeps from a `Set-Cookie` value: the text before the first `;` (RFC 6265 section 5.2). */
  function CookiePair(setCookie: string): string {
    Split(setCookie, ';')[0]
  }

  /** The `;`-pieces of a `Set-Cookie` value, each trimmed: the cookie-pair, then the attributes in order. */
  function SetCookieParts(setCookie: string): (r: seq<string>)
    ensures |r| >= 1 && r[0] == Trim(CookiePair(setCookie))
  {
    var pieces := Split(setCookie, ';');
    seq(|pieces|, k requires 0 <= k < |pieces| => Trim(pieces[k]))
  }

  /** Joining trimmed, `;`-free parts by `; ` gives a `Set-Cookie` value whose pieces are those parts. */
  lemma JoinedParts(parts: seq<string>)
    requires |parts| > 0
    requires forall k :: 0 <= k < |parts| ==> IsTrimmed(parts[k]) && ';' !in parts[k]
    ensures SetCookieParts(Join(parts, "; ")) == parts
  {
    SplitJoined(parts, ';');
    var pieces := Split(Join(parts, "; "), ';');
    forall k | 0 <= k < |parts| ensures Trim(pieces[k]) == parts[k] {
      if k == 0 {
        TrimOfTrimmed(parts[0]);
      } else {
        TrimAfterBlank(parts[k]);
      }
    }
  }
}
