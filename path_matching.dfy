/**
 * Path patterns and test selection: `shouldExcludePath`, `isBot` and
 * `findApplicableTest` of split-test/worker.js, and `matchesPath` of
 * split-test/test.js with the fixtures that script runs.
 */
module PathMatching {
  import opened Strings
  import opened Optional
  import opened WorkerConfig

  /** The pattern ends in the wildcard marker `*`. */
  predicate IsWildcard(pattern: string) {
    |pattern| > 0 && pattern[|pattern| - 1] == '*'
  }

  /**
   * A wildcard pattern matches the paths that start with the pattern minus
   * its `*`; any other pattern matches only the identical path.
   */
  predicate PatternMatches(pattern: string, pathname: string) {
    if IsWildcard(pattern) then StartsWith(pathname, pattern[..|pattern| - 1])
    else pathname == pattern
  }

  /** `patterns.some(path => ...)` */
  predicate AnyMatches(patterns: seq<string>, pathname: string) {
    exists i :: 0 <= i < |patterns| && PatternMatches(patterns[i], pathname)
  }

  /** A pattern without `*` matches exactly one path, itself. */
  lemma ExactPatternMatchesOnlyItself(pattern: string, pathname: string)
    requires !IsWildcard(pattern)
    ensures PatternMatches(pattern, pathname) <==> pathname == pattern
  {
  }

  /** A wildcard pattern matches every extension of a path it matches. */
  lemma WildcardMatchesExtensions(pattern: string, pathname: string, suffix: string)
    requires IsWildcard(pattern) && PatternMatches(pattern, pathname)
    ensures PatternMatches(pattern, pathname + suffix)
  {
    var prefix := pattern[..|pattern| - 1];
    assert (pathname + suffix)[..|prefix|] == pathname[..|prefix|];
  }

  /** The wildcard pattern for `/products/` matches `/products/test-product` but neither `/products` nor `/product`. */
  lemma ProductsPattern()
    ensures PatternMatches("/products/*", "/products/test-product")
    ensures !PatternMatches("/products/*", "/products")
    ensures !PatternMatches("/products/*", "/product")
  {
    assert "/products/*"[..10] == "/products/";
    assert "/products/test-product"[..10] == "/products/";
  }

  /** A list of patterns without wildcards matches exactly the paths it lists. */
  lemma ExactPatternsMatch(patterns: seq<string>, pathname: string)
    requires forall i :: 0 <= i < |patterns| ==> !IsWildcard(patterns[i])
    ensures AnyMatches(patterns, pathname) <==> pathname in patterns
  {
    if pathname in patterns {
      var i :| 0 <= i < |patterns| && patterns[i] == pathname;
      assert PatternMatches(patterns[i], pathname);
    }
  }

  /** `shouldExcludePath(pathname)`: the global excludes hold no wildcard, so a path is excluded iff it is listed. */
  function ShouldExcludePath(pathname: string): (r: bool)
    ensures r <==> pathname in GlobalExcludePaths
  {
    ExactPatternsMatch(GlobalExcludePaths, pathname);
    AnyMatches(GlobalExcludePaths, pathname)
  }

  /** `/account` does not exclude `/account/login`; `/account` and `/admin` themselves are excluded. */
  lemma GlobalExcludesAreExact()
    ensures !ShouldExcludePath("/account/login")
    ensures ShouldExcludePath("/account") && ShouldExcludePath("/admin")
  {
    assert GlobalExcludePaths[0] == "/admin" && GlobalExcludePaths[1] == "/account";
  }

  /** The user agent, lower-cased, contains one of the listed fragments. */
  predicate IsBotAgent(userAgent: string, botAgents: seq<string>) {
    exists i :: 0 <= i < |botAgents| && Contains(Lower(userAgent), botAgents[i])
  }

  /** Fragment `p` matches the agent at position `at`, character by character after lower-casing. */
  predicate FragmentAt(userAgent: string, p: string, at: int) {
    0 <= at && at + |p| <= |userAgent| && forall j :: 0 <= j < |p| ==> LowerChar(userAgent[at + j]) == p[j]
  }

  /** `includes` on the lower-cased agent is a character-by-character match at some position. */
  lemma ContainsLower(userAgent: string, p: string)
    ensures Contains(Lower(userAgent), p) <==> exists at :: FragmentAt(userAgent, p, at)
  {
    var l := Lower(userAgent);
    if Contains(l, p) {
      var at :| 0 <= at <= |l| - |p| && OccursAt(l, p, at);
      forall j | 0 <= j < |p| ensures LowerChar(userAgent[at + j]) == p[j] {
        assert l[at..at + |p|][j] == p[j];
      }
      assert FragmentAt(userAgent, p, at);
    }
    if exists at :: FragmentAt(userAgent, p, at) {
      var at :| FragmentAt(userAgent, p, at);
      assert l[at..at + |p|] == p;
      assert OccursAt(l, p, at);
    }
  }

  /** A bot agent is one where some listed fragment matches at some position. */
  lemma BotAgentIff(userAgent: string, botAgents: seq<string>)
    ensures IsBotAgent(userAgent, botAgents) <==>
              exists i, at :: 0 <= i < |botAgents| && FragmentAt(userAgent, botAgents[i], at)
  {
    forall i | 0 <= i < |botAgents| {
      ContainsLower(userAgent, botAgents[i]);
    }
  }

  /**
   * `isBot(request)`: the `User-Agent` header, `''` when absent, lower-cased,
   * holds some fragment of `CONFIG.settings.botAgents` at some position.
   */
  function IsBot(userAgent: Option<string>): (r: bool)
    ensures r <==> exists i, at :: 0 <= i < |BotAgents| && FragmentAt(OrEmpty(userAgent), BotAgents[i], at)
  {
    BotAgentIff(OrEmpty(userAgent), BotAgents);
    IsBotAgent(OrEmpty(userAgent), BotAgents)
  }

  /** Test `t` takes `pathname`: enabled, some path pattern matches and no exclude pattern does. */
  predicate Applicable(t: TestDefinition, pathname: string) {
    t.enabled && AnyMatches(t.paths, pathname) && !AnyMatches(t.excludePaths, pathname)
  }

  /** The position of the first applicable test, or `|tests|` when there is none. */
  function FirstApplicable(tests: seq<TestDefinition>, pathname: string): (k: nat)
    ensures k <= |tests|
    ensures k < |tests| ==> Applicable(tests[k], pathname)
    ensures forall j :: 0 <= j < k ==> !Applicable(tests[j], pathname)
  {
    if |tests| == 0 then 0
    else if Applicable(tests[0], pathname) then 0
    else 1 + FirstApplicable(tests[1..], pathname)
  }

  /**
   * The test `findApplicableTest(pathname)` selects: the first test, in
   * configured order, that is enabled, has a matching path and no matching
   * exclude path; `None` (the source's `null`) when none qualifies.
   */
  function ApplicableTest(tests: seq<TestDefinition>, pathname: string): (r: Option<TestDefinition>)
    ensures r.None? <==> forall i :: 0 <= i < |tests| ==> !Applicable(tests[i], pathname)
    ensures r.Some? ==> exists i :: 0 <= i < |tests| && tests[i] == r.value
                          && Applicable(tests[i], pathname)
                          && forall j :: 0 <= j < i ==> !Applicable(tests[j], pathname)
    ensures r.Some? ==> r.value.enabled
  {
    var k := FirstApplicable(tests, pathname);
    if k < |tests| then Some(tests[k]) else None
  }

  /** `findApplicableTest(pathname)`: the `for ... of` loop over the tests with its three `continue`s. */
  method FindApplicableTest(tests: seq<TestDefinition>, pathname: string) returns (r: Option<TestDefinition>)
    ensures r == ApplicableTest(tests, pathname)
  {
    for i := 0 to |tests|
      invariant forall j :: 0 <= j < i ==> !Applicable(tests[j], pathname)
    {
      var test := tests[i];
      if !test.enabled {
        continue;
      }
      var matches := AnyMatches(test.paths, pathname);
      if !matches {
        continue;
      }
      var excluded := AnyMatches(test.excludePaths, pathname);
      if excluded {
        continue;
      }
      return Some(test);
    }
    return None;
  }

  /** With the shipped configuration only `/` runs a test (`homepage-hero`); the other two tests are disabled. */
  lemma ShippedConfigSelection(pathname: string)
    ensures ApplicableTest(Tests, pathname) ==
              if pathname == "/" then Some(Tests[0]) else None
  {
    assert !Applicable(Tests[1], pathname) && !Applicable(Tests[2], pathname);
    if pathname == "/" {
      assert PatternMatches(Tests[0].paths[0], pathname);
    }
  }

  /** `matchesPath(pathname, paths, excludePaths)` of split-test/test.js */
  function MatchesPath(pathname: string, paths: seq<string>, excludePaths: seq<string>): (r: bool)
    ensures r <==> AnyMatches(paths, pathname) && !AnyMatches(excludePaths, pathname)
  {
    if AnyMatches(excludePaths, pathname) then false
    else AnyMatches(paths, pathname)
  }

  /** One entry of the `tests` fixture of split-test/test.js. */
  datatype PathFixture = PathFixture(name: string, paths: seq<string>, excludePaths: seq<string>)

  const FixtureTests: seq<PathFixture> := [
    PathFixture("homepage", ["/"], []),
    PathFixture("products", ["/products/*"], ["/products/gift-card"]),
    PathFixture("checkout", ["/cart", "/checkout"], [])
  ]

  /** The names the path-matching check reports for `pathname`, in fixture order. */
  function MatchingNames(fixtures: seq<PathFixture>, pathname: string): seq<string> {
    if |fixtures| == 0 then []
    else
      var f := fixtures[0];
      (if MatchesPath(pathname, f.paths, f.excludePaths) then [f.name] else [])
      + MatchingNames(fixtures[1..], pathname)
  }

  /** The exclude pattern wins over the include pattern for `/products/gift-card`. */
  lemma GiftCardExcluded()
    ensures PatternMatches("/products/*", "/products/gift-card")
    ensures !MatchesPath("/products/gift-card", ["/products/*"], ["/products/gift-card"])
  {
    assert "/products/gift-card"[..10] == "/products/*"[..10];
    assert PatternMatches(["/products/gift-card"][0], "/products/gift-card");
  }

  lemma FixtureNamesUnfold(pathname: string)
    ensures MatchingNames(FixtureTests, pathname) ==
              (if MatchesPath(pathname, ["/"], []) then ["homepage"] else [])
              + (if MatchesPath(pathname, ["/products/*"], ["/products/gift-card"]) then ["products"] else [])
              + (if MatchesPath(pathname, ["/cart", "/checkout"], []) then ["checkout"] else [])
  {
    var f := FixtureTests;
    assert f[1..][1..][1..] == [];
    assert MatchingNames(f[1..][1..][1..], pathname) == [];
    assert MatchingNames(f[1..][1..], pathname) ==
             (if MatchesPath(pathname, ["/cart", "/checkout"], []) then ["checkout"] else []);
  }

  /** In the path-matching check of split-test/test.js, `/` matches only `homepage`. */
  lemma FixtureRoot()
    ensures MatchingNames(FixtureTests, "/") == ["homepage"]
  {
    FixtureNamesUnfold("/");
    assert PatternMatches(["/"][0], "/");
  }

  /** `/products/test-product` matches only `products`. */
  lemma FixtureProductPage()
    ensures MatchingNames(FixtureTests, "/products/test-product") == ["products"]
  {
    FixtureNamesUnfold("/products/test-product");
    ProductsPattern();
    assert PatternMatches(["/products/*"][0], "/products/test-product");
  }

  /** `/cart` and `/checkout` match only `checkout`. */
  lemma FixtureCheckout()
    ensures MatchingNames(FixtureTests, "/cart") == ["checkout"]
    ensures MatchingNames(FixtureTests, "/checkout") == ["checkout"]
  {
    FixtureNamesUnfold("/cart");
    assert PatternMatches(["/cart", "/checkout"][0], "/cart");
    FixtureNamesUnfold("/checkout");
    assert PatternMatches(["/cart", "/checkout"][1], "/checkout");
  }

  /** A path that is none of `/`, `/cart`, `/checkout` and lies outside `/products/` matches no fixture test. */
  lemma FixtureUnmatched(pathname: string)
    requires pathname != "/" && pathname != "/cart" && pathname != "/checkout"
    requires !StartsWith(pathname, "/products/")
    ensures MatchingNames(FixtureTests, pathname) == []
  {
    FixtureNamesUnfold(pathname);
    assert "/products/*"[..10] == "/products/";
    assert !AnyMatches(["/products/*"], pathname) by {
      assert !PatternMatches(["/products/*"][0], pathname);
    }
    assert !AnyMatches(["/"], pathname) by {
      assert !PatternMatches(["/"][0], pathname);
    }
    assert !AnyMatches(["/cart", "/checkout"], pathname) by {
      assert !PatternMatches(["/cart", "/checkout"][0], pathname);
      assert !PatternMatches(["/cart", "/checkout"][1], pathname);
    }
  }

  /** `/products`, `/admin`, `/collections/all` and `/account/login` match no fixture test. */
  lemma FixtureUnmatchedPaths()
    ensures MatchingNames(FixtureTests, "/products") == []
    ensures MatchingNames(FixtureTests, "/admin") == []
    ensures MatchingNames(FixtureTests, "/collections/all") == []
    ensures MatchingNames(FixtureTests, "/account/login") == []
  {
    FixtureUnmatched("/products");
    assert !StartsWith("/admin", "/products/") by {
      assert "/admin"[1] != "/products/"[1];
    }
    FixtureUnmatched("/admin");
    assert !StartsWith("/collections/all", "/products/") by {
      assert "/collections/all"[1] != "/products/"[1];
    }
    FixtureUnmatched("/collections/all");
    assert !StartsWith("/account/login", "/products/") by {
      assert "/account/login"[1] != "/products/"[1];
    }
    FixtureUnmatched("/account/login");
  }

  /** The agent, lower-cased, holds fragment `i` of the bot list at position `at`. */
  lemma BotAt(userAgent: string, at: nat, i: nat)
    requires i < |BotAgents| && at + |BotAgents[i]| <= |userAgent|
    requires forall j :: 0 <= j < |BotAgents[i]| ==> LowerChar(userAgent[at + j]) == BotAgents[i][j]
    ensures IsBotAgent(userAgent, BotAgents)
  {
    assert Lower(userAgent)[at..at + |BotAgents[i]|] == BotAgents[i];
    assert OccursAt(Lower(userAgent), BotAgents[i], at);
  }

  // The user agents of the bot-detection check of split-test/test.js that are bots.

  lemma GooglebotIsBot()
    ensures IsBotAgent("Googlebot/2.1 (+http://www.google.com/bot.html)", BotAgents)
  {
    BotAt("Googlebot/2.1 (+http://www.google.com/bot.html)", 6, 0);
  }

  lemma FacebookIsBot()
    ensures IsBotAgent("facebookexternalhit/1.1", BotAgents)
  {
    BotAt("facebookexternalhit/1.1", 0, 4);
  }

  lemma BaiduspiderIsBot()
    ensures IsBotAgent("Mozilla/5.0 (compatible; Baiduspider/2.0)", BotAgents)
  {
    BotAt("Mozilla/5.0 (compatible; Baiduspider/2.0)", 30, 2);
  }

  lemma WhatsAppIsBot()
    ensures IsBotAgent("WhatsApp/2.19.81 A", BotAgents)
  {
    BotAt("WhatsApp/2.19.81 A", 0, 6);
  }

  lemma SlackbotIsBot()
    ensures IsBotAgent("Slackbot-LinkExpander 1.0", BotAgents)
  {
    BotAt("Slackbot-LinkExpander 1.0", 0, 7);
  }

  lemma LinkedInBotIsBot()
    ensures IsBotAgent("LinkedInBot/1.0", BotAgents)
  {
    BotAt("LinkedInBot/1.0", 0, 5);
  }

  lemma DiscordbotIsBot()
    ensures IsBotAgent("Discordbot/2.0", BotAgents)
  {
    BotAt("Discordbot/2.0", 0, 9);
  }

  /** Every bot user agent of the bot-detection check is flagged. */
  lemma FixtureBots()
    ensures IsBotAgent("Googlebot/2.1 (+http://www.google.com/bot.html)", BotAgents)
    ensures IsBotAgent("facebookexternalhit/1.1", BotAgents)
    ensures IsBotAgent("Mozilla/5.0 (compatible; Baiduspider/2.0)", BotAgents)
    ensures IsBotAgent("WhatsApp/2.19.81 A", BotAgents)
    ensures IsBotAgent("Slackbot-LinkExpander 1.0", BotAgents)
    ensures IsBotAgent("LinkedInBot/1.0", BotAgents)
    ensures IsBotAgent("Discordbot/2.0", BotAgents)
  {
    GooglebotIsBot();
    FacebookIsBot();
    BaiduspiderIsBot();
    WhatsAppIsBot();
    SlackbotIsBot();
    LinkedInBotIsBot();
    DiscordbotIsBot();
  }

  /** No character of `s` lower-cases to `c`. */
  predicate LowerAvoids(s: string, c: char) {
    forall j :: 0 <= j < |s| ==> LowerChar(s[j]) != c
  }

  /** A fragment with a character that the lower-cased agent lacks is not in it. */
  lemma AbsentChar(userAgent: string, p: string, k: nat)
    requires k < |p| && LowerAvoids(userAgent, p[k])
    ensures !Contains(Lower(userAgent), p)
  {
    forall i | 0 <= i <= |Lower(userAgent)| - |p|
      ensures !OccursAt(Lower(userAgent), p, i)
    {
      assert Lower(userAgent)[i + k] != p[k];
    }
  }

  /** A fragment whose character `p[k]` appears only at `pos`, not followed by `p[k + 1]`, is not in the agent. */
  lemma AbsentPair(userAgent: string, p: string, k: nat, pos: nat)
    requires k + 1 < |p| && pos + 1 < |userAgent|
    requires forall j :: 0 <= j < |userAgent| && j != pos ==> LowerChar(userAgent[j]) != p[k]
    requires LowerChar(userAgent[pos + 1]) != p[k + 1]
    ensures !Contains(Lower(userAgent), p)
  {
    forall i | 0 <= i <= |Lower(userAgent)| - |p|
      ensures !OccursAt(Lower(userAgent), p, i)
    {
      if i + k != pos {
        assert Lower(userAgent)[i + k] != p[k];
      } else {
        assert Lower(userAgent)[i + k + 1] != p[k + 1];
      }
    }
  }

  // The two plain browser agents of the bot-detection check are not bots: each
  // listed fragment has a character that the agent does not contain.

  predicate MacSafe(c: char) {
    c != 'b' && c != 'B' && c != 'r' && c != 'R' && c != 'p' && c != 'P' && c != 'f' && c != 'F'
    && c != 'k' && c != 'K' && c != 'w' && c != 'W' && c != 'g' && c != 'G' && c != 'd' && c != 'D'
  }
  predicate AllMacSafe(s: string) { forall k :: 0 <= k < |s| ==> MacSafe(s[k]) }
  /** The Macintosh user agent of the bot-detection check, in three pieces. */
  const MacAgent: string := "Mozilla/5.0 " + "(Macintosh; " + "Intel Mac OS X 10_15_7)"

  lemma MacChunks()
    ensures AllMacSafe(MacAgent)
  {
    assert AllMacSafe("Mozilla/5.0 ");
    assert AllMacSafe("(Macintosh; ");
    assert AllMacSafe("Intel Mac OS X 10_15_7)");
  }

  lemma MacIsNotBot()
    ensures !IsBotAgent(MacAgent, BotAgents)
  {
    var u := MacAgent;
    MacChunks();
    AbsentChar(u, BotAgents[0], 0);
    AbsentChar(u, BotAgents[1], 1);
    AbsentChar(u, BotAgents[2], 1);
    AbsentChar(u, BotAgents[3], 2);
    AbsentChar(u, BotAgents[4], 0);
    AbsentChar(u, BotAgents[5], 3);
    AbsentChar(u, BotAgents[6], 0);
    AbsentChar(u, BotAgents[7], 4);
    AbsentChar(u, BotAgents[8], 4);
    AbsentChar(u, BotAgents[9], 0);
  }

  predicate WindowsSafe(c: char) {
    c != 'c' && c != 'C' && c != 'f' && c != 'F' && c != 'h' && c != 'H'
    && c != 'g' && c != 'G' && c != 'r' && c != 'R'
  }
  predicate AllWindowsSafe(s: string) { forall k :: 0 <= k < |s| ==> WindowsSafe(s[k]) }
  predicate NoB(s: string) { forall k :: 0 <= k < |s| ==> s[k] != 'b' && s[k] != 'B' }

  /** The Windows user agent of the bot-detection check, in pieces; its only `b` is at position 49. */
  const WindowsAgent: string := "Mozilla/5.0 " + "(Windows NT " + "10.0; Win64; " + "x64) AppleWe" + "b" + "Kit/537.36"

  lemma WindowsChunks()
    ensures AllWindowsSafe(WindowsAgent)
  {
    assert AllWindowsSafe("Mozilla/5.0 ");
    assert AllWindowsSafe("(Windows NT ");
    assert AllWindowsSafe("10.0; Win64; ");
    assert AllWindowsSafe("x64) AppleWe");
    assert AllWindowsSafe("b");
    assert AllWindowsSafe("Kit/537.36");
  }

  lemma WindowsOnlyB()
    ensures forall j :: 0 <= j < |WindowsAgent| && j != 49 ==> LowerChar(WindowsAgent[j]) != 'b'
    ensures |WindowsAgent| == 60 && WindowsAgent[50] == 'K'
  {
    assert NoB("Mozilla/5.0 ");
    assert NoB("(Windows NT ");
    assert NoB("10.0; Win64; ");
    assert NoB("x64) AppleWe");
    assert NoB("Kit/537.36");
  }

  lemma WindowsIsNotBot()
    ensures !IsBotAgent(WindowsAgent, BotAgents)
  {
    var u := WindowsAgent;
    WindowsChunks();
    WindowsOnlyB();
    AbsentPair(u, BotAgents[0], 0, 49);
    AbsentChar(u, BotAgents[1], 0);
    AbsentChar(u, BotAgents[2], 5);
    AbsentChar(u, BotAgents[3], 1);
    AbsentChar(u, BotAgents[4], 0);
    AbsentPair(u, BotAgents[5], 8, 49);
    AbsentChar(u, BotAgents[6], 1);
    AbsentChar(u, BotAgents[7], 3);
    AbsentChar(u, BotAgents[8], 4);
    AbsentChar(u, BotAgents[9], 3);
  }
}
