# Split-testing edge worker and testimonials carousel, in Dafny

This project models the decision logic of a Shopify split-testing setup on
Cloudflare Workers, and proves properties of it:

- **`split-test/worker.js`** is the basic worker:
  - path exclusion and bot detection;
  - choosing the first applicable test;
  - the weighted variant sampler;
  - resolving a visitor's variant, in the order forced query parameter, cookie, KV store, fresh draw;
  - the client identifier;
  - the `Set-Cookie`, `Vary` and `cf.cacheKey` strings.
- **`split-test/worker-advanced.js`** is the advanced worker:
  - the Durable Object `SplitTestState`, a key-value storage with sticky assignments, counters, timestamps, prefix reports and prefix resets;
  - `calculateStats`;
  - `getUserId` with `hashString`;
  - the edge cache keys and the ok-only caching of `fetchWithCache`;
  - the `Vary` and `Set-Cookie` headers of `modifyResponseAdvanced`.
- **`split-test/test.js`** is the local test script. It has its own copies of:
  - `matchesPath`, `assignVariant`, `parseCookies` and `generateClientId`;
  - the fixture inputs, which become concrete lemmas.
- **`src/assets/testimonials-carousel.js`** is the `testimonials-carousel` custom element. It is a navigation state machine:
  - the current slide;
  - a transition lock;
  - touch coordinates.

  The DOM it writes is modelled as:
  - button flags;
  - one flag array for the dots;
  - two flag arrays for the slides;
  - a track offset.

The modules, one per file:

| module | file | holds |
|---|---|---|
| `Strings` | strings.dfy | JavaScript string built-ins: `startsWith`, `includes`, one-character `split`, `join`, `trim`, ASCII `toLowerCase`, `String(n)` |
| `Optional` | optional.dfy | `Option`, and `x \|\| ''` for headers |
| `WorkerConfig` | worker_config.dfy | the `CONFIG` object of worker.js |
| `Sampler` | sampler.dfy | `assignVariant` |
| `PathMatching` | path_matching.dfy | matching, `shouldExcludePath`, `isBot`, `findApplicableTest`, `matchesPath` and the fixtures |
| `CookieParsing` | cookies.dfy | `parseCookies` and the cookie fixtures |
| `Base64` | base64.dfy | RFC 4648 section 4 base 64 with its decoder; the Latin-1 bytes of `btoa` and the UTF-8 bytes of `Buffer.from` |
| `Hashing` | hashing.dfy | `hashString`: the int32 wrap-around, UTF-16 code units and base 36 |
| `Identity` | identity.dfy | `getClientId`, `generateClientId` and `getUserId` |
| `Worker` | worker.dfy | `getVariant` over a `KvNamespace` class, the `Set-Cookie`, `Vary` and `cacheKey` strings |
| `StateStore` | state_store.dfy | `SplitTestState`: the transitions as functions on the storage map, and a class performing them in place |
| `Stats` | stats.dfy | `calculateStats` |
| `EdgeCache` | edge_cache.dfy | the advanced cache keys, `fetchWithCache` as a `Cache` class, and the advanced `Vary` and `Set-Cookie` |
| `Carousel` | carousel.dfy | the `TestimonialsCarousel` class |

Randomness and clocks are parameters:

- `Math.random()` is a real `u`, and the sampler compares against `u * totalWeight`.
- `Date.now()` is an integer `now`.
- The request is broken into the headers and parameters each operation reads, as `Option<string>` (`None` for an absent header).
- Where the JavaScript throws, the model returns `None`:
  - `btoa` on a character above U+00FF;
  - the advanced `assignVariant` on a stored configuration with no variants.

Behaviour of the code that a reader might not expect, which the model follows:

- **Sampler fallback.** When no cumulative weight exceeds the draw, the sampler returns the *first* variant (split-test/worker.js:251, "Fallback to first variant (should never happen)"), not the last one.
- **Reset.** It deletes only keys under `${testId}:` (split-test/worker-advanced.js:86-88, "Delete all data for test"). The test's own `assignment:${testId}:…` records survive it whenever the test id does not begin with `assignment`. A reset of the test `assignment` has the prefix `assignment:` and so deletes every test's assignment records, and a reset of a test `assignment:<id>` deletes the records of the test `<id>` (`StateStore.ResetWipesAssignments`).
- **Key collision.** The counter key `${testId}:${variant}:assignments` (split-test/worker-advanced.js:46) and the record key `assignment:${testId}:${userId}` (:37) are equal for the test `assignment`, the variant `assignment` and the user `assignments`. The increment then overwrites the record with the string `assignment1`, and a second request for that user gets `assignment1` back (`StateStore.CollisionBreaksStickiness`). The stickiness members below therefore require that the two keys differ.
- **Tracking.** Events are counted for any variant name (split-test/worker-advanced.js:57-58): nothing checks the variant against a configuration.
- **Empty or all-zero weights.** They are not given equal probability: the first variant is returned.

## Model

| member | source | states |
|---|---|---|
| Strings.Split | split-test/worker.js:346-347 | one-character `split` gives at least one piece, and no piece holds the separator |
| Strings.SplitWithoutSeparator | split-test/worker.js:346 | a string without the separator splits into itself alone |
| Strings.SplitAtSeparator | split-test/worker.js:346 | splitting `a + sep + b` is splitting `a` and `b` separately and concatenating the pieces |
| Strings.SplitJoined | split-test/worker.js:316 | splitting a `sep + ' '`-join of parts free of `sep` gives the first part and every later part behind one blank |
| Strings.Trim | split-test/worker.js:347 | `trim()` leaves no white space at either end |
| Strings.TrimWithin | split-test/worker.js:347 | `trim()` introduces no character that was not in the input |
| Strings.TrimAfterBlank | split-test/worker.js:328 | a trimmed token after one blank trims back to itself |
| Strings.TrimStartIsSuffix | split-test/worker.js:347 | trimming the start removes a prefix, and every character removed is white space |
| Strings.TrimEndIsPrefix | split-test/worker.js:347 | trimming the end removes a suffix, and every character removed is white space |
| Strings.StripNonAlphanumeric | split-test/worker.js:265 | `replace(/[^a-zA-Z0-9]/g, '')` leaves only ASCII letters and digits, keeps each letter and digit of the input as many times as it occurs, leaves a string of letters and digits unchanged, and never lengthens |
| Strings.Lower | split-test/worker.js:146 | `toLowerCase` keeps the length, turns each ASCII capital into the small letter at the same alphabet position (`A` to `a`), leaves no capital ASCII letter, and keeps every other character in place |
| Strings.LowerIdempotent | split-test/worker.js:146 | lower-casing an already lower-cased agent changes nothing |
| Strings.NatToString | split-test/worker.js:311 | `String(n)` is a non-empty string of decimal digits with no leading zero except for 0 |
| Strings.DecimalRoundTrip | split-test/worker.js:311 | the digits of `String(n)` read back as `n`; with `Worker.SetCookieAttributes`, the `Max-Age` attribute reads back as the test's duration in whole seconds |
| PathMatching.ExactPatternMatchesOnlyItself | split-test/worker.js:158-163 | a pattern without a trailing `*` matches exactly the identical path |
| PathMatching.WildcardMatchesExtensions | split-test/worker.js:158-163 | a `*` pattern that matches a path also matches every extension of it |
| PathMatching.ProductsPattern | split-test/worker.js:158-163 | `/products/*` matches `/products/test-product` but not `/products` or `/product` |
| PathMatching.ExactPatternsMatch | split-test/worker.js:136-138 | a list of patterns without `*` matches a path iff the path is listed |
| PathMatching.ShouldExcludePath | split-test/worker.js:132-139 | a path is excluded iff it is one of the global exclude paths, because none of them ends in `*` |
| PathMatching.GlobalExcludesAreExact | split-test/worker.js:68 | `/account/login` is not excluded, while `/account` and `/admin` are |
| PathMatching.ContainsLower | split-test/worker.js:146-147 | `includes` on the lower-cased agent holds iff the fragment matches the agent character by character, after lower-casing, at some position |
| PathMatching.BotAgentIff | split-test/worker.js:146-147 | an agent is a bot iff some listed fragment matches it at some position |
| PathMatching.IsBot | split-test/worker.js:144-148 | a request is a bot iff some listed fragment matches its `User-Agent` (empty when absent) character by character, after lower-casing, at some position |
| PathMatching.FirstApplicable | split-test/worker.js:154-178 | the position found is applicable and every earlier test is not |
| PathMatching.ApplicableTest | split-test/worker.js:153-181 | `None` iff no test is applicable; otherwise the first applicable test in configured order, always an enabled one |
| PathMatching.FindApplicableTest | split-test/worker.js:153-181 | the loop with its three `continue`s returns exactly the test that `ApplicableTest` selects |
| PathMatching.ShippedConfigSelection | split-test/worker.js:12-47 | with the shipped tests only `/` selects a test (`homepage-hero`), since the other two are disabled |
| PathMatching.MatchesPath | split-test/test.js:142-160 | true iff some include pattern matches and no exclude pattern does |
| PathMatching.GiftCardExcluded | split-test/test.js:120-123 | `/products/gift-card` matches `/products/*` but is rejected by the `products` fixture's exclude |
| PathMatching.FixtureRoot | split-test/test.js:104-138 | `/` matches only `homepage` |
| PathMatching.FixtureProductPage | split-test/test.js:104-138 | `/products/test-product` matches only `products` |
| PathMatching.FixtureCheckout | split-test/test.js:104-138 | `/cart` and `/checkout` match only `checkout` |
| PathMatching.FixtureUnmatched | split-test/test.js:104-138 | any path other than `/`, `/cart` and `/checkout` that lies outside `/products/` matches no fixture test |
| PathMatching.FixtureUnmatchedPaths | split-test/test.js:104-138 | `/products`, `/admin`, `/collections/all` and `/account/login` match no fixture test |
| PathMatching.FixtureNamesUnfold | split-test/test.js:132-137 | the names reported for a path are the fixture tests that match it, in fixture order |
| PathMatching.BotAt | split-test/test.js:183 | a fragment found at some position of the lower-cased agent makes it a bot |
| PathMatching.GooglebotIsBot | split-test/test.js:169 | the Googlebot agent is a bot |
| PathMatching.FacebookIsBot | split-test/test.js:170 | `facebookexternalhit/1.1` is a bot |
| PathMatching.BaiduspiderIsBot | split-test/test.js:171 | the Baiduspider agent is a bot |
| PathMatching.WhatsAppIsBot | split-test/test.js:172 | the WhatsApp agent is a bot |
| PathMatching.SlackbotIsBot | split-test/test.js:173 | the Slackbot agent is a bot |
| PathMatching.LinkedInBotIsBot | split-test/test.js:175 | the LinkedInBot agent is a bot |
| PathMatching.DiscordbotIsBot | split-test/test.js:176 | the Discordbot agent is a bot |
| PathMatching.FixtureBots | split-test/test.js:167-186 | all seven bot agents of the bot-detection check are flagged |
| PathMatching.MacIsNotBot | split-test/test.js:174 | the Macintosh browser agent is not a bot |
| PathMatching.WindowsIsNotBot | split-test/test.js:168 | the Windows browser agent is not a bot, although it contains `b` (in `AppleWebKit`) |
| PathMatching.AbsentChar | split-test/test.js:183 | a fragment with a character the agent lacks is not contained in it |
| PathMatching.AbsentPair | split-test/test.js:183 | a fragment whose character occurs in the agent only where the next character differs is not contained in it |
| Sampler.CumulativeStep | split-test/worker.js:245 | the running sum grows by exactly the next weight |
| Sampler.CumulativeMonotone | split-test/worker.js:243-249 | the running sum never decreases |
| Sampler.CumulativeAll | split-test/worker.js:240 | the running sum over all variants is the `reduce` total |
| Sampler.PickIndex | split-test/worker.js:239-253 | for a non-empty list the picked position is in range, so the result is always a listed variant |
| Sampler.ScanFromFirst | split-test/worker.js:244-252 | the scan from a position stops at the first variant whose cumulative weight exceeds the draw, or falls back to position 0 |
| Sampler.PickIndexIsFirstExceeding | split-test/worker.js:243-252 | variant `i` is picked iff it is the first whose cumulative weight exceeds the draw, or `i == 0` and none does (the first-variant fallback) |
| Sampler.PickIndexInterval | split-test/worker.js:239-253 | for a draw in `[0, total)`, variant `i` is picked iff the draw lies in `[cumulative(i), cumulative(i+1))` |
| Sampler.CountPicksPrefix | split-test/test.js:31-34 | of the integer draws below `n`, variant `i` gets the part of its interval below `n` |
| Sampler.CountPicksIsWeight | split-test/test.js:20-48 | of the integer draws `0 … total-1`, exactly `weight(i)` pick variant `i`, which is the exact form of the distribution check |
| Sampler.AssignVariant | split-test/worker.js:239-253 | the loop returns the id at the position `PickIndex` gives for the draw `u * total`, including the first-variant fallback |
| CookieParsing.SegmentEntry | split-test/worker.js:347-350 | a piece contributes a cookie only with a non-empty name and value, neither holding `=` |
| CookieParsing.EntriesIndex | split-test/worker.js:346 | the entries line up one-for-one with the `;`-pieces |
| CookieParsing.CookiesWellFormed | split-test/worker.js:347-350 | every parsed cookie has a non-empty name and value without `=` |
| CookieParsing.CollectWellFormed | split-test/worker.js:346-351 | collecting well-formed entries gives a well-formed cookie for every name |
| CookieParsing.CollectHasName | split-test/worker.js:346-351 | a name is present iff some entry sets it |
| CookieParsing.CollectLastWins | split-test/worker.js:349 | the value of a name is that of the last entry setting it |
| CookieParsing.AddSegment | split-test/worker.js:346-351 | the `forEach` body adds the piece's cookie, overwriting the name, or changes nothing |
| CookieParsing.ParseCookies | split-test/worker.js:344-353 | the loop over the pieces computes the fold `Cookies` of the header |
| CookieParsing.EntriesAppend | split-test/worker.js:346 | one more piece adds exactly its entry at the end |
| CookieParsing.CollectAppend | split-test/worker.js:346-351 | one more entry is one more overwrite |
| CookieParsing.LastPieceWins | split-test/worker.js:346-351 | a cookie is present iff some piece sets it, and its value is that of the last piece setting it (a later duplicate overwrites) |
| CookieParsing.SegmentOfPair | split-test/worker.js:347-350 | a piece trimming to `name=value` (optionally followed by `=…`) sets `name` to `value` |
| CookieParsing.PairIsTrimmed | split-test/worker.js:347 | a cookie-pair has no white space at its ends and no `;` |
| CookieParsing.SinglePair | split-test/worker.js:344-353 | a header that is one cookie-pair parses to that one cookie |
| CookieParsing.PieceOfPair | split-test/worker.js:347-350 | the piece ` name=value` after `; ` contributes the pair |
| CookieParsing.AppendPair | split-test/worker.js:346-351 | appending `; name=value` sets `name` and keeps every other cookie |
| CookieParsing.NoSeparators | split-test/worker.js:346-351 | a header with neither `;` nor `=` gives no cookies |
| CookieParsing.NoPairs | split-test/test.js:75-76 | `''` and `malformed` give no cookies |
| CookieParsing.ExtraPieceDropped | split-test/worker.js:347 | only the first two `=`-pieces count: `name=value=rest` sets `name` to `value` |
| CookieParsing.ExtraEqualsDropped | split-test/test.js:77 | `key=value=extra` gives `{key: value}` |
| CookieParsing.FixtureOnePair | split-test/test.js:72 | `ab_homepage_hero=variant-a` gives that one cookie |
| CookieParsing.FixtureTwoPairs | split-test/test.js:73 | the two-pair header gives both cookies |
| CookieParsing.FixtureThreePairs | split-test/test.js:74 | the three-pair header gives all three cookies |
| CookieParsing.JoinedParts | split-test/worker.js:316 | a `; `-join of trimmed, `;`-free options splits and trims back into exactly those options, in order |
| Base64.Sextet | split-test/worker.js:265 | an alphabet character is never the pad `=` |
| Base64.SextetValue | split-test/worker.js:265 | a character's 6-bit value, when it has one, maps back to that character |
| Base64.SextetRoundTrip | split-test/worker.js:265 | each 6-bit value's character reads back as that value |
| Base64.EncodeGroup | split-test/worker.js:265 | one to three bytes encode to four characters |
| Base64.Encode | split-test/worker.js:265 | the encoding has `4 * ceil(n / 3)` characters |
| Base64.EncodeAlphabet | split-test/worker.js:265 | every character of an encoding is in the alphabet or is `=` |
| Base64.EncodeAppend | split-test/worker.js:265 | a whole number of leading groups encodes independently of what follows |
| Base64.DecodeEncodeOne | split-test/worker.js:265 | a one-byte group decodes back from its padded encoding |
| Base64.DecodeEncodeTwo | split-test/worker.js:265 | a two-byte group decodes back from its padded encoding |
| Base64.DecodeEncodeThree | split-test/worker.js:265 | a three-byte group decodes back from its encoding |
| Base64.DecodeEncodeGroup | split-test/worker.js:265 | every group decodes back from its encoding |
| Base64.DecodeEncode | split-test/worker.js:265 | decoding an encoding gives back the bytes |
| Base64.EncodeInjective | split-test/worker.js:265 | different byte strings have different encodings |
| Base64.Btoa | split-test/worker.js:265 | `btoa` throws exactly for a character above U+00FF; otherwise it gives `4 * ceil(n / 3)` characters that decode back to the character codes |
| Base64.Utf8Char | split-test/test.js:219 | one to four bytes per character, one exactly for ASCII, continuation bytes in `0x80..0xBF` |
| Base64.Utf8CharRoundTrip | split-test/test.js:219 | a character's UTF-8 bytes read back as that character |
| Base64.Utf8Bytes | split-test/test.js:219 | `Buffer.from` gives at least one byte per character |
| Base64.AsciiBytesAgree | split-test/test.js:219 | on ASCII text the Latin-1 bytes of `btoa` and the UTF-8 bytes of `Buffer.from` agree |
| Hashing.Int32 | split-test/worker-advanced.js:542 | `hash & hash` gives the signed 32-bit value congruent to the input modulo 2^32 |
| Hashing.Int32Congruent | split-test/worker-advanced.js:542 | ToInt32 depends only on the value modulo 2^32 |
| Hashing.Int32OfInt32 | split-test/worker-advanced.js:542 | ToInt32 leaves a 32-bit value unchanged |
| Hashing.Utf16Char | split-test/worker-advanced.js:540 | `charCodeAt` sees one or two 16-bit code units per character |
| Hashing.ShiftStep | split-test/worker-advanced.js:541-542 | `((hash << 5) - hash) + char` wrapped to int32 is `31·hash + char` wrapped to int32 |
| Hashing.ScaleCongruent | split-test/worker-advanced.js:541 | the step `31·h + c` preserves congruence modulo 2^32 |
| Hashing.HashIsWrappedPolynomial | split-test/worker-advanced.js:538-543 | the fold, wrapped at every step, equals the unbounded polynomial `Σ c_i·31^(n-1-i)` wrapped once |
| Hashing.Hash | split-test/worker-advanced.js:538-543 | the loop's hash of a string is the polynomial of its UTF-16 code units wrapped to a signed 32-bit integer |
| Hashing.ToBase36 | split-test/worker-advanced.js:544 | `toString(36)` gives at least one base-36 digit and no leading zero except for 0 |
| Hashing.Base36RoundTrip | split-test/worker-advanced.js:544 | the base-36 digits read back as the number |
| Hashing.HashString | split-test/worker-advanced.js:537-545 | the loop returns the base 36 of the absolute value of the wrapped polynomial, which is at most 2^31 |
| Hashing.EmptyHash | split-test/worker-advanced.js:537-545 | the empty string hashes to `"0"` |
| Identity.ShortIdShape | split-test/worker.js:265 | after stripping and `substring(0, 32)` the id is at most 32 ASCII letters and digits |
| Identity.GetClientId | split-test/worker.js:258-266 | `getClientId` throws exactly when the fingerprint has a character above U+00FF; otherwise its id is at most 32 letters and digits |
| Identity.GenerateClientId | split-test/test.js:217-220 | `generateClientId` never throws and gives at most 32 letters and digits |
| Identity.ClientIdsAgreeOnAscii | split-test/test.js:217-220 | on ASCII headers the test script derives the same id as the worker |
| Identity.StripAppend | split-test/worker.js:265 | stripping non-alphanumerics distributes over concatenation |
| Identity.ShortIdIgnoresTail | split-test/worker.js:265 | once whole leading groups give 32 alphanumerics, the remaining bytes do not change the id |
| Identity.GetUserId | split-test/worker-advanced.js:203-223 | the user id is never empty |
| Identity.SessionCookieWins | split-test/worker-advanced.js:208-210 | whenever the parsed cookies hold `session_id`, its value is the user id, whatever else the request holds |
| Identity.AppendedSessionWins | split-test/worker-advanced.js:205-210 | appending `; session_id=v` to any `Cookie` header makes `v` the user id |
| Identity.CustomerCookieNext | split-test/worker-advanced.js:213-215 | without `session_id`, a `customer_id` cookie decides the user id |
| Identity.FingerprintLast | split-test/worker-advanced.js:218-222 | when no piece sets either cookie, the user id is `hashString(ip:ua:lang)` |
| Identity.NoCookieHeader | split-test/worker-advanced.js:205-222 | without a `Cookie` header, the user id is `hashString(ip:ua:lang)` |
| Worker.KvNamespace.constructor | split-test/worker.js:78 | a new namespace is empty |
| Worker.KvNamespace.Put | split-test/worker.js:228-230 | `put` sets the key's value and its `expirationTtl`; a later `get` of the key returns the value and every other key reads as before |
| Worker.FindVariant | split-test/worker.js:193 | `find` succeeds iff some variant has the id, and returns one with that id |
| Worker.Resolve | split-test/worker.js:190-222 | the variant is the draw, or a listed variant named by the forced value, the cookie or the stored value; a forced value that names a listed variant wins, then such a cookie, then such a stored value |
| Worker.ResolveIsListed | split-test/worker.js:186-234 | the resolved variant is always one of the test's variants |
| Worker.UnknownFallsThrough | split-test/worker.js:191-219 | an empty or unknown forced value, cookie or stored value is skipped as if absent |
| Worker.StoredVariantSticks | split-test/worker.js:209-219 | a stored listed variant wins over any draw when no forced value or cookie names a variant |
| Worker.Lookup | split-test/worker.js:192-196 | one `if (x) find` step succeeds iff the value is truthy and names a listed variant, and returns it |
| Worker.GetVariant | split-test/worker.js:186-234 | the result is the first of forced, cookie, KV value naming a listed variant, else the draw; it fails only where `getClientId` throws; a fresh assignment is stored under `${test.id}:${clientId}` with TTL `floor(duration / 1000)`, and otherwise the store is unchanged |
| Worker.ReturningVisitor | split-test/worker.js:209-231 | with the KV store, a second request from the same client without forced value or cookie gets the variant the first was given |
| Worker.SetCookieRoundTrip | split-test/worker.js:309-317 | the cookie-pair of the `Set-Cookie` value parses back to `{cookie: variant}`, so the next request resolves through the cookie |
| Worker.SetCookieHeader | split-test/worker.js:309-317 | the `Set-Cookie` value begins with the cookie-pair `cookie=variant` and a `;` |
| Worker.SetCookieAttributes | split-test/worker.js:309-317 | for a cookie-safe name and variant, the trimmed `;`-pieces are exactly the pair, `Max-Age=floor(duration / 1000)`, `Path=/`, `SameSite=Lax` and `Secure`, in that order |
| Worker.VaryTokens | split-test/worker.js:328 | the tokens are trimmed and hold no `,` |
| Worker.TrimSub | split-test/worker.js:328 | trimming a comma-free piece gives a trimmed, comma-free token |
| Worker.JoinedTokens | split-test/worker.js:331 | joining tokens with `, ` and splitting on `,` gives the first token and the others each after one blank |
| Worker.TokensOfJoin | split-test/worker.js:328-331 | the tokens of a joined value are the tokens joined |
| Worker.TrimmedPieces | split-test/worker.js:328 | trimming the pieces of a joined value gives back the tokens |
| Worker.PieceTrims | split-test/worker.js:328 | each piece of a joined value trims back to its token |
| Worker.VaryKeptWhenListed | split-test/worker.js:329 | when the variant header is already a token, `Vary` is left as it was |
| Worker.VaryAppendsOnce | split-test/worker.js:329-331 | otherwise the tokens keep their order and the header is appended once |
| Worker.VaryIdempotent | split-test/worker.js:327-332 | updating `Vary` twice is updating it once |
| Worker.VariantHeaderIsToken | split-test/worker.js:52 | `X-AB-Variant` is a non-empty trimmed token without `,` |
| Worker.UpdatedVary | split-test/worker.js:327-332 | after `modifyResponse` the response always has a `Vary` value |
| Worker.CacheKey | split-test/worker.js:297 | the cache key begins with the path and a `:` and ends with a `:` and the variant |
| Worker.CacheKeyInjective | split-test/worker.js:297 | with test ids and variants free of `:`, `${pathname}:${test.id}:${variant}` determines all three |
| StateStore.Lookup | split-test/worker-advanced.js:38 | `storage.get` gives a value iff the key is stored, and that value is the stored one |
| StateStore.Incremented | split-test/worker-advanced.js:117-120 | a missing counter counts from 0, a number grows by exactly `amount`, and no other key changes |
| StateStore.ConfigPick | split-test/worker-advanced.js:93-115 | the advanced `assignVariant` fails exactly for a configuration without variants and otherwise returns a listed variant |
| StateStore.DefaultSplit | split-test/worker-advanced.js:95-100 | without a stored configuration, a draw below one half gives `control` and any other `variant-a` |
| StateStore.Assignment | split-test/worker-advanced.js:32-50 | the request fails exactly when no truthy assignment is stored and `assignVariant` throws; a failure changes nothing, and no key is ever removed |
| StateStore.ExistingAssignmentKept | split-test/worker-advanced.js:37-40 | a stored assignment is returned and nothing changes, whatever would be drawn |
| StateStore.FreshAssignmentCounts | split-test/worker-advanced.js:40-47 | when the pick's `assignments` counter key differs from the assignment key, a fresh assignment stores the pick, increments that counter by exactly 1, and leaves every other key alone |
| StateStore.AssignmentSticks | split-test/worker-advanced.js:32-50 | after one request answered with a truthy value, and provided the drawn variant's counter key differs from the assignment key, a second request for the same test and user returns the same value and changes nothing |
| StateStore.KeysDistinct | split-test/worker-advanced.js:37-46 | the `assignments` counter key never collides with the assignment key for a test id that has no `:` and is not `assignment` |
| StateStore.Tracked | split-test/worker-advanced.js:52-65 | tracking increments `${testId}:${variant}:${event}` by `value \|\| 1`, sets `last_event` to `now`, and changes no other key; the variant is not checked |
| StateStore.EventAmountDefault | split-test/worker-advanced.js:58 | an absent or zero `value` counts as one event |
| StateStore.CounterKeyUnderPrefix | split-test/worker-advanced.js:57-73 | every counter key of a test lies under the report prefix `${testId}:` |
| StateStore.ReportSeesTracking | split-test/worker-advanced.js:52-80 | a report after tracking an event shows the new counter and timestamp, and the rest of the report as before |
| StateStore.ResetUndoesTracking | split-test/worker-advanced.js:52-91 | tracking an event of a test and then resetting it leaves the storage a reset alone leaves |
| StateStore.ReportResetPartition | split-test/worker-advanced.js:67-91 | every key is either reported or kept by a reset, never both, and nothing is reported after a reset |
| StateStore.CollisionBreaksStickiness | split-test/worker-advanced.js:32-50 | for the test `assignment`, the variant `assignment` and the user `assignments` the two keys are equal, and the second request is answered `assignment1` instead of `assignment` |
| StateStore.ResetWipesAssignments | split-test/worker-advanced.js:82-91 | a reset of the test `assignment` deletes every test's assignment records, and a reset of `assignment:<id>` deletes those of the test `<id>` |
| StateStore.ResetKeepsAssignments | split-test/worker-advanced.js:82-91 | a reset never deletes an `assignment:` record and a report never shows one, unless the test id begins with `assignment` |
| StateStore.PrefixDiffers | split-test/worker-advanced.js:73 | `${testId}:` and `assignment:` differ at some position |
| StateStore.SplitTestState.constructor | split-test/worker-advanced.js:8-11 | a new object's storage is empty |
| StateStore.SplitTestState.IncrementCounter | split-test/worker-advanced.js:117-120 | the storage becomes `Incremented(old storage, key, amount)` |
| StateStore.SplitTestState.AssignVariant | split-test/worker-advanced.js:93-115 | returns `ConfigPick` of the stored configuration (or the default) for the draw |
| StateStore.SplitTestState.HandleAssignment | split-test/worker-advanced.js:32-50 | response and new storage are `Assignment(old storage, testId, userId, pick)` |
| StateStore.SplitTestState.HandleTracking | split-test/worker-advanced.js:52-65 | the storage becomes `Tracked(old storage, …, now)` |
| StateStore.SplitTestState.HandleReport | split-test/worker-advanced.js:67-80 | the copy loop returns exactly `Report(storage, testId)` |
| StateStore.SplitTestState.HandleReset | split-test/worker-advanced.js:82-91 | the storage becomes `Reset(old storage, testId)` |
| StateStore.SplitTestState.RepeatedAssignment | split-test/worker-advanced.js:32-50 | two assignment requests for the same test and user get the same answer, whenever no configured variant's counter key equals the assignment key |
| Stats.Tally | split-test/worker-advanced.js:494-514 | the first loop's body performs one `Step` of the fold |
| Stats.CalculateStats | split-test/worker-advanced.js:483-524 | the two loops compute `WithRates(Accumulate(data))` |
| Stats.Accumulate | split-test/worker-advanced.js:493-515 | after the first loop the totals are the sums of the `assignments` and the `conversion` values |
| Stats.VariantsListed | split-test/worker-advanced.js:498-504 | a variant is listed iff some key names it |
| Stats.Step | split-test/worker-advanced.js:494-514 | one entry lists its variant and leaves every other variant as it was |
| Stats.StepField | split-test/worker-advanced.js:506-514 | one entry sets exactly the field its metric names |
| Stats.LastEntryWins | split-test/worker-advanced.js:493-515 | `assignments` sets impressions, `conversion` sets conversions (0 when absent), and any other metric, `impression` and `last_event` included, goes into `events`, each holding the value of its last entry |
| Stats.FreshUntilSeen | split-test/worker-advanced.js:498-504 | a variant not yet listed has no entries |
| Stats.RateOfVariant | split-test/worker-advanced.js:518-521 | the rate is 0 without impressions and otherwise `conversions / impressions · 100`; the counts are kept |
| Stats.RateScales | split-test/worker-advanced.js:520 | the rate times the impressions is `conversions · 100` |
| Stats.KeyParts | split-test/worker-advanced.js:494-496 | a counter key whose parts hold no `:` splits back into its variant and metric |
| EdgeCache.CacheTtl | split-test/worker-advanced.js:246 | `cacheTtl \|\| 300`: a positive TTL, 300 when absent or zero |
| EdgeCache.SplitTestTagInjective | split-test/worker-advanced.js:229-233 | with a test id free of `:`, `${test.id}:${variant}` determines both |
| EdgeCache.KeysSeparateVariants | split-test/worker-advanced.js:248-255 | for the same test and path, different variants give different cache keys and different cache URLs |
| EdgeCache.MiddleDiffers | split-test/worker-advanced.js:248 | different middles make different strings |
| EdgeCache.EdgeCacheKeyInjective | split-test/worker-advanced.js:248 | with ids and variants free of `:`, `${test.id}:${variant}:${pathname}` determines all three |
| EdgeCache.CacheUrlInjective | split-test/worker-advanced.js:255 | with ids and variants free of `/`, the cache URL determines test, variant and path |
| EdgeCache.Cache.constructor | split-test/worker-advanced.js:259 | a new cache is empty |
| EdgeCache.Cache.Match | split-test/worker-advanced.js:262 | `cache.match` hits iff the key is stored, and returns the stored response |
| EdgeCache.Cache.FetchWithCache | split-test/worker-advanced.js:253-284 | a hit is returned as stored; a miss returns the origin response, and only an ok one is stored, with its `Cache-Control` set; the cache keeps holding only ok responses |
| EdgeCache.Fetched | split-test/worker-advanced.js:262-280 | a hit returns the stored response; a failed miss returns the origin response; an ok miss returns and stores the response with `Cache-Control: public, max-age=<ttl>`; nothing stored is replaced or removed |
| EdgeCache.CachedResponseServes | split-test/worker-advanced.js:262-280 | a failed response is never stored, a stored one serves every later request for its key, and only ok responses are ever stored |
| EdgeCache.FetchedAsWritten | split-test/worker-advanced.js:262-283 | as written, the call throws exactly on an ok miss, and whenever it returns the cache is unchanged |
| EdgeCache.AsWrittenNeverCaches | split-test/worker-advanced.js:279 | as written, every successful miss throws before storing, so the cache never gains an entry |
| EdgeCache.AdvancedVaryIdempotent | split-test/worker-advanced.js:306-309 | the updated `Vary` mentions `X-Split-Test`, begins with the old value, and a second update changes nothing |
| EdgeCache.AdvancedVarySubstring | split-test/worker-advanced.js:307 | the check is textual: any `Vary` containing `X-Split-Test`, even inside a longer name, is left as it is |
| EdgeCache.AdvancedVary | split-test/worker-advanced.js:306-309 | after `modifyResponseAdvanced` the response always has a `Vary` value |
| EdgeCache.DefaultLifetime | split-test/worker-advanced.js:292 | an absent or zero `cookieDuration` gives a 30-day `Max-Age` |
| EdgeCache.AdvancedSetCookie | split-test/worker-advanced.js:290-299 | the advanced `Set-Cookie` value begins with `split_<test id>=variant` and a `;` |
| EdgeCache.AdvancedSetCookieAttributes | split-test/worker-advanced.js:290-299 | for a cookie-safe name and variant, the trimmed `;`-pieces are exactly the pair, `Max-Age=${cookieDuration \|\| 2592000}`, `Path=/`, `SameSite=Lax`, `Secure` and `HttpOnly`, in that order |
| EdgeCache.AdvancedSetCookieRoundTrip | split-test/worker-advanced.js:290-299 | the cookie-pair of the advanced `Set-Cookie` parses back to `{split_<test id>: variant}` |
| Carousel.SwipeOf | src/assets/testimonials-carousel.js:75-91 | a swipe goes forward iff both coordinates are non-zero and start − end > 50, back iff end − start > 50, and is ignored iff a coordinate is 0 |
| Carousel.SwipeSymmetric | src/assets/testimonials-carousel.js:81-89 | swapping start and end swaps forward and back |
| Carousel.TestimonialsCarousel.constructor | src/assets/testimonials-carousel.js:2-8 | the element starts at slide 0, unlocked, with both touch coordinates 0 |
| Carousel.TestimonialsCarousel.UpdateButtons | src/assets/testimonials-carousel.js:119-127 | prev is disabled iff the current slide is 0 and next iff it is the last; a missing button is not written |
| Carousel.TestimonialsCarousel.UpdateDots | src/assets/testimonials-carousel.js:129-141 | exactly the dot at the current slide is marked current |
| Carousel.TestimonialsCarousel.UpdateAriaAttributes | src/assets/testimonials-carousel.js:143-153 | exactly the current slide is shown and not inert |
| Carousel.TestimonialsCarousel.GoToSlide | src/assets/testimonials-carousel.js:105-117 | a no-op while locked or for the current slide; otherwise it moves to the (unchecked) target, takes the lock, and redraws buttons, dots, slides and the `-100·index` offset; a missing button's flag, the touch coordinates and the listeners are never touched; the track must exist |
| Carousel.TestimonialsCarousel.PreviousSlide | src/assets/testimonials-carousel.js:93-97 | goes back one slide only above slide 0 and when unlocked, so it keeps the index in range; a move takes the lock and syncs everything drawn, leaving the touch coordinates, the listeners and a missing button's flag as they were; any other call changes nothing |
| Carousel.TestimonialsCarousel.NextSlide | src/assets/testimonials-carousel.js:99-103 | goes forward one slide only below the last and when unlocked, so it keeps the index in range; a move takes the lock and syncs everything drawn, leaving the touch coordinates, the listeners and a missing button's flag as they were; any other call changes nothing |
| Carousel.TestimonialsCarousel.TransitionEnd | src/assets/testimonials-carousel.js:50-52 | `transitionend` releases the lock and changes nothing else |
| Carousel.TestimonialsCarousel.HandleTouchStart | src/assets/testimonials-carousel.js:67-69 | records the start coordinate only |
| Carousel.TestimonialsCarousel.HandleTouchMove | src/assets/testimonials-carousel.js:71-73 | records the end coordinate only |
| Carousel.TestimonialsCarousel.HandleTouchEnd | src/assets/testimonials-carousel.js:75-91 | navigates as `SwipeOf` says, resets both coordinates to 0 except on the early return, and keeps the index in range; a move leaves the lock taken and everything drawn synced, and a swipe that does not move leaves buttons, dots, slides and offset as they were; the listeners and a missing button's flag are never touched |
| Carousel.TestimonialsCarousel.HandleKeydown | src/assets/testimonials-carousel.js:55-65 | while hovered or focused, ArrowLeft goes back and ArrowRight forward; a move leaves the lock taken and everything drawn synced, with the touch coordinates, the listeners and a missing button's flag as they were, and a key that does not move changes nothing |
| Carousel.TestimonialsCarousel.Init | src/assets/testimonials-carousel.js:22-26 | attaches the listeners and syncs the buttons; from slide 0 `goToSlide(0)` changes nothing more; from another slide it returns to slide 0, takes the transition lock and syncs everything when unlocked, and leaves slide, lock, offset, dots and slides as they were when locked; the touch coordinates and a missing button's flag stay |
| Carousel.TestimonialsCarousel.ConnectedCallback | src/assets/testimonials-carousel.js:10-20 | nothing is set up without a track or with at most one slide; otherwise `init` runs, with the same outcome as `Init` for slide 0, another slide unlocked (back to slide 0 with the lock taken and everything synced), and a locked carousel |
| Carousel.FirstSwipes | src/assets/testimonials-carousel.js:75-117 | on a fresh carousel, init stays at slide 0, a left swipe moves to slide 1, a swipe during the transition does nothing, and a short swipe does nothing |

## Left out

- HTTP plumbing is not modelled, because it is I/O glue. This covers:
  - `fetch` and the construction of `Request`, `Response` and `Headers`;
  - the `URL` query rewriting of `modifyRequest` and `modifyRequestAdvanced`;
  - the timing, edge and debug headers.

  Headers and keys are plain strings, and the origin response is a parameter.
- The routers are not modelled: `handleRequest` in both workers, the `SplitTestState.fetch` path switch, `handleAPI` and `handleConfigAPI`. They route requests to the modelled operations.
- `getActiveTest` of worker-advanced.js is not modelled, because it matches paths with `new RegExp`, and regular-expression semantics are outside the model.
- `getVariantAdvanced` is not modelled, because it only forwards to the Durable Object.
- The analytics calls (`trackAssignment`, `trackImpression`) and `injectTrackingScript` are left out, because they are network I/O and HTML text.
- `Math.random()` and `Date.now()` are parameters (`u` and `now`), because they are randomness and a clock.
- The platform's concurrency is left out, because each object is modelled as one sequential store. This covers:
  - serialisation of the Durable Object;
  - `ctx.waitUntil` and `event.waitUntil` fire-and-forget;
  - a concurrent update between the read and the write of `incrementCounter`.
- KV expiry is not modelled, because it is time-driven. The TTL written is recorded.
- The platform cache is keyed by the cache URL alone, because request-method and header matching are platform behaviour.
- Stats.RateOfVariant: the rate is an exact rational, not the `toFixed(2)` string, because that rounding is floating point. The percentages printed by test.js are not modelled either.
- The console output of test.js is not modelled, because it only prints. The fixtures become lemmas.
- Strings.Lower: only ASCII letters are lower-cased, while `toLowerCase` maps all of Unicode. The bot fragments and agents involved are ASCII.
- Strings are sequences of Unicode scalar values, so lone surrogates cannot occur. `hashString` hashes their UTF-16 code units explicitly.
- JavaScript object quirks are not modelled:
  - prototype-named keys such as `__proto__`, which `parseCookies` and `calculateStats` would treat specially;
  - integer-like keys, which `Object.entries` lists first.

  `calculateStats` takes its entries in iteration order, as a sequence of string keys and integer values.
- Sampler.Variant, StateStore.EventAmount, StateStore.Tracked, StateStore.SplitTestState.HandleTracking, EdgeCache.CacheTtl and EdgeCache.CookieMaxAge narrow JavaScript numbers: weights, TTLs and cookie lifetimes are natural numbers and a tracked `value` is an integer. A stored configuration with fractional or negative weights, a fractional `value` added in floating point, or a string `value` (which `value || 1` passes on, so that `0 + "5"` stores `"05"`) are outside the model.
- Stats.CalculateStats: values are integers. A stored string value, which would be concatenated rather than added, is modelled only in `StateStore.Add`.
- Carousel.TestimonialsCarousel.GoToSlide, PreviousSlide, NextSlide, HandleTouchEnd, HandleKeydown and Init require the track. Without it the source throws a `TypeError`: `goToSlide` throws at `this.track.style` after it has taken the lock and moved `currentSlide`, and `setupEventListeners` throws at `this.track.addEventListener`. The model does not represent that half-done move. `hasTrack` is also fixed at construction, so a track removed between two connections, with listeners from the first `init` still attached, is outside the model.
- Sampler.AssignVariant and Worker.GetVariant require a non-empty variant list, where `variants[0].id` on an empty list would throw. Every configured test has variants.
- Worker.ReturningVisitor and StateStore.SplitTestState.RepeatedAssignment require non-empty variant ids. An empty id is falsy in JavaScript and would not be found again. RepeatedAssignment also requires that no configured variant's counter key equals the assignment key, because where they are equal the answer is not sticky (see "Key collision" above).
- Carousel: the DOM is modelled by the flags it writes. This leaves out:
  - event-listener registration and `querySelector`;
  - the `classList` class names and `customElements.define`.

  The dot-click handler passes `parseInt` of the dot's attribute to `goToSlide` unchecked. The model allows any integer index, but not `NaN`.
- Carousel.TestimonialsCarousel.HandleTouchStart and HandleTouchMove: `screenX` is an integer here, whereas the browser gives a possibly fractional number.
- The configuration in tailwind.config.js is not modelled, because it is static build configuration with no logic.

## Findings

| source | as written | input that shows it | evidently intended | confidence | as-written member | corrected member |
|---|---|---|---|---|---|---|
| split-test/worker-advanced.js:279 | `fetchWithCache(request, test, variant, env)` stores a successful response through `ctx.waitUntil(...)`, but `ctx` is not a parameter of this function or in scope, so the call throws a `ReferenceError` | any cache miss whose origin response is ok (status 200–299) | the ok response is stored under the cache URL (with `ctx` passed in) and returned | not executed | EdgeCache.AsWrittenNeverCaches | EdgeCache.Cache.FetchWithCache |
