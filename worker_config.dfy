/**
 * The configuration object `CONFIG` of split-test/worker.js: the test
 * definitions in their configured order and the global settings.
 */
module WorkerConfig {
  import opened Sampler

  /**
   * One entry of `CONFIG.tests`, with its key as `id` (the object that
   * `findApplicableTest` returns is `{ id: testId, ...test }`).
   * `durationMs` is the cookie and KV lifetime in milliseconds.
   */
  datatype TestDefinition = TestDefinition(
    id: string,
    enabled: bool,
    variants: seq<Variant>,
    paths: seq<string>,
    excludePaths: seq<string>,
    cookie: string,
    durationMs: nat)

  const ThirtyDaysMs: nat := 30 * 24 * 60 * 60 * 1000

  /** `CONFIG.tests`, in the order `Object.entries` lists it. */
  const Tests: seq<TestDefinition> := [
    TestDefinition("homepage-hero", true,
      [Variant("control", 50), Variant("variant-a", 25), Variant("variant-b", 25)],
      ["/"], [], "ab_homepage_hero", ThirtyDaysMs),
    TestDefinition("product-layout", false,
      [Variant("control", 80), Variant("variant-a", 20)],
      ["/products/*"], [], "ab_product_layout", ThirtyDaysMs),
    TestDefinition("checkout-flow", false,
      [Variant("control", 90), Variant("variant-a", 10)],
      ["/checkout", "/cart"], [], "ab_checkout_flow", ThirtyDaysMs)
  ]

  /** `CONFIG.settings.variantHeader` */
  const VariantHeader: string := "X-AB-Variant"

  /** `CONFIG.settings.forceParam` */
  const ForceParam: string := "ab_variant"

  /** `CONFIG.settings.variantParam` */
  const VariantParam: string := "variant"

  /** `CONFIG.settings.botAgents` */
  const BotAgents: seq<string> := ["bot", "crawler", "spider", "scraper", "facebookexternalhit",
                                   "linkedinbot", "whatsapp", "slack", "telegram", "discord"]

  /** `CONFIG.settings.globalExcludePaths` */
  const GlobalExcludePaths: seq<string> := ["/admin", "/account", "/.well-known", "/policies"]
}
