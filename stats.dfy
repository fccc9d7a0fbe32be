/**
 * `calculateStats(data)` of split-test/worker-advanced.js: the report of a
 * test's counters, keyed `testId:variant:metric`, folded into per-variant
 * impressions, conversions and other events, with totals and a conversion
 * rate per variant.
 */
module Stats {
  import opened Strings
  import opened Optional

  datatype VariantStats = VariantStats(impressions: int, conversions: int, events: map<string, int>, conversionRate: real)

  datatype Stats = Stats(variants: map<string, VariantStats>, totalImpressions: int, totalConversions: int)

  /** `parts[i]`, which renders as the key `undefined` when the key has fewer parts. */
  function Part(parts: seq<string>, i: nat): string {
    if i < |parts| then parts[i] else "undefined"
  }

  /** `key.split(':')[1]` */
  function VariantOf(key: string): string {
    Part(Split(key, ':'), 1)
  }

  /** `key.split(':')[2]` */
  function MetricOf(key: string): string {
    Part(Split(key, ':'), 2)
  }

  /** The entry created the first time a variant is seen. */
  const Fresh: VariantStats := VariantStats(0, 0, map[], 0.0)

  /** One iteration of the first loop, for the entry `key: value`: it lists the entry's variant and keeps every other. */
  function Step(stats: Stats, key: string, value: int): (r: Stats)
    ensures r.variants.Keys == stats.variants.Keys + {VariantOf(key)}
    ensures forall w :: w in stats.variants && w != VariantOf(key) ==> r.variants[w] == stats.variants[w]
  {
    var variant := VariantOf(key);
    var metric := MetricOf(key);
    var v := if variant in stats.variants then stats.variants[variant] else Fresh;
    if metric == "assignments" then
      stats.(variants := stats.variants[variant := v.(impressions := value)],
             totalImpressions := stats.totalImpressions + value)
    else if metric == "conversion" then
      stats.(variants := stats.variants[variant := v.(conversions := value)],
             totalConversions := stats.totalConversions + value)
    else
      stats.(variants := stats.variants[variant := v.(events := v.events[metric := value])])
  }

  /**
   * The statistics after the first loop has visited `data` in order; the
   * totals are the sums over all `assignments` and all `conversion` entries.
   */
  function Accumulate(data: seq<(string, int)>): (r: Stats)
    ensures r.totalImpressions == SumOf(data, "assignments")
    ensures r.totalConversions == SumOf(data, "conversion")
  {
    if |data| == 0 then Stats(map[], 0, 0)
    else Step(Accumulate(data[..|data| - 1]), data[|data| - 1].0, data[|data| - 1].1)
  }

  /** `v.impressions > 0 ? v.conversions / v.impressions * 100 : 0`, before rounding. */
  function Rate(v: VariantStats): real {
    if v.impressions > 0 then v.conversions as real / v.impressions as real * 100.0 else 0.0
  }

  /** The statistics after the second loop has set every variant's rate. */
  function WithRates(stats: Stats): Stats {
    stats.(variants := map k | k in stats.variants :: stats.variants[k].(conversionRate := Rate(stats.variants[k])))
  }

  /** The body of the first loop of `calculateStats`, for the entry `key: value`. */
  method Tally(stats: Stats, key: string, value: int) returns (next: Stats)
    ensures next == Step(stats, key, value)
  {
    var parts := Split(key, ':');
    var variant := Part(parts, 1);
    var metric := Part(parts, 2);
    assert variant == VariantOf(key) && metric == MetricOf(key);

    next := stats;
    if variant !in next.variants {
      next := next.(variants := next.variants[variant := Fresh]);
    }

    var v := next.variants[variant];
    if metric == "assignments" {
      next := next.(variants := next.variants[variant := v.(impressions := value)]);
      next := next.(totalImpressions := next.totalImpressions + value);
    } else if metric == "conversion" {
      next := next.(variants := next.variants[variant := v.(conversions := value)]);
      next := next.(totalConversions := next.totalConversions + value);
    } else {
      next := next.(variants := next.variants[variant := v.(events := v.events[metric := value])]);
    }
  }

  /** `calculateStats(data)`, with the entries of `data` in iteration order. */
  method CalculateStats(data: seq<(string, int)>) returns (stats: Stats)
    ensures stats == WithRates(Accumulate(data))
  {
    stats := Stats(map[], 0, 0);
    for i := 0 to |data|
      invariant stats == Accumulate(data[..i])
    {
      assert data[..i + 1][..i] == data[..i];
      var (key, value) := data[i];
      assert Accumulate(data[..i + 1]) == Step(stats, key, value);
      stats := Tally(stats, key, value);
    }
    assert data[..|data|] == data;

    ghost var counted := stats;
    var remaining := stats.variants.Keys;
    while remaining != {}
      invariant remaining <= counted.variants.Keys
      invariant stats.totalImpressions == counted.totalImpressions
      invariant stats.totalConversions == counted.totalConversions
      invariant stats.variants.Keys == counted.variants.Keys
      invariant forall k :: k in counted.variants ==>
                  stats.variants[k] == if k in remaining then counted.variants[k]
                                       else counted.variants[k].(conversionRate := Rate(counted.variants[k]))
      decreases remaining
    {
      var variant :| variant in remaining;
      var v := stats.variants[variant];
      assert v == counted.variants[variant];
      v := v.(conversionRate := if v.impressions > 0 then v.conversions as real / v.impressions as real * 100.0 else 0.0);
      assert v == counted.variants[variant].(conversionRate := Rate(counted.variants[variant]));
      stats := stats.(variants := stats.variants[variant := v]);
      remaining := remaining - {variant};
    }
    assert stats.variants == WithRates(counted).variants;
  }

  /** The sum of the values whose key has the metric `metric`. */
  function SumOf(data: seq<(string, int)>, metric: string): int {
    if |data| == 0 then 0
    else SumOf(data[..|data| - 1], metric) + (if MetricOf(data[|data| - 1].0) == metric then data[|data| - 1].1 else 0)
  }

  /** The value of the last entry for `variant` and `metric`, if there is one. */
  function LastValue(data: seq<(string, int)>, variant: string, metric: string): Option<int> {
    if |data| == 0 then None
    else if VariantOf(data[|data| - 1].0) == variant && MetricOf(data[|data| - 1].0) == metric then Some(data[|data| - 1].1)
    else LastValue(data[..|data| - 1], variant, metric)
  }

  /** A variant is listed exactly when some key names it. */
  lemma {:induction false} VariantsListed(data: seq<(string, int)>, variant: string)
    ensures variant in Accumulate(data).variants <==> exists i :: 0 <= i < |data| && VariantOf(data[i].0) == variant
  {
    if |data| > 0 {
      var init := data[..|data| - 1];
      var last := data[|data| - 1];
      VariantsListed(init, variant);
      if exists i :: 0 <= i < |init| && VariantOf(init[i].0) == variant {
        var i :| 0 <= i < |init| && VariantOf(init[i].0) == variant;
        assert data[i] == init[i];
      }
      if exists i :: 0 <= i < |data| && VariantOf(data[i].0) == variant {
        var i :| 0 <= i < |data| && VariantOf(data[i].0) == variant;
        if i < |init| {
          assert init[i] == data[i];
        }
      }
    }
  }

  /** One step sets exactly the field the entry's metric names. */
  lemma StepField(stats: Stats, key: string, value: int, metric: string)
    ensures var before := if VariantOf(key) in stats.variants then stats.variants[VariantOf(key)] else Fresh;
            var after := Step(stats, key, value).variants[VariantOf(key)];
            var hit := MetricOf(key) == metric;
            (metric == "assignments" ==> after.impressions == if hit then value else before.impressions)
            && (metric == "conversion" ==> after.conversions == if hit then value else before.conversions)
            && (metric != "assignments" && metric != "conversion" ==>
                  (metric in after.events <==> hit || metric in before.events)
                  && (hit || metric in before.events ==> after.events[metric] == if hit then value else before.events[metric]))
  {
  }

  /**
   * Every metric of a listed variant holds the value of its last entry:
   * `assignments` as the impressions, `conversion` as the conversions (0
   * when there is none), any other metric, `impression` and `last_event`
   * included, in the events.
   */
  lemma {:induction false} LastEntryWins(data: seq<(string, int)>, variant: string, metric: string)
    requires variant in Accumulate(data).variants
    ensures var v := Accumulate(data).variants[variant];
            var last := LastValue(data, variant, metric);
            (metric == "assignments" ==> v.impressions == if last.Some? then last.value else 0)
            && (metric == "conversion" ==> v.conversions == if last.Some? then last.value else 0)
            && (metric != "assignments" && metric != "conversion" ==>
                  (metric in v.events <==> last.Some?) && (last.Some? ==> v.events[metric] == last.value))
  {
    var init := data[..|data| - 1];
    var entry := data[|data| - 1];
    if variant in Accumulate(init).variants {
      LastEntryWins(init, variant, metric);
    } else {
      FreshUntilSeen(init, variant, metric);
    }
    if VariantOf(entry.0) == variant {
      StepField(Accumulate(init), entry.0, entry.1, metric);
    }
  }

  /** Before a variant is first seen it has no entries. */
  lemma {:induction false} FreshUntilSeen(data: seq<(string, int)>, variant: string, metric: string)
    requires variant !in Accumulate(data).variants
    ensures LastValue(data, variant, metric).None?
  {
    if |data| > 0 {
      FreshUntilSeen(data[..|data| - 1], variant, metric);
    }
  }

  /** A variant without impressions has rate 0; otherwise the rate is conversions per impression, in percent. */
  lemma RateOfVariant(stats: Stats, variant: string)
    requires variant in stats.variants
    ensures variant in WithRates(stats).variants
    ensures var v := WithRates(stats).variants[variant];
            v.impressions == stats.variants[variant].impressions
            && v.conversions == stats.variants[variant].conversions
            && v.events == stats.variants[variant].events
            && (v.impressions <= 0 ==> v.conversionRate == 0.0)
            && (v.impressions > 0 ==> v.conversionRate * v.impressions as real == v.conversions as real * 100.0)
  {
    var v := stats.variants[variant];
    assert WithRates(stats).variants[variant] == v.(conversionRate := Rate(v));
    RateScales(v);
  }

  lemma RateScales(v: VariantStats)
    ensures v.impressions <= 0 ==> Rate(v) == 0.0
    ensures v.impressions > 0 ==> Rate(v) * v.impressions as real == v.conversions as real * 100.0
  {
    if v.impressions > 0 {
      var c := v.conversions as real;
      var i := v.impressions as real;
      assert c / i * i == c;
      assert Rate(v) == c / i * 100.0;
      assert c / i * 100.0 * i == c / i * i * 100.0;
    }
  }

  /** The parts of a counter key whose test id and variant have no `:`. */
  lemma KeyParts(testId: string, variant: string, metric: string)
    requires ':' !in testId && ':' !in variant && ':' !in metric
    ensures VariantOf(testId + ":" + variant + ":" + metric) == variant
    ensures MetricOf(testId + ":" + variant + ":" + metric) == metric
  {
    var key := testId + ":" + variant + ":" + metric;
    assert key == testId + [':'] + (variant + [':'] + metric);
    SplitAtSeparator(testId, ':', variant + [':'] + metric);
    SplitAtSeparator(variant, ':', metric);
    SplitWithoutSeparator(testId, ':');
    SplitWithoutSeparator(variant, ':');
    SplitWithoutSeparator(metric, ':');
  }
}
