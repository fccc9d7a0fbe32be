/**
 * The weighted sampler `assignVariant`, which appears with the same body in
 * split-test/worker.js, split-test/worker-advanced.js and split-test/test.js.
 *
 * The uniform value `Math.random()` is the parameter `u`; the draw that the
 * loop compares against is `u * totalWeight`. Weights are natural numbers.
 */
module Sampler {

  datatype Variant = Variant(id: string, weight: nat)

  /** `variants.reduce((sum, v) => sum + v.weight, 0)` */
  function Total(vs: seq<Variant>): nat {
    if |vs| == 0 then 0 else Total(vs[..|vs| - 1]) + vs[|vs| - 1].weight
  }

  /** The running sum after the first `k` variants. */
  function Cumulative(vs: seq<Variant>, k: nat): nat
    requires k <= |vs|
  {
    Total(vs[..k])
  }

  lemma CumulativeStep(vs: seq<Variant>, k: nat)
    requires k < |vs|
    ensures Cumulative(vs, k + 1) == Cumulative(vs, k) + vs[k].weight
  {
    assert vs[..k + 1][..k] == vs[..k];
  }

  lemma {:induction false} CumulativeMonotone(vs: seq<Variant>, j: nat, k: nat)
    requires j <= k <= |vs|
    ensures Cumulative(vs, j) <= Cumulative(vs, k)
  {
    if j < k {
      CumulativeStep(vs, k - 1);
      CumulativeMonotone(vs, j, k - 1);
    }
  }

  lemma CumulativeAll(vs: seq<Variant>)
    ensures Cumulative(vs, |vs|) == Total(vs)
  {
    assert vs[..|vs|] == vs;
  }

  /** Variant `i` is one whose cumulative weight exceeds the draw `r`. */
  predicate Exceeds(vs: seq<Variant>, r: real, i: nat)
    requires i < |vs|
  {
    r < Cumulative(vs, i + 1) as real
  }

  /** The scan of the loop from position `i` on, with the fallback to position 0. */
  function ScanFrom(vs: seq<Variant>, r: real, i: nat): (k: nat)
    requires i <= |vs|
    ensures |vs| > 0 ==> k < |vs|
    decreases |vs| - i
  {
    if i == |vs| then 0
    else if Exceeds(vs, r, i) then i
    else ScanFrom(vs, r, i + 1)
  }

  /** The position of the variant the sampler picks for the draw `r`. */
  function PickIndex(vs: seq<Variant>, r: real): (k: nat)
    ensures |vs| > 0 ==> k < |vs|
  {
    ScanFrom(vs, r, 0)
  }

  lemma {:induction false} ScanFromFirst(vs: seq<Variant>, r: real, i: nat)
    requires i <= |vs|
    ensures ScanFrom(vs, r, i) == i <== (i < |vs| && Exceeds(vs, r, i))
    ensures (exists j :: i <= j < |vs| && Exceeds(vs, r, j)) ==>
              i <= ScanFrom(vs, r, i) < |vs| && Exceeds(vs, r, ScanFrom(vs, r, i))
              && forall j :: i <= j < ScanFrom(vs, r, i) ==> !Exceeds(vs, r, j)
    ensures (forall j :: i <= j < |vs| ==> !Exceeds(vs, r, j)) ==> ScanFrom(vs, r, i) == 0
    decreases |vs| - i
  {
    if i < |vs| && !Exceeds(vs, r, i) {
      ScanFromFirst(vs, r, i + 1);
      if exists j :: i <= j < |vs| && Exceeds(vs, r, j) {
        var j :| i <= j < |vs| && Exceeds(vs, r, j);
        assert i + 1 <= j;
      }
    }
  }

  /**
   * The sampler returns the first variant whose cumulative weight exceeds the
   * draw, and the first variant when there is none (for instance when every
   * weight is 0 or the draw is at least the total).
   */
  lemma PickIndexIsFirstExceeding(vs: seq<Variant>, r: real, i: nat)
    requires i < |vs|
    ensures PickIndex(vs, r) == i <==>
              ((Exceeds(vs, r, i) && forall j :: 0 <= j < i ==> !Exceeds(vs, r, j))
               || (i == 0 && forall j :: 0 <= j < |vs| ==> !Exceeds(vs, r, j)))
  {
    ScanFromFirst(vs, r, 0);
  }

  /**
   * For a draw in `[0, total)`, variant `i` is picked exactly when the draw
   * lies in `[Cumulative(i), Cumulative(i + 1))`.
   */
  lemma PickIndexInterval(vs: seq<Variant>, r: real, i: nat)
    requires i < |vs|
    requires 0.0 <= r < Total(vs) as real
    ensures PickIndex(vs, r) == i <==>
              Cumulative(vs, i) as real <= r < Cumulative(vs, i + 1) as real
  {
    CumulativeAll(vs);
    assert Exceeds(vs, r, |vs| - 1);
    PickIndexIsFirstExceeding(vs, r, i);
    if PickIndex(vs, r) == i && i > 0 {
      assert !Exceeds(vs, r, i - 1);
    }
    if Cumulative(vs, i) as real <= r < Cumulative(vs, i + 1) as real {
      forall j | 0 <= j < i ensures !Exceeds(vs, r, j) {
        CumulativeMonotone(vs, j + 1, i);
      }
    }
  }

  /** The number of integer draws `d` in `[0, n)` that pick variant `i`. */
  function CountPicks(vs: seq<Variant>, i: nat, n: nat): nat {
    if n == 0 then 0
    else CountPicks(vs, i, n - 1) + (if PickIndex(vs, (n - 1) as real) == i then 1 else 0)
  }

  lemma {:induction false} CountPicksPrefix(vs: seq<Variant>, i: nat, n: nat)
    requires i < |vs| && n <= Total(vs)
    ensures CountPicks(vs, i, n) ==
              if n <= Cumulative(vs, i) then 0
              else if n <= Cumulative(vs, i + 1) then n - Cumulative(vs, i)
              else vs[i].weight
  {
    CumulativeStep(vs, i);
    if n > 0 {
      CountPicksPrefix(vs, i, n - 1);
      PickIndexInterval(vs, (n - 1) as real, i);
    }
  }

  /**
   * The exact form of the distribution check: of the `total` integer draws
   * `0, 1, ..., total - 1`, exactly `weight(i)` pick variant `i`.
   */
  lemma CountPicksIsWeight(vs: seq<Variant>, i: nat)
    requires i < |vs|
    ensures CountPicks(vs, i, Total(vs)) == vs[i].weight
  {
    CountPicksPrefix(vs, i, Total(vs));
    CumulativeStep(vs, i);
    CumulativeMonotone(vs, i + 1, |vs|);
    CumulativeAll(vs);
  }

  /** `Math.random() * totalWeight` for the uniform value `u` */
  function Draw(vs: seq<Variant>, u: real): real {
    u * Total(vs) as real
  }

  /** `assignVariant(variants)` with `Math.random()` given as `u`. */
  method AssignVariant(variants: seq<Variant>, u: real) returns (id: string)
    requires |variants| > 0
    ensures id == variants[PickIndex(variants, Draw(variants, u))].id
  {
    var totalWeight := 0;
    for k := 0 to |variants|
      invariant totalWeight == Cumulative(variants, k)
    {
      CumulativeStep(variants, k);
      totalWeight := totalWeight + variants[k].weight;
    }
    CumulativeAll(variants);
    assert totalWeight == Total(variants);
    var random := u * totalWeight as real;
    assert random == Draw(variants, u);
    ghost var k := PickIndex(variants, random);

    var cumulative := 0;
    for i := 0 to |variants|
      invariant cumulative == Cumulative(variants, i)
      invariant ScanFrom(variants, random, i) == k
    {
      CumulativeStep(variants, i);
      cumulative := cumulative + variants[i].weight;
      if random < cumulative as real {
        return variants[i].id;
      }
    }

    // Fallback to the first variant
    assert k == ScanFrom(variants, random, |variants|) == 0;
    return variants[0].id;
  }
}
