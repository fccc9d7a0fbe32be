/**
 * `hashString(str)` of split-test/worker-advanced.js: the 31·h + c hash of
 * the string's UTF-16 code units, kept to a signed 32-bit integer at each
 * step by `hash & hash`, rendered as the base-36 digits of its absolute value.
 */
module Hashing {

  const TwoTo32: int := 0x1_0000_0000
  const TwoTo31: int := 0x8000_0000

  /** ECMAScript ToInt32: the value congruent to `x` modulo 2^32 in [-2^31, 2^31). */
  function Int32(x: int): (r: int)
    ensures -TwoTo31 <= r < TwoTo31
    ensures (r - x) % TwoTo32 == 0
  {
    (x + TwoTo31) % TwoTo32 - TwoTo31
  }

  /** ToInt32 depends only on the value modulo 2^32. */
  lemma Int32Congruent(x: int, y: int)
    requires (x - y) % TwoTo32 == 0
    ensures Int32(x) == Int32(y)
  {
    var k := (x - y) / TwoTo32;
    assert x == y + k * TwoTo32;
    assert (x + TwoTo31) % TwoTo32 == (y + TwoTo31 + k * TwoTo32) % TwoTo32;
    ModAddMultiple(y + TwoTo31, k);
  }

  lemma ModAddMultiple(a: int, k: int)
    ensures (a + k * TwoTo32) % TwoTo32 == a % TwoTo32
  {
    var q := a / TwoTo32;
    var r := a % TwoTo32;
    assert a + k * TwoTo32 == (q + k) * TwoTo32 + r;
  }

  /** ToInt32 of a 32-bit value is that value. */
  lemma Int32OfInt32(x: int)
    requires -TwoTo31 <= x < TwoTo31
    ensures Int32(x) == x
  {
  }

  /** The UTF-16 code units of one scalar value: one unit, or a surrogate pair. */
  function Utf16Char(c: char): (units: seq<nat>)
    ensures 1 <= |units| <= 2 && forall k :: 0 <= k < |units| ==> units[k] < 0x10000
  {
    var n := c as int;
    if n < 0x10000 then [n]
    else [0xD800 + (n - 0x10000) / 1024, 0xDC00 + (n - 0x10000) % 1024]
  }

  /** The code units `charCodeAt` reads, in order. */
  function Utf16Units(s: string): seq<nat> {
    if |s| == 0 then [] else Utf16Char(s[0]) + Utf16Units(s[1..])
  }

  /** The hash after the code units `units`, from 0. */
  function HashUnits(units: seq<nat>): int {
    if |units| == 0 then 0
    else Int32(31 * HashUnits(units[..|units| - 1]) + units[|units| - 1])
  }

  /** The sum of `units[i] · 31^(n-1-i)` in unbounded integers (Horner form). */
  function Polynomial(units: seq<nat>): int {
    if |units| == 0 then 0
    else 31 * Polynomial(units[..|units| - 1]) + units[|units| - 1]
  }

  /** The wrapped fold equals the wrapped polynomial: the step wraps lose nothing. */
  lemma {:induction false} HashIsWrappedPolynomial(units: seq<nat>)
    ensures HashUnits(units) == Int32(Polynomial(units))
  {
    if |units| > 0 {
      var init := units[..|units| - 1];
      var c := units[|units| - 1];
      HashIsWrappedPolynomial(init);
      var h := HashUnits(init);
      var p := Polynomial(init);
      ScaleCongruent(h, p, c);
      Int32Congruent(31 * h + c, 31 * p + c);
    }
  }

  lemma ScaleCongruent(h: int, p: int, c: int)
    requires (h - p) % TwoTo32 == 0
    ensures ((31 * h + c) - (31 * p + c)) % TwoTo32 == 0
  {
    var k := (h - p) / TwoTo32;
    assert h - p == k * TwoTo32;
    assert (31 * h + c) - (31 * p + c) == 0 + (31 * k) * TwoTo32;
    ModAddMultiple(0, 31 * k);
  }

  /** The step `hash = ((hash << 5) - hash) + char; hash = hash & hash` is Int32(31·hash + char). */
  lemma ShiftStep(hash: int, c: nat)
    requires -TwoTo31 <= hash < TwoTo31
    ensures Int32(Int32(hash * 32) - hash + c) == Int32(31 * hash + c)
  {
    var s := Int32(hash * 32);
    var k := (s - hash * 32) / TwoTo32;
    assert s - hash * 32 == k * TwoTo32;
    assert (s - hash + c) - (31 * hash + c) == 0 + k * TwoTo32;
    ModAddMultiple(0, k);
    Int32Congruent(s - hash + c, 31 * hash + c);
  }

  /** The digit characters of `toString(36)`. */
  function Digit36(d: nat): (c: char)
    requires d < 36
  {
    if d < 10 then ('0' as int + d) as char else ('a' as int + (d - 10)) as char
  }

  function Digit36Value(c: char): (d: int) {
    if '0' <= c <= '9' then c as int - '0' as int
    else if 'a' <= c <= 'z' then c as int - 'a' as int + 10
    else -1
  }

  /** `n.toString(36)` for a non-negative integer: no leading zero except for 0 itself. */
  function ToBase36(n: nat): (s: string)
    ensures |s| >= 1
    ensures forall k :: 0 <= k < |s| ==> 0 <= Digit36Value(s[k]) < 36
    ensures s[0] == '0' ==> n == 0
  {
    if n < 36 then [Digit36(n)] else ToBase36(n / 36) + [Digit36(n % 36)]
  }

  /** Reading base-36 digits back. */
  function FromBase36(s: string): int {
    if |s| == 0 then 0 else 36 * FromBase36(s[..|s| - 1]) + Digit36Value(s[|s| - 1])
  }

  lemma {:induction false} Base36RoundTrip(n: nat)
    ensures FromBase36(ToBase36(n)) == n
  {
    if n >= 36 {
      var s := ToBase36(n);
      Base36RoundTrip(n / 36);
      assert s[..|s| - 1] == ToBase36(n / 36);
    }
  }

  /** The hash of a string: the fold over its code units, which is their polynomial wrapped to 32 bits. */
  function Hash(s: string): (h: int)
    ensures h == Int32(Polynomial(Utf16Units(s)))
    ensures -TwoTo31 <= h < TwoTo31
  {
    HashIsWrappedPolynomial(Utf16Units(s));
    HashUnits(Utf16Units(s))
  }

  function Abs(x: int): nat {
    if x < 0 then -x else x
  }

  /** What `hashString` returns for `s`. */
  function HashText(s: string): string {
    ToBase36(Abs(Hash(s)))
  }

  /** `hashString(str)` */
  method HashString(str: string) returns (r: string)
    ensures r == ToBase36(Abs(Int32(Polynomial(Utf16Units(str)))))
    ensures FromBase36(r) == Abs(Hash(str)) <= TwoTo31
  {
    var units := Utf16Units(str);
    var hash := 0;
    for i := 0 to |units|
      invariant hash == HashUnits(units[..i])
    {
      assert units[..i + 1][..i] == units[..i];
      var code := units[i];
      ShiftStep(hash, code);
      hash := (Int32(hash * 32) - hash) + code;
      hash := Int32(hash);
    }
    assert units[..|units|] == units;
    HashIsWrappedPolynomial(units);
    r := ToBase36(if hash < 0 then -hash else hash);
    Base36RoundTrip(Abs(hash));
  }

  /** The empty string hashes to `"0"`. */
  lemma EmptyHash()
    ensures HashText("") == "0"
  {
  }
}
