/**
 * String operations with the semantics of the JavaScript built-ins the
 * workers use: `startsWith`, `includes`, `split` on one character, `join`,
 * `trim`, ASCII `toLowerCase`, and the decimal rendering of integers.
 * Strings are sequences of Unicode scalar values.
 */
module Strings {

  /** `s.startsWith(p)` */
  predicate StartsWith(s: string, p: string) {
    |p| <= |s| && s[..|p|] == p
  }

  /** `p` occurs in `s` at index `i` */
  predicate OccursAt(s: string, p: string, i: int) {
    0 <= i && i + |p| <= |s| && s[i..i + |p|] == p
  }

  /** `s.includes(p)` */
  predicate Contains(s: string, p: string) {
    exists i :: 0 <= i <= |s| - |p| && OccursAt(s, p, i)
  }

  /** The white-space and line-terminator characters that `String.prototype.trim` removes. */
  predicate IsWhitespace(c: char) {
    c == ' ' || c == '\t' || c == '\n' || c == '\U{000B}' || c == '\U{000C}' || c == '\r'
    || c == '\U{00A0}' || c == '\U{1680}' || ('\U{2000}' <= c <= '\U{200A}')
    || c == '\U{2028}' || c == '\U{2029}' || c == '\U{202F}' || c == '\U{205F}'
    || c == '\U{3000}' || c == '\U{FEFF}'
  }

  function TrimStart(s: string): (r: string)
    ensures |r| <= |s|
    ensures r == [] || !IsWhitespace(r[0])
  {
    if |s| > 0 && IsWhitespace(s[0]) then TrimStart(s[1..]) else s
  }

  function TrimEnd(s: string): (r: string)
    ensures |r| <= |s|
    ensures r == [] || !IsWhitespace(r[|r| - 1])
  {
    if |s| > 0 && IsWhitespace(s[|s| - 1]) then TrimEnd(s[..|s| - 1]) else s
  }

  /** `s.trim()`: white space at neither end. */
  function Trim(s: string): (r: string)
    ensures IsTrimmed(r)
  {
    TrimEndKeepsStart(TrimStart(s));
    TrimEnd(TrimStart(s))
  }

  /** `TrimStart` drops a prefix of white space only. */
  lemma {:induction false} TrimStartIsSuffix(s: string)
    ensures TrimStart(s) == s[|s| - |TrimStart(s)|..]
    ensures forall k :: 0 <= k < |s| - |TrimStart(s)| ==> IsWhitespace(s[k])
  {
    if |s| > 0 && IsWhitespace(s[0]) {
      TrimStartIsSuffix(s[1..]);
    }
  }

  /** `TrimEnd` drops a suffix of white space only. */
  lemma {:induction false} TrimEndIsPrefix(s: string)
    ensures TrimEnd(s) == s[..|TrimEnd(s)|]
    ensures forall k :: |TrimEnd(s)| <= k < |s| ==> IsWhitespace(s[k])
  {
    if |s| > 0 && IsWhitespace(s[|s| - 1]) {
      TrimEndIsPrefix(s[..|s| - 1]);
    }
  }

  /** Trimming keeps only characters of the original. */
  lemma TrimWithin(s: string)
    ensures forall c :: c in Trim(s) ==> c in s
  {
    var t := TrimStart(s);
    TrimStartIsSuffix(s);
    SliceWithin(s, |s| - |t|, |s|);
    TrimEndIsPrefix(t);
    SliceWithin(t, 0, |TrimEnd(t)|);
  }

  lemma SliceWithin(s: string, i: nat, j: nat)
    requires i <= j <= |s|
    ensures forall c :: c in s[i..j] ==> c in s
  {
    forall c | c in s[i..j] ensures c in s {
      var k :| 0 <= k < j - i && s[i..j][k] == c;
      assert s[i + k] == c;
    }
  }

  /** Neither end of `s` is white space: `s.trim() === s`. */
  predicate IsTrimmed(s: string) {
    s == [] || (!IsWhitespace(s[0]) && !IsWhitespace(s[|s| - 1]))
  }

  lemma TrimEndKeepsStart(s: string)
    requires s == [] || !IsWhitespace(s[0])
    ensures TrimEnd(s) == [] || !IsWhitespace(TrimEnd(s)[0])
  {
  }

  lemma TrimOfTrimmed(s: string)
    requires IsTrimmed(s)
    ensures Trim(s) == s
  {
  }

  /** A trimmed token preceded by one blank trims back to itself. */
  lemma TrimAfterBlank(t: string)
    requires IsTrimmed(t)
    ensures Trim(" " + t) == t
  {
    var s := " " + t;
    assert s[0] == ' ' && s[1..] == t;
    assert TrimStart(s) == TrimStart(t) == t;
  }

  /** `s.split(sep)` for a one-character separator: never empty, `"".split(sep) == [""]`. */
  function Split(s: string, sep: char): (parts: seq<string>)
    ensures |parts| >= 1
    ensures forall k :: 0 <= k < |parts| ==> sep !in parts[k]
  {
    if |s| == 0 then [""]
    else
      var rest := Split(s[1..], sep);
      if s[0] == sep then [""] + rest
      else [[s[0]] + rest[0]] + rest[1..]
  }

  lemma {:induction false} SplitWithoutSeparator(s: string, sep: char)
    requires sep !in s
    ensures Split(s, sep) == [s]
  {
    if |s| > 0 {
      SplitWithoutSeparator(s[1..], sep);
      assert [s[0]] + s[1..] == s;
    }
  }

  /** Splitting at a separator splits the two sides independently. */
  lemma {:induction false} SplitAtSeparator(a: string, sep: char, b: string)
    ensures Split(a + [sep] + b, sep) == Split(a, sep) + Split(b, sep)
  {
    if |a| == 0 {
      assert a + [sep] + b == [sep] + b;
      assert ([sep] + b)[1..] == b;
    } else {
      assert (a + [sep] + b)[1..] == a[1..] + [sep] + b;
      SplitAtSeparator(a[1..], sep, b);
      var rest := Split(a[1..], sep);
      assert Split(a + [sep] + b, sep)[1..] == (rest + Split(b, sep))[1..] || a[0] == sep;
    }
  }

  /**
   * Splitting a join by `sep` and a blank gives the parts back, every part
   * after the first behind its blank, when no part holds `sep`.
   */
  lemma {:induction false} SplitJoined(parts: seq<string>, sep: char)
    requires sep != ' ' && |parts| > 0
    requires forall k :: 0 <= k < |parts| ==> sep !in parts[k]
    ensures |Split(Join(parts, [sep, ' ']), sep)| == |parts|
    ensures Split(Join(parts, [sep, ' ']), sep)[0] == parts[0]
    ensures forall k :: 1 <= k < |parts| ==> Split(Join(parts, [sep, ' ']), sep)[k] == " " + parts[k]
  {
    SplitWithoutSeparator(parts[0], sep);
    if |parts| > 1 {
      var rest := Join(parts[1..], [sep, ' ']);
      var blank := " " + rest;
      SplitJoined(parts[1..], sep);
      var tail := Split(rest, sep);
      assert blank[0] == ' ' && blank[1..] == rest;
      assert Split(blank, sep) == [[' '] + tail[0]] + tail[1..];
      assert Join(parts, [sep, ' ']) == parts[0] + [sep] + blank;
      SplitAtSeparator(parts[0], sep, blank);
      var whole := Split(Join(parts, [sep, ' ']), sep);
      assert whole == [parts[0]] + Split(blank, sep);
      forall k | 1 <= k < |parts| ensures whole[k] == " " + parts[k] {
        if k > 1 {
          assert whole[k] == tail[k - 1] && parts[1..][k - 1] == parts[k];
        }
      }
    }
  }

  /** `parts.join(sep)` */
  function Join(parts: seq<string>, sep: string): string {
    if |parts| == 0 then ""
    else if |parts| == 1 then parts[0]
    else parts[0] + sep + Join(parts[1..], sep)
  }

  /** `s.replace(/[^a-zA-Z0-9]/g, '')` keeps exactly these characters. */
  predicate IsAlphanumeric(c: char) {
    ('a' <= c <= 'z') || ('A' <= c <= 'Z') || ('0' <= c <= '9')
  }

  /**
   * `s.replace(/[^a-zA-Z0-9]/g, '')`: only letters and digits remain, each
   * letter and digit of `s` remains as often as it occurs, and a string of
   * letters and digits is left as it is.
   */
  function StripNonAlphanumeric(s: string): (r: string)
    ensures |r| <= |s|
    ensures forall k :: 0 <= k < |r| ==> IsAlphanumeric(r[k])
    ensures forall c :: IsAlphanumeric(c) ==> multiset(r)[c] == multiset(s)[c]
    ensures (forall k :: 0 <= k < |s| ==> IsAlphanumeric(s[k])) ==> r == s
  {
    if |s| == 0 then ""
    else
      assert s == [s[0]] + s[1..];
      if IsAlphanumeric(s[0]) then [s[0]] + StripNonAlphanumeric(s[1..])
      else StripNonAlphanumeric(s[1..])
  }

  /** `s.substring(0, n)` for `n >= 0` */
  function Prefix(s: string, n: nat): string {
    if n <= |s| then s[..n] else s
  }

  /** ASCII part of `toLowerCase` */
  function LowerChar(c: char): char {
    if 'A' <= c <= 'Z' then (c as int + 32) as char else c
  }

  /** ASCII `toLowerCase`: each capital becomes the small letter at the same alphabet position, and everything else is kept in place. */
  function Lower(s: string): (r: string)
    ensures |r| == |s|
    ensures forall k :: 0 <= k < |r| ==> !('A' <= r[k] <= 'Z')
    ensures forall k :: 0 <= k < |s| && !('A' <= s[k] <= 'Z') ==> r[k] == s[k]
    ensures forall k :: 0 <= k < |s| && 'A' <= s[k] <= 'Z' ==>
              'a' <= r[k] <= 'z' && r[k] as int - 'a' as int == s[k] as int - 'A' as int
  {
    seq(|s|, k requires 0 <= k < |s| => LowerChar(s[k]))
  }

  /** Lower-casing twice is lower-casing once. */
  lemma LowerIdempotent(s: string)
    ensures Lower(Lower(s)) == Lower(s)
  {
  }

  function DigitChar(d: nat): char
    requires d < 10
  {
    ('0' as int + d) as char
  }

  /** `String(n)` for a non-negative integer: decimal digits, no leading zero. */
  function NatToString(n: nat): (r: string)
    ensures |r| >= 1
    ensures forall k :: 0 <= k < |r| ==> '0' <= r[k] <= '9'
    ensures r[0] == '0' ==> n == 0
  {
    if n < 10 then [DigitChar(n)] else NatToString(n / 10) + [DigitChar(n % 10)]
  }

  /** Reading decimal digits back. */
  function FromDecimal(s: string): int {
    if |s| == 0 then 0 else 10 * FromDecimal(s[..|s| - 1]) + (s[|s| - 1] as int - '0' as int)
  }

  /** The digits of `String(n)` spell `n`. */
  lemma {:induction false} DecimalRoundTrip(n: nat)
    ensures FromDecimal(NatToString(n)) == n
  {
    if n >= 10 {
      var s := NatToString(n);
      DecimalRoundTrip(n / 10);
      assert s[..|s| - 1] == NatToString(n / 10);
    }
  }

  /** `String(n)` for an integer */
  function IntToString(n: int): string {
    if n < 0 then "-" + NatToString(-n) else NatToString(n)
  }

  /** `s.indexOf(c)` for a character that occurs in `s` */
  function IndexOf(s: string, c: char): (k: nat)
    requires c in s
    ensures k < |s| && s[k] == c && c !in s[..k]
  {
    if s[0] == c then 0 else 1 + IndexOf(s[1..], c)
  }

  /** `s.lastIndexOf(c)` for a character that occurs in `s` */
  function LastIndexOf(s: string, c: char): (k: nat)
    requires c in s
    ensures k < |s| && s[k] == c && c !in s[k + 1..]
  {
    if s[|s| - 1] == c then |s| - 1 else LastIndexOf(s[..|s| - 1], c)
  }

  lemma {:induction false} IndexOfAfterHead(a: string, x: string, sep: char)
    requires sep !in a
    ensures sep in a + [sep] + x && IndexOf(a + [sep] + x, sep) == |a|
  {
    var s := a + [sep] + x;
    assert s[|a|] == sep;
    if a != [] {
      assert s[1..] == a[1..] + [sep] + x;
      IndexOfAfterHead(a[1..], x, sep);
    }
  }

  lemma {:induction false} LastIndexOfBeforeTail(x: string, a: string, sep: char)
    requires sep !in a
    ensures sep in x + [sep] + a && LastIndexOf(x + [sep] + a, sep) == |x|
  {
    var s := x + [sep] + a;
    assert s[|x|] == sep;
    if a != [] {
      assert s[..|s| - 1] == x + [sep] + a[..|a| - 1];
      assert a[|a| - 1] in a;
      LastIndexOfBeforeTail(x, a[..|a| - 1], sep);
    }
  }

  /**
   * Two strings that both put a separator right after a separator-free
   * head have equal heads and equal tails when they are equal.
   */
  lemma SeparatedHeads(a: string, x: string, b: string, y: string, sep: char)
    requires sep !in a && sep !in b
    requires a + [sep] + x == b + [sep] + y
    ensures a == b && x == y
  {
    var s := a + [sep] + x;
    IndexOfAfterHead(a, x, sep);
    IndexOfAfterHead(b, y, sep);
    assert a == s[..|a|] == b;
    assert x == s[|a| + 1..] == y;
  }

  /** The mirror image of SeparatedHeads: separator-free tails after a separator. */
  lemma SeparatedTails(x: string, a: string, y: string, b: string, sep: char)
    requires sep !in a && sep !in b
    requires x + [sep] + a == y + [sep] + b
    ensures a == b && x == y
  {
    var s := x + [sep] + a;
    LastIndexOfBeforeTail(x, a, sep);
    LastIndexOfBeforeTail(y, b, sep);
    assert x == s[..|x|] == y;
    assert a == s[|x| + 1..] == b;
  }

  /** A position where two different strings of the same length differ. */
  function Mismatch(x: string, y: string): (k: nat)
    requires |x| == |y| && x != y
    ensures k < |x| && x[k] != y[k]
  {
    if x[0] != y[0] then 0
    else
      assert x == [x[0]] + x[1..] && y == [y[0]] + y[1..];
      1 + Mismatch(x[1..], y[1..])
  }
}
