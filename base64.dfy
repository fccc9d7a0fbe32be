/**
 * The byte encodings behind the client identifiers: the base 64 encoding of
 * RFC 4648 section 4 (what `btoa` and `Buffer.toString('base64')` produce),
 * with a decoder as its inverse, and the two ways a string becomes bytes:
 * `btoa` takes each character as one Latin-1 byte and refuses characters
 * above U+00FF, `Buffer.from(string)` writes UTF-8 (RFC 3629 section 3).
 */
module Base64 {
  import opened Optional

  type Byte = x: int | 0 <= x < 256

  /** The character for the 6-bit value `n`, Table 1 of RFC 4648 section 4. */
  function Sextet(n: nat): (c: char)
    requires n < 64
    ensures c != '='
  {
    if n < 26 then ('A' as int + n) as char
    else if n < 52 then ('a' as int + (n - 26)) as char
    else if n < 62 then ('0' as int + (n - 52)) as char
    else if n == 62 then '+'
    else '/'
  }

  /** The 6-bit value of an alphabet character, `None` for any other character. */
  function SextetValue(c: char): (v: Option<nat>)
    ensures v.Some? ==> v.value < 64 && Sextet(v.value) == c
  {
    if 'A' <= c <= 'Z' then Some(c as int - 'A' as int)
    else if 'a' <= c <= 'z' then Some(c as int - 'a' as int + 26)
    else if '0' <= c <= '9' then Some(c as int - '0' as int + 52)
    else if c == '+' then Some(62)
    else if c == '/' then Some(63)
    else None
  }

  lemma SextetRoundTrip(n: nat)
    requires n < 64
    ensures SextetValue(Sextet(n)) == Some(n)
  {
  }

  /** The encoding of up to three bytes: four characters, padded with `=`. */
  function EncodeGroup(g: seq<Byte>): (q: string)
    requires 1 <= |g| <= 3
    ensures |q| == 4
  {
    if |g| == 1 then
      [Sextet(g[0] / 4), Sextet((g[0] % 4) * 16), '=', '=']
    else if |g| == 2 then
      [Sextet(g[0] / 4), Sextet((g[0] % 4) * 16 + g[1] / 16), Sextet((g[1] % 16) * 4), '=']
    else
      [Sextet(g[0] / 4), Sextet((g[0] % 4) * 16 + g[1] / 16), Sextet((g[1] % 16) * 4 + g[2] / 64), Sextet(g[2] % 64)]
  }

  /** The base 64 encoding of `bytes`, three bytes to four characters. */
  function Encode(bytes: seq<Byte>): (s: string)
    ensures |s| == 4 * ((|bytes| + 2) / 3)
    decreases |bytes|
  {
    if |bytes| == 0 then ""
    else if |bytes| <= 3 then EncodeGroup(bytes)
    else EncodeGroup(bytes[..3]) + Encode(bytes[3..])
  }

  /** Every character of an encoding is in the alphabet or is the pad `=`. */
  lemma {:induction false} EncodeAlphabet(bytes: seq<Byte>)
    ensures forall k :: 0 <= k < |Encode(bytes)| ==> Encode(bytes)[k] == '=' || SextetValue(Encode(bytes)[k]).Some?
    decreases |bytes|
  {
    if |bytes| > 3 {
      EncodeAlphabet(bytes[3..]);
    }
  }

  /** Encoding a whole number of groups first encodes them separately. */
  lemma {:induction false} EncodeAppend(a: seq<Byte>, b: seq<Byte>)
    requires |a| % 3 == 0
    ensures Encode(a + b) == Encode(a) + Encode(b)
    decreases |a|
  {
    if |a| > 0 && |b| == 0 {
      assert a + b == a;
      assert Encode(a) + Encode(b) == Encode(a);
    } else if |a| == 3 {
      assert (a + b)[..3] == a && (a + b)[3..] == b;
      assert Encode(a + b) == EncodeGroup(a) + Encode(b);
    } else if |a| > 3 {
      assert (a + b)[..3] == a[..3];
      assert (a + b)[3..] == a[3..] + b;
      EncodeAppend(a[3..], b);
      assert Encode(a + b) == EncodeGroup(a[..3]) + Encode(a[3..] + b);
    } else {
      assert a + b == b;
    }
  }

  /** The bytes of one group of four characters; `last` allows padding. */
  function DecodeGroup(q: string, last: bool): Option<seq<Byte>>
    requires |q| == 4
  {
    var v0 := SextetValue(q[0]);
    var v1 := SextetValue(q[1]);
    var v2 := SextetValue(q[2]);
    var v3 := SextetValue(q[3]);
    if v0.None? || v1.None? then None
    else if last && q[2] == '=' && q[3] == '=' then
      Some([v0.value * 4 + v1.value / 16])
    else if v2.None? then None
    else if last && q[3] == '=' then
      Some([v0.value * 4 + v1.value / 16, (v1.value % 16) * 16 + v2.value / 4])
    else if v3.None? then None
    else
      Some([v0.value * 4 + v1.value / 16, (v1.value % 16) * 16 + v2.value / 4, (v2.value % 4) * 64 + v3.value])
  }

  /** The inverse of `Encode`: `None` for a string that is not an encoding. */
  function Decode(s: string): Option<seq<Byte>>
    decreases |s|
  {
    if |s| == 0 then Some([])
    else if |s| < 4 then None
    else
      match DecodeGroup(s[..4], |s| == 4)
      case None => None
      case Some(g) =>
        match Decode(s[4..])
        case None => None
        case Some(rest) => Some(g + rest)
  }

  /** The 6-bit pieces of `x` and `y` glue back into the bytes. */
  lemma HighLow(x: Byte, y: Byte)
    ensures (x / 4) * 4 + ((x % 4) * 16 + y / 16) / 16 == x
    ensures ((x % 4) * 16 + y / 16) % 16 == y / 16
  {
  }

  lemma MiddleLow(y: Byte, z: Byte)
    ensures ((y % 16) * 4 + z / 64) / 4 == y % 16
    ensures ((y % 16) * 4 + z / 64) % 4 == z / 64
  {
  }

  lemma DecodeEncodeOne(g: seq<Byte>)
    requires |g| == 1
    ensures DecodeGroup(EncodeGroup(g), true) == Some(g)
  {
    SextetRoundTrip(g[0] / 4);
    SextetRoundTrip((g[0] % 4) * 16);
    HighLow(g[0], 0);
    assert [g[0]] == g;
  }

  lemma DecodeEncodeTwo(g: seq<Byte>)
    requires |g| == 2
    ensures DecodeGroup(EncodeGroup(g), true) == Some(g)
  {
    var c1 := (g[0] % 4) * 16 + g[1] / 16;
    SextetRoundTrip(g[0] / 4);
    SextetRoundTrip(c1);
    SextetRoundTrip((g[1] % 16) * 4);
    HighLow(g[0], g[1]);
    MiddleLow(g[1], 0);
    assert (g[1] / 16) * 16 + g[1] % 16 == g[1];
    assert [g[0], g[1]] == g;
  }

  lemma DecodeEncodeThree(g: seq<Byte>, last: bool)
    requires |g| == 3
    ensures DecodeGroup(EncodeGroup(g), last) == Some(g)
  {
    var c1 := (g[0] % 4) * 16 + g[1] / 16;
    var c2 := (g[1] % 16) * 4 + g[2] / 64;
    SextetRoundTrip(g[0] / 4);
    SextetRoundTrip(c1);
    SextetRoundTrip(c2);
    SextetRoundTrip(g[2] % 64);
    HighLow(g[0], g[1]);
    MiddleLow(g[1], g[2]);
    assert (g[1] / 16) * 16 + g[1] % 16 == g[1];
    assert (g[2] / 64) * 64 + g[2] % 64 == g[2];
    assert [g[0], g[1], g[2]] == g;
  }

  lemma DecodeEncodeGroup(g: seq<Byte>, last: bool)
    requires 1 <= |g| <= 3
    requires |g| < 3 ==> last
    ensures DecodeGroup(EncodeGroup(g), last) == Some(g)
  {
    if |g| == 1 {
      DecodeEncodeOne(g);
    } else if |g| == 2 {
      DecodeEncodeTwo(g);
    } else {
      DecodeEncodeThree(g, last);
    }
  }

  /** Decoding an encoding gives back the bytes. */
  lemma {:induction false} DecodeEncode(bytes: seq<Byte>)
    ensures Decode(Encode(bytes)) == Some(bytes)
    decreases |bytes|
  {
    if 0 < |bytes| <= 3 {
      DecodeEncodeGroup(bytes, true);
      var s := Encode(bytes);
      assert s[..4] == s && s[4..] == "";
      assert Decode(s[4..]) == Some([]);
      assert bytes + [] == bytes;
    } else if |bytes| > 3 {
      var s := Encode(bytes);
      var head := EncodeGroup(bytes[..3]);
      DecodeEncodeGroup(bytes[..3], |s| == 4);
      DecodeEncode(bytes[3..]);
      assert s[..4] == head && s[4..] == Encode(bytes[3..]);
      assert bytes[..3] + bytes[3..] == bytes;
    }
  }

  /** The encoding is injective: different bytes give different strings. */
  lemma EncodeInjective(a: seq<Byte>, b: seq<Byte>)
    requires Encode(a) == Encode(b)
    ensures a == b
  {
    DecodeEncode(a);
    DecodeEncode(b);
  }

  /** Every character is at most U+00FF. */
  predicate IsLatin1(s: string) {
    forall k :: 0 <= k < |s| ==> s[k] as int < 256
  }

  /** The bytes `btoa` encodes: one byte per character; `None` where `btoa` throws. */
  function Latin1Bytes(s: string): Option<seq<Byte>> {
    if IsLatin1(s) then Some(seq(|s|, k requires 0 <= k < |s| => s[k] as int)) else None
  }

  /**
   * `btoa(s)`: throws (`None`) exactly for a character above U+00FF;
   * otherwise `4 * ceil(n / 3)` characters that decode back to the
   * character codes of `s`.
   */
  function Btoa(s: string): (r: Option<string>)
    ensures r.Some? <==> IsLatin1(s)
    ensures r.Some? ==> |r.value| == 4 * ((|s| + 2) / 3)
    ensures r.Some? ==> Decode(r.value) == Some(seq(|s|, k requires 0 <= k < |s| => s[k] as int))
  {
    match Latin1Bytes(s)
    case None => None
    case Some(bytes) =>
      DecodeEncode(bytes);
      Some(Encode(bytes))
  }

  /** The UTF-8 bytes of one scalar value. */
  function Utf8Char(c: char): (r: seq<Byte>)
    ensures 1 <= |r| <= 4
    ensures (|r| == 1) <==> c as int < 0x80
    ensures forall k :: 1 <= k < |r| ==> 0x80 <= r[k] < 0xC0
  {
    var n := c as int;
    if n < 0x80 then [n]
    else if n < 0x800 then [0xC0 + n / 64, 0x80 + n % 64]
    else if n < 0x10000 then [0xE0 + n / 4096, 0x80 + (n / 64) % 64, 0x80 + n % 64]
    else [0xF0 + n / 262144, 0x80 + (n / 4096) % 64, 0x80 + (n / 64) % 64, 0x80 + n % 64]
  }

  /** The scalar value of the UTF-8 sequence of one character. */
  function Utf8Value(r: seq<Byte>): int
    requires 1 <= |r| <= 4
  {
    var b0: int := r[0];
    if |r| == 1 then b0
    else
      var b1: int := r[1];
      if |r| == 2 then (b0 - 0xC0) * 64 + (b1 - 0x80)
      else
        var b2: int := r[2];
        if |r| == 3 then ((b0 - 0xE0) * 64 + (b1 - 0x80)) * 64 + (b2 - 0x80)
        else
          var b3: int := r[3];
          (((b0 - 0xF0) * 64 + (b1 - 0x80)) * 64 + (b2 - 0x80)) * 64 + (b3 - 0x80)
  }

  /** Each character's bytes read back as that character. */
  lemma Utf8CharRoundTrip(c: char)
    ensures Utf8Value(Utf8Char(c)) == c as int
  {
    var n := c as int;
    if 0x800 <= n < 0x10000 {
      assert (n / 4096) * 64 + (n / 64) % 64 == n / 64;
    } else if n >= 0x10000 {
      assert (n / 262144) * 64 + (n / 4096) % 64 == n / 4096;
      assert (n / 4096) * 64 + (n / 64) % 64 == n / 64;
    }
  }

  /** `Buffer.from(s)`: the UTF-8 bytes of the string. */
  function Utf8Bytes(s: string): (r: seq<Byte>)
    ensures |r| >= |s|
  {
    if |s| == 0 then [] else Utf8Char(s[0]) + Utf8Bytes(s[1..])
  }

  /** Every character is ASCII. */
  predicate IsAscii(s: string) {
    forall k :: 0 <= k < |s| ==> s[k] as int < 0x80
  }

  /** On ASCII text the two byte encodings agree. */
  lemma {:induction false} AsciiBytesAgree(s: string)
    requires IsAscii(s)
    ensures Latin1Bytes(s) == Some(Utf8Bytes(s))
  {
    if |s| > 0 {
      AsciiBytesAgree(s[1..]);
      assert Latin1Bytes(s).value == [s[0] as int] + Latin1Bytes(s[1..]).value;
    }
  }
}
