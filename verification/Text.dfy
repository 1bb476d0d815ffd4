/** Option and result values, shared by every module. */
module Outcomes {
  datatype Option<+T> = None | Some(value: T)

  datatype Result<+T, +E> = Ok(value: T) | Err(error: E)
}

/**
 Text as the harness handles it: a `string` is a sequence of Unicode scalar values (a Rust
 `String`), `Utf8` is `as_bytes`, `Utf16` is `encode_utf16`, `Decimal` is `u64::to_string` and
 `Hex` is the lower-case `hex_bytes`.
 */
module Text {
  import opened Outcomes

  type byte = b: int | 0 <= b < 256

  // ---------- UTF-8 ----------

  function Utf8Char(c: char): (r: seq<byte>)
    ensures 1 <= |r| <= 4
  {
    var n := c as int;
    if n < 0x80 then [n]
    else if n < 0x800 then [0xC0 + n / 64, 0x80 + n % 64]
    else if n < 0x1_0000 then [0xE0 + n / 4096, 0x80 + n / 64 % 64, 0x80 + n % 64]
    else [0xF0 + n / 0x4_0000, 0x80 + n / 4096 % 64, 0x80 + n / 64 % 64, 0x80 + n % 64]
  }

  function Utf8(s: string): seq<byte> {
    if s == "" then [] else Utf8Char(s[0]) + Utf8(s[1..])
  }

  /** The scalar value that a one to four byte sequence stands for. */
  function Utf8Value(r: seq<int>): int
    requires 1 <= |r| <= 4
  {
    if |r| == 1 then r[0]
    else if |r| == 2 then (r[0] - 0xC0) * 64 + (r[1] - 0x80)
    else if |r| == 3 then (r[0] - 0xE0) * 4096 + (r[1] - 0x80) * 64 + (r[2] - 0x80)
    else (r[0] - 0xF0) * 0x4_0000 + (r[1] - 0x80) * 4096 + (r[2] - 0x80) * 64 + (r[3] - 0x80)
  }

  lemma Utf8CharValue(c: char)
    ensures Utf8Value(Utf8Char(c)) == c as int
  {
    var n := c as int;
    assert n / 4096 == n / 64 / 64;
    assert n / 0x4_0000 == n / 4096 / 64;
  }

  lemma Utf8CharLength(c: char, d: char)
    requires Utf8Char(c)[0] == Utf8Char(d)[0]
    ensures |Utf8Char(c)| == |Utf8Char(d)|
  {
  }

  lemma Utf8CharPrefixFree(c: char, d: char, s: seq<byte>, t: seq<byte>)
    requires Utf8Char(c) + s == Utf8Char(d) + t
    ensures c == d && s == t
  {
    var x, y := Utf8Char(c), Utf8Char(d);
    var w := x + s;
    assert w[0] == x[0] == y[0];
    Utf8CharLength(c, d);
    assert x == w[..|x|] == y;
    assert s == w[|x|..] == t;
    Utf8CharValue(c);
    Utf8CharValue(d);
  }

  lemma {:induction false} Utf8Injective(a: string, b: string)
    requires Utf8(a) == Utf8(b)
    ensures a == b
  {
    if a != "" && b != "" {
      Utf8CharPrefixFree(a[0], b[0], Utf8(a[1..]), Utf8(b[1..]));
      Utf8Injective(a[1..], b[1..]);
      assert a == [a[0]] + a[1..] && b == [b[0]] + b[1..];
    }
  }

  lemma {:induction false} Utf8Concat(a: string, b: string)
    ensures Utf8(a + b) == Utf8(a) + Utf8(b)
  {
    hide Utf8Char;
    if a == "" {
      assert a + b == b;
    } else {
      Utf8Concat(a[1..], b);
      assert (a + b)[1..] == a[1..] + b && (a + b)[0] == a[0];
      var first, x, y := Utf8Char(a[0]), Utf8(a[1..]), Utf8(b);
      assert first + (x + y) == (first + x) + y;
    }
  }

  /** An ASCII byte occurs in the encoding exactly where its own character occurs in the text. */
  lemma {:induction false} Utf8Ascii(s: string, c: char)
    requires c as int < 0x80
    ensures c as int in Utf8(s) <==> c in s
  {
    if s != "" {
      Utf8Ascii(s[1..], c);
      assert s == [s[0]] + s[1..];
      assert c as int in Utf8Char(s[0]) <==> c == s[0] by {
        var n := s[0] as int;
        if n < 0x80 {
          assert Utf8Char(s[0]) == [n];
        } else {
          assert forall b :: b in Utf8Char(s[0]) ==> b >= 0x80;
        }
      }
    }
  }

  /** Text without multi-byte characters takes one byte a character. */
  lemma {:induction false} Utf8AsciiLength(s: string)
    requires forall c :: c in s ==> c as int < 0x80
    ensures |Utf8(s)| == |s|
  {
    if s != "" {
      assert s[0] in s;
      assert forall c :: c in s[1..] ==> c in s;
      Utf8AsciiLength(s[1..]);
    }
  }

  // ---------- Reading UTF-8, section 3 of RFC 3629 ----------

  predicate IsScalar(n: int) {
    0 <= n < 0xD800 || 0xE000 <= n < 0x11_0000
  }

  function Continuation(b: seq<int>, i: nat): Option<int> {
    if i < |b| && 0x80 <= b[i] < 0xC0 then Some(b[i] - 0x80) else None
  }

  /** The scalar value at the start of `b` and how many bytes it takes. */
  function ReadScalar(b: seq<int>): Option<(int, nat)> {
    if b == [] then None
    else
      var x, y, z := Continuation(b, 1), Continuation(b, 2), Continuation(b, 3);
      if 0 <= b[0] < 0x80 then Some((b[0], 1))
      else if 0xC2 <= b[0] < 0xE0 && x.Some? then Some((64 * (b[0] - 0xC0) + x.value, 2))
      else if 0xE0 <= b[0] < 0xF0 && x.Some? && y.Some? then
        var n := 4096 * (b[0] - 0xE0) + 64 * x.value + y.value;
        if 0x800 <= n then Some((n, 3)) else None
      else if 0xF0 <= b[0] < 0xF5 && x.Some? && y.Some? && z.Some? then
        var n := 0x4_0000 * (b[0] - 0xF0) + 4096 * x.value + 64 * y.value + z.value;
        if 0x1_0000 <= n then Some((n, 4)) else None
      else None
  }

  lemma ReadScalarBounds(b: seq<int>)
    ensures ReadScalar(b).Some? ==> 1 <= ReadScalar(b).value.1 <= |b| && ReadScalar(b).value.0 >= 0
  {
  }

  function FromUtf8(b: seq<int>): Option<string> {
    ReadScalarBounds(b);
    if b == [] then Some("")
    else
      match ReadScalar(b)
      case None => None
      case Some((n, k)) =>
        if !IsScalar(n) then None
        else
          match FromUtf8(b[k..])
          case None => None
          case Some(rest) => Some([n as char] + rest)
  }

  lemma ReadsShort(n: int, t: seq<int>)
    requires 0 <= n < 0x800
    ensures n < 0x80 ==> ReadScalar([n] + t) == Some((n, 1))
    ensures 0x80 <= n ==> ReadScalar([0xC0 + n / 64, 0x80 + n % 64] + t) == Some((n, 2))
  {
    var w := [0xC0 + n / 64, 0x80 + n % 64] + t;
    assert 0x80 <= n ==> 2 <= n / 64 < 32;
    assert w[0] == 0xC0 + n / 64 && w[1] == 0x80 + n % 64;
  }

  lemma ReadsThree(n: int, t: seq<int>)
    requires 0x800 <= n < 0x1_0000
    ensures ReadScalar([0xE0 + n / 4096, 0x80 + n / 64 % 64, 0x80 + n % 64] + t) == Some((n, 3))
  {
    var w := [0xE0 + n / 4096, 0x80 + n / 64 % 64, 0x80 + n % 64] + t;
    assert w[0] == 0xE0 + n / 4096 && w[1] == 0x80 + n / 64 % 64 && w[2] == 0x80 + n % 64;
    assert n / 4096 == n / 64 / 64 && n / 4096 < 16;
  }

  lemma ReadsFour(n: int, t: seq<int>)
    requires 0x1_0000 <= n < 0x11_0000
    ensures ReadScalar([0xF0 + n / 0x4_0000, 0x80 + n / 4096 % 64, 0x80 + n / 64 % 64, 0x80 + n % 64] + t) == Some((n, 4))
  {
    var w := [0xF0 + n / 0x4_0000, 0x80 + n / 4096 % 64, 0x80 + n / 64 % 64, 0x80 + n % 64] + t;
    assert w[0] == 0xF0 + n / 0x4_0000 && w[1] == 0x80 + n / 4096 % 64 && w[2] == 0x80 + n / 64 % 64 && w[3] == 0x80 + n % 64;
    assert n / 4096 == n / 64 / 64 && n / 0x4_0000 == n / 4096 / 64 && n / 0x4_0000 < 5;
  }

  lemma ReadsChar(c: char, t: seq<int>)
    ensures ReadScalar(Utf8Char(c) + t) == Some((c as int, |Utf8Char(c)|)) && IsScalar(c as int)
  {
    var n := c as int;
    hide ReadScalar;
    if n < 0x800 {
      ReadsShort(n, t);
    } else if n < 0x1_0000 {
      ReadsThree(n, t);
    } else {
      ReadsFour(n, t);
    }
  }

  /** Decoding gives back the text that was encoded. */
  lemma {:induction false} Utf8RoundTrip(s: string)
    ensures FromUtf8(Utf8(s)) == Some(s)
  {
    hide ReadScalar, Utf8Char;
    if s != "" {
      var c, rest := s[0], Utf8(s[1..]);
      ReadsChar(c, rest);
      Utf8RoundTrip(s[1..]);
      assert (Utf8Char(c) + rest)[|Utf8Char(c)|..] == rest;
      assert s == [c] + s[1..];
    }
  }

  // ---------- UTF-16 and lexicographic order ----------

  function Utf16Char(c: char): (r: seq<int>)
    ensures 1 <= |r| <= 2
  {
    var n := c as int;
    if n < 0x1_0000 then [n]
    else [0xD800 + (n - 0x1_0000) / 0x400, 0xDC00 + (n - 0x1_0000) % 0x400]
  }

  function Utf16(s: string): seq<int> {
    if s == "" then [] else Utf16Char(s[0]) + Utf16(s[1..])
  }

  /** The code units of a character, section 2 of RFC 2781: itself, or a high and a low surrogate. */
  lemma Utf16Units(c: char)
    ensures var u, n := Utf16Char(c), c as int;
            if n < 0x1_0000 then u == [n]
            else |u| == 2 && 0xD800 <= u[0] < 0xDC00 && 0xDC00 <= u[1] < 0xE000
                 && n == 0x1_0000 + 0x400 * (u[0] - 0xD800) + (u[1] - 0xDC00)
  {
  }

  lemma Utf16CharPrefixFree(c: char, d: char, s: seq<int>, t: seq<int>)
    requires Utf16Char(c) + s == Utf16Char(d) + t
    ensures c == d && s == t
  {
    var x, y := Utf16Char(c), Utf16Char(d);
    var w := x + s;
    assert w[0] == x[0] == y[0];
    assert |x| == |y|;
    assert x == w[..|x|] == y;
    assert s == w[|x|..] == t;
    assert c as int == d as int;
  }

  lemma {:induction false} Utf16Injective(a: string, b: string)
    requires Utf16(a) == Utf16(b)
    ensures a == b
  {
    if a != "" && b != "" {
      Utf16CharPrefixFree(a[0], b[0], Utf16(a[1..]), Utf16(b[1..]));
      Utf16Injective(a[1..], b[1..]);
      assert a == [a[0]] + a[1..] && b == [b[0]] + b[1..];
    }
  }

  /** Lexicographic order of code units or bytes, shorter prefixes first. */
  predicate LexLe(a: seq<int>, b: seq<int>) {
    a == [] || (b != [] && (a[0] < b[0] || (a[0] == b[0] && LexLe(a[1..], b[1..]))))
  }

  lemma {:induction false} LexTotal(a: seq<int>, b: seq<int>)
    ensures LexLe(a, b) || LexLe(b, a)
  {
    if a != [] && b != [] {
      LexTotal(a[1..], b[1..]);
    }
  }

  lemma {:induction false} LexAntisymmetric(a: seq<int>, b: seq<int>)
    requires LexLe(a, b) && LexLe(b, a)
    ensures a == b
  {
    if a != [] && b != [] {
      LexAntisymmetric(a[1..], b[1..]);
      assert a == [a[0]] + a[1..] && b == [b[0]] + b[1..];
    }
  }

  lemma {:induction false} LexTransitive(a: seq<int>, b: seq<int>, c: seq<int>)
    requires LexLe(a, b) && LexLe(b, c)
    ensures LexLe(a, c)
  {
    if a != [] && a[0] == b[0] == c[0] {
      LexTransitive(a[1..], b[1..], c[1..]);
    }
  }

  /** `a` and `b` agree up to `i`, where `a` ends or has the smaller unit. */
  predicate AtOrBefore(a: seq<int>, b: seq<int>, i: int) {
    0 <= i <= |a| && i <= |b| && a[..i] == b[..i] && (i == |a| || (i < |b| && a[i] < b[i]))
  }

  lemma {:induction false} LexLeFinds(a: seq<int>, b: seq<int>) returns (i: int)
    requires LexLe(a, b)
    ensures AtOrBefore(a, b, i)
  {
    if a == [] || a[0] < b[0] {
      i := 0;
    } else {
      var j := LexLeFinds(a[1..], b[1..]);
      i := j + 1;
      assert a[..i] == [a[0]] + a[1..][..j] && b[..i] == [b[0]] + b[1..][..j];
    }
  }

  lemma {:induction false} LexLeFound(a: seq<int>, b: seq<int>, i: int)
    requires AtOrBefore(a, b, i)
    ensures LexLe(a, b)
  {
    if i > 0 {
      assert a[0] == a[..i][0] == b[..i][0] == b[0];
      assert a[1..][..i - 1] == a[..i][1..] && b[1..][..i - 1] == b[..i][1..];
      LexLeFound(a[1..], b[1..], i - 1);
    }
  }

  /** The order is decided at the first difference. */
  lemma LexLeMeans(a: seq<int>, b: seq<int>)
    ensures LexLe(a, b) <==> exists i :: AtOrBefore(a, b, i)
  {
    if LexLe(a, b) {
      var i := LexLeFinds(a, b);
    }
    if i :| AtOrBefore(a, b, i) {
      LexLeFound(a, b, i);
    }
  }

  /** Rust's `str` order: the byte order of the encodings. */
  predicate TextLe(a: string, b: string) {
    LexLe(Utf8(a), Utf8(b))
  }

  /** The texts decide at the first byte where their encodings differ. */
  ghost predicate SmallerText(a: string, b: string) {
    a != b && exists i: int :: AtOrBefore(Utf8(a), Utf8(b), i)
  }

  lemma TextLeMeans(a: string, b: string)
    ensures a != b ==> (TextLe(a, b) <==> SmallerText(a, b))
    ensures SmallerText(a, b) ==> a != b
  {
    LexLeMeans(Utf8(a), Utf8(b));
    assert LexLe(Utf8(a), Utf8(b)) <==> exists i: int :: AtOrBefore(Utf8(a), Utf8(b), i);
    assert LexLe(Utf8(a), Utf8(b)) <==> TextLe(a, b);
  }

  /** The member order of section 3.2.3 of RFC 8785. */
  predicate KeyLe(a: string, b: string) {
    LexLe(Utf16(a), Utf16(b))
  }

  // ---------- Numbers and hexadecimal ----------

  function Digit(n: int): (c: char)
    requires 0 <= n < 16
    ensures IsHex(c) && HexValue(c) == n
    ensures n < 10 ==> '0' <= c <= '9'
  {
    if n < 10 then '0' + n as char else 'a' + (n - 10) as char
  }

  function Decimal(n: nat): (s: string)
    ensures s != ""
    ensures forall c :: c in s ==> '0' <= c <= '9'
  {
    if n < 10 then [Digit(n)] else Decimal(n / 10) + [Digit(n % 10)]
  }

  lemma {:induction false} DecimalInjective(a: nat, b: nat)
    requires Decimal(a) == Decimal(b)
    ensures a == b
  {
    var s := Decimal(a);
    assert s[|s| - 1] == Digit(a % 10) == Digit(b % 10);
    if a >= 10 && b >= 10 {
      assert Decimal(a / 10) == s[..|s| - 1] == Decimal(b / 10);
      DecimalInjective(a / 10, b / 10);
    }
  }

  lemma {:induction false} DecimalLengthMonotone(a: nat, b: nat)
    requires a <= b
    ensures |Decimal(a)| <= |Decimal(b)|
  {
    if b >= 10 {
      if a >= 10 {
        DecimalLengthMonotone(a / 10, b / 10);
      }
    }
  }

  predicate IsDecimal(s: string) {
    s != "" && forall c :: c in s ==> '0' <= c <= '9'
  }

  function UnDecimal(s: string): nat
    requires IsDecimal(s)
  {
    var n := |s| - 1;
    assert s[n] in s && forall c :: c in s[..n] ==> c in s;
    (if n == 0 then 0 else 10 * UnDecimal(s[..n])) + (s[n] as int - '0' as int)
  }

  lemma {:induction false} DecimalRoundTrip(n: nat)
    ensures UnDecimal(Decimal(n)) == n
  {
    var s := Decimal(n);
    if n >= 10 {
      DecimalRoundTrip(n / 10);
      assert s[..|s| - 1] == Decimal(n / 10);
    }
  }

  predicate IsHex(c: char) {
    '0' <= c <= '9' || 'a' <= c <= 'f'
  }

  /** `hex_bytes`: two lower-case digits a byte, high half first. */
  function Hex(bytes: seq<byte>): (s: string)
    ensures |s| == 2 * |bytes|
    ensures forall c :: c in s ==> IsHex(c)
  {
    if bytes == [] then ""
    else [Digit(bytes[0] / 16), Digit(bytes[0] % 16)] + Hex(bytes[1..])
  }

  function HexValue(c: char): (v: int)
    requires IsHex(c)
    ensures 0 <= v < 16
  {
    if c <= '9' then c as int - '0' as int else c as int - 'a' as int + 10
  }

  function UnHex(s: string): seq<byte>
    requires |s| % 2 == 0
    requires forall c :: c in s ==> IsHex(c)
  {
    if s == "" then [] else [16 * HexValue(s[0]) + HexValue(s[1])] + UnHex(s[2..])
  }

  lemma {:induction false} HexRoundTrip(bytes: seq<byte>)
    ensures UnHex(Hex(bytes)) == bytes
  {
    if bytes != [] {
      HexRoundTrip(bytes[1..]);
      assert Hex(bytes)[2..] == Hex(bytes[1..]);
      assert bytes == [bytes[0]] + bytes[1..];
    }
  }

  /** `prefix` followed by 64 lower-case hexadecimal digits. */
  predicate IsDigest(prefix: string, s: string) {
    |s| == |prefix| + 64 && s[..|prefix|] == prefix && forall c :: c in s[|prefix|..] ==> IsHex(c)
  }

  /** A digest is its prefix and 64 characters out of sixteen. */
  lemma DigestMeans(prefix: string, s: string)
    ensures IsDigest(prefix, s) <==> exists hex: string :: s == prefix + hex && |hex| == 64 && forall c :: c in hex ==> c in "0123456789abcdef"
  {
    forall c: char ensures IsHex(c) <==> c in "0123456789abcdef" {
      HexCharacter(c);
    }
    if IsDigest(prefix, s) {
      assert s == prefix + s[|prefix|..];
    }
  }

  lemma HexCharacter(c: char)
    ensures IsHex(c) <==> c in "0123456789abcdef"
  {
    if IsHex(c) {
      assert c == "0123456789abcdef"[HexValue(c)];
    }
  }

  function ZeroDigest(prefix: string): (s: string)
    ensures IsDigest(prefix, s)
  {
    var zeros := seq(64, i => '0');
    assert (prefix + zeros)[|prefix|..] == zeros;
    prefix + zeros
  }
}
