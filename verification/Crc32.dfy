/**
 The bitwise CRC-32 of the archive writer. A `u32` is a natural number below 2^32, `^` is `Xor`,
 `>> 1` is halving and `!x` is `MAX_U32 - x`.
 */
module Crc32 {
  import opened Text

  const TWO_32: int := 0x1_0000_0000
  const TWO_31: int := 0x8000_0000
  const MAX_U32: int := 0xFFFF_FFFF
  const POLYNOMIAL: int := 0xedb8_8320

  type u32 = n: int | 0 <= n < TWO_32

  // ---------- Exclusive or on naturals ----------

  function Xor(a: nat, b: nat): nat {
    if a == 0 then b
    else if b == 0 then a
    else 2 * Xor(a / 2, b / 2) + (a + b) % 2
  }

  lemma {:induction false} XorHalf(a: nat, b: nat)
    ensures Xor(a, b) / 2 == Xor(a / 2, b / 2)
    ensures Xor(a, b) % 2 == (a + b) % 2
  {
  }

  lemma SameBits(x: nat, y: nat)
    requires x / 2 == y / 2 && x % 2 == y % 2
    ensures x == y
  {
  }

  lemma ParityAssociates(a: nat, b: nat, c: nat, ab: nat, bc: nat)
    requires ab % 2 == (a + b) % 2 && bc % 2 == (b + c) % 2
    ensures (ab + c) % 2 == (a + bc) % 2
  {
  }

  lemma {:induction false} XorCommutes(a: nat, b: nat)
    ensures Xor(a, b) == Xor(b, a)
  {
    if a != 0 && b != 0 {
      XorCommutes(a / 2, b / 2);
    }
  }

  lemma {:induction false} XorAssociates(a: nat, b: nat, c: nat)
    ensures Xor(Xor(a, b), c) == Xor(a, Xor(b, c))
  {
    if a != 0 && b != 0 && c != 0 {
      var ab, bc := Xor(a, b), Xor(b, c);
      XorHalf(a, b);
      XorHalf(b, c);
      XorHalf(ab, c);
      XorHalf(a, bc);
      XorAssociates(a / 2, b / 2, c / 2);
      ParityAssociates(a, b, c, ab, bc);
      SameBits(Xor(ab, c), Xor(a, bc));
    }
  }

  lemma {:induction false} XorSelf(a: nat)
    ensures Xor(a, a) == 0
  {
    if a != 0 {
      XorSelf(a / 2);
    }
  }

  lemma {:induction false} XorZeroOnlyEqual(a: nat, b: nat)
    requires Xor(a, b) == 0
    ensures a == b
  {
    if a != 0 && b != 0 {
      XorHalf(a, b);
      XorZeroOnlyEqual(a / 2, b / 2);
    }
  }

  /** (a ^ b) ^ (c ^ d) == (a ^ c) ^ (b ^ d). */
  lemma XorSwap(a: nat, b: nat, c: nat, d: nat)
    ensures Xor(Xor(a, b), Xor(c, d)) == Xor(Xor(a, c), Xor(b, d))
  {
    calc {
      Xor(Xor(a, b), Xor(c, d));
      { XorAssociates(a, b, Xor(c, d)); XorAssociates(b, c, d); XorCommutes(b, c); }
      Xor(a, Xor(Xor(c, b), d));
      { XorAssociates(c, b, d); XorAssociates(a, c, Xor(b, d)); }
      Xor(Xor(a, c), Xor(b, d));
    }
  }

  /** `m << k`. */
  function Shl(m: nat, k: nat): nat {
    if k == 0 then m else 2 * Shl(m, k - 1)
  }

  function Pow2(k: nat): (p: nat)
    ensures p >= 1
  {
    if k == 0 then 1 else 2 * Pow2(k - 1)
  }

  lemma ShlByte(m: nat)
    ensures Shl(m, 8) == 256 * m
  {
    assert Shl(m, 1) == 2 * m;
    assert Shl(m, 2) == 4 * m;
    assert Shl(m, 4) == 16 * m;
    assert Shl(m, 6) == 64 * m;
  }

  lemma {:induction false} ShlAdds(m: nat, j: nat, k: nat)
    ensures Shl(Shl(m, j), k) == Shl(m, j + k)
  {
    if k > 0 {
      ShlAdds(m, j, k - 1);
    }
  }

  lemma {:induction false} XorBound(a: nat, b: nat, k: nat)
    requires a < Pow2(k) && b < Pow2(k)
    ensures Xor(a, b) < Pow2(k)
  {
    if k > 0 && a != 0 && b != 0 {
      XorBound(a / 2, b / 2, k - 1);
    }
  }

  /** A set top bit survives an exclusive or with a value that lacks it. */
  lemma {:induction false} XorTopBit(a: nat, b: nat, k: nat)
    requires a < Pow2(k) <= b
    ensures Xor(a, b) >= Pow2(k)
  {
    if k > 0 && a != 0 {
      XorTopBit(a / 2, b / 2, k - 1);
    }
  }

  lemma Pow2Facts()
    ensures Pow2(8) == 256 && Pow2(31) == TWO_31 && Pow2(32) == TWO_32
  {
    assert Pow2(4) == 16;
    assert Pow2(8) == 256;
    assert Pow2(12) == 4096;
    assert Pow2(16) == 0x1_0000;
    assert Pow2(20) == 0x10_0000;
    assert Pow2(24) == 0x100_0000;
    assert Pow2(28) == 0x1000_0000;
    assert Pow2(31) == TWO_31;
  }

  // ---------- The checksum ----------

  /** One turn of the inner loop. It is defined on every natural so that it is linear. */
  function Step(crc: nat): nat {
    Reduce(crc, POLYNOMIAL)
  }

  function Reduce(crc: nat, polynomial: nat): nat {
    if crc % 2 != 0 then Xor(crc / 2, polynomial) else crc / 2
  }

  function Steps(n: nat, crc: nat): nat {
    if n == 0 then crc else Steps(n - 1, Step(crc))
  }

  /** The inner loop. */
  function ByteSteps(crc: nat): nat {
    Steps(8, crc)
  }

  /** The register after absorbing `bytes` from the register value `crc`. */
  function Absorb(crc: nat, bytes: seq<byte>): nat
    decreases |bytes|
  {
    if bytes == [] then crc else Absorb(ByteSteps(Xor(crc, bytes[0])), bytes[1..])
  }

  function Checksum(bytes: seq<byte>): int {
    MAX_U32 - Absorb(MAX_U32, bytes)
  }

  lemma StepBound(crc: nat)
    requires crc < TWO_32
    ensures Step(crc) < TWO_32
  {
    Pow2Facts();
    XorBound(crc / 2, POLYNOMIAL, 32);
  }

  lemma {:induction false} StepsBound(n: nat, crc: nat)
    requires crc < TWO_32
    ensures Steps(n, crc) < TWO_32
  {
    if n > 0 {
      StepBound(crc);
      StepsBound(n - 1, Step(crc));
    }
  }

  lemma {:induction false} AbsorbBound(crc: nat, bytes: seq<byte>)
    requires crc < TWO_32
    ensures Absorb(crc, bytes) < TWO_32
    decreases |bytes|
  {
    if bytes != [] {
      Pow2Facts();
      XorBound(crc, bytes[0], 32);
      StepsBound(8, Xor(crc, bytes[0]));
      AbsorbBound(ByteSteps(Xor(crc, bytes[0])), bytes[1..]);
    }
  }

  lemma {:induction false} AbsorbSnoc(crc: nat, bytes: seq<byte>, b: byte)
    ensures Absorb(crc, bytes + [b]) == ByteSteps(Xor(Absorb(crc, bytes), b))
    decreases |bytes|
  {
    if bytes == [] {
      assert bytes + [b] == [b];
      assert Absorb(crc, [b]) == Absorb(ByteSteps(Xor(crc, b)), [b][1..]);
    } else {
      assert (bytes + [b])[1..] == bytes[1..] + [b];
      AbsorbSnoc(ByteSteps(Xor(crc, bytes[0])), bytes[1..], b);
    }
  }

  lemma {:induction false} StepsSnoc(n: nat, crc: nat)
    ensures Steps(n + 1, crc) == Step(Steps(n, crc))
  {
    if n > 0 {
      StepsSnoc(n - 1, Step(crc));
    }
  }

  /** The two nested loops of the source. */
  method Compute(bytes: seq<byte>) returns (r: u32)
    ensures r == Checksum(bytes)
  {
    var crc: u32 := MAX_U32;
    for i := 0 to |bytes|
      invariant crc == Absorb(MAX_U32, bytes[..i])
    {
      Pow2Facts();
      XorBound(crc, bytes[i], 32);
      ghost var mixed := Xor(crc, bytes[i]);
      assert bytes[..i + 1] == bytes[..i] + [bytes[i]];
      AbsorbSnoc(MAX_U32, bytes[..i], bytes[i]);
      crc := Xor(crc, bytes[i]);
      for k := 0 to 8
        invariant crc == Steps(k, mixed)
      {
        StepsSnoc(k, mixed);
        StepBound(crc);
        crc := if crc % 2 != 0 then Xor(crc / 2, POLYNOMIAL) else crc / 2;
      }
    }
    assert bytes[..|bytes|] == bytes;
    r := MAX_U32 - crc;
  }

  // ---------- Linearity ----------

  lemma XorZero(a: nat)
    ensures Xor(a, 0) == a
  {
  }

  function Mask(on: bool, p: nat): nat {
    if on then p else 0
  }

  /** Two conditional exclusive ors with `p` combine into one. */
  lemma XorMasks(x: nat, y: nat, p: nat, m: bool, n: bool)
    ensures Xor(Xor(x, Mask(m, p)), Xor(y, Mask(n, p))) == Xor(Xor(x, y), Mask(m != n, p))
  {
    XorSwap(x, Mask(m, p), y, Mask(n, p));
    XorSelf(Mask(m, p));
    XorZero(Mask(m, p));
  }

  lemma ReduceIsMasked(crc: nat, half: nat, odd: bool, p: nat)
    requires half == crc / 2 && odd == (crc % 2 != 0)
    ensures Reduce(crc, p) == Xor(half, Mask(odd, p))
  {
    XorZero(half);
  }

  lemma ReduceLinear(a: nat, b: nat, p: nat)
    ensures Reduce(Xor(a, b), p) == Xor(Reduce(a, p), Reduce(b, p))
  {
    var x, y, m, n := a / 2, b / 2, a % 2 != 0, b % 2 != 0;
    XorHalf(a, b);
    assert (Xor(a, b) % 2 != 0) == (m != n);
    ReduceIsMasked(a, x, m, p);
    ReduceIsMasked(b, y, n, p);
    ReduceIsMasked(Xor(a, b), Xor(x, y), m != n, p);
    XorMasks(x, y, p, m, n);
  }

  lemma StepLinear(a: nat, b: nat)
    ensures Step(Xor(a, b)) == Xor(Step(a), Step(b))
  {
    ReduceLinear(a, b, POLYNOMIAL);
  }

  lemma {:induction false} StepsLinear(n: nat, a: nat, b: nat)
    ensures Steps(n, Xor(a, b)) == Xor(Steps(n, a), Steps(n, b))
  {
    if n > 0 {
      StepLinear(a, b);
      StepsLinear(n - 1, Step(a), Step(b));
    }
  }

  /** The bits of a byte string in the order in which the register consumes them. */
  function Bits(bytes: seq<byte>): nat {
    if bytes == [] then 0 else bytes[0] + 256 * Bits(bytes[1..])
  }

  lemma {:induction false} StepsShift(k: nat, d: nat)
    ensures Steps(k, Shl(d, k)) == d
  {
    if k > 0 {
      assert Step(Shl(d, k)) == Shl(d, k - 1);
      StepsShift(k - 1, d);
    }
  }

  lemma {:induction false} StepsCompose(m: nat, n: nat, crc: nat)
    ensures Steps(m + n, crc) == Steps(n, Steps(m, crc))
  {
    if m > 0 {
      StepsCompose(m - 1, n, Step(crc));
    }
  }

  /** Doubling both operands doubles the result. */
  lemma XorDouble(x: nat, y: nat)
    ensures Xor(2 * x, 2 * y) == 2 * Xor(x, y)
  {
    var a, b := 2 * x, 2 * y;
    XorHalf(a, b);
    assert a / 2 == x && b / 2 == y;
    SameBits(Xor(a, b), 2 * Xor(x, y));
  }

  lemma {:induction false} XorDisjoint(a: nat, m: nat, k: nat)
    requires a < Pow2(k)
    ensures Xor(a, Shl(m, k)) == a + Shl(m, k)
  {
    if k > 0 {
      var h := Shl(m, k - 1);
      XorDisjoint(a / 2, m, k - 1);
      XorHalf(a, 2 * h);
      SameBits(Xor(a, 2 * h), a + 2 * h);
    }
  }

  lemma StepsSplit(n: nat, crc: nat, low: nat, high: nat)
    requires low < Pow2(n)
    ensures Steps(n, Xor(crc, low + Shl(high, n))) == Xor(Steps(n, Xor(crc, low)), high)
  {
    var shifted := Shl(high, n);
    XorDisjoint(low, high, n);
    XorAssociates(crc, low, shifted);
    StepsLinear(n, Xor(crc, low), shifted);
    StepsShift(n, high);
  }

  lemma ByteSplit(crc: nat, low: byte, high: nat)
    ensures ByteSteps(Xor(crc, low + 256 * high)) == Xor(ByteSteps(Xor(crc, low)), high)
  {
    Pow2Facts();
    ShlByte(high);
    StepsSplit(8, crc, low, high);
  }

  lemma ByteThenRest(n: nat, crc: nat, low: byte, high: nat)
    ensures Steps(8 + n, Xor(crc, low + 256 * high)) == Steps(n, Xor(ByteSteps(Xor(crc, low)), high))
  {
    ByteSplit(crc, low, high);
    StepsCompose(8, n, Xor(crc, low + 256 * high));
  }

  lemma BitsCons(b: byte, rest: seq<byte>)
    ensures Bits([b] + rest) == b + 256 * Bits(rest)
  {
    assert ([b] + rest)[1..] == rest;
  }

  lemma AbsorbCons(crc: nat, b: byte, rest: seq<byte>)
    ensures Absorb(crc, [b] + rest) == Absorb(ByteSteps(Xor(crc, b)), rest)
  {
    assert ([b] + rest)[1..] == rest;
  }

  /** Absorbing a string is one linear map applied to the register and the string's bits. */
  lemma {:induction false} AbsorbIsLinear(crc: nat, bytes: seq<byte>)
    ensures Absorb(crc, bytes) == Steps(8 * |bytes|, Xor(crc, Bits(bytes)))
    decreases |bytes|
  {
    hide ByteSteps;
    if bytes == [] {
      XorZero(crc);
    } else {
      AbsorbIsLinear(ByteSteps(Xor(crc, bytes[0])), bytes[1..]);
      AbsorbOneMore(crc, bytes[0], bytes[1..], 8 * |bytes[1..]|);
      assert bytes == [bytes[0]] + bytes[1..];
    }
  }

  lemma AbsorbOneMore(crc: nat, b: byte, rest: seq<byte>, n: nat)
    requires Absorb(ByteSteps(Xor(crc, b)), rest) == Steps(n, Xor(ByteSteps(Xor(crc, b)), Bits(rest)))
    ensures Absorb(crc, [b] + rest) == Steps(8 + n, Xor(crc, Bits([b] + rest)))
  {
    hide *;
    AbsorbCons(crc, b, rest);
    BitsCons(b, rest);
    ByteThenRest(n, crc, b, Bits(rest));
  }

  /** Two equally long strings collide exactly when the shifted difference of their bits vanishes. */
  lemma CollisionIsVanishingDifference(x: seq<byte>, y: seq<byte>)
    requires |x| == |y|
    ensures Checksum(x) == Checksum(y) <==> Steps(8 * |x|, Xor(Bits(x), Bits(y))) == 0
  {
    var n, s := 8 * |x|, MAX_U32;
    AbsorbIsLinear(s, x);
    AbsorbIsLinear(s, y);
    StepsLinear(n, Xor(s, Bits(x)), Xor(s, Bits(y)));
    XorSwap(s, Bits(x), s, Bits(y));
    XorSelf(s);
    var d := Steps(n, Xor(Bits(x), Bits(y)));
    assert Xor(Absorb(s, x), Absorb(s, y)) == d;
    if d == 0 {
      XorZeroOnlyEqual(Absorb(s, x), Absorb(s, y));
    } else if Absorb(s, x) == Absorb(s, y) {
      XorSelf(Absorb(s, x));
    }
  }

  // ---------- Error detection ----------

  lemma StepKeepsNonzero(d: nat)
    requires 0 < d < TWO_32
    ensures 0 < Step(d) < TWO_32
  {
    StepBound(d);
    if d % 2 != 0 {
      Pow2Facts();
      XorTopBit(d / 2, POLYNOMIAL, 31);
    }
  }

  lemma {:induction false} StepsKeepNonzero(n: nat, d: nat)
    requires 0 < d < TWO_32
    ensures 0 < Steps(n, d) < TWO_32
  {
    if n > 0 {
      StepKeepsNonzero(d);
      StepsKeepNonzero(n - 1, Step(d));
    }
  }

  lemma {:induction false} ShlZero(k: nat)
    ensures Shl(0, k) == 0
  {
    if k > 0 {
      ShlZero(k - 1);
    }
  }

  /** Every error whose flipped bits lie in a window of 32 consecutive bits is detected. */
  lemma BitBurstDetected(x: seq<byte>, y: seq<byte>, shift: nat, burst: nat)
    requires |x| == |y| && x != y
    requires shift <= 8 * |x| && burst < TWO_32
    requires Xor(Bits(x), Bits(y)) == Shl(burst, shift)
    ensures Checksum(x) != Checksum(y)
  {
    if burst == 0 {
      ShlZero(shift);
      XorZeroOnlyEqual(Bits(x), Bits(y));
      BitsInjective(x, y);
      assert false;
    }
    CollisionIsVanishingDifference(x, y);
    StepsCompose(shift, 8 * |x| - shift, Shl(burst, shift));
    StepsShift(shift, burst);
    StepsKeepNonzero(8 * |x| - shift, burst);
  }

  lemma BytePartsUnique(a: byte, b: byte, m: nat, n: nat)
    requires a + 256 * m == b + 256 * n
    ensures a == b && m == n
  {
  }

  lemma {:induction false} BitsInjective(x: seq<byte>, y: seq<byte>)
    requires |x| == |y| && Bits(x) == Bits(y)
    ensures x == y
  {
    if x != [] {
      BytePartsUnique(x[0], y[0], Bits(x[1..]), Bits(y[1..]));
      BitsInjective(x[1..], y[1..]);
      assert x == [x[0]] + x[1..] && y == [y[0]] + y[1..];
    }
  }

  lemma {:induction false} BitsBound(x: seq<byte>)
    ensures Bits(x) < Pow2(8 * |x|)
  {
    if x != [] {
      BitsBound(x[1..]);
      Pow2Byte(8 * |x[1..]|);
    }
  }

  lemma Pow2Byte(n: nat)
    ensures Pow2(n + 8) == 256 * Pow2(n)
  {
    assert Pow2(n + 2) == 4 * Pow2(n);
    assert Pow2(n + 4) == 16 * Pow2(n);
    assert Pow2(n + 6) == 64 * Pow2(n);
  }

  /** A shared tail cancels. */
  lemma {:induction false} DifferenceDropsTail(v: seq<byte>, w: seq<byte>, tail: seq<byte>)
    requires |v| == |w|
    ensures Xor(Bits(v + tail), Bits(w + tail)) == Xor(Bits(v), Bits(w))
  {
    if v == [] {
      assert v + tail == tail == w + tail;
      XorSelf(Bits(tail));
    } else {
      var x, y := v[1..], w[1..];
      DifferenceDropsTail(x, y, tail);
      assert v == [v[0]] + x && w == [w[0]] + y;
      assert v + tail == [v[0]] + (x + tail) && w + tail == [w[0]] + (y + tail);
      DifferenceOfCons(v[0], w[0], x, y);
      DifferenceOfCons(v[0], w[0], x + tail, y + tail);
    }
  }

  lemma DifferenceOfCons(a: byte, b: byte, v: seq<byte>, w: seq<byte>)
    ensures Xor(Bits([a] + v), Bits([b] + w)) == Xor(a, b) + 256 * Xor(Bits(v), Bits(w))
  {
    hide *;
    BitsCons(a, v);
    BitsCons(b, w);
    XorBytesAs(Bits([a] + v), Bits([b] + w), a, b, Bits(v), Bits(w));
  }

  lemma XorBytesAs(x: nat, y: nat, a: byte, b: byte, m: nat, n: nat)
    requires x == a + 256 * m && y == b + 256 * n
    ensures Xor(x, y) == Xor(a, b) + 256 * Xor(m, n)
  {
    hide *;
    XorBytes(a, b, m, n);
  }

  lemma XorBytes(a: byte, b: byte, m: nat, n: nat)
    ensures Xor(a + 256 * m, b + 256 * n) == Xor(a, b) + 256 * Xor(m, n)
  {
    hide *;
    Pow2Facts();
    ShlByte(m);
    ShlByte(n);
    ShlByte(Xor(m, n));
    XorDisjoint(a, m, 8);
    XorDisjoint(b, n, 8);
    XorSwap(a, 256 * m, b, 256 * n);
    XorScale(m, n, 8);
    XorBound(a, b, 8);
    XorDisjoint(Xor(a, b), Xor(m, n), 8);
  }

  lemma {:induction false} XorScale(m: nat, n: nat, k: nat)
    ensures Xor(Shl(m, k), Shl(n, k)) == Shl(Xor(m, n), k)
  {
    if k > 0 {
      XorScale(m, n, k - 1);
      XorDouble(Shl(m, k - 1), Shl(n, k - 1));
    }
  }

  /** A shared head shifts the difference. */
  lemma {:induction false} DifferenceShiftsHead(head: seq<byte>, v: seq<byte>, w: seq<byte>)
    ensures Xor(Bits(head + v), Bits(head + w)) == Shl(Xor(Bits(v), Bits(w)), 8 * |head|)
  {
    if head == [] {
      assert head + v == v && head + w == w;
    } else {
      var rest := head[1..];
      assert head + v == [head[0]] + (rest + v) && head + w == [head[0]] + (rest + w);
      DifferenceOfCons(head[0], head[0], rest + v, rest + w);
      XorSelf(head[0]);
      DifferenceShiftsHead(rest, v, w);
      ShlByte(Shl(Xor(Bits(v), Bits(w)), 8 * |rest|));
      ShlAdds(Xor(Bits(v), Bits(w)), 8 * |rest|, 8);
    }
  }

  /** Two strings that differ only inside four consecutive bytes have different checksums. */
  lemma BurstDetected(head: seq<byte>, v: seq<byte>, w: seq<byte>, tail: seq<byte>)
    requires |v| == |w| <= 4 && v != w
    ensures Checksum(head + v + tail) != Checksum(head + w + tail)
  {
    var x, y := head + v + tail, head + w + tail;
    assert x == head + (v + tail) && y == head + (w + tail);
    DifferenceShiftsHead(head, v + tail, w + tail);
    DifferenceDropsTail(v, w, tail);
    var burst := Xor(Bits(v), Bits(w));
    BitsBound(v);
    BitsBound(w);
    Pow2Monotone(8 * |v|, 32);
    Pow2Facts();
    XorBound(Bits(v), Bits(w), 32);
    assert x[|head|..|head| + |v|] == v && y[|head|..|head| + |v|] == w;
    BitBurstDetected(x, y, 8 * |head|, burst);
  }

  lemma {:induction false} Pow2Monotone(m: nat, n: nat)
    requires m <= n
    ensures Pow2(m) <= Pow2(n)
  {
    if m < n {
      Pow2Monotone(m, n - 1);
    }
  }
}
