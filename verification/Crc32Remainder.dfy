/**
 What the checksum is: the remainder of the message polynomial over GF(2), as in the CRC-32 of ISO 3309 and
 ITU-T V.42. A natural number stands for the polynomial whose coefficients are its bits.
 */
module Crc32Remainder {
  import opened Text
  import opened Crc32

  /** x^32 + x^26 + x^23 + x^22 + x^16 + x^12 + x^11 + x^10 + x^8 + x^7 + x^5 + x^4 + x^2 + x + 1. */
  const GENERATOR: nat := 0x1_04C1_1DB7

  /** The carry-less product. */
  function Times(a: nat, b: nat): nat {
    if a == 0 then 0 else Xor(if a % 2 == 1 then b else 0, 2 * Times(a / 2, b))
  }

  ghost predicate Multiple(a: nat) {
    exists q: nat :: Times(q, GENERATOR) == a
  }

  /** The `n` low bits of `x` in opposite order. */
  function Reflect(n: nat, x: nat): nat {
    if n == 0 then 0 else Shl(x % 2, n - 1) + Reflect(n - 1, x / 2)
  }

  /** The message as a polynomial: the first byte highest, and in each byte the low bit first. */
  function Message(bytes: seq<byte>): nat {
    if bytes == [] then 0 else 256 * Message(bytes[..|bytes| - 1]) + Reflect(8, bytes[|bytes| - 1])
  }

  /** The message shifted by 32 places with its first 32 coefficients complemented. */
  function Dividend(bytes: seq<byte>): nat {
    Xor(Shl(Message(bytes), 32), Shl(0xFFFF_FFFF, 8 * |bytes|))
  }

  /** The complement of `r`, low bit highest, is the remainder of the dividend. */
  ghost predicate IsChecksum(bytes: seq<byte>, r: int) {
    0 <= r <= 0xFFFF_FFFF && Multiple(Xor(Reflect(32, 0xFFFF_FFFF - r), Dividend(bytes)))
  }

  // ---------- Products and multiples ----------

  lemma {:induction false} TimesXor(a: nat, b: nat, c: nat)
    ensures Times(Xor(a, b), c) == Xor(Times(a, c), Times(b, c))
  {
    if a != 0 && b != 0 {
      TimesXor(a / 2, b / 2, c);
      OddXor(a, b);
      TimesHalves(a, c, a / 2, a % 2 == 1);
      TimesHalves(b, c, b / 2, b % 2 == 1);
      TimesHalves(Xor(a, b), c, Xor(a / 2, b / 2), (a % 2 == 1) != (b % 2 == 1));
      TimesStep(a / 2, b / 2, c, a % 2 == 1, b % 2 == 1);
    } else {
      XorZero(a);
      XorZero(Times(a, c));
    }
  }

  lemma OddXor(a: nat, b: nat)
    ensures Xor(a, b) / 2 == Xor(a / 2, b / 2)
    ensures (Xor(a, b) % 2 == 1) == ((a % 2 == 1) != (b % 2 == 1))
  {
    XorHalf(a, b);
    hide Xor;
  }

  lemma TimesHalves(a: nat, c: nat, half: nat, odd: bool)
    requires half == a / 2 && odd == (a % 2 == 1)
    ensures Times(a, c) == Xor(2 * Times(half, c), Mask(odd, c))
  {
    XorCommutes(Mask(odd, c), 2 * Times(half, c));
    XorZero(0);
  }

  lemma TimesStep(x: nat, y: nat, c: nat, m: bool, n: bool)
    requires Times(Xor(x, y), c) == Xor(Times(x, c), Times(y, c))
    ensures Xor(2 * Times(Xor(x, y), c), Mask(m != n, c))
            == Xor(Xor(2 * Times(x, c), Mask(m, c)), Xor(2 * Times(y, c), Mask(n, c)))
  {
    hide Xor, Times, Mask;
    XorDouble(Times(x, c), Times(y, c));
    XorMasks(2 * Times(x, c), 2 * Times(y, c), c, m, n);
  }

  lemma MultipleXor(a: nat, b: nat)
    requires Multiple(a) && Multiple(b)
    ensures Multiple(Xor(a, b))
  {
    var p: nat :| Times(p, GENERATOR) == a;
    var q: nat :| Times(q, GENERATOR) == b;
    TimesXor(p, q, GENERATOR);
    assert Times(Xor(p, q), GENERATOR) == Xor(a, b);
  }

  lemma MultipleDouble(a: nat)
    requires Multiple(a)
    ensures Multiple(2 * a)
  {
    var q: nat :| Times(q, GENERATOR) == a;
    TimesHalves(2 * q, GENERATOR, q, false);
    XorZero(2 * a);
    assert Times(2 * q, GENERATOR) == 2 * a;
  }

  lemma MultipleBasics()
    ensures Multiple(0) && Multiple(GENERATOR)
  {
    assert Times(0, GENERATOR) == 0;
    XorZero(GENERATOR);
    assert Times(1, GENERATOR) == GENERATOR;
  }

  /** Equal up to a multiple of the generator. */
  ghost predicate Congruent(a: nat, b: nat) {
    Multiple(Xor(a, b))
  }

  lemma CongruentChain(a: nat, b: nat, c: nat)
    requires Congruent(a, b) && Congruent(b, c)
    ensures Congruent(a, c)
  {
    MultipleXor(Xor(a, b), Xor(b, c));
    XorMiddle(a, b, c);
  }

  lemma XorMiddle(a: nat, b: nat, c: nat)
    ensures Xor(Xor(a, b), Xor(b, c)) == Xor(a, c)
  {
    XorAssociates(a, b, Xor(b, c));
    XorAssociates(b, b, c);
    XorSelf(b);
  }

  lemma CongruentXor(a: nat, b: nat, c: nat)
    requires Congruent(a, b)
    ensures Congruent(Xor(a, c), Xor(b, c))
  {
    XorSwap(a, c, b, c);
    XorSelf(c);
    XorZero(Xor(a, b));
  }

  lemma {:induction false} CongruentShift(a: nat, b: nat, k: nat)
    requires Congruent(a, b)
    ensures Congruent(Shl(a, k), Shl(b, k))
  {
    if k > 0 {
      CongruentShift(a, b, k - 1);
      XorDouble(Shl(a, k - 1), Shl(b, k - 1));
      MultipleDouble(Xor(Shl(a, k - 1), Shl(b, k - 1)));
    }
  }

  // ---------- Reflection ----------

  lemma {:induction false} ShlOne(k: nat)
    ensures Shl(1, k) == Pow2(k)
  {
    if k > 0 {
      ShlOne(k - 1);
    }
  }

  lemma ShlBit(b: nat, k: nat)
    requires b < 2
    ensures Shl(b, k) == if b == 0 then 0 else Pow2(k)
  {
    ShlOne(k);
    ShlZero(k);
  }

  lemma {:induction false} ReflectBound(n: nat, x: nat)
    ensures Reflect(n, x) < Pow2(n)
  {
    if n > 0 {
      ReflectBound(n - 1, x / 2);
      ShlBit(x % 2, n - 1);
    }
  }

  lemma ReflectSplit(n: nat, x: nat)
    requires n > 0
    ensures Reflect(n, x) == Xor(Reflect(n - 1, x / 2), Shl(x % 2, n - 1))
  {
    ReflectBound(n - 1, x / 2);
    XorDisjoint(Reflect(n - 1, x / 2), x % 2, n - 1);
  }

  lemma {:induction false} ReflectXor(n: nat, a: nat, b: nat)
    ensures Reflect(n, Xor(a, b)) == Xor(Reflect(n, a), Reflect(n, b))
  {
    if n > 0 {
      hide Xor, Reflect, Shl;
      ReflectXor(n - 1, a / 2, b / 2);
      XorParts(a, b);
      ReflectSplit(n, a);
      ReflectSplit(n, b);
      ReflectSplit(n, Xor(a, b));
      ReflectStep(n - 1, a / 2, b / 2, Xor(a / 2, b / 2), a % 2, b % 2, Xor(a, b) % 2);
    } else {
      NothingReflected(a, b);
    }
  }

  lemma NothingReflected(a: nat, b: nat)
    ensures Reflect(0, Xor(a, b)) == Xor(Reflect(0, a), Reflect(0, b))
  {
  }

  lemma XorParts(a: nat, b: nat)
    ensures Xor(a, b) / 2 == Xor(a / 2, b / 2) && Xor(a, b) % 2 == (a % 2 + b % 2) % 2
  {
    XorHalf(a, b);
    hide Xor;
  }

  lemma ReflectStep(n: nat, x: nat, y: nat, z: nat, a: nat, b: nat, c: nat)
    requires a < 2 && b < 2 && c == (a + b) % 2 && Reflect(n, z) == Xor(Reflect(n, x), Reflect(n, y))
    ensures Xor(Reflect(n, z), Shl(c, n)) == Xor(Xor(Reflect(n, x), Shl(a, n)), Xor(Reflect(n, y), Shl(b, n)))
  {
    BitXor(a, b, c, n);
    hide Xor, Reflect, Shl;
    XorSwap(Reflect(n, x), Shl(a, n), Reflect(n, y), Shl(b, n));
  }

  lemma BitXor(a: nat, b: nat, c: nat, k: nat)
    requires a < 2 && b < 2 && c == (a + b) % 2
    ensures Xor(Shl(a, k), Shl(b, k)) == Shl(c, k)
  {
    ShlZero(k);
    XorSelf(Shl(1, k));
    XorZero(Shl(a, k));
  }

  /** A number that needs one bit less reflects to an even one. */
  lemma {:induction false} ReflectWiden(n: nat, x: nat)
    requires x < Pow2(n)
    ensures Reflect(n + 1, x) == 2 * Reflect(n, x)
  {
    if n > 0 {
      ReflectWiden(n - 1, x / 2);
    } else {
      ShlZero(0);
    }
  }

  lemma ReflectHalf(n: nat, x: nat)
    requires n > 0 && x < Pow2(n)
    ensures 2 * Reflect(n, x) == Reflect(n, x / 2) + Shl(x % 2, n)
  {
    ReflectWiden(n - 1, x / 2);
  }

  /** A short number reflects into the high places. */
  lemma {:induction false} ReflectShort(n: nat, k: nat, x: nat)
    requires x < Pow2(n)
    ensures Reflect(n + k, x) == Shl(Reflect(n, x), k)
  {
    if k > 0 {
      Pow2Grows(n, k - 1);
      ReflectShort(n, k - 1, x);
      ReflectWiden(n + k - 1, x);
    }
  }

  lemma {:induction false} Pow2Grows(n: nat, k: nat)
    ensures Pow2(n) <= Pow2(n + k)
  {
    if k > 0 {
      Pow2Grows(n, k - 1);
    }
  }

  // ---------- One step and one byte ----------

  /** The same reversal, collecting the result from its high end. */
  function Reversal(n: nat, x: nat, high: nat): nat
    decreases n
  {
    if n == 0 then high else Reversal(n - 1, x / 2, 2 * high + x % 2)
  }

  lemma {:induction false} ReversalReflects(n: nat, x: nat, high: nat)
    ensures Reversal(n, x, high) == Shl(high, n) + Reflect(n, x)
    decreases n
  {
    if n > 0 {
      ReversalReflects(n - 1, x / 2, 2 * high + x % 2);
      ShlSum(2 * high, x % 2, n - 1);
      ShlAdds(high, 1, n - 1);
      assert Shl(high, 1) == 2 * high;
    }
  }

  lemma {:induction false} ShlSum(a: nat, b: nat, k: nat)
    ensures Shl(a + b, k) == Shl(a, k) + Shl(b, k)
  {
    if k > 0 {
      ShlSum(a, b, k - 1);
    }
  }

  lemma Turn(n: nat, x: nat, high: nat)
    requires n > 0
    ensures Reversal(n, x, high) == Reversal(n - 1, x / 2, 2 * high + x % 2)
  {
  }

  lemma ReversalEnds(x: nat, high: nat)
    ensures Reversal(0, x, high) == high
  {
  }

  lemma ReflectedPolynomial()
    ensures Reflect(32, POLYNOMIAL) == 0x04C1_1DB7
  {
    hide Reflect, Reversal, Shl;
    ReversalReflects(32, POLYNOMIAL, 0);
    ShlZero(32);
    Turn(32, 0xedb88320, 0x0); Turn(31, 0x76dc4190, 0x0); Turn(30, 0x3b6e20c8, 0x0); Turn(29, 0x1db71064, 0x0);
    Turn(28, 0xedb8832, 0x0); Turn(27, 0x76dc419, 0x0); Turn(26, 0x3b6e20c, 0x1); Turn(25, 0x1db7106, 0x2);
    Turn(24, 0xedb883, 0x4); Turn(23, 0x76dc41, 0x9); Turn(22, 0x3b6e20, 0x13); Turn(21, 0x1db710, 0x26);
    Turn(20, 0xedb88, 0x4c); Turn(19, 0x76dc4, 0x98); Turn(18, 0x3b6e2, 0x130); Turn(17, 0x1db71, 0x260);
    Turn(16, 0xedb8, 0x4c1); Turn(15, 0x76dc, 0x982); Turn(14, 0x3b6e, 0x1304); Turn(13, 0x1db7, 0x2608);
    Turn(12, 0xedb, 0x4c11); Turn(11, 0x76d, 0x9823); Turn(10, 0x3b6, 0x13047); Turn(9, 0x1db, 0x2608e);
    Turn(8, 0xed, 0x4c11d); Turn(7, 0x76, 0x9823b); Turn(6, 0x3b, 0x130476); Turn(5, 0x1d, 0x2608ed);
    Turn(4, 0xe, 0x4c11db); Turn(3, 0x7, 0x9823b6); Turn(2, 0x3, 0x130476d); Turn(1, 0x1, 0x2608edb);
    ReversalEnds(0, 0x04C1_1DB7);
  }

  /** A step of the register multiplies its reflection by x. */
  lemma StepCongruent(crc: nat)
    requires crc < TWO_32
    ensures Congruent(Reflect(32, Step(crc)), 2 * Reflect(32, crc))
  {
    MultipleBasics();
    StepReflection(crc);
    hide *;
    var low, whole := Reflect(32, crc / 2), Reflect(32, crc);
    if crc % 2 != 0 {
      OddStep(low, whole);
      CongruentBy(Reflect(32, Step(crc)), 2 * whole, GENERATOR);
    } else {
      XorSelf(low);
      CongruentBy(Reflect(32, Step(crc)), 2 * whole, 0);
    }
  }

  lemma CongruentBy(a: nat, b: nat, m: nat)
    requires Xor(a, b) == m && Multiple(m)
    ensures Congruent(a, b)
  {
  }

  lemma StepReflection(crc: nat)
    requires crc < TWO_32
    ensures Reflect(32, crc / 2) < TWO_32
    ensures 2 * Reflect(32, crc) == Reflect(32, crc / 2) + if crc % 2 != 0 then TWO_32 else 0
    ensures Reflect(32, Step(crc))
            == if crc % 2 != 0 then Xor(Reflect(32, crc / 2), 0x04C1_1DB7) else Reflect(32, crc / 2)
  {
    Pow2Facts();
    hide Reflect, Shl, Xor, Pow2;
    ReflectBound(32, crc / 2);
    ReflectHalf(32, crc);
    ShlBit(crc % 2, 32);
    ReflectedPolynomial();
    ReflectXor(32, crc / 2, POLYNOMIAL);
  }

  lemma OddStep(low: nat, whole: nat)
    requires low < TWO_32 && 2 * whole == low + TWO_32
    ensures Xor(Xor(low, 0x04C1_1DB7), 2 * whole) == GENERATOR
  {
    Pow2Facts();
    ShlOne(32);
    XorDisjoint(low, 1, 32);
    XorDisjoint(0x04C1_1DB7, 1, 32);
    hide Xor, Shl, Pow2;
    XorCommutes(low, 0x04C1_1DB7);
    XorMiddle(0x04C1_1DB7, low, TWO_32);
  }

  lemma {:induction false} StepsCongruent(n: nat, crc: nat)
    requires crc < TWO_32
    ensures Congruent(Reflect(32, Steps(n, crc)), Shl(Reflect(32, crc), n))
  {
    hide Reflect, Congruent, Step;
    if n == 0 {
      CongruentItself(Reflect(32, crc));
    } else {
      StepBound(crc);
      StepsCongruent(n - 1, Step(crc));
      StepCongruent(crc);
      CongruentShift(Reflect(32, Step(crc)), 2 * Reflect(32, crc), n - 1);
      ShlAdds(Reflect(32, crc), 1, n - 1);
      assert Shl(Reflect(32, crc), 1) == 2 * Reflect(32, crc);
      CongruentChain(Reflect(32, Steps(n - 1, Step(crc))), Shl(Reflect(32, Step(crc)), n - 1), Shl(Reflect(32, crc), n));
    }
  }

  lemma CongruentItself(a: nat)
    ensures Congruent(a, a)
  {
    XorSelf(a);
    MultipleBasics();
  }

  // ---------- The whole message ----------

  lemma {:induction false} ShlXor(a: nat, b: nat, k: nat)
    ensures Shl(Xor(a, b), k) == Xor(Shl(a, k), Shl(b, k))
  {
    if k > 0 {
      ShlXor(a, b, k - 1);
      XorDouble(Shl(a, k - 1), Shl(b, k - 1));
    }
  }

  lemma MessageSnoc(bytes: seq<byte>, b: byte)
    ensures Message(bytes + [b]) == Xor(Shl(Message(bytes), 8), Reflect(8, b))
  {
    assert (bytes + [b])[..|bytes + [b]| - 1] == bytes;
    Pow2Facts();
    hide Reflect, Xor;
    ReflectBound(8, b);
    ShlByte(Message(bytes));
    XorDisjoint(Reflect(8, b), Message(bytes), 8);
    XorCommutes(Reflect(8, b), Shl(Message(bytes), 8));
  }

  /** One more byte shifts the dividend by eight places and adds the byte at the 32nd. */
  lemma DividendSnoc(bytes: seq<byte>, b: byte)
    ensures Dividend(bytes + [b]) == Xor(Shl(Dividend(bytes), 8), Shl(Reflect(8, b), 32))
  {
    hide Message, Reflect, Xor;
    var m, ones, r := Message(bytes), Shl(MAX_U32, 8 * |bytes|), Reflect(8, b);
    MessageSnoc(bytes, b);
    ShlXor(Shl(m, 8), r, 32);
    ShlAdds(m, 8, 32);
    ShlAdds(m, 32, 8);
    ShlAdds(MAX_U32, 8 * |bytes|, 8);
    ShlXor(Shl(m, 32), ones, 8);
    hide Shl;
    Rearrange(Shl(m, 40), Shl(r, 32), Shl(ones, 8));
  }

  lemma Rearrange(a: nat, b: nat, c: nat)
    ensures Xor(Xor(a, b), c) == Xor(Xor(a, c), b)
  {
    XorAssociates(a, b, c);
    XorAssociates(a, c, b);
    XorCommutes(b, c);
  }

  lemma ByteCongruent(crc: nat, b: byte)
    requires crc < TWO_32
    ensures Xor(crc, b) < TWO_32
    ensures Congruent(Reflect(32, ByteSteps(Xor(crc, b))), Xor(Shl(Reflect(32, crc), 8), Shl(Reflect(8, b), 32)))
  {
    Pow2Facts();
    XorBound(crc, b, 32);
    hide Reflect, Shl, Xor, Pow2, Congruent, Steps;
    StepsCongruent(8, Xor(crc, b));
    ReflectXor(32, crc, b);
    ReflectShort(8, 24, b);
    ShlXor(Reflect(32, crc), Reflect(32, b), 8);
    ShlAdds(Reflect(8, b), 24, 8);
  }

  lemma NothingCongruent()
    ensures Congruent(Reflect(32, Absorb(MAX_U32, [])), Dividend([]))
  {
    hide Reflect;
    AllOnes();
    ShlZero(32);
    CongruentItself(MAX_U32);
  }

  lemma RegisterSnoc(front: seq<byte>, b: byte)
    requires Absorb(MAX_U32, front) < TWO_32 && Absorb(MAX_U32, front + [b]) < TWO_32
    requires Congruent(Reflect(32, Absorb(MAX_U32, front)), Dividend(front))
    ensures Congruent(Reflect(32, Absorb(MAX_U32, front + [b])), Dividend(front + [b]))
  {
    hide Reflect, Shl, Xor, Congruent, Absorb, ByteSteps, Dividend;
    var crc := Absorb(MAX_U32, front);
    AbsorbSnoc(MAX_U32, front, b);
    ByteCongruent(crc, b);
    DividendSnoc(front, b);
    CongruentShift(Reflect(32, crc), Dividend(front), 8);
    CongruentXor(Shl(Reflect(32, crc), 8), Shl(Dividend(front), 8), Shl(Reflect(8, b), 32));
    CongruentChain(Reflect(32, Absorb(MAX_U32, front + [b])), Xor(Shl(Reflect(32, crc), 8), Shl(Reflect(8, b), 32)), Dividend(front + [b]));
  }

  /** The reflected register is the dividend up to a multiple of the generator. */
  lemma {:induction false} RegisterCongruent(bytes: seq<byte>)
    ensures Absorb(MAX_U32, bytes) < TWO_32
    ensures Congruent(Reflect(32, Absorb(MAX_U32, bytes)), Dividend(bytes))
  {
    hide Reflect, Shl, Xor, Congruent, Absorb, ByteSteps, Dividend, Times, Multiple, Message;
    AbsorbBound(MAX_U32, bytes);
    if bytes == [] {
      NothingCongruent();
    } else {
      var front, b := bytes[..|bytes| - 1], bytes[|bytes| - 1];
      assert bytes == front + [b];
      RegisterCongruent(front);
      RegisterSnoc(front, b);
    }
  }

  lemma {:induction false} OnesReflect(n: nat)
    ensures Reflect(n, Pow2(n) - 1) == Pow2(n) - 1
  {
    if n > 0 {
      OnesReflect(n - 1);
      ShlOne(n - 1);
    }
  }

  lemma AllOnes()
    ensures Reflect(32, MAX_U32) == MAX_U32
  {
    OnesReflect(32);
    Pow2Facts();
  }

  // ---------- The remainder is unique ----------

  /** A product with the generator has its degree at least. */
  lemma {:induction false} TimesAtLeast(q: nat)
    requires q > 0
    ensures Times(q, GENERATOR) >= TWO_32
  {
    Pow2Facts();
    TimesHalves(q, GENERATOR, q / 2, q % 2 == 1);
    if q / 2 == 0 {
      XorZero(GENERATOR);
    } else {
      TimesAtLeast(q / 2);
      TopStays(Times(q / 2, GENERATOR), q % 2 == 1);
    }
  }

  lemma TopStays(a: nat, odd: bool)
    requires a >= TWO_32
    ensures Xor(2 * a, Mask(odd, GENERATOR)) >= TWO_32
  {
    var m := Mask(odd, GENERATOR);
    Pow2Facts();
    assert Pow2(33) == 2 * Pow2(32);
    hide Pow2, Xor;
    XorCommutes(2 * a, m);
    XorTopBit(m, 2 * a, 33);
  }

  lemma SmallMultiple(a: nat)
    requires Multiple(a) && a < TWO_32
    ensures a == 0
  {
    var q: nat :| Times(q, GENERATOR) == a;
    if q > 0 {
      TimesAtLeast(q);
    }
  }

  lemma {:induction false} ReflectTwice(n: nat, x: nat, y: nat)
    requires x < Pow2(n) && y < Pow2(n) && Reflect(n, x) == Reflect(n, y)
    ensures x == y
  {
    if n > 0 {
      ReflectBound(n - 1, x / 2);
      ReflectBound(n - 1, y / 2);
      ShlBit(x % 2, n - 1);
      ShlBit(y % 2, n - 1);
      ReflectTwice(n - 1, x / 2, y / 2);
    }
  }

  /** The checksum of the loops is the one remainder, for strings of every length. */
  lemma ChecksumIsRemainder(bytes: seq<byte>, r: int)
    ensures r == Checksum(bytes) <==> IsChecksum(bytes, r)
  {
    RegisterCongruent(bytes);
    hide Reflect, Xor, Absorb, Dividend, Multiple;
    if IsChecksum(bytes, r) {
      var x, y, d := Reflect(32, MAX_U32 - r), Reflect(32, Absorb(MAX_U32, bytes)), Dividend(bytes);
      XorCommutes(y, d);
      CongruentChain(x, d, y);
      SmallDifference(x, y, MAX_U32 - r, Absorb(MAX_U32, bytes));
    }
  }

  lemma SmallDifference(x: nat, y: nat, a: nat, b: nat)
    requires a < TWO_32 && b < TWO_32 && x == Reflect(32, a) && y == Reflect(32, b) && Multiple(Xor(x, y))
    ensures a == b
  {
    Pow2Facts();
    hide Reflect, Xor, Pow2, Multiple;
    ReflectBound(32, a);
    ReflectBound(32, b);
    XorBound(x, y, 32);
    SmallMultiple(Xor(x, y));
    XorZeroOnlyEqual(x, y);
    ReflectTwice(32, a, b);
  }

  function Cons(bit: bool, high: nat): nat {
    2 * high + if bit then 1 else 0
  }

  lemma XorCons(p: bool, q: bool, x: nat, y: nat)
    ensures Xor(Cons(p, x), Cons(q, y)) == Cons(p != q, Xor(x, y))
  {
    XorDouble(x, y);
    var m, n := Mask(p, 1), Mask(q, 1);
    LowBit(x, p);
    LowBit(y, q);
    LowBit(Xor(x, y), p != q);
    hide Xor;
    XorMasks(2 * x, 2 * y, 1, p, q);
  }

  lemma LowBit(x: nat, bit: bool)
    ensures Cons(bit, x) == Xor(2 * x, Mask(bit, 1))
  {
    XorZero(2 * x);
    XorZero(x);
  }
}
