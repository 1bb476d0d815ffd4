/** The checksum of the nine characters "123456789", evaluated on machine words. */
module Crc32Check {
  import opened Text
  import opened Crc32
  import opened Crc32Remainder

  predicate Odd(x: bv32) {
    x & 1 == 1
  }

  /** The number that a machine word stands for. */
  function Word(x: bv32): nat
    decreases x
  {
    if x == 0 then 0 else Cons(Odd(x), Word(x >> 1))
  }

  lemma WordParts(x: bv32)
    ensures Word(x) == Cons(Odd(x), Word(x >> 1))
  {
    assert x == 0 ==> x >> 1 == 0 && x & 1 == 0;
  }

  lemma XorOfShifts(x: bv32, y: bv32)
    ensures (x ^ y) >> 1 == (x >> 1) ^ (y >> 1) && Odd(x ^ y) == (Odd(x) != Odd(y))
  {
    assert (x ^ y) & 1 == (x & 1) ^ (y & 1);
  }

  lemma {:induction false} WordXor(x: bv32, y: bv32)
    ensures Word(x ^ y) == Xor(Word(x), Word(y))
    decreases x
  {
    hide Word, Xor, Odd, Cons;
    if x == 0 {
      WordZero();
      ZeroXor(y);
      XorZero(Word(y));
      XorCommutes(0, Word(y));
    } else {
      ShiftSmaller(x);
      WordXor(x >> 1, y >> 1);
      XorOfShifts(x, y);
      WordParts(x);
      WordParts(y);
      WordParts(x ^ y);
      XorCons(Odd(x), Odd(y), Word(x >> 1), Word(y >> 1));
    }
  }

  lemma WordZero()
    ensures Word(0) == 0
  {
  }

  lemma ZeroXor(x: bv32)
    ensures 0 ^ x == x
  {
  }

  lemma ShiftSmaller(x: bv32)
    requires x != 0
    ensures x >> 1 < x
  {
  }

  function WordStep(x: bv32): bv32 {
    if x & 1 == 1 then (x >> 1) ^ 0xedb8_8320 else x >> 1
  }

  function WordByte(x: bv32): bv32 {
    WordStep(WordStep(WordStep(WordStep(WordStep(WordStep(WordStep(WordStep(x))))))))
  }

  lemma CheckRegister()
    ensures WordByte(0xffffffff ^ 0x31) == 0x7c231048
    ensures WordByte(0x7c231048 ^ 0x32) == 0xb0acbb32
    ensures WordByte(0xb0acbb32 ^ 0x33) == 0x77b79c2d
    ensures WordByte(0x77b79c2d ^ 0x34) == 0x641c1f5c
    ensures WordByte(0x641c1f5c ^ 0x35) == 0x340ac5e3
    ensures WordByte(0x340ac5e3 ^ 0x36) == 0xf68d2c9e
    ensures WordByte(0xf68d2c9e ^ 0x37) == 0xaffc9660
    ensures WordByte(0xaffc9660 ^ 0x38) == 0x651f2550
    ensures WordByte(0x651f2550 ^ 0x39) == 0x340bc6d9
  {
  }

  lemma PolynomialWord()
    ensures Word(0xedb8_8320) == 0xedb8_8320
  {
    hide Word;
    WordZero();
    WordParts(0xedb88320); WordParts(0x76dc4190); WordParts(0x3b6e20c8); WordParts(0x1db71064); WordParts(0xedb8832); WordParts(0x76dc419);
    WordParts(0x3b6e20c); WordParts(0x1db7106); WordParts(0xedb883); WordParts(0x76dc41); WordParts(0x3b6e20); WordParts(0x1db710);
    WordParts(0xedb88); WordParts(0x76dc4); WordParts(0x3b6e2); WordParts(0x1db71); WordParts(0xedb8); WordParts(0x76dc);
    WordParts(0x3b6e); WordParts(0x1db7); WordParts(0xedb); WordParts(0x76d); WordParts(0x3b6); WordParts(0x1db);
    WordParts(0xed); WordParts(0x76); WordParts(0x3b); WordParts(0x1d); WordParts(0xe); WordParts(0x7);
    WordParts(0x3); WordParts(0x1);
  }

  lemma OnesWord()
    ensures Word(0xffff_ffff) == 0xffff_ffff
  {
    hide Word;
    WordZero();
    WordParts(0xffffffff); WordParts(0x7fffffff); WordParts(0x3fffffff); WordParts(0x1fffffff); WordParts(0xfffffff); WordParts(0x7ffffff);
    WordParts(0x3ffffff); WordParts(0x1ffffff); WordParts(0xffffff); WordParts(0x7fffff); WordParts(0x3fffff); WordParts(0x1fffff);
    WordParts(0xfffff); WordParts(0x7ffff); WordParts(0x3ffff); WordParts(0x1ffff); WordParts(0xffff); WordParts(0x7fff);
    WordParts(0x3fff); WordParts(0x1fff); WordParts(0xfff); WordParts(0x7ff); WordParts(0x3ff); WordParts(0x1ff);
    WordParts(0xff); WordParts(0x7f); WordParts(0x3f); WordParts(0x1f); WordParts(0xf); WordParts(0x7);
    WordParts(0x3); WordParts(0x1);
  }

  lemma RegisterWord()
    ensures Word(0x340b_c6d9) == 0x340b_c6d9
  {
    hide Word;
    WordZero();
    WordParts(0x340bc6d9); WordParts(0x1a05e36c); WordParts(0xd02f1b6); WordParts(0x68178db); WordParts(0x340bc6d); WordParts(0x1a05e36);
    WordParts(0xd02f1b); WordParts(0x68178d); WordParts(0x340bc6); WordParts(0x1a05e3); WordParts(0xd02f1); WordParts(0x68178);
    WordParts(0x340bc); WordParts(0x1a05e); WordParts(0xd02f); WordParts(0x6817); WordParts(0x340b); WordParts(0x1a05);
    WordParts(0xd02); WordParts(0x681); WordParts(0x340); WordParts(0x1a0); WordParts(0xd0); WordParts(0x68);
    WordParts(0x34); WordParts(0x1a); WordParts(0xd); WordParts(0x6); WordParts(0x3); WordParts(0x1);
  }

  lemma CharacterWords()
    ensures Word(0x31) == 0x31 && Word(0x32) == 0x32 && Word(0x33) == 0x33 && Word(0x34) == 0x34 && Word(0x35) == 0x35
    ensures Word(0x36) == 0x36 && Word(0x37) == 0x37 && Word(0x38) == 0x38 && Word(0x39) == 0x39
  {
    hide Word;
    WordZero();
    WordParts(0x01); WordParts(0x03); WordParts(0x06); WordParts(0x07); WordParts(0x0c); WordParts(0x0d); WordParts(0x0e);
    WordParts(0x18); WordParts(0x19); WordParts(0x1a); WordParts(0x1b); WordParts(0x1c);
    WordParts(0x31); WordParts(0x32); WordParts(0x33); WordParts(0x34); WordParts(0x35);
    WordParts(0x36); WordParts(0x37); WordParts(0x38); WordParts(0x39);
  }

  lemma ConsParts(bit: bool, high: nat)
    ensures Cons(bit, high) / 2 == high && (Cons(bit, high) % 2 != 0) == bit
  {
  }

  lemma WordHalf(x: bv32)
    ensures Word(x) / 2 == Word(x >> 1) && (Word(x) % 2 != 0) == Odd(x)
  {
    hide Word, Odd, Cons;
    WordParts(x);
    ConsParts(Odd(x), Word(x >> 1));
  }

  lemma StepWord(x: bv32)
    ensures Word(WordStep(x)) == Step(Word(x))
  {
    PolynomialWord();
    hide Word, Xor;
    WordHalf(x);
    WordXor(x >> 1, 0xedb8_8320);
  }

  lemma EightSteps(crc: nat)
    ensures ByteSteps(crc) == Step(Step(Step(Step(Step(Step(Step(Step(crc))))))))
  {
    hide Step, Steps;
    NoSteps(crc);
    StepsSnoc(0, crc);
    StepsSnoc(1, crc);
    StepsSnoc(2, crc);
    StepsSnoc(3, crc);
    StepsSnoc(4, crc);
    StepsSnoc(5, crc);
    StepsSnoc(6, crc);
    StepsSnoc(7, crc);
  }

  lemma NoSteps(crc: nat)
    ensures Steps(0, crc) == crc
  {
  }

  lemma ByteWord(x: bv32)
    ensures Word(WordByte(x)) == ByteSteps(Word(x))
  {
    hide Word, Step, WordStep, ByteSteps;
    EightSteps(Word(x));
    var a := WordStep(x);
    var b := WordStep(a);
    var c := WordStep(b);
    var d := WordStep(c);
    var e := WordStep(d);
    var f := WordStep(e);
    var g := WordStep(f);
    StepWord(x);
    StepWord(a);
    StepWord(b);
    StepWord(c);
    StepWord(d);
    StepWord(e);
    StepWord(f);
    StepWord(g);
  }

  /** The words that are absorbed one after another. */
  function WordAbsorb(x: bv32, words: seq<bv32>): bv32
    decreases |words|
  {
    if words == [] then x else WordAbsorb(WordByte(x ^ words[0]), words[1..])
  }

  lemma {:induction false} AbsorbWord(x: bv32, words: seq<bv32>, bytes: seq<byte>)
    requires |words| == |bytes| && forall i :: 0 <= i < |words| ==> Word(words[i]) == bytes[i]
    ensures Word(WordAbsorb(x, words)) == Absorb(Word(x), bytes)
    decreases |words|
  {
    hide Word, Xor, ByteSteps, WordByte;
    if words != [] {
      WordXor(x, words[0]);
      ByteWord(x ^ words[0]);
      AbsorbWord(WordByte(x ^ words[0]), words[1..], bytes[1..]);
    }
  }

  lemma WordAbsorbCons(x: bv32, words: seq<bv32>, w: bv32, rest: seq<bv32>)
    requires words == [w] + rest
    ensures WordAbsorb(x, words) == WordAbsorb(WordByte(x ^ w), rest)
  {
    assert words[1..] == rest;
  }

  lemma CheckWord()
    ensures WordAbsorb(0xffff_ffff, [0x31, 0x32, 0x33, 0x34, 0x35, 0x36, 0x37, 0x38, 0x39]) == 0x340b_c6d9
  {
    CheckRegister();
    hide WordByte;
    WordAbsorbEnd(0x340b_c6d9);
    hide WordAbsorb;
    WordAbsorbCons(0xffffffff, [0x31, 0x32, 0x33, 0x34, 0x35, 0x36, 0x37, 0x38, 0x39], 0x31, [0x32, 0x33, 0x34, 0x35, 0x36, 0x37, 0x38, 0x39]);
    WordAbsorbCons(0x7c231048, [0x32, 0x33, 0x34, 0x35, 0x36, 0x37, 0x38, 0x39], 0x32, [0x33, 0x34, 0x35, 0x36, 0x37, 0x38, 0x39]);
    WordAbsorbCons(0xb0acbb32, [0x33, 0x34, 0x35, 0x36, 0x37, 0x38, 0x39], 0x33, [0x34, 0x35, 0x36, 0x37, 0x38, 0x39]);
    WordAbsorbCons(0x77b79c2d, [0x34, 0x35, 0x36, 0x37, 0x38, 0x39], 0x34, [0x35, 0x36, 0x37, 0x38, 0x39]);
    WordAbsorbCons(0x641c1f5c, [0x35, 0x36, 0x37, 0x38, 0x39], 0x35, [0x36, 0x37, 0x38, 0x39]);
    WordAbsorbCons(0x340ac5e3, [0x36, 0x37, 0x38, 0x39], 0x36, [0x37, 0x38, 0x39]);
    WordAbsorbCons(0xf68d2c9e, [0x37, 0x38, 0x39], 0x37, [0x38, 0x39]);
    WordAbsorbCons(0xaffc9660, [0x38, 0x39], 0x38, [0x39]);
    WordAbsorbCons(0x651f2550, [0x39], 0x39, []);
  }

  lemma WordAbsorbEnd(x: bv32)
    ensures WordAbsorb(x, []) == x
  {
  }

  /** The standard check value of CRC-32, of the characters 1 to 9. */
  lemma CheckValue()
    ensures Checksum([0x31, 0x32, 0x33, 0x34, 0x35, 0x36, 0x37, 0x38, 0x39]) == 0xCBF4_3926
  {
    CharacterWords();
    OnesWord();
    RegisterWord();
    CheckWord();
    hide Word, Absorb, WordAbsorb;
    AbsorbWord(0xffff_ffff, [0x31, 0x32, 0x33, 0x34, 0x35, 0x36, 0x37, 0x38, 0x39], [0x31, 0x32, 0x33, 0x34, 0x35, 0x36, 0x37, 0x38, 0x39]);
  }
}
