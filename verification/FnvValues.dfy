/** The identifiers as numbers: what their digits are worth, and the values published for FNV-1a. */
module FnvValues {
  import opened Fnv

  predicate IsHexDigit(c: char) { '0' <= c <= '9' || 'a' <= c <= 'f' }

  function DigitWorth(c: char): nat
    requires IsHexDigit(c)
  {
    if c <= '9' then (c - '0') as nat else (c - 'a') as nat + 10
  }

  /** The number a text of hexadecimal digits stands for, the first digit the most significant. */
  function Worth(t: string): nat
    requires forall k :: 0 <= k < |t| ==> IsHexDigit(t[k])
  {
    if |t| == 0 then 0 else 16 * Worth(t[..|t| - 1]) + DigitWorth(t[|t| - 1])
  }

  lemma {:induction false} HexDigitsAreWorth(h: nat, width: nat)
    requires h < Power16(width)
    ensures |HexDigits(h, width)| == width && forall k :: 0 <= k < width ==> IsHexDigit(HexDigits(h, width)[k])
    ensures Worth(HexDigits(h, width)) == h
    decreases width
  {
    if width > 0 {
      HexDigitsAreWorth(h / 16, width - 1);
      assert HexDigits(h, width)[..width - 1] == HexDigits(h / 16, width - 1);
    }
  }

  /** Every identifier is `id_` with sixteen digits behind it that are worth the hash. */
  lemma IdIsHash(s: seq<Byte>)
    ensures |Id(s)| == 19 && Id(s)[..3] == "id_"
    ensures forall k :: 3 <= k < 19 ==> IsHexDigit(Id(s)[k])
    ensures Worth(Id(s)[3..]) == Fold(OFFSET_BASIS, s) < MODULUS
  {
    hide Step, HexDigits, Fold;
    FoldInjective(OFFSET_BASIS, OFFSET_BASIS, s);
    SixteenDigitsSuffice();
    var h := Fold(OFFSET_BASIS, s);
    HexDigitsAreWorth(h, 16);
    assert Id(s)[3..] == HexDigits(h, 16);
  }

  /** The hash of the empty text is the offset basis of section 5 of draft-eastlake-fnv. */
  lemma EmptyText()
    ensures Fold(OFFSET_BASIS, []) == 0xcbf29ce484222325
  {
  }

  lemma OneStep(h: nat, b: Byte, low: nat, x: nat, r: nat)
    requires Xor(h % 256, b, 8) == low && x == h / 256 * 256 + low && x * PRIME % MODULUS == r
    ensures Step(h, b) == r
  {
  }

  /** Bit by bit: the exclusive or of two bytes. */
  lemma XorByHalves(x: nat, y: nat, width: nat, half: nat, r: nat)
    requires width > 0 && Xor(x / 2, y / 2, width - 1) == half && r == 2 * half + (x + y) % 2
    ensures Xor(x, y, width) == r
  {
  }

  lemma XorA()
    ensures Xor(0x25, 0x61, 8) == 0x44
  {
    XorByHalves(0x0, 0x0, 1, 0x0, 0x0);
    XorByHalves(0x0, 0x1, 2, 0x0, 0x1);
    XorByHalves(0x1, 0x3, 3, 0x1, 0x2);
    XorByHalves(0x2, 0x6, 4, 0x2, 0x4);
    XorByHalves(0x4, 0xc, 5, 0x4, 0x8);
    XorByHalves(0x9, 0x18, 6, 0x8, 0x11);
    XorByHalves(0x12, 0x30, 7, 0x11, 0x22);
    XorByHalves(0x25, 0x61, 8, 0x22, 0x44);
  }

  /** The published hash of "a". */
  lemma LetterA()
    ensures Fold(OFFSET_BASIS, [0x61]) == 0xaf63dc4c8601ec8c
  {
    hide Xor, Step;
    XorA();
    OneStep(OFFSET_BASIS, 0x61, 0x44, 0xcbf29ce484222344, 0xaf63dc4c8601ec8c);
    FoldOne(OFFSET_BASIS, 0x61, []);
    assert [0x61] == [0x61] + [];
  }

  lemma FoldOne(h: nat, b: Byte, rest: seq<Byte>)
    ensures Fold(h, [b] + rest) == Fold(Step(h, b), rest)
  {
    assert ([b] + rest)[1..] == rest;
  }

  lemma XorF()
    ensures Xor(0x25, 0x66, 8) == 0x43
  {
    XorByHalves(0x0, 0x0, 1, 0x0, 0x0);
    XorByHalves(0x0, 0x1, 2, 0x0, 0x1);
    XorByHalves(0x1, 0x3, 3, 0x1, 0x2);
    XorByHalves(0x2, 0x6, 4, 0x2, 0x4);
    XorByHalves(0x4, 0xc, 5, 0x4, 0x8);
    XorByHalves(0x9, 0x19, 6, 0x8, 0x10);
    XorByHalves(0x12, 0x33, 7, 0x10, 0x21);
    XorByHalves(0x25, 0x66, 8, 0x21, 0x43);
  }

  lemma XorO()
    ensures Xor(0xd9, 0x6f, 8) == 0xb6
  {
    XorByHalves(0x1, 0x0, 1, 0x0, 0x1);
    XorByHalves(0x3, 0x1, 2, 0x1, 0x2);
    XorByHalves(0x6, 0x3, 3, 0x2, 0x5);
    XorByHalves(0xd, 0x6, 4, 0x5, 0xb);
    XorByHalves(0x1b, 0xd, 5, 0xb, 0x16);
    XorByHalves(0x36, 0x1b, 6, 0x16, 0x2d);
    XorByHalves(0x6c, 0x37, 7, 0x2d, 0x5b);
    XorByHalves(0xd9, 0x6f, 8, 0x5b, 0xb6);
  }

  lemma XorSecondO()
    ensures Xor(0x42, 0x6f, 8) == 0x2d
  {
    XorByHalves(0x0, 0x0, 1, 0x0, 0x0);
    XorByHalves(0x1, 0x1, 2, 0x0, 0x0);
    XorByHalves(0x2, 0x3, 3, 0x0, 0x1);
    XorByHalves(0x4, 0x6, 4, 0x1, 0x2);
    XorByHalves(0x8, 0xd, 5, 0x2, 0x5);
    XorByHalves(0x10, 0x1b, 6, 0x5, 0xb);
    XorByHalves(0x21, 0x37, 7, 0xb, 0x16);
    XorByHalves(0x42, 0x6f, 8, 0x16, 0x2d);
  }

  lemma XorB()
    ensures Xor(0x77, 0x62, 8) == 0x15
  {
    XorByHalves(0x0, 0x0, 1, 0x0, 0x0);
    XorByHalves(0x1, 0x1, 2, 0x0, 0x0);
    XorByHalves(0x3, 0x3, 3, 0x0, 0x0);
    XorByHalves(0x7, 0x6, 4, 0x0, 0x1);
    XorByHalves(0xe, 0xc, 5, 0x1, 0x2);
    XorByHalves(0x1d, 0x18, 6, 0x2, 0x5);
    XorByHalves(0x3b, 0x31, 7, 0x5, 0xa);
    XorByHalves(0x77, 0x62, 8, 0xa, 0x15);
  }

  lemma XorLaterA()
    ensures Xor(0xaf, 0x61, 8) == 0xce
  {
    XorByHalves(0x1, 0x0, 1, 0x0, 0x1);
    XorByHalves(0x2, 0x1, 2, 0x1, 0x3);
    XorByHalves(0x5, 0x3, 3, 0x3, 0x6);
    XorByHalves(0xa, 0x6, 4, 0x6, 0xc);
    XorByHalves(0x15, 0xc, 5, 0xc, 0x19);
    XorByHalves(0x2b, 0x18, 6, 0x19, 0x33);
    XorByHalves(0x57, 0x30, 7, 0x33, 0x67);
    XorByHalves(0xaf, 0x61, 8, 0x67, 0xce);
  }

  lemma XorR()
    ensures Xor(0xa, 0x72, 8) == 0x78
  {
    XorByHalves(0x0, 0x0, 1, 0x0, 0x0);
    XorByHalves(0x0, 0x1, 2, 0x0, 0x1);
    XorByHalves(0x0, 0x3, 3, 0x1, 0x3);
    XorByHalves(0x0, 0x7, 4, 0x3, 0x7);
    XorByHalves(0x1, 0xe, 5, 0x7, 0xf);
    XorByHalves(0x2, 0x1c, 6, 0xf, 0x1e);
    XorByHalves(0x5, 0x39, 7, 0x1e, 0x3c);
    XorByHalves(0xa, 0x72, 8, 0x3c, 0x78);
  }

  /** The published hash of "foobar". */
  lemma Foobar()
    ensures Fold(OFFSET_BASIS, [0x66, 0x6f, 0x6f, 0x62, 0x61, 0x72]) == 0x85944171f73967e8
  {
    hide Xor, Step, Fold;
    XorF();
    OneStep(0xcbf29ce484222325, 0x66, 0x43, 0xcbf29ce484222343, 0xaf63db4c8601ead9);
    XorO();
    OneStep(0xaf63db4c8601ead9, 0x6f, 0xb6, 0xaf63db4c8601eab6, 0x8985907b541d342);
    XorSecondO();
    OneStep(0x8985907b541d342, 0x6f, 0x2d, 0x8985907b541d32d, 0xdcb27518fed9d577);
    XorB();
    OneStep(0xdcb27518fed9d577, 0x62, 0x15, 0xdcb27518fed9d515, 0xdd120e790c2512af);
    XorLaterA();
    OneStep(0xdd120e790c2512af, 0x61, 0xce, 0xdd120e790c2512ce, 0xcac165afa2fef40a);
    XorR();
    OneStep(0xcac165afa2fef40a, 0x72, 0x78, 0xcac165afa2fef478, 0x85944171f73967e8);
    FoldOne(0xcbf29ce484222325, 0x66, [0x6f, 0x6f, 0x62, 0x61, 0x72]);
    FoldOne(0xaf63db4c8601ead9, 0x6f, [0x6f, 0x62, 0x61, 0x72]);
    FoldOne(0x8985907b541d342, 0x6f, [0x62, 0x61, 0x72]);
    FoldOne(0xdcb27518fed9d577, 0x62, [0x61, 0x72]);
    FoldOne(0xdd120e790c2512af, 0x61, [0x72]);
    FoldOne(0xcac165afa2fef40a, 0x72, []);
    assert [0x66, 0x6f, 0x6f, 0x62, 0x61, 0x72] == [0x66] + [0x6f, 0x6f, 0x62, 0x61, 0x72];
    assert [0x6f, 0x6f, 0x62, 0x61, 0x72] == [0x6f] + [0x6f, 0x62, 0x61, 0x72];
    assert [0x6f, 0x62, 0x61, 0x72] == [0x6f] + [0x62, 0x61, 0x72];
    assert [0x62, 0x61, 0x72] == [0x62] + [0x61, 0x72];
    assert [0x61, 0x72] == [0x61] + [0x72];
    assert [0x72] == [0x72] + [];
    NothingLeft(0x85944171f73967e8);
  }

  lemma NothingLeft(h: nat)
    ensures Fold(h, []) == h
  {
  }
}
