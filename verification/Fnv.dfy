/** Deterministic identifiers: 64-bit FNV-1a, printed as sixteen hexadecimal digits. */
module Fnv {
  import opened Powers

  const MODULUS: nat := 0x1_0000_0000_0000_0000
  const OFFSET_BASIS: nat := 14695981039346656037
  const PRIME: nat := 1099511628211
  /** PRIME * PRIME_INVERSE is 1 modulo 2^64: the prime is odd. */
  const PRIME_INVERSE: nat := 14886173955864302971

  type Byte = n: nat | n < 256

  /** Bitwise exclusive or of the low `width` bits. */
  function Xor(x: nat, y: nat, width: nat): nat
    decreases width
  {
    if width == 0 then 0 else 2 * Xor(x / 2, y / 2, width - 1) + (x + y) % 2
  }

  /** Exclusive or of a byte into the low eight bits of the state. */
  function XorLow(h: nat, b: Byte): nat {
    hide Xor;
    h / 256 * 256 + Xor(h % 256, b, 8)
  }

  function Step(h: nat, b: Byte): nat { XorLow(h, b) * PRIME % MODULUS }

  function Fold(h: nat, s: seq<Byte>): nat
    decreases |s|
  {
    if |s| == 0 then h else Fold(Step(h, s[0]), s[1..])
  }

  function HexChar(d: nat): char
    requires d < 16
  {
    if d < 10 then '0' + d as char else 'a' + (d - 10) as char
  }

  function HexDigits(h: nat, width: nat): string
    decreases width
  {
    if width == 0 then "" else HexDigits(h / 16, width - 1) + [HexChar(h % 16)]
  }

  function Id(s: seq<Byte>): string { "id_" + HexDigits(Fold(OFFSET_BASIS, s), 16) }

  method ComputeDeterministicId(s: seq<Byte>) returns (id: string)
    ensures id == Id(s)
  {
    hide XorLow, HexDigits;
    var hash: nat := OFFSET_BASIS;
    for i := 0 to |s|
      invariant Fold(hash, s[i..]) == Fold(OFFSET_BASIS, s)
    {
      assert s[i..][1..] == s[i + 1..];
      hash := XorLow(hash, s[i]);
      hash := hash * PRIME % MODULUS;
    }
    var digits := FormatHex(hash, 16);
    id := "id_" + digits;
  }

  method FormatHex(h: nat, width: nat) returns (digits: string)
    ensures digits == HexDigits(h, width)
  {
    digits := "";
    var rest := h;
    for k := 0 to width
      invariant HexDigits(h, width) == HexDigits(rest, width - k) + digits
    {
      digits := [HexChar(rest % 16)] + digits;
      rest := rest / 16;
    }
  }

  // ------------------------------------------------ each step is a bijection

  /** The state before a step, recovered from the state behind it. */
  function Unstep(h: nat, b: Byte): nat { XorLow(h * PRIME_INVERSE % MODULUS, b) }

  lemma {:induction false} XorTwice(x: nat, y: nat, width: nat)
    requires x < Power2(width)
    ensures Xor(x, y, width) < Power2(width)
    ensures Xor(Xor(x, y, width), y, width) == x
    decreases width
  {
    if width > 0 {
      var z := Xor(x, y, width);
      XorTwice(x / 2, y / 2, width - 1);
      assert z / 2 == Xor(x / 2, y / 2, width - 1) && z % 2 == (x + y) % 2;
      ParityTwice(x, y, z);
    }
  }

  lemma ParityTwice(x: nat, y: nat, z: nat)
    requires z % 2 == (x + y) % 2
    ensures (z + y) % 2 == x % 2
  {
  }

  lemma {:induction false} XorTells(x: nat, y: nat, z: nat, width: nat)
    requires y < Power2(width) && z < Power2(width) && Xor(x, y, width) == Xor(x, z, width)
    ensures y == z
    decreases width
  {
    if width > 0 {
      SameParity(Xor(x / 2, y / 2, width - 1), Xor(x / 2, z / 2, width - 1), x, y, z);
      XorTells(x / 2, y / 2, z / 2, width - 1);
    }
  }

  lemma SameParity(u: nat, v: nat, x: nat, y: nat, z: nat)
    requires 2 * u + (x + y) % 2 == 2 * v + (x + z) % 2
    ensures u == v && y % 2 == z % 2
  {
  }

  lemma XorLowTwice(h: nat, b: Byte)
    ensures XorLow(XorLow(h, b), b) == h
    ensures h < MODULUS ==> XorLow(h, b) < MODULUS
  {
    hide Xor;
    var low := Xor(h % 256, b, 8);
    EightBits();
    XorTwice(h % 256, b, 8);
    assert XorLow(h, b) / 256 == h / 256 && XorLow(h, b) % 256 == low;
  }

  lemma EightBits()
    ensures Power2(8) == 256
  {
    assert Power2(4) == 16;
  }

  lemma TimesInverse(h: nat, p: nat, q: nat)
    requires h < MODULUS && p * q % MODULUS == 1
    ensures (h * p % MODULUS) * q % MODULUS == h
  {
    var k := h * p / MODULUS;
    var j := p * q / MODULUS;
    assert h * p == k * MODULUS + h * p % MODULUS;
    assert p * q == j * MODULUS + 1;
    calc {
      (h * p % MODULUS) * q;
      (h * p - k * MODULUS) * q;
      h * (p * q) - k * q * MODULUS;
      h + (h * j - k * q) * MODULUS;
    }
    RemainderIs((h * p % MODULUS) * q, h * j - k * q, h);
  }

  lemma RemainderIs(n: int, c: int, r: nat)
    requires r < MODULUS && n == c * MODULUS + r
    ensures n % MODULUS == r
  {
  }

  lemma StepUndone(h: nat, b: Byte)
    requires h < MODULUS
    ensures Step(h, b) < MODULUS && Unstep(Step(h, b), b) == h
    ensures Unstep(h, b) < MODULUS && Step(Unstep(h, b), b) == h
  {
    hide XorLow;
    XorLowTwice(h, b);
    TimesInverse(XorLow(h, b), PRIME, PRIME_INVERSE);
    TimesInverse(h, PRIME_INVERSE, PRIME);
    XorLowTwice(h * PRIME_INVERSE % MODULUS, b);
  }

  /** Hashing a fixed text from two states keeps the states apart. */
  lemma {:induction false} FoldInjective(g: nat, h: nat, s: seq<Byte>)
    requires g < MODULUS && h < MODULUS
    ensures Fold(g, s) < MODULUS
    ensures Fold(g, s) == Fold(h, s) ==> g == h
    decreases |s|
  {
    hide Step, Unstep;
    if |s| > 0 {
      StepUndone(g, s[0]);
      StepUndone(h, s[0]);
      FoldInjective(Step(g, s[0]), Step(h, s[0]), s[1..]);
    }
  }

  /** Every state is reached over every text: hashing a fixed text permutes the states. */
  lemma {:induction false} FoldSurjective(h: nat, s: seq<Byte>) returns (g: nat)
    requires h < MODULUS
    ensures g < MODULUS && Fold(g, s) == h
    decreases |s|
  {
    hide Step, Unstep;
    if |s| == 0 {
      g := h;
    } else {
      var mid := FoldSurjective(h, s[1..]);
      StepUndone(mid, s[0]);
      g := Unstep(mid, s[0]);
    }
  }

  lemma {:induction false} FoldSplit(h: nat, s: seq<Byte>, t: seq<Byte>)
    ensures Fold(h, s + t) == Fold(Fold(h, s), t)
    decreases |s|
  {
    hide Step;
    if |s| == 0 {
      assert s + t == t;
    } else {
      assert (s + t)[1..] == s[1..] + t;
      FoldSplit(Step(h, s[0]), s[1..], t);
    }
  }

  lemma XorLowTells(h: nat, a: Byte, b: Byte)
    requires a != b
    ensures XorLow(h, a) != XorLow(h, b)
  {
    hide Xor;
    EightBits();
    if XorLow(h, a) == XorLow(h, b) { XorTells(h % 256, a, b, 8); }
  }

  lemma StepTellsBytes(h: nat, a: Byte, b: Byte)
    requires h < MODULUS && a != b
    ensures Step(h, a) != Step(h, b)
  {
    hide XorLow;
    XorLowTells(h, a, b);
    XorLowTwice(h, a);
    XorLowTwice(h, b);
    if Step(h, a) == Step(h, b) { PrimeTells(XorLow(h, a), XorLow(h, b)); }
  }

  lemma PrimeTells(x: nat, y: nat)
    requires x < MODULUS && y < MODULUS && x * PRIME % MODULUS == y * PRIME % MODULUS
    ensures x == y
  {
    TimesInverse(x, PRIME, PRIME_INVERSE);
    TimesInverse(y, PRIME, PRIME_INVERSE);
  }

  // ---------------------------------------------------------- hexadecimal

  function Power16(k: nat): nat { if k == 0 then 1 else 16 * Power16(k - 1) }

  lemma {:induction false} HexInjective(g: nat, h: nat, width: nat)
    requires g < Power16(width) && h < Power16(width)
    ensures |HexDigits(g, width)| == width
    ensures HexDigits(g, width) == HexDigits(h, width) ==> g == h
    decreases width
  {
    if width > 0 {
      HexInjective(g / 16, h / 16, width - 1);
      HexInjective(h / 16, g / 16, width - 1);
      var x, y := HexDigits(g, width), HexDigits(h, width);
      if x == y {
        assert x[width - 1] == HexChar(g % 16) && y[width - 1] == HexChar(h % 16);
        assert x[..width - 1] == HexDigits(g / 16, width - 1);
        assert y[..width - 1] == HexDigits(h / 16, width - 1);
      }
    }
  }

  lemma SixteenDigitsSuffice()
    ensures Power16(16) == MODULUS
  {
    assert Power16(4) == 0x1_0000;
    assert Power16(8) == 0x1_0000_0000;
    assert Power16(12) == 0x1_0000_0000_0000;
  }

  /** Two identifiers of texts that share all but one byte are equal only if that byte is. */
  lemma OneByteDecides(before: seq<Byte>, a: Byte, b: Byte, behind: seq<Byte>)
    ensures Id(before + [a] + behind) == Id(before + [b] + behind) <==> a == b
  {
    hide Step, HexDigits, Fold;
    if a != b {
      var h := Fold(OFFSET_BASIS, before);
      FoldInjective(OFFSET_BASIS, OFFSET_BASIS, before);
      StepTellsBytes(h, a, b);
      StepUndone(h, a);
      StepUndone(h, b);
      FoldInjective(Step(h, a), Step(h, b), behind);
      FoldInjective(Step(h, b), Step(h, a), behind);
      HashOfThree(before, a, behind);
      HashOfThree(before, b, behind);
      var x, y := Fold(Step(h, a), behind), Fold(Step(h, b), behind);
      SixteenDigitsSuffice();
      HexInjective(x, y, 16);
      assert Id(before + [a] + behind)[3..] == HexDigits(x, 16);
      assert Id(before + [b] + behind)[3..] == HexDigits(y, 16);
    }
  }

  lemma HashOfThree(before: seq<Byte>, a: Byte, behind: seq<Byte>)
    ensures Fold(OFFSET_BASIS, before + [a] + behind) == Fold(Step(Fold(OFFSET_BASIS, before), a), behind)
  {
    var h := Fold(OFFSET_BASIS, before);
    FoldSplit(OFFSET_BASIS, before + [a], behind);
    FoldSplit(OFFSET_BASIS, before, [a]);
    assert Fold(h, [a]) == Step(h, a) by { assert [a][1..] == []; }
  }

  /** Texts of one length that differ in exactly one place get different identifiers. */
  lemma OneByteApart(s: seq<Byte>, t: seq<Byte>, k: nat)
    requires |s| == |t| && k < |s|
    requires forall j :: 0 <= j < |s| ==> (s[j] != t[j] <==> j == k)
    ensures Id(s) != Id(t)
  {
    assert s == s[..k] + [s[k]] + s[k + 1..];
    assert t == s[..k] + [t[k]] + s[k + 1..];
    OneByteDecides(s[..k], s[k], t[k], s[k + 1..]);
  }
}
