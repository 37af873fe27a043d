/** HashInteger64 of src/map/pointer_hash.h: a bijection on 64-bit words. */
module HashInteger {
  import opened Common

  const W: nat := 0x1_0000_0000_0000_0000

  const FACTOR1: nat := 0xff51_afd7_ed55_8ccd
  const FACTOR2: nat := 0xc4ce_b9fe_1a85_ec53

  /** The inverses of the two factors modulo 2^64. */
  const INVERSE1: nat := 0x4f74_430c_22a5_4005
  const INVERSE2: nat := 0x9cb4_b2f8_1293_37db

  type Word = w: nat | w < W

  /** Bitwise exclusive or. */
  function Xor(a: nat, b: nat): nat {
    if a == 0 && b == 0 then 0
    else (if a % 2 == b % 2 then 0 else 1) + 2 * Xor(a / 2, b / 2)
  }

  function BitXor(a: nat, b: nat): nat {
    if a % 2 == b % 2 then 0 else 1
  }

  lemma XorBits(a: nat, b: nat)
    ensures Xor(a, b) == 2 * Xor(a / 2, b / 2) + BitXor(a, b)
  {
  }

  lemma {:induction false} XorTwice(a: nat, b: nat)
    ensures Xor(Xor(a, b), b) == a
  {
    hide Xor;
    if a == 0 && b == 0 {
      XorZero(0);
    } else {
      XorBits(a, b);
      XorBits(Xor(a, b), b);
      XorTwice(a / 2, b / 2);
    }
  }

  lemma {:induction false} XorZero(a: nat)
    ensures Xor(a, 0) == a
  {
    if a != 0 {
      XorZero(a / 2);
    }
  }

  /** 2^k */
  function Pow2(k: nat): (p: nat)
    ensures p > 0
  {
    if k == 0 then 1 else 2 * Pow2(k - 1)
  }

  lemma {:induction false} XorBound(a: nat, b: nat, k: nat)
    requires a < Pow2(k) && b < Pow2(k)
    ensures Xor(a, b) < Pow2(k)
  {
    if k > 0 {
      XorBound(a / 2, b / 2, k - 1);
    }
  }

  /** a >> k */
  function ShiftRight(a: nat, k: nat): nat {
    if k == 0 then a else ShiftRight(a / 2, k - 1)
  }

  /** Shifting right commutes with exclusive or. */
  lemma {:induction false} XorShift(a: nat, b: nat, k: nat)
    ensures ShiftRight(Xor(a, b), k) == Xor(ShiftRight(a, k), ShiftRight(b, k))
  {
    if k > 0 {
      XorShift(a / 2, b / 2, k - 1);
      assert Xor(a, b) / 2 == Xor(a / 2, b / 2);
    }
  }

  lemma {:induction false} ShiftBound(a: nat, n: nat, k: nat)
    requires a < Pow2(n)
    ensures ShiftRight(a, k) < Pow2(n) && (n <= k ==> ShiftRight(a, k) == 0)
    decreases k
  {
    if k > 0 {
      if n > 0 {
        ShiftBound(a / 2, n - 1, k - 1);
      } else {
        ShiftBound(a / 2, 0, k - 1);
      }
    }
  }

  lemma {:induction false} ShiftTwice(a: nat, i: nat, j: nat)
    ensures ShiftRight(ShiftRight(a, i), j) == ShiftRight(a, i + j)
  {
    if i > 0 {
      ShiftTwice(a / 2, i - 1, j);
    }
  }

  lemma WordIsPow2()
    ensures Pow2(64) == W
  {
    PowerOfFour();
    hide Pow2;
    Pow2Sum(4, 4);
    Pow2Sum(8, 8);
    Pow2Sum(16, 16);
    Pow2Sum(32, 32);
  }

  lemma PowerOfFour()
    ensures Pow2(4) == 16
  {
  }

  lemma Pow2Next(k: nat)
    ensures Pow2(0) == 1 && Pow2(k + 1) == 2 * Pow2(k)
  {
  }

  lemma Reassociated(x: nat, y: nat)
    ensures 2 * (x * y) == (2 * x) * y
  {
  }

  lemma {:induction false} Pow2Sum(a: nat, b: nat)
    ensures Pow2(a + b) == Pow2(a) * Pow2(b)
  {
    hide Pow2;
    if a == 0 {
      Pow2Next(0);
    } else {
      calc {
        Pow2(a + b);
        { Pow2Next(a + b - 1); }
        2 * Pow2(a - 1 + b);
        { Pow2Sum(a - 1, b); }
        2 * (Pow2(a - 1) * Pow2(b));
        { Reassociated(Pow2(a - 1), Pow2(b)); }
        2 * Pow2(a - 1) * Pow2(b);
        { Pow2Next(a - 1); }
        Pow2(a) * Pow2(b);
      }
    }
  }

  /** h ^= h >> 33 */
  function FoldHigh(h: Word): Word {
    WordIsPow2();
    ShiftBound(h, 64, 33);
    XorBound(h, ShiftRight(h, 33), 64);
    Xor(h, ShiftRight(h, 33))
  }

  /** h *= factor, in 64 bits */
  function Times(h: Word, factor: nat): Word {
    h * factor % W
  }

  function HashInteger64(pt: Word): Word {
    FoldHigh(Times(FoldHigh(Times(FoldHigh(pt), FACTOR1)), FACTOR2))
  }

  /** The steps undone in reverse. */
  function Unhash(h: Word): Word {
    FoldHigh(Times(FoldHigh(Times(FoldHigh(h), INVERSE2)), INVERSE1))
  }

  /** An exclusive or with the upper bits leaves those bits alone, so doing it twice undoes it. */
  lemma FoldHighTwice(h: Word)
    ensures FoldHigh(FoldHigh(h)) == h
  {
    var upper := ShiftRight(h, 33);
    XorShift(h, upper, 33);
    WordIsPow2();
    ShiftTwice(h, 33, 33);
    ShiftBound(h, 64, 66);
    XorZero(upper);
    XorTwice(h, upper);
  }

  /** Multiplying by a factor and then by its inverse modulo 2^64 gives the word back. */
  lemma FactorsCancel(h: Word, factor: nat, inverse: nat, k: nat)
    requires factor * inverse == 1 + k * W
    ensures Times(Times(h, factor), inverse) == h
  {
    var q := h * factor / W;
    var r := Times(h, factor);
    assert r == h * factor - W * q;
    calc {
      r * inverse;
      h * factor * inverse - W * q * inverse;
      h * (factor * inverse) - W * (q * inverse);
      h + h * (k * W) - W * (q * inverse);
      W * (h * k - q * inverse) + h;
    }
    RemainderOf(h * k - q * inverse, h, W);
  }

  lemma InverseFactors(h: Word)
    ensures Times(Times(h, FACTOR1), INVERSE1) == h && Times(Times(h, INVERSE1), FACTOR1) == h
    ensures Times(Times(h, FACTOR2), INVERSE2) == h && Times(Times(h, INVERSE2), FACTOR2) == h
  {
    FactorsCancel(h, FACTOR1, INVERSE1, 5710046619856821070);
    FactorsCancel(h, INVERSE1, FACTOR1, 5710046619856821070);
    FactorsCancel(h, FACTOR2, INVERSE2, 8680939279959119233);
    FactorsCancel(h, INVERSE2, FACTOR2, 8680939279959119233);
  }

  /** Hashing loses nothing and reaches every word: HashInteger64 is a bijection on 64-bit words. */
  lemma HashIsBijective(x: Word)
    ensures Unhash(HashInteger64(x)) == x && HashInteger64(Unhash(x)) == x
  {
    hide FoldHigh, Times;
    var a := FoldHigh(x);
    var b := FoldHigh(Times(a, FACTOR1));
    var c := Times(b, FACTOR2);
    FoldHighTwice(x);
    InverseFactors(a);
    FoldHighTwice(Times(a, FACTOR1));
    InverseFactors(b);
    FoldHighTwice(c);
    var d := Times(FoldHigh(x), INVERSE2);
    var e := Times(FoldHigh(d), INVERSE1);
    FoldHighTwice(d);
    InverseFactors(FoldHigh(x));
    FoldHighTwice(e);
    InverseFactors(FoldHigh(d));
  }

  /** Distinct pointers share a home slot only because of the reduction modulo the capacity. */
  lemma CollisionsComeFromReduction(x: Word, y: Word, capacity: nat)
    requires x != y && 0 < capacity
    ensures HashInteger64(x) != HashInteger64(y)
    ensures W <= capacity ==> HashInteger64(x) % capacity != HashInteger64(y) % capacity
  {
    HashIsBijective(x);
    HashIsBijective(y);
    RemainderDistinguishes(HashInteger64(x), HashInteger64(y), if W <= capacity then capacity else W);
  }

  // ----- Test vectors -----

  lemma {:induction false} ShiftIsDivision(a: nat, k: nat)
    ensures ShiftRight(a, k) == a / Pow2(k)
  {
    if k > 0 {
      ShiftIsDivision(a / 2, k - 1);
      HalvesDivide(a, Pow2(k - 1));
    }
  }

  lemma HalvesDivide(a: nat, p: nat)
    requires p > 0
    ensures a / 2 / p == a / (2 * p)
  {
    var q, r := a / 2 / p, a / 2 % p;
    assert a / 2 == p * q + r;
    var rest := 2 * r + a % 2;
    assert a == 2 * p * q + rest && rest < 2 * p by {
      assert 2 * (p * q) == 2 * p * q;
    }
    QuotientOf(q, rest, 2 * p);
  }

  lemma QuotientOf(q: nat, r: nat, c: nat)
    requires r < c
    ensures (c * q + r) / c == q
  {
    var x := c * q + r;
    RemainderOf(q, r, c);
    assert c * (q - x / c) == 0;
    SmallMultiple(c, q - x / c);
  }

  lemma XorHalves(u: nat, v: nat, x: nat, y: nat)
    ensures Xor(2 * u + x, 2 * v + y) == 2 * Xor(u + x / 2, v + y / 2) + BitXor(x, y)
  {
    hide Xor;
    XorBits(2 * u + x, 2 * v + y);
  }

  /** Exclusive or works on upper and lower bits apart. */
  lemma {:induction false} XorParts(a: nat, b: nat, x: nat, y: nat, k: nat)
    requires x < Pow2(k) && y < Pow2(k)
    ensures Xor(Pow2(k) * a + x, Pow2(k) * b + y) == Pow2(k) * Xor(a, b) + Xor(x, y)
  {
    hide Xor;
    if k == 0 {
      XorZero(0);
    } else {
      var p := Pow2(k - 1);
      Reassociated(p, a);
      Reassociated(p, b);
      Reassociated(p, Xor(a, b));
      XorParts(a, b, x / 2, y / 2, k - 1);
      XorHalves(p * a, p * b, x, y);
      XorHalves(0, 0, x, y);
    }
  }

  /** One more byte. */
  lemma XorByte(a: nat, b: nat, x: Byte, y: Byte)
    ensures Xor(256 * a + x, 256 * b + y) == 256 * Xor(a, b) + Xor(x, y)
  {
    Pow2Sum(4, 4);
    hide Xor;
    XorParts(a, b, x, y, 8);
  }

  lemma ShiftBy33(h: nat)
    ensures ShiftRight(h, 33) == h / 0x2_0000_0000
  {
    ShiftIsDivision(h, 33);
    PowerOfFour();
    Pow2Next(32);
    hide Pow2;
    Pow2Sum(4, 4);
    Pow2Sum(8, 8);
    Pow2Sum(16, 16);
  }

  /** The exclusive or of a word with one of at most four bytes. */
  lemma XorLowBytes(high: nat, a3: Byte, a2: Byte, a1: Byte, a0: Byte, b3: Byte, b2: Byte, b1: Byte, b0: Byte)
    ensures Xor(0x1_0000_0000 * high + 0x100_0000 * a3 + 0x1_0000 * a2 + 0x100 * a1 + a0,
                0x100_0000 * b3 + 0x1_0000 * b2 + 0x100 * b1 + b0)
         == 0x1_0000_0000 * high + 0x100_0000 * Xor(a3, b3) + 0x1_0000 * Xor(a2, b2) + 0x100 * Xor(a1, b1) + Xor(a0, b0)
  {
    hide Xor;
    XorZero(high);
    XorByte(high, 0, a3, b3);
    XorByte(256 * high + a3, b3, a2, b2);
    XorByte(0x1_0000 * high + 256 * a3 + a2, 256 * b3 + b2, a1, b1);
    XorByte(0x100_0000 * high + 0x1_0000 * a3 + 0x100 * a2 + a1, 0x1_0000 * b3 + 0x100 * b2 + b1, a0, b0);
  }

  lemma NibbleXor(a: nat, b: nat)
    requires a < 16 && b < 16
    ensures Xor(a, b)
         == BitXor(a, b) + 2 * BitXor(a / 2, b / 2) + 4 * BitXor(a / 2 / 2, b / 2 / 2)
          + 8 * BitXor(a / 2 / 2 / 2, b / 2 / 2 / 2)
  {
    hide Xor, BitXor;
    PairXor(a / 2 / 2, b / 2 / 2);
    XorBits(a / 2, b / 2);
    XorBits(a, b);
  }

  lemma PairXor(a: nat, b: nat)
    requires a < 4 && b < 4
    ensures Xor(a, b) == BitXor(a, b) + 2 * BitXor(a / 2, b / 2)
  {
    hide Xor, BitXor;
    OneBitXor(a / 2, b / 2);
    XorBits(a, b);
  }

  lemma OneBitXor(a: nat, b: nat)
    requires a < 2 && b < 2
    ensures Xor(a, b) == BitXor(a, b)
  {
    hide Xor, BitXor;
    XorZero(0);
    XorBits(a, b);
  }

  lemma ByteXor(a1: nat, a0: nat, b1: nat, b0: nat)
    requires a1 < 16 && a0 < 16 && b1 < 16 && b0 < 16
    ensures Xor(16 * a1 + a0, 16 * b1 + b0) == 16 * Xor(a1, b1) + Xor(a0, b0)
  {
    PowerOfFour();
    hide Xor;
    XorParts(a1, b1, a0, b0, 4);
  }

  lemma ByteXors1()
    ensures Xor(0xed, 0x7f) == 0x92 && Xor(0x55, 0xa8) == 0xfd
  {
    hide Xor;
    ByteXor(0xe, 0xd, 0x7, 0xf);
    NibbleXor(0xe, 0x7);
    NibbleXor(0xd, 0xf);
    ByteXor(0x5, 0x5, 0xa, 0x8);
    NibbleXor(0x5, 0xa);
    NibbleXor(0x5, 0x8);
  }

  lemma ByteXors2()
    ensures Xor(0x8c, 0xd7) == 0x5b && Xor(0xcd, 0xeb) == 0x26
  {
    hide Xor;
    ByteXor(0x8, 0xc, 0xd, 0x7);
    NibbleXor(0x8, 0xd);
    NibbleXor(0xc, 0x7);
    ByteXor(0xc, 0xd, 0xe, 0xb);
    NibbleXor(0xc, 0xe);
    NibbleXor(0xd, 0xb);
  }

  lemma ByteXors3()
    ensures Xor(0x6e, 0x5a) == 0x34 && Xor(0xe9, 0x2b) == 0xc2
  {
    hide Xor;
    ByteXor(0x6, 0xe, 0x5, 0xa);
    NibbleXor(0x6, 0x5);
    NibbleXor(0xe, 0xa);
    ByteXor(0xe, 0x9, 0x2, 0xb);
    NibbleXor(0xe, 0x2);
    NibbleXor(0x9, 0xb);
  }

  lemma ByteXors4()
    ensures Xor(0x95, 0x5e) == 0xcb && Xor(0x52, 0x7e) == 0x2c
  {
    hide Xor;
    ByteXor(0x9, 0x5, 0x5, 0xe);
    NibbleXor(0x9, 0x5);
    NibbleXor(0x5, 0xe);
    ByteXor(0x5, 0x2, 0x7, 0xe);
    NibbleXor(0x5, 0x7);
    NibbleXor(0x2, 0xe);
  }

  /** The hash of 1, step by step: the first exclusive or changes nothing, the other two do. */
  lemma HashOfOne()
    ensures HashInteger64(1) == 0xb456_bcfc_34c2_cb2c
  {
    hide Xor, ShiftRight;
    ShiftBy33(1);
    XorZero(1);
    assert FoldHigh(1) == 1;
    var b := Times(1, FACTOR1);
    ShiftBy33(b);
    ByteXors1();
    ByteXors2();
    XorLowBytes(0xff51_afd7, 0xed, 0x55, 0x8c, 0xcd, 0x7f, 0xa8, 0xd7, 0xeb);
    var c := FoldHigh(b);
    assert c == 0xff51_afd7_92fd_5b26;
    var d := Times(c, FACTOR2);
    assert d == 0xb456_bcfc_6ee9_9552;
    ShiftBy33(d);
    ByteXors3();
    ByteXors4();
    XorLowBytes(0xb456_bcfc, 0x6e, 0xe9, 0x95, 0x52, 0x5a, 0x2b, 0x5e, 0x7e);
  }
}
