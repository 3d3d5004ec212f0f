/** CRC-32 (src/internal/rv_crc.c): the table-driven form against the bit-by-bit form of section 8 of RFC 1952.

    A register is a number below 2^32.  `x & 0xFF` is `x % 0x100`, `x >> 8` is `x / 0x100`, `~x` is
    `0xFFFF_FFFF - x`, and exclusive or is defined bit by bit. */
module Crc {
  import opened Types

  const POLY: u32 := 0xEDB8_8320

  function Xor(a: nat, b: nat): nat {
    if a == 0 && b == 0 then 0 else (a + b) % 2 + 2 * Xor(a / 2, b / 2)
  }

  /** One bit of the polynomial division: the generator is fed back when the bit shifted out is set. */
  function BitStep(c: nat): nat {
    if c % 2 == 1 then Xor(POLY, c / 2) else c / 2
  }

  function BitSteps(c: nat, n: nat): nat {
    if n == 0 then c else BitStep(BitSteps(c, n - 1))
  }

  function ByteSteps(c: nat): nat {
    BitSteps(c, 8)
  }

  /** The reference register: fold each byte in and divide by its eight bits. */
  function Register(c: nat, data: bytes): nat {
    if data == [] then c else ByteSteps(Xor(Register(c, data[..|data| - 1]), data[|data| - 1]))
  }

  function Complement(c: u32): u32 {
    0xFFFF_FFFF - c
  }

  /** The running checksum: the register is kept complemented between calls. */
  function Update(crc: u32, data: bytes): u32 {
    RegisterBound(Complement(crc), data);
    Complement(Register(Complement(crc), data))
  }

  /** The CRC-32 of a byte string. */
  function Crc32(data: bytes): u32 {
    Update(0, data)
  }

  // ----- exclusive or

  lemma {:induction false} XorBound(a: nat, b: nat, k: nat)
    requires a < Pow2(k) && b < Pow2(k)
    ensures Xor(a, b) < Pow2(k)
  {
    if k > 0 {
      XorBound(a / 2, b / 2, k - 1);
    }
  }

  lemma XorU32(a: u32, b: u32)
    ensures Xor(a, b) < TWO32
  {
    Pow2Values();
    XorBound(a, b, 32);
  }

  lemma {:induction false} XorZero(a: nat)
    ensures Xor(a, 0) == a && Xor(0, a) == a
  {
    if a > 0 {
      XorZero(a / 2);
    }
  }

  lemma LowBit(bit: nat, rest: nat)
    requires bit < 2
    ensures (bit + 2 * rest) % 2 == bit && (bit + 2 * rest) / 2 == rest
  {
  }

  lemma XorHalves(a: nat, b: nat)
    ensures Xor(a, b) % 2 == (a + b) % 2 && Xor(a, b) / 2 == Xor(a / 2, b / 2)
  {
    if a > 0 || b > 0 {
      var bit, rest := (a + b) % 2, Xor(a / 2, b / 2);
      assert Xor(a, b) == bit + 2 * rest;
      LowBit(bit, rest);
    }
  }

  lemma SameHalves(x: nat, y: nat)
    requires x % 2 == y % 2 && x / 2 == y / 2
    ensures x == y
  {
  }

  lemma {:induction false} XorSelf(a: nat)
    ensures Xor(a, a) == 0
  {
    if a > 0 {
      XorSelf(a / 2);
    }
  }

  lemma {:induction false} XorCommutes(a: nat, b: nat)
    ensures Xor(a, b) == Xor(b, a)
  {
    if a > 0 || b > 0 {
      XorCommutes(a / 2, b / 2);
    }
  }

  lemma Parity(x: nat, y: nat, a: nat, b: nat, c: nat)
    requires x % 2 == (a + b) % 2 && y % 2 == (b + c) % 2
    ensures (x + c) % 2 == (a + y) % 2
  {
  }

  lemma {:induction false} XorAssociative(a: nat, b: nat, c: nat)
    ensures Xor(Xor(a, b), c) == Xor(a, Xor(b, c))
    decreases a + b + c
  {
    if a > 0 || b > 0 || c > 0 {
      XorAssociative(a / 2, b / 2, c / 2);
      AssociateHalves(Xor(a, b), Xor(b, c), a, b, c);
    }
  }

  lemma AssociateHalves(l: nat, r: nat, a: nat, b: nat, c: nat)
    requires l == Xor(a, b) && r == Xor(b, c)
    requires Xor(Xor(a / 2, b / 2), c / 2) == Xor(a / 2, Xor(b / 2, c / 2))
    ensures Xor(l, c) == Xor(a, r)
  {
    XorHalves(a, b);
    XorHalves(b, c);
    XorHalves(l, c);
    XorHalves(a, r);
    Parity(l, r, a, b, c);
    SameHalves(Xor(l, c), Xor(a, r));
  }

  function Shl(h: nat, k: nat): nat
    decreases k
  {
    if k == 0 then h else 2 * Shl(h, k - 1)
  }

  /** Numbers over disjoint bit ranges: exclusive or is the sum. */
  lemma {:induction false} XorDisjoint(low: nat, high: nat, k: nat)
    requires low < Pow2(k)
    ensures Xor(low, Shl(high, k)) == low + Shl(high, k)
  {
    if k == 0 {
      XorZero(high);
    } else {
      XorDisjoint(low / 2, high, k - 1);
      XorEven(low, Shl(high, k - 1));
    }
  }

  lemma XorUnfold(a: nat, b: nat)
    ensures Xor(a, b) == (a + b) % 2 + 2 * Xor(a / 2, b / 2)
  {
  }

  lemma XorEven(low: nat, p: nat)
    requires Xor(low / 2, p) == low / 2 + p
    ensures Xor(low, 2 * p) == low + 2 * p
  {
    hide Xor;
    XorUnfold(low, 2 * p);
    assert 2 * p / 2 == p && (low + 2 * p) % 2 == low % 2;
  }

  // ----- division by bits is linear

  lemma XorFeedback(x: nat, y: nat)
    ensures Xor(Xor(POLY, x), y) == Xor(POLY, Xor(x, y))
    ensures Xor(x, Xor(POLY, y)) == Xor(POLY, Xor(x, y))
    ensures Xor(Xor(POLY, x), Xor(POLY, y)) == Xor(x, y)
  {
    XorAssociative(POLY, x, y);
    XorAssociative(x, POLY, y);
    XorCommutes(x, POLY);
    XorAssociative(POLY, x, Xor(POLY, y));
    XorAssociative(POLY, POLY, Xor(x, y));
    XorSelf(POLY);
    XorZero(Xor(x, y));
  }

  lemma BitStepLinear(a: nat, b: nat)
    ensures BitStep(Xor(a, b)) == Xor(BitStep(a), BitStep(b))
  {
    XorHalves(a, b);
    XorFeedback(a / 2, b / 2);
    XorParity(a, b);
  }

  lemma XorParity(a: nat, b: nat)
    ensures Xor(a, b) % 2 == 1 <==> a % 2 != b % 2
  {
    XorHalves(a, b);
  }

  lemma {:induction false} BitStepsLinear(a: nat, b: nat, n: nat)
    ensures BitSteps(Xor(a, b), n) == Xor(BitSteps(a, n), BitSteps(b, n))
  {
    if n > 0 {
      BitStepsLinear(a, b, n - 1);
      BitStepLinear(BitSteps(a, n - 1), BitSteps(b, n - 1));
    }
  }

  /** With the low bits clear nothing is fed back, so dividing only shifts. */
  lemma {:induction false} ClearSteps(h: nat, n: nat, k: nat)
    ensures BitSteps(Shl(h, n + k), n) == Shl(h, k)
  {
    if n > 0 {
      ClearSteps(h, n - 1, k + 1);
    }
  }

  lemma DivideParts(low: nat, high: nat, n: nat)
    requires low < Pow2(n)
    ensures BitSteps(low + Shl(high, n), n) == Xor(BitSteps(low, n), high)
  {
    XorDisjoint(low, high, n);
    BitStepsLinear(low, Shl(high, n), n);
    ClearSteps(high, n, 0);
  }

  lemma ShlByte(h: nat)
    ensures Shl(h, 8) == 0x100 * h
  {
  }

  function Shr(x: nat, k: nat): nat
    decreases k
  {
    if k == 0 then x else Shr(x / 2, k - 1)
  }

  lemma {:induction false} XorLow(a: nat, b: nat, k: nat)
    requires b < Pow2(k)
    ensures Shr(Xor(a, b), k) == Shr(a, k)
  {
    if k == 0 {
      XorZero(a);
    } else {
      XorHalves(a, b);
      XorLow(a / 2, b / 2, k - 1);
    }
  }

  lemma ShrByte(x: nat)
    ensures Shr(x, 8) == x / 0x100
  {
  }

  /** Folding a byte in and dividing by eight bits is one table look-up on the low byte. */
  lemma TableStep(c: nat, b: u8)
    ensures ByteSteps(Xor(c, b)) == Xor(ByteSteps(Xor(c, b) % 0x100), c / 0x100)
  {
    hide Xor;
    var x := Xor(c, b);
    Pow2Values();
    ShlByte(x / 0x100);
    DivideParts(x % 0x100, x / 0x100, 8);
    XorLow(c, b, 8);
    ShrByte(c);
    ShrByte(x);
  }

  lemma {:induction false} BitStepsBound(c: u32, n: nat)
    ensures BitSteps(c, n) < TWO32
  {
    if n > 0 {
      BitStepsBound(c, n - 1);
      XorU32(POLY, BitSteps(c, n - 1) / 2);
    }
  }

  lemma {:induction false} RegisterBound(c: u32, data: bytes)
    ensures Register(c, data) < TWO32
  {
    if data != [] {
      RegisterBound(c, data[..|data| - 1]);
      XorU32(Register(c, data[..|data| - 1]), data[|data| - 1]);
      BitStepsBound(Xor(Register(c, data[..|data| - 1]), data[|data| - 1]), 8);
    }
  }

  lemma {:induction false} RegisterConcat(c: nat, a: bytes, b: bytes)
    ensures Register(c, a + b) == Register(Register(c, a), b)
  {
    if b == [] {
      assert a + b == a;
    } else {
      RegisterConcat(c, a, b[..|b| - 1]);
      assert (a + b)[..|a + b| - 1] == a + b[..|b| - 1];
    }
  }

  /** Checksumming in chunks is checksumming the whole. */
  lemma Chunks(crc: u32, a: bytes, b: bytes)
    ensures Update(Update(crc, a), b) == Update(crc, a + b)
  {
    RegisterConcat(Complement(crc), a, b);
  }

  /** The table and its ready flag, which the C file keeps in static variables. */
  class Engine {
    const table: array<u32>
    var ready: bool

    ghost predicate Valid()
      reads this, table
    {
      table.Length == 0x100 && (ready ==> forall i | 0 <= i < 0x100 :: table[i] == ByteSteps(i))
    }

    constructor ()
      ensures Valid() && !ready
    {
      table := new u32[0x100];
      ready := false;
    }

    method InitTable()
      requires Valid()
      modifies this, table
      ensures Valid() && ready
    {
      for i := 0 to 0x100
        invariant forall k | 0 <= k < i :: table[k] == ByteSteps(k)
      {
        var c: u32 := i;
        for j := 0 to 8
          invariant c == BitSteps(i, j)
          invariant forall k | 0 <= k < i :: table[k] == ByteSteps(k)
        {
          BitStepsBound(i, j + 1);
          c := if c % 2 == 1 then Xor(POLY, c / 2) else c / 2;
        }
        table[i] := c;
      }
      ready := true;
    }

    /** The table-driven loop computes the bit-by-bit checksum. */
    method Crc32Update(crc: u32, data: bytes) returns (r: u32)
      requires Valid()
      modifies this, table
      ensures Valid() && ready
      ensures r == Update(crc, data)
    {
      if !ready {
        InitTable();
      }
      var c := Complement(crc);
      for p := 0 to |data|
        invariant Valid() && ready
        invariant c == Register(Complement(crc), data[..p])
      {
        var x := Xor(c, data[p]);
        TableStep(c, data[p]);
        assert data[..p + 1][..p] == data[..p];
        RegisterBound(Complement(crc), data[..p + 1]);
        c := Xor(table[x % 0x100], c / 0x100);
      }
      assert data[..|data|] == data;
      RegisterBound(Complement(crc), data);
      r := Complement(c);
    }
  }

  // ----- the division, bit by bit

  /** Bit `k` of a number. */
  function Bit(x: nat, k: nat): (r: nat)
    ensures r < 2
  {
    if k == 0 then x % 2 else Bit(x / 2, k - 1)
  }

  /** Exclusive or, bit by bit. */
  lemma {:induction false} XorBit(a: nat, b: nat, k: nat)
    ensures Bit(Xor(a, b), k) == if Bit(a, k) == Bit(b, k) then 0 else 1
  {
    hide Xor;
    XorHalves(a, b);
    if k > 0 {
      XorBit(a / 2, b / 2, k - 1);
    }
  }

  /** The exponents of the generator below 32; its coefficients are stored in reverse. */
  const EXPONENTS: set<int> := {26, 23, 22, 16, 12, 11, 10, 8, 7, 5, 4, 2, 1, 0}

  lemma BitAbove(x: nat, k: nat)
    requires k >= 4
    ensures Bit(x, k) == Bit(x / 0x10, k - 4)
  {
    assert Bit(x, k) == Bit(x / 2, k - 1) == Bit(x / 2 / 2, k - 2) == Bit(x / 2 / 2 / 2, k - 3);
  }

  lemma PolyDigit0(k: nat)
    requires 0 <= k < 32
    ensures Bit(0xEDB88320, k - 0) == if 31 - k in EXPONENTS then 1 else 0
  {
    var x: nat := 0xEDB88320;
    assert Bit(x, 0) == 0 && Bit(x, 1) == 0 && Bit(x, 2) == 0 && Bit(x, 3) == 0;
    if k >= 4 {
      BitAbove(x, k - 0);
      PolyDigit1(k);
    }
  }

  lemma PolyDigit1(k: nat)
    requires 4 <= k < 32
    ensures Bit(0xEDB8832, k - 4) == if 31 - k in EXPONENTS then 1 else 0
  {
    var x: nat := 0xEDB8832;
    assert Bit(x, 0) == 0 && Bit(x, 1) == 1 && Bit(x, 2) == 0 && Bit(x, 3) == 0;
    if k >= 8 {
      BitAbove(x, k - 4);
      PolyDigit2(k);
    }
  }

  lemma PolyDigit2(k: nat)
    requires 8 <= k < 32
    ensures Bit(0xEDB883, k - 8) == if 31 - k in EXPONENTS then 1 else 0
  {
    var x: nat := 0xEDB883;
    assert Bit(x, 0) == 1 && Bit(x, 1) == 1 && Bit(x, 2) == 0 && Bit(x, 3) == 0;
    if k >= 12 {
      BitAbove(x, k - 8);
      PolyDigit3(k);
    }
  }

  lemma PolyDigit3(k: nat)
    requires 12 <= k < 32
    ensures Bit(0xEDB88, k - 12) == if 31 - k in EXPONENTS then 1 else 0
  {
    var x: nat := 0xEDB88;
    assert Bit(x, 0) == 0 && Bit(x, 1) == 0 && Bit(x, 2) == 0 && Bit(x, 3) == 1;
    if k >= 16 {
      BitAbove(x, k - 12);
      PolyDigit4(k);
    }
  }

  lemma PolyDigit4(k: nat)
    requires 16 <= k < 32
    ensures Bit(0xEDB8, k - 16) == if 31 - k in EXPONENTS then 1 else 0
  {
    var x: nat := 0xEDB8;
    assert Bit(x, 0) == 0 && Bit(x, 1) == 0 && Bit(x, 2) == 0 && Bit(x, 3) == 1;
    if k >= 20 {
      BitAbove(x, k - 16);
      PolyDigit5(k);
    }
  }

  lemma PolyDigit5(k: nat)
    requires 20 <= k < 32
    ensures Bit(0xEDB, k - 20) == if 31 - k in EXPONENTS then 1 else 0
  {
    var x: nat := 0xEDB;
    assert Bit(x, 0) == 1 && Bit(x, 1) == 1 && Bit(x, 2) == 0 && Bit(x, 3) == 1;
    if k >= 24 {
      BitAbove(x, k - 20);
      PolyDigit6(k);
    }
  }

  lemma PolyDigit6(k: nat)
    requires 24 <= k < 32
    ensures Bit(0xED, k - 24) == if 31 - k in EXPONENTS then 1 else 0
  {
    var x: nat := 0xED;
    assert Bit(x, 0) == 1 && Bit(x, 1) == 0 && Bit(x, 2) == 1 && Bit(x, 3) == 1;
    if k >= 28 {
      BitAbove(x, k - 24);
      PolyDigit7(k);
    }
  }

  lemma PolyDigit7(k: nat)
    requires 28 <= k < 32
    ensures Bit(0xE, k - 28) == if 31 - k in EXPONENTS then 1 else 0
  {
    var x: nat := 0xE;
    assert Bit(x, 0) == 0 && Bit(x, 1) == 1 && Bit(x, 2) == 1 && Bit(x, 3) == 1;
  }

  lemma PolyBits(k: nat)
    requires k < 32
    ensures Bit(POLY, k) == if 31 - k in EXPONENTS then 1 else 0
  {
    PolyDigit0(k);
  }

  /** One step of the division: every bit moves down by one place, and when the bit that falls out is set, the places of
      the generator's exponents are flipped. */
  lemma DivisionStep(c: u32, k: nat)
    requires k < 32
    ensures Bit(BitStep(c), k) == if c % 2 == 1 && 31 - k in EXPONENTS then 1 - Bit(c, k + 1) else Bit(c, k + 1)
  {
    hide Xor;
    PolyBits(k);
    XorBit(POLY, c / 2, k);
  }

  /** The complement flips every one of the 32 bits. */
  lemma {:induction false} ComplementBits(c: u32, k: nat)
    requires k < 32
    ensures Bit(Complement(c), k) == 1 - Bit(c, k)
  {
    Pow2Values();
    hide Pow2;
    FlippedBits(c, 32, k);
  }

  lemma {:induction false} FlippedBits(c: nat, n: nat, k: nat)
    requires c < Pow2(n) && k < n
    ensures Bit(Pow2(n) - 1 - c, k) == 1 - Bit(c, k)
  {
    var d := Pow2(n) - 1 - c;
    assert d / 2 == Pow2(n - 1) - 1 - c / 2 && d % 2 == 1 - c % 2;
    if k > 0 {
      FlippedBits(c / 2, n - 1, k - 1);
    }
  }
}
