/** The 64-bit shift-and-add multiplication behind MULT and MULTU (machine/mipssim.cc).

    Everything is computed in 32-bit registers: `int` is two's complement, `>>` on it
    is arithmetic, and `unsigned` arithmetic is modulo 2^32. */
module Multipliers {
  import opened Bytes

  // A pair of registers read as one double word.
  function Double(hi: Word, lo: Word): (d: nat) {
    hi * WORD_LIMIT + lo
  }

  lemma DoubleBound(hi: Word, lo: Word)
    ensures Double(hi, lo) < WORD_LIMIT * WORD_LIMIT
  {
  }

  // `lo += bLo; if (lo < bLo) hi += 1; hi += bHi`
  lemma AddWithCarry(hi: Word, lo: Word, bHi: Word, bLo: Word, hi': Word, lo': Word)
    requires Double(hi, lo) + Double(bHi, bLo) < WORD_LIMIT * WORD_LIMIT
    requires lo' == (lo + bLo) % WORD_LIMIT
    requires hi' == ((if lo' < bLo then (hi + 1) % WORD_LIMIT else hi) + bHi) % WORD_LIMIT
    ensures Double(hi', lo') == Double(hi, lo) + Double(bHi, bLo)
  {
    assert lo' == if lo + bLo < WORD_LIMIT then lo + bLo else lo + bLo - WORD_LIMIT;
    assert lo' < bLo <==> lo + bLo >= WORD_LIMIT;
  }

  // `bHi <<= 1; if (bLo & 0x80000000) bHi |= 1; bLo <<= 1`
  lemma ShiftLeft(bHi: Word, bLo: Word, bHi': Word, bLo': Word)
    requires 2 * Double(bHi, bLo) < WORD_LIMIT * WORD_LIMIT
    requires bLo' == 2 * bLo % WORD_LIMIT
    requires bHi' == if bLo >= 0x8000_0000 then (2 * bHi % WORD_LIMIT + 1) % WORD_LIMIT else 2 * bHi % WORD_LIMIT
    ensures Double(bHi', bLo') == 2 * Double(bHi, bLo)
  {
    assert bHi < 0x8000_0000;
  }

  // `hi = ~hi; lo = ~lo; lo++; if (lo == 0) hi++`
  lemma Negate(hi: Word, lo: Word, hi': Word, lo': Word)
    requires 0 < Double(hi, lo)
    requires lo' == ((WORD_LIMIT - 1 - lo) + 1) % WORD_LIMIT
    requires hi' == if lo' == 0 then (WORD_LIMIT - 1 - hi + 1) % WORD_LIMIT else WORD_LIMIT - 1 - hi
    ensures Double(hi', lo') == WORD_LIMIT * WORD_LIMIT - Double(hi, lo)
  {
    assert lo' == if lo == 0 then 0 else WORD_LIMIT - lo;
  }

  /** The loop's account after some shifts: q is 2 to the number of shifts left, rem the
      bits of the multiplier not yet looked at, and a the C variable, whose sign bit
      the arithmetic shift smears over the bits already consumed. */
  ghost predicate Account(product: nat, m: nat, acc: nat, b: nat, a: int, rem: nat, q: nat) {
    && acc + rem * b == product
    && b * q == m * WORD_LIMIT
    && rem < q && (a == rem || a == rem - q)
  }

  // One turn of the loop, from the odd-bit test to the shifts.
  lemma AccountStep(product: nat, m: nat, acc: nat, b: nat, a: int, rem: nat, q: nat, half: nat)
    requires Account(product, m, acc, b, a, rem, q) && q == 2 * half
    ensures a % 2 == rem % 2
    ensures Account(product, m, acc + rem % 2 * b, 2 * b, a / 2, rem / 2, half)
    ensures rem % 2 == 1 ==> acc + b <= product
    ensures a == 1 ==> rem == 1
  {
    assert rem == 2 * (rem / 2) + rem % 2;
    calc {
      acc + rem * b;
      acc + (2 * (rem / 2) + rem % 2) * b;
      acc + rem % 2 * b + rem / 2 * (2 * b);
    }
    calc {
      2 * b * half;
      b * (2 * half);
    }
    if rem % 2 == 1 {
      assert rem * b >= 1 * b;
    }
  }

  lemma PowHalf(n: nat)
    requires n > 0
    ensures Pow2(n) == 2 * Pow2(n - 1) >= 2
  {
  }

  // Doubling b while shifts are left cannot overflow 64 bits.
  lemma RoomToShift(m: nat, b: nat, q: nat)
    requires m < WORD_LIMIT && b * q == m * WORD_LIMIT && q >= 2
    ensures 2 * b < WORD_LIMIT * WORD_LIMIT
  {
    assert b * 2 <= b * q;
  }

  // The magnitudes, and the sign they leave behind.
  function Magnitude(x: Int32, signedArith: bool): (m: nat)
    ensures m < WORD_LIMIT
  {
    if signedArith && x < 0 then 0 - x as int else if signedArith then x else ToWord(x)
  }

  lemma ProductBound(x: nat, y: nat)
    requires x < WORD_LIMIT && y < WORD_LIMIT
    ensures x * y < WORD_LIMIT * WORD_LIMIT
  {
    ProductMonotone(x, y, WORD_LIMIT - 1, WORD_LIMIT - 1);
  }

  lemma SignedProductBound(x: nat, y: nat)
    requires 0 < x <= 0x8000_0000 && 0 < y <= 0x8000_0000
    ensures 0 < x * y <= 0x4000_0000_0000_0000
  {
    ProductMonotone(x, y, 0x8000_0000, 0x8000_0000);
    ProductMonotone(1, 1, x, y);
  }

  // What a signed reading of the result registers makes of the magnitude and sign.
  lemma SignedResult(a: Int32, b: Int32, hi: Word, lo: Word)
    requires a != 0 && b != 0
    requires var m := Magnitude(a, true) * Magnitude(b, true);
      Double(hi, lo) == if (a < 0) != (b < 0) then WORD_LIMIT * WORD_LIMIT - m else m
    ensures ToInt32(hi) * WORD_LIMIT + lo == a * b
  {
    SignedProductBound(Magnitude(a, true), Magnitude(b, true));
    var m := Magnitude(a, true) * Magnitude(b, true);
    assert a * b == if (a < 0) != (b < 0) then -m else m;
    DoubleBound(hi, lo);
  }

  lemma UnsignedResult(hi: Word, lo: Word)
    ensures Double(hi, lo) == hi * WORD_LIMIT + lo
  {
  }

  lemma MagnitudeUnsigned(x: Int32)
    ensures Magnitude(x, false) == ToWord(x)
  {
  }

  lemma Registers(hi: Word, lo: Word)
    ensures ToWord(ToInt32(hi)) == hi && ToWord(ToInt32(lo)) == lo
  {
  }

  // A register holding a magnitude reads as it, unsigned.
  lemma MagnitudeBits(given: Int32, signedArith: bool, a: Int32)
    requires a == if signedArith && given < 0 then Negated(given) else given
    ensures ToWord(a) == Magnitude(given, signedArith)
  {
  }

  lemma MagnitudeBound(x: Int32)
    requires x != 0
    ensures 0 < Magnitude(x, true) <= 0x8000_0000
  {
  }

  lemma Start(a: Int32, b: Int32)
    ensures Account(ToWord(a) * ToWord(b), ToWord(b), Double(0, 0), Double(0, ToWord(b)), a, ToWord(a), Pow2(32))
  {
    Pow2WordSize();
  }

  // The early exit: the last bit of the multiplier has been added.
  lemma LastBit(product: nat, m: nat, acc: nat, b: nat, a: int, rem: nat, q: nat)
    requires Account(product, m, acc, b, a, rem, q) && rem == 1
    ensures acc + b == product
  {
  }

  lemma NoBitsLeft(product: nat, m: nat, acc: nat, b: nat, a: int, rem: nat)
    requires Account(product, m, acc, b, a, rem, Pow2(0))
    ensures acc == product
  {
  }

  lemma Entry(product: nat, m: nat, acc: nat, b: nat, a: int, rem: nat, q: nat)
    requires Account(product, m, acc, b, a, rem, q)
    ensures b * q == m * WORD_LIMIT
  {
  }

  // The main loop, which takes both registers as unsigned.
  method MultiplyBits(multiplier: Int32, multiplicand: Int32) returns (hi: Word, lo: Word)
    ensures Double(hi, lo) == ToWord(multiplier) * ToWord(multiplicand)
  {
    hide Account, Double, Pow2, ToWord;
    var a := multiplier;
    var bLo: Word, bHi: Word := ToWord(multiplicand), 0;
    lo, hi := 0, 0;
    ghost var x: nat, m: nat := ToWord(multiplier), ToWord(multiplicand);
    ghost var product, rem := x * m, x;
    var i := 0;
    Start(multiplier, multiplicand);
    ProductBound(x, m);
    while i < 32
      invariant 0 <= i <= 32
      invariant Account(product, m, Double(hi, lo), Double(bHi, bLo), a, rem, Pow2(32 - i))
    {
      ghost var acc, shifted := Double(hi, lo), Double(bHi, bLo);
      PowHalf(32 - i);
      AccountStep(product, m, acc, shifted, a, rem, Pow2(32 - i), Pow2(31 - i));
      Entry(product, m, acc, shifted, a, rem, Pow2(32 - i));
      RoomToShift(m, shifted, Pow2(32 - i));
      if a % 2 == 1 {
        ghost var hi0, lo0 := hi, lo;
        lo := (lo + bLo) % WORD_LIMIT;
        if lo < bLo {
          hi := (hi + 1) % WORD_LIMIT;
        }
        hi := (hi + bHi) % WORD_LIMIT;
        AddWithCarry(hi0, lo0, bHi, bLo, hi, lo);
        if a == 0 || a == 1 {  // (a & 0xfffffffe) == 0
          LastBit(product, m, acc, shifted, a, rem, Pow2(32 - i));
          break;
        }
      }
      ghost var bHi0, bLo0 := bHi, bLo;
      bHi := 2 * bHi % WORD_LIMIT;
      if bLo >= 0x8000_0000 {
        bHi := (bHi + 1) % WORD_LIMIT;
      }
      bLo := 2 * bLo % WORD_LIMIT;
      ShiftLeft(bHi0, bLo0, bHi, bLo);
      a := a / 2;
      rem := rem / 2;
      i := i + 1;
    }
    if i == 32 {
      NoBitsLeft(product, m, Double(hi, lo), Double(bHi, bLo), a, rem);
    }
  }

  /** The pair hi:lo is the exact product, of the signed readings for MULT and of the
      unsigned readings for MULTU. */
  method Mult(multiplier: Int32, multiplicand: Int32, signedArith: bool) returns (hiReg: Int32, loReg: Int32)
    ensures signedArith ==> hiReg * WORD_LIMIT + ToWord(loReg) == multiplier * multiplicand
    ensures !signedArith ==>
      ToWord(hiReg) * WORD_LIMIT + ToWord(loReg) == ToWord(multiplier) * ToWord(multiplicand)
  {
    hide Double, Negated, Magnitude;
    var a, b := multiplier, multiplicand;
    if a == 0 || b == 0 {
      return 0, 0;
    }
    var negative := false;
    if signedArith {
      if a < 0 {
        negative := !negative;
        a := Negated(a);
      }
      if b < 0 {
        negative := !negative;
        b := Negated(b);
      }
    }
    MagnitudeBits(multiplier, signedArith, a);
    MagnitudeBits(multiplicand, signedArith, b);
    hide ToWord, ToInt32;
    var hi: Word, lo: Word := MultiplyBits(a, b);
    if negative {
      MagnitudeBound(multiplier);
      MagnitudeBound(multiplicand);
      SignedProductBound(ToWord(a), ToWord(b));
      ghost var hi0, lo0 := hi, lo;
      hi := WORD_LIMIT - 1 - hi;
      lo := WORD_LIMIT - 1 - lo;
      lo := (lo + 1) % WORD_LIMIT;
      if lo == 0 {
        hi := (hi + 1) % WORD_LIMIT;
      }
      Negate(hi0, lo0, hi, lo);
    }
    if signedArith {
      SignedResult(multiplier, multiplicand, hi, lo);
    } else {
      MagnitudeUnsigned(multiplier);
      MagnitudeUnsigned(multiplicand);
      UnsignedResult(hi, lo);
    }
    Registers(hi, lo);
    hiReg, loReg := ToInt32(hi), ToInt32(lo);
  }
}
