/** lib/bitmap.cc: an array of bits kept in 32-bit words. */
module Bitmaps {
  import opened Bytes

  const BITS_IN_WORD := 32

  // The operators the C code uses on a word, bit by bit:
  //   w & (1 << k),   w | (1 << k),   w & ~(1 << k)
  predicate Bit(w: nat, k: nat) {
    if k == 0 then w % 2 == 1 else Bit(w / 2, k - 1)
  }

  function OrBit(w: nat, k: nat): nat {
    if k == 0 then w / 2 * 2 + 1 else 2 * OrBit(w / 2, k - 1) + w % 2
  }

  function AndNotBit(w: nat, k: nat): nat {
    if k == 0 then w / 2 * 2 else 2 * AndNotBit(w / 2, k - 1) + w % 2
  }

  lemma {:induction false} OrBitFits(w: nat, k: nat, n: nat)
    requires w < Pow2(n) && k < n
    ensures OrBit(w, k) < Pow2(n)
  {
    if k != 0 {
      assert w / 2 < Pow2(n - 1);
      OrBitFits(w / 2, k - 1, n - 1);
    }
  }

  lemma {:induction false} AndNotBitFits(w: nat, k: nat)
    ensures AndNotBit(w, k) <= w
  {
    if k != 0 { AndNotBitFits(w / 2, k - 1); }
  }

  /** Bit k is the binary digit of weight 2^k. */
  lemma {:induction false} BitIsDigit(w: nat, k: nat)
    ensures Bit(w, k) <==> w / Pow2(k) % 2 == 1
  {
    if k != 0 {
      BitIsDigit(w / 2, k - 1);
      HalvedDigit(w, Pow2(k - 1));
    }
  }

  lemma HalvedDigit(w: nat, p: nat)
    requires p > 0
    ensures w / 2 / p == w / (2 * p)
  {
    var q, r := w / 2 / p, w / 2 % p;
    assert w == 2 * (p * q + r) + w % 2;
    assert 2 * (p * q) == 2 * p * q;
    Divided(w, 2 * p, q, 2 * r + w % 2);
  }

  /** Bit i of a bitmap is digit i % 32 of word i / 32. */
  lemma MarkedMeans(words: seq<Word>, numBits: nat, i: nat)
    requires i < numBits <= 32 * |words|
    ensures i in MarkedIn(words, numBits) <==> words[i / 32] / Pow2(i % 32) % 2 == 1
  {
    BitIsDigit(words[i / 32], i % 32);
  }

  lemma {:induction false} BitOfOrBit(w: nat, k: nat, j: nat)
    ensures Bit(OrBit(w, k), j) <==> (j == k || Bit(w, j))
  {
    if k != 0 && j != 0 { BitOfOrBit(w / 2, k - 1, j - 1); }
  }

  lemma {:induction false} BitOfAndNotBit(w: nat, k: nat, j: nat)
    ensures Bit(AndNotBit(w, k), j) <==> (j != k && Bit(w, j))
  {
    if k != 0 && j != 0 { BitOfAndNotBit(w / 2, k - 1, j - 1); }
  }

  // `map[which / BitsInWord] & (1 << (which % BitsInWord))`
  predicate TestIn(words: seq<Word>, which: nat)
    requires which < 32 * |words|
  {
    Bit(words[which / 32], which % 32)
  }

  // The set a bitmap of numBits bits stands for.
  function MarkedIn(words: seq<Word>, numBits: nat): (s: set<int>)
    requires numBits <= 32 * |words|
  {
    set i | 0 <= i < numBits && TestIn(words, i)
  }

  // {0, ..., n-1}
  ghost function Upto(n: nat): (s: set<int>)
    ensures forall i :: i in s <==> 0 <= i < n
    ensures |s| == n
  {
    if n == 0 then {} else Upto(n - 1) + {n - 1}
  }

  lemma AtMost(s: set<int>, n: nat)
    requires forall i :: i in s ==> 0 <= i < n
    ensures |s| <= n
  {
    assert Upto(n) == s + (Upto(n) - s);
  }

  class Bitmap {
    const numBits: nat
    const numWords: nat
    const map_: array<Word>

    ghost predicate Valid()
      reads this, map_
    {
      numBits > 0 && numWords == map_.Length && numWords == (numBits + 31) / 32
    }

    ghost function Marked(): (s: set<int>)
      requires Valid()
      reads this, map_
      ensures forall i :: i in s ==> 0 <= i < numBits
    {
      MarkedIn(map_[..], numBits)
    }

    // The constructor's ASSERT demands a positive size.
    constructor (numItems: nat)
      requires numItems > 0
      ensures Valid() && fresh(map_)
      ensures numBits == numItems
      ensures Marked() == {}
    {
      numBits := numItems;
      numWords := (numItems + 31) / 32;
      map_ := new Word[(numItems + 31) / 32](_ => 0);
      new;
      forall i | 0 <= i < numItems
        ensures !TestIn(map_[..], i)
      {
        ZeroHasNoBits(i % 32);
      }
    }

    method Mark(which: int)
      requires Valid()
      requires 0 <= which < numBits
      modifies map_
      ensures Marked() == old(Marked()) + {which}
    {
      var w := map_[which / 32];
      Pow2WordSize();
      OrBitFits(w, which % 32, 32);
      map_[which / 32] := OrBit(w, which % 32);
      forall i | 0 <= i < numBits
        ensures TestIn(map_[..], i) <==> (i == which || old(TestIn(map_[..], i)))
      {
        BitOfOrBit(w, which % 32, i % 32);
      }
    }

    method Clear(which: int)
      requires Valid()
      requires 0 <= which < numBits
      modifies map_
      ensures Marked() == old(Marked()) - {which}
    {
      var w := map_[which / 32];
      AndNotBitFits(w, which % 32);
      map_[which / 32] := AndNotBit(w, which % 32);
      forall i | 0 <= i < numBits
        ensures TestIn(map_[..], i) <==> (i != which && old(TestIn(map_[..], i)))
      {
        BitOfAndNotBit(w, which % 32, i % 32);
      }
    }

    method Test(which: int) returns (r: bool)
      requires Valid()
      requires 0 <= which < numBits
      ensures r <==> which in Marked()
    {
      r := Bit(map_[which / 32], which % 32);
    }

    // First fit: the least clear bit, or -1 when every bit is set.
    method FindAndSet() returns (r: int)
      requires Valid()
      modifies map_
      ensures r == -1 <==> old(Marked()) == Upto(numBits)
      ensures r == -1 ==> Marked() == old(Marked())
      ensures r != -1 ==> 0 <= r < numBits && r !in old(Marked())
      ensures r != -1 ==> Marked() == old(Marked()) + {r}
      ensures r != -1 ==> forall j :: 0 <= j < r ==> j in old(Marked())
    {
      hide MarkedIn;
      for i := 0 to numBits
        invariant forall j :: 0 <= j < i ==> j in Marked()
        invariant map_[..] == old(map_[..])
      {
        var marked := Test(i);
        if !marked {
          assert i in Upto(numBits) && i !in Marked();
          Mark(i);
          return i;
        }
      }
      assert Marked() == Upto(numBits);
      r := -1;
    }

    method NumClear() returns (count: nat)
      requires Valid()
      ensures count == numBits - |Marked()|
    {
      hide MarkedIn, Below;
      count := 0;
      BelowEnds(Marked(), numBits);
      for i := 0 to numBits
        invariant count == i - |Below(Marked(), i)|
      {
        var marked := Test(i);
        BelowNext(Marked(), i);
        if !marked {
          count := count + 1;
        }
      }
    }
  }

  // The members of s below n.
  ghost function Below(s: set<int>, n: nat): set<int> {
    set i | i in s && i < n
  }

  lemma BelowEnds(s: set<int>, n: nat)
    requires forall i :: i in s ==> 0 <= i < n
    ensures Below(s, 0) == {} && Below(s, n) == s
  {
  }

  lemma BelowNext(s: set<int>, i: nat)
    ensures |Below(s, i + 1)| == |Below(s, i)| + (if i in s then 1 else 0)
  {
    assert Below(s, i + 1) == if i in s then Below(s, i) + {i as int} else Below(s, i);
  }

  lemma {:induction false} ZeroHasNoBits(k: nat)
    ensures !Bit(0, k)
  {
    if k != 0 { ZeroHasNoBits(k - 1); }
  }
}
