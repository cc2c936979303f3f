/**
  The masks of the two-level bin index, with the bit tricks the allocator uses on
  them: test, set, clear, lowest set bit from a position on, highest set bit. A
  mask is an unsigned 32-bit value; the bitwise operators are defined on naturals
  by their binary digits, and the lemmas say what each trick does to positions.
*/
module Bits {
  import opened SmallFloat

  const NO_SPACE: nat := 0xffff_ffff

  /** Binary digit i of v. */
  function Digit(v: nat, i: nat): (d: nat)
    ensures d <= 1
  {
    if i == 0 then v % 2 else Digit(v / 2, i - 1)
  }

  predicate Bit(v: nat, i: nat) {
    Digit(v, i) == 1
  }

  function And(x: nat, y: nat): (z: nat)
    ensures z <= x && z <= y
  {
    if x == 0 || y == 0 then 0 else 2 * And(x / 2, y / 2) + (x % 2) * (y % 2)
  }

  function Or(x: nat, y: nat): (z: nat)
    ensures z >= x && z >= y
  {
    if x == 0 then y else if y == 0 then x else
      2 * Or(x / 2, y / 2) + (if x % 2 + y % 2 == 0 then 0 else 1)
  }

  /** 32-bit complement. */
  function Not(x: nat): nat
    requires x < TWO32
  {
    TWO32 - 1 - x
  }

  /** The intrinsic "count trailing zeros", scanning up from position i. */
  function TrailingZeros(v: nat, i: nat := 0): (r: nat)
    requires i <= 32
    ensures i <= r <= 32
    ensures forall j :: i <= j < r ==> !Bit(v, j)
    ensures r < 32 ==> Bit(v, r)
    decreases 32 - i
  {
    if i == 32 || Bit(v, i) then i else TrailingZeros(v, i + 1)
  }

  /** 31 minus the intrinsic "count leading zeros", scanning down from position n - 1. */
  function HighestBit(v: nat, n: nat := 32): (r: int)
    requires n <= 32
    ensures -1 <= r < n
    ensures forall j :: r < j < n ==> !Bit(v, j)
    ensures r >= 0 ==> Bit(v, r)
  {
    if n == 0 || Bit(v, n - 1) then n - 1 else HighestBit(v, n - 1)
  }

  /** The masked search of the code finds the least set position at or above start. */
  function FindLowestSetBitAfter(mask: nat, start: nat): (r: nat)
    requires mask < TWO32 && start < 32
    ensures r == NO_SPACE || start <= r < 32
    ensures r == NO_SPACE <==> forall j :: start <= j < 32 ==> !Bit(mask, j)
    ensures r != NO_SPACE ==> Bit(mask, r) && forall j :: start <= j < r ==> !Bit(mask, j)
  {
    Pow2Bound(start);
    var bitsAfter := And(mask, Not(Pow2(start) - 1));
    MaskedBits(mask, start, bitsAfter);
    ZeroMask(bitsAfter);
    if bitsAfter == 0 then NO_SPACE else TrailingZeros(bitsAfter)
  }

  // ---- what the operators do to positions

  lemma {:induction false} AndBit(x: nat, y: nat, i: nat)
    ensures Bit(And(x, y), i) <==> Bit(x, i) && Bit(y, i)
    decreases i
  {
    if x == 0 || y == 0 {
      NoBit(i);
    } else if i > 0 {
      assert And(x, y) / 2 == And(x / 2, y / 2);
      AndBit(x / 2, y / 2, i - 1);
    }
  }

  lemma {:induction false} OrBit(x: nat, y: nat, i: nat)
    ensures Bit(Or(x, y), i) <==> Bit(x, i) || Bit(y, i)
    decreases i
  {
    if x == 0 || y == 0 {
      NoBit(i);
    } else if i > 0 {
      assert Or(x, y) / 2 == Or(x / 2, y / 2);
      OrBit(x / 2, y / 2, i - 1);
    }
  }

  lemma {:induction false} OrBound(x: nat, y: nat, n: nat)
    requires x < Pow2(n) && y < Pow2(n)
    ensures Or(x, y) < Pow2(n)
    decreases n
  {
    if x != 0 && y != 0 { OrBound(x / 2, y / 2, n - 1); }
  }

  lemma {:induction false} NoBit(i: nat)
    ensures !Bit(0, i)
  {
    if i > 0 { NoBit(i - 1); }
  }

  lemma {:induction false} NoHighBit(v: nat, n: nat, i: nat)
    requires v < Pow2(n) && n <= i
    ensures !Bit(v, i)
    decreases i
  {
    if n > 0 { NoHighBit(v / 2, n - 1, i - 1); } else { NoBit(i); }
  }

  lemma {:induction false} OneBit(i: nat, j: nat)
    ensures Bit(Pow2(i), j) <==> i == j
    ensures Bit(Pow2(i) - 1, j) <==> j < i
    decreases j
  {
    if i == 0 {
      NoBit(j);
      if j > 0 { NoBit(j - 1); }
    } else if j > 0 {
      assert Pow2(i) / 2 == Pow2(i - 1) && (Pow2(i) - 1) / 2 == Pow2(i - 1) - 1;
      OneBit(i - 1, j - 1);
    }
  }

  lemma {:induction false} ComplementBit(x: nat, n: nat, i: nat)
    requires x < Pow2(n) && i < n
    ensures Bit(Pow2(n) - 1 - x, i) <==> !Bit(x, i)
    decreases i
  {
    var p := Pow2(n - 1);
    assert Pow2(n) - 1 - x == 2 * p - 1 - x;
    if i > 0 {
      assert (2 * p - 1 - x) / 2 == p - 1 - x / 2;
      ComplementBit(x / 2, n - 1, i - 1);
    }
  }

  lemma Pow2Bound(i: nat)
    requires i <= 32
    ensures Pow2(32) == TWO32
    ensures Pow2(i) <= TWO32 && (i < 32 ==> Pow2(i) < TWO32)
  {
    assert Pow2(8) == 256;
    assert Pow2(16) == 65536;
    assert Pow2(24) == 16777216;
    assert Pow2(32) == TWO32;
    Pow2Monotone(i, 32);
    if i < 32 { Pow2Monotone(i, 31); }
  }

  /** The test `v & (1 << i)` reads position i. */
  lemma TestBit(v: nat, i: nat)
    requires i < 32
    ensures And(v, Pow2(i)) != 0 <==> Bit(v, i)
  {
  }

  /** `v |= 1 << i` sets position i and no other. */
  lemma SetBit(v: nat, i: nat, j: nat)
    ensures Bit(Or(v, Pow2(i)), j) <==> i == j || Bit(v, j)
  {
    OrBit(v, Pow2(i), j);
    OneBit(i, j);
  }

  /** `v &= ~(1 << i)` clears position i and no other. */
  lemma ClearBit(v: nat, i: nat, j: nat)
    requires i < 32 && j < 32
    ensures Pow2(i) < TWO32
    ensures Bit(And(v, Not(Pow2(i))), j) <==> i != j && Bit(v, j)
  {
    Pow2Bound(i);
    AndBit(v, Not(Pow2(i)), j);
    ComplementBit(Pow2(i), 32, j);
    OneBit(i, j);
  }

  /** `v & ~((1 << start) - 1)` keeps the positions at and above start. */
  lemma MaskedBits(v: nat, start: nat, w: nat)
    requires start < 32 && Pow2(start) <= TWO32
    requires w == And(v, Not(Pow2(start) - 1))
    ensures forall j :: 0 <= j < 32 ==> (Bit(w, j) <==> start <= j && Bit(v, j))
  {
    Pow2Bound(start);
    forall j | 0 <= j < 32
      ensures Bit(w, j) <==> start <= j && Bit(v, j)
    {
      AndBit(v, Not(Pow2(start) - 1), j);
      ComplementBit(Pow2(start) - 1, 32, j);
      OneBit(start, j);
    }
  }

  lemma {:induction false} SomeBit(v: nat, n: nat) returns (j: nat)
    requires 0 < v < Pow2(n)
    ensures j < n && Bit(v, j)
    decreases n
  {
    if v % 2 == 1 {
      j := 0;
    } else {
      j := SomeBit(v / 2, n - 1);
      j := j + 1;
    }
  }

  /** A mask is zero exactly when it has no bit. */
  lemma ZeroMask(v: nat)
    requires v < TWO32
    ensures v == 0 <==> forall j :: 0 <= j < 32 ==> !Bit(v, j)
  {
    Pow2Bound(32);
    if v == 0 {
      forall j | 0 <= j < 32 ensures !Bit(v, j) { NoBit(j); }
    } else {
      var j := SomeBit(v, 32);
      assert 0 <= j < 32 && Bit(v, j);
    }
  }
}
