/**
  The size classes of the offset allocator: a bin number is an unsigned floating
  point number with a 3-bit mantissa, so bins grow geometrically in steps of at
  most one eighth. Sizes are 32-bit unsigned values; shifts and masks are written
  as multiplication, division and remainder by powers of two.
*/
module SmallFloat {
  const TWO32: nat := 0x1_0000_0000
  const MANTISSA_VALUE: nat := 8
  const MAX_BIN_SIZE: nat := 4026531840
  /** The last bin whose floor is representable in 32 bits. */
  const LAST_BIN: nat := 239

  function Pow2(n: nat): (p: nat)
    ensures p >= 1
  {
    if n == 0 then 1 else 2 * Pow2(n - 1)
  }

  /** 31 minus the number of leading zeros of a 32-bit value. */
  function HighestSetBit(v: nat): (h: nat)
    requires v > 0
    ensures Pow2(h) <= v < 2 * Pow2(h)
  {
    if v == 1 then 0 else 1 + HighestSetBit(v / 2)
  }

  function RoundUp(size: nat): nat {
    if size < MANTISSA_VALUE then size else
      var start := StartBit(size);
      var mantissa := (size / Pow2(start)) % MANTISSA_VALUE;
      (start + 1) * MANTISSA_VALUE + mantissa + (if size % Pow2(start) != 0 then 1 else 0)
  }

  function RoundDown(size: nat): nat {
    if size < MANTISSA_VALUE then size else
      var start := StartBit(size);
      (start + 1) * MANTISSA_VALUE + (size / Pow2(start)) % MANTISSA_VALUE
  }

  /** Bits below the mantissa. */
  function StartBit(size: nat): (start: nat)
    requires size >= MANTISSA_VALUE
    ensures 8 * Pow2(start) <= size < 16 * Pow2(start)
  {
    var h := HighestSetBit(size);
    assert h >= 3 by { if h < 3 { assert Pow2(h) <= 4 by { Pow2Monotone(h, 2); } } }
    assert Pow2(h) == 2 * Pow2(h - 1) == 4 * Pow2(h - 2) == 8 * Pow2(h - 3);
    h - 3
  }

  /** The smallest size of a bin, ignoring the width of the result. */
  function BinFloor(bin: nat): nat {
    if bin / 8 == 0 then bin % 8 else (bin % 8 + 8) * Pow2(bin / 8 - 1)
  }

  /** What the 32-bit code returns: the bin's floor, truncated to 32 bits. */
  function FloatToUint(bin: nat): nat {
    BinFloor(bin) % TWO32
  }

  lemma Pow2Monotone(a: nat, b: nat)
    requires a <= b
    ensures Pow2(a) <= Pow2(b)
  {
  }

  lemma FloorStep(bin: nat)
    ensures BinFloor(bin) < BinFloor(bin + 1)
    ensures bin >= 8 ==> 8 * (BinFloor(bin + 1) - BinFloor(bin)) <= BinFloor(bin)
    ensures bin < 8 ==> BinFloor(bin) == bin && BinFloor(bin + 1) == bin + 1
  {
    var e, m := bin / 8, bin % 8;
    if e > 0 {
      var p := Pow2(e - 1);
      assert BinFloor(bin) == (m + 8) * p;
      if m < 7 {
        assert (bin + 1) / 8 == e && (bin + 1) % 8 == m + 1;
        assert BinFloor(bin + 1) == (m + 9) * p == (m + 8) * p + p;
      } else {
        assert (bin + 1) / 8 == e + 1 && (bin + 1) % 8 == 0;
        assert BinFloor(bin + 1) == 8 * Pow2(e) == 16 * p;
      }
      assert (m + 8) * p >= 8 * p;
    } else if m == 7 {
      assert BinFloor(bin + 1) == 8 * Pow2(0);
    }
  }

  lemma {:induction false} FloorMonotone(a: nat, b: nat)
    requires a < b
    ensures BinFloor(a) < BinFloor(b)
    decreases b
  {
    FloorStep(b - 1);
    if a < b - 1 { FloorMonotone(a, b - 1); }
  }

  /** Below 2^32 no bin past LAST_BIN is ever needed and no bin floor is truncated. */
  lemma NoTruncation(bin: nat)
    requires bin <= LAST_BIN
    ensures FloatToUint(bin) == BinFloor(bin) <= MAX_BIN_SIZE == FloatToUint(LAST_BIN)
    ensures BinFloor(LAST_BIN + 1) == TWO32 && FloatToUint(LAST_BIN + 1) == 0
  {
    assert Pow2(8) == 256;
    assert Pow2(16) == 65536 by { assert Pow2(12) == 4096; }
    assert Pow2(24) == 16777216 by { assert Pow2(20) == 1048576; }
    assert Pow2(28) == 0x1000_0000;
    assert BinFloor(239) == 15 * Pow2(28);
    assert BinFloor(240) == 8 * Pow2(29);
    if bin < LAST_BIN { FloorMonotone(bin, LAST_BIN); }
  }

  /** Strictly increasing on bins 0..239, and exactly there: the next bin is truncated to 0. */
  lemma FloatToUintIncreasing(a: nat, b: nat)
    requires a < b <= LAST_BIN + 1
    ensures FloatToUint(a) < FloatToUint(b) <==> b <= LAST_BIN
  {
    NoTruncation(a);
    if b <= LAST_BIN { NoTruncation(b); FloorMonotone(a, b); }
  }

  lemma MulMonotone(a: nat, b: nat, p: nat)
    ensures a <= b ==> a * p <= b * p
  {
  }

  lemma Quotient(size: nat, p: nat)
    requires p >= 1 && 8 * p <= size < 16 * p
    ensures 8 <= size / p < 16 && size == size / p * p + size % p
  {
  }

  lemma FloorAt(e: nat, m: nat)
    requires m < 8
    ensures BinFloor(e * 8 + m) == if e == 0 then m else (m + 8) * Pow2(e - 1)
  {
  }

  lemma FloorOfMantissa(start: nat, q: nat, p: nat)
    requires 8 <= q < 16 && p == Pow2(start)
    ensures BinFloor(start * 8 + q) == q * p
    ensures BinFloor(start * 8 + q + 1) == q * p + p
  {
    FloorAt(start + 1, q - 8);
    assert (q + 1) * p == q * p + p;
    if q < 15 { FloorAt(start + 1, q - 7); } else { FloorAt(start + 2, 0); }
  }

  /** A normalized size is quotient * 2^start + remainder, and its bin is 8 * start + quotient. */
  lemma Decompose(size: nat) returns (start: nat, q: nat, p: nat, rem: nat)
    requires size >= MANTISSA_VALUE
    ensures 8 <= q < 16 && p == Pow2(start) && rem < p && size == q * p + rem
    ensures RoundDown(size) == start * 8 + q
    ensures RoundUp(size) == RoundDown(size) + if rem != 0 then 1 else 0
  {
    start := StartBit(size);
    p := Pow2(start);
    q, rem := size / p, size % p;
    Quotient(size, p);
    assert q % 8 == q - 8;
  }

  /** A size lies between the floor of its bin and that of the next one. */
  lemma RoundDownBracket(size: nat)
    ensures BinFloor(RoundDown(size)) <= size < BinFloor(RoundDown(size) + 1)
    ensures RoundUp(size) == if size == BinFloor(RoundDown(size)) then RoundDown(size) else RoundDown(size) + 1
    ensures size >= 8 <==> RoundDown(size) >= 8
  {
    if size >= MANTISSA_VALUE {
      var start, q, p, _ := Decompose(size);
      FloorOfMantissa(start, q, p);
    } else {
      FloorStep(size);
    }
  }

  /** Rounding down is the greatest-lower inverse of the bin floor. */
  lemma RoundDownGalois(size: nat, bin: nat)
    ensures bin <= RoundDown(size) <==> BinFloor(bin) <= size
  {
    var r := RoundDown(size);
    RoundDownBracket(size);
    if bin < r { FloorMonotone(bin, r); }
    if r + 1 < bin { FloorMonotone(r + 1, bin); }
  }

  /** Rounding up is the least-upper inverse of the bin floor, mantissa carry included. */
  lemma RoundUpGalois(size: nat, bin: nat)
    ensures RoundUp(size) <= bin <==> size <= BinFloor(bin)
  {
    var r := RoundDown(size);
    RoundDownBracket(size);
    if bin < r { FloorMonotone(bin, r); }
    if r < bin { FloorMonotone(r, bin); }
    if r + 1 < bin { FloorMonotone(r + 1, bin); }
  }

  /** Rounding a request up to its bin wastes less than one eighth of the request. */
  lemma RoundUpWaste(size: nat)
    requires size >= 1
    ensures size <= BinFloor(RoundUp(size))
    ensures 8 * (BinFloor(RoundUp(size)) - size) < size
  {
    RoundDownBracket(size);
    FloorStep(RoundDown(size));
  }

  /** 32-bit sizes use bins 0..239; a request past MAX_BIN_SIZE rounds up to bin 240. */
  lemma BinRange(size: nat)
    requires size < TWO32
    ensures RoundDown(size) <= LAST_BIN
    ensures RoundUp(size) <= LAST_BIN + 1
    ensures RoundUp(size) <= LAST_BIN <==> size <= MAX_BIN_SIZE
  {
    NoTruncation(LAST_BIN);
    RoundDownGalois(size, LAST_BIN + 1);
    RoundUpGalois(size, LAST_BIN + 1);
    RoundUpGalois(size, LAST_BIN);
  }
}
