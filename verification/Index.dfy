/** The 64-bit indices of the queue (`index_t`) and their circular order. */
module Index {
  const TWO_63: nat := 0x8000_0000_0000_0000
  const TWO_64: nat := 0x1_0000_0000_0000_0000

  function Word(x: int): nat { x % TWO_64 }

  /** `circular_less_than<index_t>`. */
  predicate CircularLess(a: nat, b: nat)
  {
    Word(a - b) > TWO_63
  }

  lemma WordOfSmall(x: int)
    requires x + TWO_64 >= 0 && x < TWO_64
    ensures Word(x) == if x >= 0 then x else x + TWO_64
  {
  }

  // ----- Remainders -----

  lemma MulGrows(d: nat, k: int)
    requires d > 0 && k >= 1
    ensures d * k >= d
  {
    assert d * k == d * (k - 1) + d && d * (k - 1) >= 0;
  }

  lemma ModUnique(x: int, d: nat, q: int, r: int)
    requires d > 0 && 0 <= r < d && x == d * q + r
    ensures x % d == r
  {
    var q', r' := x / d, x % d;
    assert d * q' + r' == d * q + r;
    if q - q' >= 1 {
      assert d * (q - q') == r' - r;
      MulGrows(d, q - q');
      assert false;
    } else if q' - q >= 1 {
      assert d * (q' - q) == r - r';
      MulGrows(d, q' - q);
      assert false;
    }
  }

  lemma {:induction false} WordPeriodic(x: int, k: int)
    ensures Word(x + k * TWO_64) == Word(x)
    decreases if k < 0 then -k else k
  {
    if k > 0 {
      WordPeriodic(x, k - 1);
    } else if k < 0 {
      WordPeriodic(x, k + 1);
    }
  }

  lemma WordOfDifference(x: int, y: int)
    ensures Word(Word(x) - Word(y)) == Word(x - y)
  {
    var a, b := x / TWO_64, y / TWO_64;
    assert Word(x) - Word(y) == x - y + (b - a) * TWO_64;
    WordPeriodic(x - y, b - a);
  }

  // ----- The circular order -----

  lemma WordOfOpposite(x: int)
    ensures Word(-x) == if Word(x) == 0 then 0 else TWO_64 - Word(x)
  {
    var q, r := x / TWO_64, x % TWO_64;
    if r == 0 {
      ModUnique(-x, TWO_64, -q, 0);
    } else {
      ModUnique(-x, TWO_64, -q - 1, TWO_64 - r);
    }
  }

  /** For any two indices, wrapped any number of times: one is less if and only if the other is
      ahead of it, going around, by less than half the range. */
  lemma CircularLessExactly(x: int, y: int)
    ensures CircularLess(Word(x), Word(y)) <==> 0 < Word(y - x) < TWO_63
  {
    WordOfDifference(x, y);
    WordOfOpposite(y - x);
  }

  /** So the circular order is the order of the unbounded indices while they are less than half the
      range apart. At half the range neither is less; beyond it the order is reversed. */
  lemma CircularIsOrder(x: int, y: int)
    requires y - x < TWO_64 && x - y <= TWO_63
    ensures CircularLess(Word(x), Word(y)) <==> 0 < y - x < TWO_63
    ensures CircularLess(Word(y), Word(x)) <==> 0 < x - y < TWO_63 || y - x > TWO_63
  {
    CircularLessExactly(x, y);
    CircularLessExactly(y, x);
    WordOfSmall(y - x);
    WordOfSmall(x - y);
  }

  lemma WordSteps(x: int)
    ensures Word(Word(x) + 1) == Word(x + 1)
  {
  }

  // ----- Powers of two -----

  function Pow2(e: nat): (p: nat)
    ensures p > 0
  {
    if e == 0 then 1 else 2 * Pow2(e - 1)
  }

  lemma DoubleProduct(x: int, y: int)
    ensures 2 * (x * y) == (2 * x) * y
  {
  }

  lemma {:induction false} Pow2Adds(a: nat, b: nat)
    ensures Pow2(a + b) == Pow2(a) * Pow2(b)
  {
    if a > 0 {
      Pow2Adds(a - 1, b);
      assert Pow2(a + b) == 2 * Pow2(a - 1 + b) && Pow2(a) == 2 * Pow2(a - 1);
      hide Pow2;
      DoubleProduct(Pow2(a - 1), Pow2(b));
    }
  }

  lemma Pow2Doubles(e: nat)
    ensures Pow2(e + 1) == 2 * Pow2(e)
  {
  }

  lemma SmallPowers()
    ensures Pow2(4) == 16 && Pow2(5) == 32 && Pow2(16) == 0x1_0000
  {
    assert Pow2(4) == 16;
    assert Pow2(5) == 32;
    Pow2Adds(4, 4);
    Pow2Adds(8, 8);
  }

  lemma Power58()
    ensures Pow2(58) == TWO_63 / 32
  {
    SmallPowers();
    hide Pow2;
    Pow2Adds(16, 16);
    Pow2Adds(32, 16);
    Pow2Adds(5, 5);
    Pow2Adds(48, 10);
  }

  /** The sizes and ranges in use, from 2^58 on by doubling. */
  lemma LargePowers()
    ensures Pow2(58) == TWO_63 / 32 && Pow2(59) == TWO_64 / 32 && Pow2(64) == TWO_64
  {
    Power58();
    SmallPowers();
    Pow2Doubles(58);
    Pow2Adds(5, 59);
    hide Pow2;
  }

  lemma {:induction false} Pow2Orders(a: nat, b: nat)
    ensures a <= b <==> Pow2(a) <= Pow2(b)
  {
    if a <= b {
      Pow2Adds(a, b - a);
      assert Pow2(a) * Pow2(b - a) >= Pow2(a) * 1;
    } else {
      Pow2Adds(b, a - b);
      assert Pow2(a - b) >= 2;
      assert Pow2(b) * Pow2(a - b) >= Pow2(b) * 2;
    }
  }

  // ----- Positions in a circular array of a power of two -----

  /** `x & (size - 1)` on a 64-bit value, for a size that is a power of two. */
  function Mask(x: int, size: nat): (m: nat)
    requires size > 0
    ensures m < size
  {
    Word(x) % size
  }

  /** The position `back` slots behind `front`, going around at the beginning. */
  function Behind(front: nat, back: nat, size: nat): (slot: nat)
    requires front < size && back <= size
    ensures slot < size
  {
    if back <= front then front - back else front + size - back
  }

  /** A size the index may have divides 2^59 and 2^64. */
  lemma SizeDivides(e: nat) returns (m: nat, n: nat)
    requires e <= 59
    ensures TWO_64 == Pow2(e) * n && TWO_64 / 32 == Pow2(e) * m && m >= 1 && n >= 1
    ensures Pow2(e) <= TWO_64 / 32
  {
    m, n := Pow2(59 - e), Pow2(64 - e);
    Pow2Adds(e, 59 - e);
    Pow2Adds(e, 64 - e);
    LargePowers();
    Pow2Orders(e, 59);
  }

  /** A difference taken around the end of a range that the size divides. */
  lemma GoesAround(front: nat, back: nat, size: nat, n: nat, range: nat)
    requires front < size && back <= size && n >= 1 && range == size * n
    ensures (front - back + range) % size == Behind(front, back, size)
  {
    assert size * (n - 1) == size * n - size;
    if back <= front {
      ModUnique(front - back + range, size, n, front - back);
    } else {
      ModUnique(front - back + range, size, n - 1, front + size - back);
    }
  }

  lemma GoesAroundIndices(front: nat, back: nat, e: nat)
    requires e <= 59 && front < Pow2(e) && back <= Pow2(e)
    ensures (front - back + TWO_64) % Pow2(e) == Behind(front, back, Pow2(e)) && Pow2(e) <= TWO_64 / 32
  {
    var m, n := SizeDivides(e);
    hide Pow2;
    GoesAround(front, back, Pow2(e), n, TWO_64);
  }

  lemma GoesAroundBlocks(front: nat, back: nat, e: nat)
    requires e <= 59 && front < Pow2(e) && back <= Pow2(e)
    ensures (front - back + TWO_64 / 32) % Pow2(e) == Behind(front, back, Pow2(e)) && Pow2(e) <= TWO_64 / 32
  {
    var m, n := SizeDivides(e);
    hide Pow2;
    GoesAround(front, back, Pow2(e), m, TWO_64 / 32);
  }

  /** Masking takes an offset as an unsigned 64-bit number or a negative one alike, because the size
      divides 2^64. */
  lemma MaskGoesAround(front: nat, back: nat, e: nat)
    requires e <= 59 && front < Pow2(e) && back <= Pow2(e)
    ensures Mask(front - back, Pow2(e)) == Behind(front, back, Pow2(e))
  {
    GoesAroundIndices(front, back, e);
    WordOfSmall(front - back);
    hide Pow2, Word;
    if back <= front {
      ModUnique(front - back, Pow2(e), 0, front - back);
    }
  }

  lemma MaskStepsOn(front: nat, e: nat)
    requires e <= 59 && front < Pow2(e)
    ensures Mask(front + 1, Pow2(e)) == if front + 1 == Pow2(e) then 0 else front + 1
  {
    GoesAroundIndices(front, 0, e);
    WordOfSmall(front + 1);
    hide Pow2, Word;
    if front + 1 == Pow2(e) {
      ModUnique(front + 1, Pow2(e), 1, 0);
    } else {
      ModUnique(front + 1, Pow2(e), 0, front + 1);
    }
  }

  lemma WordOfNegative(back: nat)
    requires 0 < back < TWO_64 / 32
    ensures Word(-32 * back) / 32 == TWO_64 / 32 - back
  {
    assert Word(-32 * back) == TWO_64 - 32 * back;
  }

  lemma MaskOfSmall(x: nat, size: nat)
    requires x < TWO_64 && size > 0
    ensures Mask(x, size) == x % size
  {
  }

  /** The lookup of `dequeue`: the signed distance in elements, divided by 32 as an unsigned number
      and masked, still leads `back` slots behind the front. */
  lemma LookupGoesBack(front: nat, back: nat, e: nat)
    requires e <= 59 && front < Pow2(e) && back < Pow2(e)
    ensures Mask(front + Word(-32 * back) / 32, Pow2(e)) == Behind(front, back, Pow2(e))
  {
    GoesAroundBlocks(front, back, e);
    if back == 0 {
      WordOfSmall(0);
      hide Pow2, Word, Mask;
      MaskOfSmall(front, Pow2(e));
      ModUnique(front, Pow2(e), 0, front);
    } else {
      WordOfNegative(back);
      hide Pow2, Word, Mask, Behind;
      MaskOfSmall(front - back + TWO_64 / 32, Pow2(e));
    }
  }
}
