// Bytes, and word arithmetic: sums and products that may wrap, and rounding down by masking.
module Words {

  type Byte = x: int | 0 <= x < 256

  function Pow2(k: nat): (r: nat)
    ensures r > 0
  {
    if k == 0 then 1 else 2 * Pow2(k - 1)
  }

  /** The bitwise and of two words. */
  function BitAnd(x: nat, y: nat): nat {
    if x == 0 || y == 0 then 0
    else 2 * BitAnd(x / 2, y / 2) + (if x % 2 == 1 && y % 2 == 1 then 1 else 0)
  }

  /** The complement of a word of the given width. */
  function Not(x: nat, width: nat): nat
    requires x < Pow2(width)
  {
    Pow2(width) - 1 - x
  }

  lemma {:induction false} AndWithOnes(x: nat, width: nat)
    requires x < Pow2(width)
    ensures BitAnd(x, Pow2(width) - 1) == x
    decreases width
  {
    if width > 0 && x > 0 {
      assert Pow2(width) == 2 * Pow2(width - 1);
      AndWithOnes(x / 2, width - 1);
      hide *;
      AndOdd(x, Pow2(width - 1) - 1);
    }
  }

  lemma AndOdd(x: nat, half: nat)
    requires x > 0
    ensures BitAnd(x, 2 * half + 1) == 2 * BitAnd(x / 2, half) + x % 2
  {
    assert (2 * half + 1) / 2 == half && (2 * half + 1) % 2 == 1;
  }

  lemma {:induction false} Pow2Grows(k: nat, width: nat)
    requires k <= width
    ensures Pow2(k) <= Pow2(width)
    decreases width
  {
    if k < width { Pow2Grows(k, width - 1); }
  }

  lemma HalfMod(x: nat, m: nat)
    requires m > 0
    ensures x % (2 * m) == 2 * (x / 2 % m) + x % 2
  {
    var half, bit := x / 2, x % 2;
    var q, r := half / m, half % m;
    assert half == q * m + r;
    Rescale(q, m, r, bit, half);
    ModIs(x, 2 * m, q, 2 * r + bit);
  }

  lemma Rescale(q: nat, m: nat, r: nat, bit: nat, half: nat)
    requires half == q * m + r
    ensures 2 * half + bit == q * (2 * m) + (2 * r + bit)
  {
  }

  lemma ModIs(x: nat, m: nat, q: nat, r: nat)
    requires m > 0 && r < m && x == q * m + r
    ensures x % m == r && x / m == q
  {
    var q', r' := x / m, x % m;
    assert x == q' * m + r';
    if q < q' {
      NextMultiple(q, q', m);
    } else if q > q' {
      NextMultiple(q', q, m);
    }
  }

  lemma NextMultiple(a: nat, b: nat, m: nat)
    requires a < b
    ensures a * m + m <= b * m
  {
    var d := b - a - 1;
    Spread(a, d, m);
  }

  lemma Spread(a: nat, d: nat, m: nat)
    ensures (a + 1 + d) * m == a * m + m + d * m && d * m >= 0
  {
  }

  /** Masking a word with ~(a - 1), for a power of two, rounds it down to a multiple of a. */
  lemma AlignDownRounds(x: nat, k: nat, width: nat)
    requires x < Pow2(width) && k <= width
    ensures Pow2(k) - 1 < Pow2(width)
    ensures BitAnd(x, Not(Pow2(k) - 1, width)) == x - x % Pow2(k)
  {
    Pow2Grows(k, width);
    MaskRounds(x, k, width, Pow2(width) - Pow2(k));
  }

  lemma {:induction false} MaskRounds(x: nat, k: nat, width: nat, mask: nat)
    requires x < Pow2(width) && k <= width && mask == Pow2(width) - Pow2(k)
    ensures BitAnd(x, mask) == x - x % Pow2(k)
    decreases width
  {
    if k == 0 {
      AndWithOnes(x, width);
    } else {
      HalfWord(x, k, width);
      var half := Pow2(width - 1) - Pow2(k - 1);
      MaskRounds(x / 2, k - 1, width - 1, half);
      hide BitAnd, Pow2;
      AlignHalves(x, Pow2(k - 1), half, mask);
    }
  }

  lemma HalfWord(x: nat, k: nat, width: nat)
    requires x < Pow2(width) && 0 < k <= width
    ensures x / 2 < Pow2(width - 1) && Pow2(k - 1) <= Pow2(width - 1)
    ensures Pow2(k) == 2 * Pow2(k - 1) && Pow2(width) == 2 * Pow2(width - 1)
  {
    Pow2Grows(k - 1, width - 1);
  }

  /** Rounding x down, if rounding down its half is known. */
  lemma AlignHalves(x: nat, a: nat, half: nat, mask: nat)
    requires 0 < a && mask == 2 * half && BitAnd(x / 2, half) == x / 2 - x / 2 % a
    ensures BitAnd(x, mask) == x - x % (2 * a)
  {
    hide BitAnd;
    HalfMod(x, a);
    MaskHalf(x, half);
    Doubled(x, x / 2, x % 2, x / 2 % a, x % (2 * a));
  }

  lemma Doubled(x: nat, half: nat, bit: nat, r: nat, rem: nat)
    requires x == 2 * half + bit && rem == 2 * r + bit
    ensures 2 * (half - r) == x - rem
  {
  }

  lemma MaskHalf(x: nat, half: nat)
    ensures BitAnd(x, 2 * half) == 2 * BitAnd(x / 2, half)
  {
    if half == 0 || x == 0 {
      assert BitAnd(x / 2, half) == 0;
    } else {
      assert (2 * half) / 2 == half && (2 * half) % 2 == 0;
    }
  }

  /** The wrapped sum is greater than its first term exactly if it did not wrap. */
  lemma SumTest(size: nat, extra: nat, top: nat)
    requires size < top && 0 < extra < top
    ensures (size + extra) % top > size <==> size + extra < top
    ensures size + extra < top ==> (size + extra) % top == size + extra
  {
    if size + extra >= top {
      ModIs(size + extra, top, 1, size + extra - top);
    }
  }

  /** Dividing first tells exactly whether the product fits. */
  lemma ProductTest(number: nat, size: nat, max: nat)
    requires size > 0
    ensures number > max / size <==> number * size > max
  {
    var q, r := max / size, max % size;
    assert max == q * size + r;
    if number > q {
      assert number * size >= (q + 1) * size == q * size + size;
    } else {
      assert number * size <= q * size;
    }
  }
}
