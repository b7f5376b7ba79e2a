/** Remainders by a number that is not fixed. */
module Remainders {
  lemma ModIs(x: nat, size: nat, q: int, r: nat)
    requires 0 < size && r < size && x == q * size + r
    ensures x % size == r
  {
    var d := q - x / size;
    assert d * size == q * size - (x / size) * size == x % size - r;
    MulBig(d, size);
  }

  lemma MulBig(d: int, size: nat)
    ensures d >= 1 ==> d * size >= size
    ensures d <= -1 ==> d * size + size <= 0
  {
    if d >= 1 {
      assert d * size == (d - 1) * size + size && (d - 1) * size >= 0;
    } else if d <= -1 {
      assert d * size == (d + 1) * size - size && (d + 1) * size <= 0;
    }
  }

  lemma ModSucc(x: nat, size: nat)
    requires 0 < size
    ensures (x % size + 1) % size == (x + 1) % size
  {
    var q, r := x / size, x % size;
    assert x == q * size + r;
    if r + 1 < size {
      ModIs(x + 1, size, q, r + 1);
    } else {
      assert (q + 1) * size == q * size + size;
      ModIs(x + 1, size, q + 1, 0);
      ModIs(r + 1, size, 1, 0);
    }
  }

  /** Numbers less than `size` apart have different remainders. */
  lemma ModApart(x: nat, y: nat, size: nat)
    requires 0 < size && x < y < x + size
    ensures x % size != y % size
  {
    var q, r := x / size, x % size;
    assert x == q * size + r;
    if r + (y - x) < size {
      ModIs(y, size, q, r + (y - x));
    } else {
      assert (q + 1) * size == q * size + size;
      ModIs(y, size, q + 1, r + (y - x) - size);
    }
  }

  lemma ModAdd1(x: nat, range: nat)
    requires 0 < range
    ensures Add1(x % range, range) == (x + 1) % range
  {
    ModSucc(x, range);
    if x % range + 1 == range {
      ModIs(range, range, 1, 0);
    } else {
      ModIs(x % range + 1, range, 0, x % range + 1);
    }
  }

  /** fetch_add(1) on a counter that wraps around at `range`. */
  function Add1(x: nat, range: nat): nat
  {
    if x + 1 >= range then 0 else x + 1
  }

  /** Wrapping around first makes no difference when `size` divides `range`. */
  lemma ModMod(x: nat, range: nat, size: nat)
    requires 0 < range && 0 < size && range % size == 0
    ensures (x % range) % size == x % size
  {
    var q, r, m := x / range, x % range, range / size;
    var a, b := r / size, r % size;
    assert range == m * size && x == q * range + r && r == a * size + b;
    assert q * (m * size) == (q * m) * size;
    assert (q * m + a) * size == (q * m) * size + a * size;
    ModIs(x, size, q * m + a, b);
  }
}
