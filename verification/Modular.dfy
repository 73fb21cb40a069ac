/** Remainders by a variable modulus, as the ring buffers use them. */
module Modular {
  lemma DivUnique(x: int, w: int, q: int, r: int)
    requires 0 <= r < w && x == q * w + r
    ensures x % w == r && x / w == q
  {
    var p, s := x / w, x % w;
    assert x == p * w + s;
    assert (q - p) * w == s - r;
    assert (p - q) * w == r - s;
    if q > p {
      MulAtLeast(q - p, w);
    } else if q < p {
      MulAtLeast(p - q, w);
    }
  }

  lemma MulAtLeast(k: int, w: int)
    requires k >= 1 && w >= 0
    ensures k * w >= w
  {
  }

  /** One turn of the ring. */
  lemma ModSub(x: nat, w: nat)
    requires w > 0
    ensures (x + w) % w == x % w
  {
    var q := x / w;
    assert x + w == (q + 1) * w + x % w;
    DivUnique(x + w, w, q + 1, x % w);
  }

  lemma ModSmall(x: nat, w: nat)
    requires 0 <= x < 2 * w
    ensures x % w == if x < w then x else x - w
  {
    if x < w {
      DivUnique(x, w, 0, x);
    } else {
      DivUnique(x, w, 1, x - w);
    }
  }

  /** Positions less than one turn apart fall on different slots. */
  lemma ModDistinct(i: nat, j: nat, w: nat)
    requires i < j < i + w
    ensures i % w != j % w
  {
    var q, p := i / w, j / w;
    assert i == q * w + i % w && j == p * w + j % w;
    if i % w == j % w {
      assert (p - q) * w == j - i;
      if p > q { MulAtLeast(p - q, w); }
      else if p < q { MulAtLeast(q - p, w); }
    }
  }
}
