/** Facts about indices that advance modulo the ring size. */
module Modular {

  /** Advancing an absolute position by one advances its slot the way the ring's increment does. */
  lemma ModSucc(n: nat, size: nat)
    requires size > 0
    ensures (n + 1) % size == (n % size + 1) % size
  {
    var q, r := n / size, n % size;
    assert n == size * q + r;
    if r + 1 < size {
      UniqueRemainder(n + 1, q, r + 1, size);
    } else {
      assert size * (q + 1) == size * q + size;
      UniqueRemainder(n + 1, q + 1, 0, size);
    }
  }

  lemma {:induction false} MulAtLeast(size: nat, k: nat)
    requires k > 0
    ensures size * k >= size
    decreases k
  {
    if k > 1 {
      MulAtLeast(size, k - 1);
      assert size * k == size * (k - 1) + size;
    }
  }

  /** Equal up to a multiple of `size`, and less than `size` apart: equal. */
  lemma NoGap(size: nat, q: int, q': int, d: int)
    requires d < size && -d < size
    requires size * (q - q') == d
    ensures q == q' && d == 0
  {
    if q > q' { MulAtLeast(size, q - q'); }
    if q < q' {
      assert size * (q' - q) == -d;
      MulAtLeast(size, q' - q);
    }
  }

  lemma UniqueRemainder(n: nat, q: nat, r: nat, size: nat)
    requires size > 0 && r < size && n == size * q + r
    ensures n % size == r
  {
    assert n == size * (n / size) + n % size;
    Distribute(size, q, n / size);
    NoGap(size, q, n / size, n % size - r);
  }

  lemma Distribute(size: int, q: int, q': int)
    ensures size * (q - q') == size * q - size * q'
  {
  }

  /** Two absolute positions less than one lap apart share a slot only when they are equal. */
  lemma SameSlot(i: nat, j: nat, size: nat)
    requires i <= j < i + size
    requires i % size == j % size
    ensures i == j
  {
    assert i == size * (i / size) + i % size;
    assert j == size * (j / size) + j % size;
    Distribute(size, j / size, i / size);
    NoGap(size, j / size, i / size, j - i);
  }
}
