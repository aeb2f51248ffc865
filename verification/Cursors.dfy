/** Ring cursors: 32-bit counters that wrap, over arrays whose size divides 2^32. */
module Cursors {
  import opened Bytes

  // The true distance of two counts, from the cursors alone.
  lemma {:induction false} Distance(w: nat, r: nat)
    requires r <= w && w - r < U32
    ensures (w % U32 - r % U32) % U32 == w - r
  {}

  // Cursors are equal exactly when they name the same entry.
  lemma {:induction false} SameCursor(w: nat, r: nat)
    requires r <= w && w - r < U32
    ensures w % U32 == r % U32 <==> w == r
  {}

  lemma {:induction false} Shift(d: nat, q: nat, x: nat)
    requires d >= 1
    ensures (d * q + x) % d == x % d
  {
    assert d * q + x == d * (q + x / d) + x % d;
    RemainderIs(d * q + x, d, q + x / d, x % d);
  }

  // A cursor less `back` steps finds the array position of the count less as many.
  lemma {:induction false} PositionBack(n: nat, back: nat, size: nat, turns: nat)
    requires size >= 1 && size * turns == U32 && back <= n % U32
    ensures (n % U32 - back) % size == (n - back) % size
  {
    var q := n / U32;
    assert n == U32 * q + n % U32;
    assert U32 * q == size * (turns * q) by { assert size * turns * q == size * (turns * q); }
    Shift(size, turns * q, n % U32 - back);
  }

  // A cursor finds its entry's place, and stepping it is stepping the count.
  lemma {:induction false} Position(n: nat, size: nat, turns: nat)
    requires size >= 1 && size * turns == U32
    ensures n % U32 % size == n % size && (n % U32 + 1) % U32 == (n + 1) % U32
  {
    PositionBack(n, 0, size, turns);
    StepCursor(n);
  }

  lemma {:induction false} StepCursor(n: nat)
    ensures (n % U32 + 1) % U32 == (n + 1) % U32
  {}

  // Two entries less than an array apart sit in different places.
  lemma {:induction false} Apart(k: nat, n: nat, size: nat)
    requires k <= n < k + size
    ensures k % size == n % size <==> k == n
  {
    var i, j := k / size, n / size;
    assert k == size * i + k % size && n == size * j + n % size;
    if i < j { MultipleBelow(size, i, j); } else if j < i { MultipleBelow(size, j, i); }
  }
}
