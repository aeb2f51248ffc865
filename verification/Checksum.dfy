/** The ones-complement sums: a plain reference sum of 16-bit words, and the three forms the code uses:
    eight parallel lanes with a deferred fold, a scalar loop, and a carry folded in at every step. */
module Checksum {
  import opened Bytes

  const ONES: nat := 0xFFFF

  // The plain sum of the little-endian words of `b`; an odd last byte is a word of its own.
  function WordSum(b: seq<byte>): nat {
    if |b| == 0 then 0
    else if |b| == 1 then b[0] as nat
    else b[0] as nat + 256 * (b[1] as nat) + WordSum(b[2..])
  }

  // cksum_fold16, for a sum of any size
  function Fold(x: nat): (r: nat)
    ensures r <= ONES
  {
    if x <= ONES then x else Fold(x % U16 + x / U16)
  }

  // The fold is the residue modulo 0xFFFF, with 0xFFFF for every non-zero multiple (section 1 of RFC 1071).
  lemma {:induction false} FoldResidue(x: nat)
    ensures Fold(x) == if x == 0 then 0 else (x - 1) % ONES + 1
  {
    if x > ONES {
      var y := x % U16 + x / U16;
      FoldResidue(y);
      assert x == U16 * (x / U16) + x % U16;
      assert x - 1 == (y - 1) + ONES * (x / U16);
      Shift(y - 1, x / U16);
    }
  }

  lemma {:induction false} Shift(a: nat, k: nat)
    ensures (a + ONES * k) % ONES == a % ONES
  {}

  // Two sums fold to the same value exactly when they are congruent and both or neither are zero.
  lemma {:induction false} FoldEqualIff(x: nat, y: nat)
    ensures Fold(x) == Fold(y) <==> x % ONES == y % ONES && (x == 0 <==> y == 0)
  {
    FoldResidue(x);
    FoldResidue(y);
    if x > 0 { Pred(x); }
    if y > 0 { Pred(y); }
  }

  lemma {:induction false} Pred(x: nat)
    requires x > 0
    ensures (x - 1) % ONES == if x % ONES == 0 then ONES - 1 else x % ONES - 1
  {}

  // ---------- words ----------

  lemma {:induction false} WordSumConcat(a: seq<byte>, b: seq<byte>)
    requires |a| % 2 == 0
    ensures WordSum(a + b) == WordSum(a) + WordSum(b)
  {
    if a == [] {
      assert a + b == b;
    } else {
      WordSumConcat(a[2..], b);
      assert (a + b)[2..] == a[2..] + b;
    }
  }

  lemma {:induction false} WordSumBound(b: seq<byte>)
    ensures WordSum(b) <= ONES * ((|b| + 1) / 2)
  {
    if |b| >= 2 { WordSumBound(b[2..]); }
  }

  // The word at an even offset.
  function WordAt(b: seq<byte>, i: nat): (w: nat)
    requires i + 1 < |b|
    ensures w <= ONES
  {
    b[i] as nat + 256 * (b[i + 1] as nat)
  }

  // ---------- the forms the code uses ----------

  // cksum_fold16: the loop ends and computes the fold.
  method FoldLoop(sum: nat) returns (r: nat)
    ensures r == Fold(sum)
  {
    r := sum;
    while r / U16 > 0
      invariant Fold(r) == Fold(sum)
      decreases r
    {
      r := r % U16 + r / U16;
    }
  }

  lemma {:induction false} Add32(a: nat, b: nat)
    ensures (a % U32 + b) % U32 == (a + b) % U32
  {}

  // The scalar loop of cksum_partial_simd, with its 32-bit accumulator.
  method ScalarSum(data: seq<byte>, seed: nat) returns (sum: nat)
    requires seed < U32
    ensures sum == (seed + WordSum(data)) % U32
  {
    sum := seed;
    var p := 0;
    while |data| - p >= 2
      invariant 0 <= p <= |data| && sum < U32
      invariant (sum + WordSum(data[p..])) % U32 == (seed + WordSum(data)) % U32
    {
      assert data[p..][2..] == data[p + 2..];
      var word := data[p] as nat + data[p + 1] as nat * 256;
      Add32(sum + word, WordSum(data[p + 2..]));
      sum := (sum + word) % U32;
      p := p + 2;
    }
    if |data| - p == 1 { sum := (sum + data[p] as nat) % U32; }
  }

  // The total of the first n lanes.
  function LaneTotal(lanes: seq<nat>, n: nat): nat
    requires n <= |lanes|
  {
    if n == 0 then 0 else LaneTotal(lanes, n - 1) + lanes[n - 1]
  }

  // One 32-byte block: lane j gains the two words of its 32-bit element.
  function AddBlock(lanes: seq<nat>, block: seq<byte>): (r: seq<nat>)
    requires |block| == 4 * |lanes|
    ensures |r| == |lanes|
  {
    seq(|lanes|, j requires 0 <= j < |lanes| => (lanes[j] + WordAt(block, 4 * j) + WordAt(block, 4 * j + 2)) % U32)
  }

  lemma {:induction false} QuadSum(q: seq<byte>)
    requires |q| == 4
    ensures WordSum(q) == WordAt(q, 0) + WordAt(q, 2)
  {
    var r := q[2..];
    assert r[2..] == [];
    assert WordSum(r) == WordAt(q, 2);
  }

  // What the lanes gain from a block: the sums of its 4-byte elements.
  function Gains(block: seq<byte>, n: nat): (g: seq<nat>)
    requires 4 * n <= |block|
    ensures |g| == n
  {
    seq(n, j requires 0 <= j < n => WordSum(block[4 * j..4 * j + 4]))
  }

  lemma {:induction false} PrefixGrows(block: seq<byte>, j: nat)
    requires 4 * j + 4 <= |block|
    ensures WordSum(block[..4 * (j + 1)]) == WordSum(block[..4 * j]) + WordSum(block[4 * j..4 * j + 4])
  {
    var k := 4 * j;
    assert block[..k + 4] == block[..k] + block[k..k + 4];
    WordSumConcat(block[..k], block[k..k + 4]);
  }

  lemma {:induction false} PrefixTotals(g: seq<nat>, prefix: seq<nat>, n: nat)
    requires |prefix| == |g| + 1 && n <= |g| && prefix[0] == 0
    requires forall j :: 0 <= j < |g| ==> prefix[j + 1] == prefix[j] + g[j]
    ensures LaneTotal(g, n) == prefix[n]
  {
    if n > 0 { PrefixTotals(g, prefix, n - 1); }
  }

  lemma {:induction false} GainsTotal(block: seq<byte>, n: nat)
    requires 4 * n <= |block|
    ensures LaneTotal(Gains(block, n), n) == WordSum(block[..4 * n])
  {
    var g := Gains(block, n);
    var prefix: seq<nat> := seq(n + 1, j requires 0 <= j <= n => WordSum(block[..4 * j]));
    forall j | 0 <= j < n ensures prefix[j + 1] == prefix[j] + g[j] {
      PrefixGrows(block, j);
    }
    PrefixTotals(g, prefix, n);
  }

  // Lane by lane addition modulo 2^32 keeps the total modulo 2^32.
  lemma {:induction false} LanesAdd(lanes: seq<nat>, g: seq<nat>, r: seq<nat>, n: nat)
    requires |lanes| == |g| == |r| && n <= |r| && forall j :: 0 <= j < |r| ==> r[j] == (lanes[j] + g[j]) % U32
    ensures LaneTotal(r, n) % U32 == (LaneTotal(lanes, n) + LaneTotal(g, n)) % U32
  {
    if n > 0 {
      LanesAdd(lanes, g, r, n - 1);
      LaneStep(LaneTotal(r, n - 1), LaneTotal(lanes, n - 1) + LaneTotal(g, n - 1), lanes[n - 1] + g[n - 1]);
    }
  }

  lemma {:induction false} AddBlockTotal(lanes: seq<nat>, block: seq<byte>)
    requires |block| == 4 * |lanes|
    ensures LaneTotal(AddBlock(lanes, block), |lanes|) % U32 == (LaneTotal(lanes, |lanes|) + WordSum(block)) % U32
  {
    var g := Gains(block, |lanes|);
    forall j | 0 <= j < |lanes| ensures AddBlock(lanes, block)[j] == (lanes[j] + g[j]) % U32 {
      QuadSum(block[4 * j..4 * j + 4]);
    }
    LanesAdd(lanes, g, AddBlock(lanes, block), |lanes|);
    GainsTotal(block, |lanes|);
    assert block[..4 * |lanes|] == block;
  }

  lemma {:induction false} LaneStep(a: nat, b: nat, c: nat)
    requires a % U32 == b % U32
    ensures (a + c % U32) % U32 == (b + c) % U32
  {
    Add32(c, a);
    Add32(a, c);
    Add32(b, c);
  }

  // The horizontal adds: halves, quarters, then the last pair.
  lemma {:induction false} Horizontal(a: seq<nat>)
    requires |a| == 8
    ensures var s0, s1 := (a[0] + a[4]) % U32, (a[1] + a[5]) % U32;
            var s2, s3 := (a[2] + a[6]) % U32, (a[3] + a[7]) % U32;
            ((s0 + s2) % U32 + (s1 + s3) % U32) % U32 == LaneTotal(a, 8) % U32
  {
    var x0, x1, x2, x3 := a[0] + a[4], a[1] + a[5], a[2] + a[6], a[3] + a[7];
    TwoSums(x0, x2);
    TwoSums(x1, x3);
    TwoSums(x0 + x2, x1 + x3);
    assert LaneTotal(a, 1) == a[0];
    assert LaneTotal(a, 2) == a[0] + a[1];
    assert LaneTotal(a, 4) == LaneTotal(a, 2) + a[2] + a[3];
    assert LaneTotal(a, 6) == LaneTotal(a, 4) + a[4] + a[5];
    assert LaneTotal(a, 8) == x0 + x1 + x2 + x3;
  }

  lemma {:induction false} TwoSums(x: nat, y: nat)
    ensures (x % U32 + y % U32) % U32 == (x + y) % U32
  {}

  // The eight-lane form of cksum_partial_simd, including its horizontal adds.
  method LaneParallelSum(data: seq<byte>, seed: nat) returns (sum: nat)
    requires seed < U32
    ensures sum == (seed + WordSum(data)) % U32
  {
    var acc: seq<nat> := [0, 0, 0, 0, 0, 0, 0, 0];
    var p := 0;
    assert LaneTotal(acc, 8) == 0;
    while |data| - p >= 32
      invariant 0 <= p <= |data| && p % 2 == 0 && |acc| == 8
      invariant LaneTotal(acc, 8) % U32 == WordSum(data[..p]) % U32
    {
      BlockStep(data, p, acc);
      acc := AddBlock(acc, data[p..p + 32]);
      p := p + 32;
    }
    var s0, s1 := (acc[0] + acc[4]) % U32, (acc[1] + acc[5]) % U32;
    var s2, s3 := (acc[2] + acc[6]) % U32, (acc[3] + acc[7]) % U32;
    Horizontal(acc);
    s0, s1 := (s0 + s2) % U32, (s1 + s3) % U32;
    s0 := (s0 + s1) % U32;
    LanesThenTail(data, p, s0, seed);
    sum := ScalarSum(data[p..], (seed + s0) % U32);
  }

  lemma {:induction false} BlockStep(data: seq<byte>, p: nat, acc: seq<nat>)
    requires p + 32 <= |data| && p % 2 == 0 && |acc| == 8 && LaneTotal(acc, 8) % U32 == WordSum(data[..p]) % U32
    ensures LaneTotal(AddBlock(acc, data[p..p + 32]), 8) % U32 == WordSum(data[..p + 32]) % U32
  {
    var block := data[p..p + 32];
    AddBlockTotal(acc, block);
    WordSumConcat(data[..p], block);
    assert data[..p + 32] == data[..p] + block;
    Add32(LaneTotal(acc, 8), WordSum(block));
    Add32(WordSum(data[..p]), WordSum(block));
  }

  lemma {:induction false} LanesThenTail(data: seq<byte>, p: nat, s: nat, seed: nat)
    requires p <= |data| && p % 2 == 0 && s == WordSum(data[..p]) % U32
    ensures ((seed + s) % U32 + WordSum(data[p..])) % U32 == (seed + WordSum(data)) % U32
  {
    SplitSum(data, p);
    Tail32(WordSum(data[..p]), WordSum(data[p..]), seed);
  }

  lemma {:induction false} SplitSum(data: seq<byte>, p: nat)
    requires p <= |data| && p % 2 == 0
    ensures WordSum(data) == WordSum(data[..p]) + WordSum(data[p..])
  {
    WordSumConcat(data[..p], data[p..]);
    assert data == data[..p] + data[p..];
  }

  lemma {:induction false} Tail32(head: nat, tail: nat, seed: nat)
    ensures ((seed + head % U32) % U32 + tail) % U32 == (seed + head + tail) % U32
  {}

  // One word more, the carry folded in.
  method AddWord(sum: nat, w: nat) returns (t: nat)
    ensures t == if sum + w > ONES then (sum + w) % U16 + 1 else sum + w
  {
    t := sum + w;
    if t > ONES { t := t % U16 + 1; }
  }

  // wire_checksum: the carry is folded in at every step.
  method WireChecksum(b: seq<byte>) returns (c: nat)
    ensures c == ONES - Fold(WordSum(b))
  {
    var sum, i := 0, 0;
    while i + 1 < |b|
      invariant 0 <= i <= |b| && i % 2 == 0 && sum <= ONES
      invariant sum == Fold(WordSum(b[..i]))
    {
      EagerStep(b, i);
      sum := AddWord(sum, b[i] as nat + b[i + 1] as nat * 256);
      i := i + 2;
    }
    if |b| % 2 == 1 {
      EagerLast(b);
      sum := AddWord(sum, b[|b| - 1] as nat);
    }
    assert b[..|b|] == b;
    c := ONES - sum;
  }

  // Folding before adding changes nothing.
  lemma {:induction false} FoldAdd(x: nat, w: nat)
    requires w <= ONES
    ensures Fold(x + w) == Fold(Fold(x) + w)
    ensures Fold(Fold(x) + w) == if Fold(x) + w > ONES then (Fold(x) + w) % U16 + 1 else Fold(x) + w
  {
    FoldResidue(x);
    FoldEqualIff(x + w, Fold(x) + w);
    if x > 0 {
      assert x == (x - 1) / ONES * ONES + (x - 1) % ONES + 1;
      Shift(Fold(x) + w, (x - 1) / ONES);
    }
  }

  lemma {:induction false} EagerStep(b: seq<byte>, i: nat)
    requires i + 1 < |b| && i % 2 == 0
    ensures var w := b[i] as nat + b[i + 1] as nat * 256;
            w <= ONES && Fold(WordSum(b[..i + 2])) == Fold(Fold(WordSum(b[..i])) + w)
            && var t := Fold(WordSum(b[..i])) + w; Fold(t) == if t > ONES then t % U16 + 1 else t
  {
    assert b[..i + 2] == b[..i] + b[i..i + 2];
    WordSumConcat(b[..i], b[i..i + 2]);
    assert b[i..i + 2][2..] == [];
    FoldAdd(WordSum(b[..i]), b[i] as nat + b[i + 1] as nat * 256);
  }

  lemma {:induction false} EagerLast(b: seq<byte>)
    requires |b| % 2 == 1
    ensures var w := b[|b| - 1] as nat;
            w <= ONES && Fold(WordSum(b)) == Fold(Fold(WordSum(b[..|b| - 1])) + w)
            && var t := Fold(WordSum(b[..|b| - 1])) + w; Fold(t) == if t > ONES then t % U16 + 1 else t
  {
    LastByte(b);
    FoldAdd(WordSum(b[..|b| - 1]), b[|b| - 1] as nat);
  }

  lemma {:induction false} LastByte(b: seq<byte>)
    requires |b| % 2 == 1
    ensures WordSum(b) == WordSum(b[..|b| - 1]) + b[|b| - 1] as nat
  {
    var init, last := b[..|b| - 1], [b[|b| - 1]];
    assert b == init + last;
    WordSumConcat(init, last);
  }

  // The 32-bit deferred form agrees with the eager one exactly when the wraps of its accumulator do
  // not show: in particular for every sum below 2^32.
  lemma {:induction false} DeferredAgreesIff(b: seq<byte>)
    ensures Fold(WordSum(b) % U32) == Fold(WordSum(b)) <==>
            WordSum(b) / U32 % ONES == 0 && (WordSum(b) % U32 == 0 ==> WordSum(b) == 0)
  {
    var s := WordSum(b);
    var q, r := s / U32, s % U32;
    FoldEqualIff(r, s);
    assert s == r + q + ONES * (65537 * q);
    Shift(r + q, 65537 * q);
    assert s % ONES == (r + q) % ONES;
    SumCongruent(r, q);
  }

  lemma {:induction false} SumCongruent(r: nat, q: nat)
    ensures (r + q) % ONES == r % ONES <==> q % ONES == 0
  {}
}
