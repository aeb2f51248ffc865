/** Bytes and the fixed-width words the wire formats are built from. */
module Bytes {

  newtype byte = n: int | 0 <= n < 256

  datatype Option<+T> = None | Some(value: T)

  const U16: nat := 0x1_0000
  const U32: nat := 0x1_0000_0000
  const U64: nat := 0x1_0000_0000_0000_0000

  // The big-endian value of `s` (network order).
  function BeNat(s: seq<byte>): (n: nat) {
    if s == [] then 0 else BeNat(s[..|s| - 1]) * 256 + s[|s| - 1] as nat
  }

  // The low `width` bytes of `n`, most significant first.
  function BeBytes(n: nat, width: nat): (s: seq<byte>)
    ensures |s| == width
  {
    if width == 0 then [] else BeBytes(n / 256, width - 1) + [(n % 256) as byte]
  }

  // Two bytes in network order, and the value of the two bytes at `i`.
  function Net16(n: nat): (s: seq<byte>)
    ensures |s| == 2
  {
    [(n / 256 % 256) as byte, (n % 256) as byte]
  }

  function Word16(s: seq<byte>, i: nat): (n: nat)
    requires i + 2 <= |s|
    ensures n < U16
  {
    s[i] as nat * 256 + s[i + 1] as nat
  }

  lemma {:induction false} WordNet16(s: seq<byte>, i: nat, n: nat)
    requires i + 2 <= |s| && n < U16 && s[i..i + 2] == Net16(n)
    ensures Word16(s, i) == n
  {}

  // The little-endian value of `s` (the byte order of the packed order structs).
  function LeNat(s: seq<byte>): (n: nat) {
    if s == [] then 0 else s[0] as nat + 256 * LeNat(s[1..])
  }

  function LeBytes(n: nat, width: nat): (s: seq<byte>)
    ensures |s| == width
  {
    if width == 0 then [] else [(n % 256) as byte] + LeBytes(n / 256, width - 1)
  }

  function Pow256(k: nat): (p: nat)
    ensures p >= 1
  {
    if k == 0 then 1 else 256 * Pow256(k - 1)
  }

  lemma {:induction false} BeRoundTrip(n: nat, width: nat)
    requires n < Pow256(width)
    ensures BeNat(BeBytes(n, width)) == n
  {
    if width > 0 {
      BeRoundTrip(n / 256, width - 1);
      var s := BeBytes(n, width);
      assert s[..|s| - 1] == BeBytes(n / 256, width - 1);
    }
  }

  lemma {:induction false} LastDigit(n: nat, b: nat)
    requires b < 256
    ensures (n * 256 + b) / 256 == n && (n * 256 + b) % 256 == b
  {}

  lemma {:induction false} BeInverse(s: seq<byte>)
    ensures BeBytes(BeNat(s), |s|) == s
  {
    if s != [] {
      var init, b := s[..|s| - 1], s[|s| - 1];
      BeInverse(init);
      LastDigit(BeNat(init), b as nat);
      assert s == init + [b];
    }
  }

  lemma {:induction false} Net16Inverse(s: seq<byte>, i: nat)
    requires i + 2 <= |s|
    ensures Net16(Word16(s, i)) == s[i..i + 2]
  {}

  lemma {:induction false} LeRoundTrip(n: nat, width: nat)
    requires n < Pow256(width)
    ensures LeNat(LeBytes(n, width)) == n
  {
    if width > 0 {
      LeRoundTrip(n / 256, width - 1);
      assert LeBytes(n, width)[1..] == LeBytes(n / 256, width - 1);
    }
  }

  lemma {:induction false} LeBound(s: seq<byte>)
    ensures LeNat(s) < Pow256(|s|)
  {
    if s != [] { LeBound(s[1..]); }
  }

  function Pow2(e: nat): (p: nat)
    ensures p >= 1
  {
    if e == 0 then 1 else 2 * Pow2(e - 1)
  }

  // Bitwise and, digit by digit.
  function And(x: nat, m: nat): nat {
    if x == 0 || m == 0 then 0 else x % 2 * (m % 2) + 2 * And(x / 2, m / 2)
  }

  lemma {:induction false} AndOdd(x: nat, p: nat)
    requires p >= 1
    ensures And(x, 2 * p - 1) == x % 2 + 2 * And(x / 2, p - 1)
  {
    var m := 2 * p - 1;
    assert m / 2 == p - 1 && m % 2 == 1;
    assert And(0, p - 1) == 0;
  }

  lemma {:induction false} MultipleBelow(d: nat, a: nat, b: nat)
    requires a < b
    ensures d * a + d <= d * b
  {
    assert d * (a + 1) == d * a + d;
  }

  lemma {:induction false} RemainderIs(x: nat, d: nat, q: nat, r: nat)
    requires d >= 1 && x == d * q + r && r < d
    ensures x % d == r
  {
    var a := x / d;
    assert x == d * a + x % d;
    if a < q { MultipleBelow(d, a, q); } else if a > q { MultipleBelow(d, q, a); }
  }

  lemma {:induction false} HalfMod(x: nat, p: nat)
    requires p >= 1
    ensures x % (2 * p) == x % 2 + 2 * (x / 2 % p)
  {
    var h := x / 2;
    var q, r := h / p, h % p;
    assert h == p * q + r;
    assert 2 * h == 2 * (p * q) + 2 * r && 2 * (p * q) == (2 * p) * q;
    RemainderIs(x, 2 * p, q, x % 2 + 2 * r);
  }

  lemma {:induction false} MaskStep(x: nat, p: nat)
    requires p >= 1 && And(x / 2, p - 1) == x / 2 % p
    ensures And(x, 2 * p - 1) == x % (2 * p)
  {
    AndOdd(x, p);
    HalfMod(x, p);
  }

  // A mask of one less than a power of two keeps the remainder.
  lemma {:induction false} MaskIsMod(x: nat, e: nat)
    ensures And(x, Pow2(e) - 1) == x % Pow2(e)
    decreases e
  {
    if e > 0 {
      MaskIsMod(x / 2, e - 1);
      MaskStep(x, Pow2(e - 1));
    }
  }

  lemma {:induction false} Assoc<T>(a: seq<T>, b: seq<T>, c: seq<T>)
    ensures a + (b + c) == a + b + c
  {}

  lemma {:induction false} ArraySlice(a: array<byte>, n: nat, i: nat, j: nat)
    requires i <= j <= n <= a.Length
    ensures a[i..j] == a[..n][i..j]
  {}

  // memcpy of `src` to `dst + at`
  method CopyInto(dst: array<byte>, at: nat, src: seq<byte>)
    requires at + |src| <= dst.Length
    modifies dst
    ensures dst[..] == old(dst[..at]) + src + old(dst[at + |src|..])
    ensures dst[..at] == old(dst[..at]) && dst[..at + |src|] == old(dst[..at]) + src
    ensures dst[at + |src|..] == old(dst[at + |src|..])
  {
    forall i | 0 <= i < |src| { dst[at + i] := src[i]; }
  }
}
