/** The token buckets that limit order flow: the risk gate's, and the market maker's per-symbol and
    aggregate ones. Times are in nanoseconds. */
module Buckets {
  import opened Bytes

  const SECOND: nat := 1_000_000_000

  datatype Bucket = Bucket(tokens: int, last: nat)

  // `unset` is the clock value that means "not started"; `narrow` says the tokens earned pass
  // through a 32-bit signed integer.
  datatype Knobs = Knobs(rate: nat, burst: int, unset: nat, narrow: bool)

  function ToInt32(x: nat): int {
    var r := x % U32;
    if r >= 0x8000_0000 then r - U32 else r
  }

  // The tokens earned in `dt`: a 64-bit product, divided, then narrowed.
  function Earned(dt: nat, k: Knobs): int {
    var whole := dt * k.rate % U64 / SECOND;
    if k.narrow then ToInt32(whole) else whole
  }

  // One refill at time `ts`.
  function Refill(b: Bucket, ts: nat, k: Knobs): Bucket {
    if b.last == k.unset then b.(last := ts)
    else if ts <= b.last then b
    else
      var add := Earned(ts - b.last, k);
      if add <= 0 then b
      else Bucket(if b.tokens + add > k.burst then k.burst else b.tokens + add, ts)
  }

  predicate InRange(b: Bucket, k: Knobs) { 0 <= b.tokens <= k.burst }

  lemma {:induction false} RefillInRange(b: Bucket, ts: nat, k: Knobs)
    requires InRange(b, k)
    ensures InRange(Refill(b, ts, k), k) && Refill(b, ts, k).tokens >= b.tokens
  {}

  // One call: a refill at `ts`, then `take` messages.
  datatype Tick = Tick(ts: nat, take: nat)

  function Call(b: Bucket, c: Tick, k: Knobs): Bucket {
    var t := Refill(b, c.ts, k);
    t.(tokens := t.tokens - c.take)
  }

  // Calls at non-decreasing times between t1 and t2, none taking more than there is.
  predicate Feasible(b: Bucket, calls: seq<Tick>, t1: nat, t2: nat, k: Knobs)
    decreases |calls|
  {
    if calls == [] then t1 <= t2
    else
      && t1 <= calls[0].ts <= t2
      && calls[0].take <= Refill(b, calls[0].ts, k).tokens
      && Feasible(Call(b, calls[0], k), calls[1..], calls[0].ts, t2, k)
  }

  function Total(calls: seq<Tick>): nat {
    if calls == [] then 0 else calls[0].take + Total(calls[1..])
  }

  // ---------- what a bucket can still pay out ----------

  function Positive(x: int): nat { if x < 0 then 0 else x }

  // What a refill makes of a wrapped product, in billionths of a token: the tokens it pays and the
  // remainder it leaves for later.
  function Payout(w: nat, narrow: bool): nat {
    var q := w / SECOND;
    SECOND * Positive(if narrow then ToInt32(q) else q) + w % SECOND
  }

  // What the tokens and the clock are worth at `t`.
  function Worth(b: Bucket, t: nat, k: Knobs): int {
    SECOND * b.tokens + if b.last == k.unset || t <= b.last then 0 else Payout((t - b.last) * k.rate % U64, k.narrow)
  }

  // Narrowing pays at most one token for each token's worth of product.
  lemma {:induction false} NarrowSlope(p: nat, q: nat)
    requires p <= q
    ensures Positive(ToInt32(q)) <= Positive(ToInt32(p)) + (q - p) && Positive(ToInt32(q)) <= q
  {
    var i, j := p / U32, q / U32;
    assert p == U32 * i + p % U32 && q == U32 * j + q % U32;
    if i < j { assert U32 * j >= U32 * i + U32; }
  }

  lemma {:induction false} PayoutSlope(v: nat, w: nat, narrow: bool)
    requires v <= w
    ensures Payout(w, narrow) <= Payout(v, narrow) + (w - v) && Payout(w, narrow) <= w
  {
    NarrowSlope(v / SECOND, w / SECOND);
  }

  // More product is worth no more than itself: a wrap only lowers what is paid.
  lemma {:induction false} WrappedSlope(x: nat, y: nat, narrow: bool)
    ensures Payout((x + y) % U64, narrow) <= Payout(x % U64, narrow) + y
    ensures Payout(y % U64, narrow) <= y
  {
    var v, w := x % U64, (x + y) % U64;
    PayoutSlope(0, w, narrow);
    PayoutSlope(0, y % U64, narrow);
    if v <= w && w - v == y {
      PayoutSlope(v, w, narrow);
    } else {
      WrapDrops(x, y);
    }
  }

  lemma {:induction false} WrapDrops(x: nat, y: nat)
    ensures (x + y) % U64 == x % U64 + y || (x + y) % U64 <= y
  {
    var i, j := x / U64, (x + y) / U64;
    assert x == U64 * i + x % U64 && x + y == U64 * j + (x + y) % U64;
    assert i <= j;
    if i < j { assert U64 * j >= U64 * i + U64; }
  }

  lemma {:induction false} Monotone(a: int, b: int, rate: nat)
    requires a <= b
    ensures a * rate <= b * rate
  {}

  lemma {:induction false} Distribute(a: int, b: int, c: int, rate: nat)
    ensures (c - a) * rate == (b - a) * rate + (c - b) * rate
  {}

  // Time adds at most the rate.
  lemma {:induction false} WorthGrows(b: Bucket, t1: nat, t2: nat, k: Knobs)
    requires t1 <= t2
    ensures Worth(b, t2, k) <= Worth(b, t1, k) + (t2 - t1) * k.rate
  {
    var y := (t2 - t1) * k.rate;
    Monotone(0, t2 - t1, k.rate);
    if b.last != k.unset && b.last < t2 {
      if t1 <= b.last {
        Monotone(0, t2 - b.last, k.rate);
        Monotone(t2 - b.last, t2 - t1, k.rate);
        WrappedSlope(0, (t2 - b.last) * k.rate, k.narrow);
      } else {
        Monotone(0, t1 - b.last, k.rate);
        Distribute(b.last, t1, t2, k.rate);
        WrappedSlope((t1 - b.last) * k.rate, y, k.narrow);
      }
    }
  }

  // A refill creates nothing, and leaves less than one token beyond the burst.
  lemma {:induction false} RefillWorth(b: Bucket, ts: nat, k: Knobs)
    requires InRange(b, k)
    ensures Worth(Refill(b, ts, k), ts, k) <= Worth(b, ts, k)
    ensures Worth(Refill(b, ts, k), ts, k) < SECOND * (k.burst + 1)
  {}

  lemma {:induction false} WorthBound(b: Bucket, calls: seq<Tick>, t1: nat, t2: nat, k: Knobs)
    requires InRange(b, k) && t1 <= t2 && Feasible(b, calls, t1, t2, k)
    ensures SECOND * Total(calls) <= Worth(b, t1, k) + (t2 - t1) * k.rate
    decreases |calls|
  {
    if calls == [] {
      Monotone(0, t2 - t1, k.rate);
    } else {
      var c, next := calls[0], Call(b, calls[0], k);
      RefillInRange(b, c.ts, k);
      WorthGrows(b, t1, c.ts, k);
      RefillWorth(b, c.ts, k);
      assert Worth(next, c.ts, k) == Worth(Refill(b, c.ts, k), c.ts, k) - SECOND * c.take;
      WorthBound(next, calls[1..], c.ts, t2, k);
      Distribute(t1, c.ts, t2, k.rate);
    }
  }

  // From t1 to t2, whatever the bucket and its clock at t1, fewer than burst + 1 + rate * (t2 - t1) / 1e9
  // messages pass.
  lemma {:induction false} RateBound(b: Bucket, calls: seq<Tick>, t1: nat, t2: nat, k: Knobs)
    requires InRange(b, k) && t1 <= t2 && Feasible(b, calls, t1, t2, k)
    ensures SECOND * Total(calls) < SECOND * (k.burst + 1) + (t2 - t1) * k.rate
  {
    Monotone(0, t2 - t1, k.rate);
    if calls != [] {
      var c, r := calls[0], Refill(b, calls[0].ts, k);
      RefillInRange(b, c.ts, k);
      RefillWorth(b, c.ts, k);
      assert Refill(r, c.ts, k) == r;
      WorthBound(r, calls, c.ts, t2, k);
      Monotone(t2 - c.ts, t2 - t1, k.rate);
    }
  }

  // ---------- and what it does pay out ----------

  // Elapsed time times rate stays within the width the code computes it in.
  predicate Fits(dt: nat, k: Knobs) { dt * k.rate < if k.narrow then 0x8000_0000 * SECOND else U64 }

  lemma {:induction false} EarnedExact(dt: nat, k: Knobs)
    requires Fits(dt, k)
    ensures SECOND * Earned(dt, k) <= dt * k.rate < SECOND * (Earned(dt, k) + 1)
  {
    var x := dt * k.rate;
    assert x % U64 == x;
    assert k.narrow ==> x / SECOND < 0x8000_0000;
  }

  // A refill pays every whole token the time since the last one is worth, up to the burst.
  lemma {:induction false} RefillPays(b: Bucket, ts: nat, k: Knobs)
    requires InRange(b, k) && b.last != k.unset && b.last <= ts && Fits(ts - b.last, k)
    ensures var r := Refill(b, ts, k);
            var n := r.tokens - b.tokens;
            && n >= 0 && SECOND * n <= (ts - b.last) * k.rate
            && (r.tokens < k.burst ==> (ts - b.last) * k.rate < SECOND * (n + 1))
            && (r.tokens < k.burst ==> r.last == if n == 0 then b.last else ts)
  {
    EarnedExact(ts - b.last, k);
    Monotone(0, ts - b.last, k.rate);
    if ts == b.last { assert (ts - b.last) * k.rate == 0; }
  }

  // The first refill starts the clock and pays nothing.
  lemma {:induction false} ClockStarts(b: Bucket, ts: nat, k: Knobs)
    requires b.last == k.unset
    ensures Refill(b, ts, k) == Bucket(b.tokens, ts)
  {}

  // A bucket still empty after a refill has earned less than one token.
  lemma {:induction false} EmptyEarnedNothing(b: Bucket, ts: nat, k: Knobs)
    requires InRange(b, k) && b.last != k.unset && b.last <= ts && Fits(ts - b.last, k)
    requires 0 < k.burst && Refill(b, ts, k).tokens == 0
    ensures b.tokens == 0 && (ts - b.last) * k.rate < SECOND
  {
    RefillPays(b, ts, k);
  }

  // A pause worth the whole burst fills it.
  lemma {:induction false} PauseFills(b: Bucket, ts: nat, k: Knobs)
    requires InRange(b, k) && b.last != k.unset && b.last <= ts && Fits(ts - b.last, k)
    requires (ts - b.last) * k.rate >= SECOND * k.burst
    ensures Refill(b, ts, k).tokens == k.burst
  {
    RefillPays(b, ts, k);
  }

  // A refill that pays moves the clock past the fraction it does not pay: nothing is lost if and only if it pays
  // nothing or the time earned whole tokens.
  lemma {:induction false} NothingLostIff(b: Bucket, ts: nat, k: Knobs)
    requires InRange(b, k) && b.last != k.unset && b.last <= ts && Fits(ts - b.last, k)
    requires Refill(b, ts, k).tokens < k.burst
    ensures var r := Refill(b, ts, k);
            SECOND * (r.tokens - b.tokens) == (r.last - b.last) * k.rate
            <==> r.tokens == b.tokens || (ts - b.last) * k.rate % SECOND == 0
  {
    RefillPays(b, ts, k);
    var r, x := Refill(b, ts, k), (ts - b.last) * k.rate;
    if r.tokens == b.tokens {
      assert r.last == b.last && (b.last - b.last) * k.rate == 0;
    } else {
      WholePart(x, r.tokens - b.tokens);
    }
  }

  lemma {:induction false} WholePart(x: nat, n: nat)
    requires SECOND * n <= x < SECOND * (n + 1)
    ensures x == SECOND * n <==> x % SECOND == 0
  {}

  // And fractions are lost: almost two tokens' worth of time pays one.
  lemma {:induction false} FractionLost()
    ensures Refill(Bucket(0, 1), 2_000_000_000, Knobs(1, 50, 0, true)) == Bucket(1, 2_000_000_000)
  {
    EarnedExact(1_999_999_999, Knobs(1, 50, 0, true));
  }

  function Ends(b: Bucket, calls: seq<Tick>, k: Knobs): Bucket
    decreases |calls|
  {
    if calls == [] then b else Ends(Call(b, calls[0], k), calls[1..], k)
  }

  // Calls in time order on a running clock, none of which finds the bucket full.
  predicate Draining(b: Bucket, calls: seq<Tick>, k: Knobs)
    decreases |calls|
  {
    if calls == [] then true
    else
      && b.last != k.unset && b.last <= calls[0].ts && Fits(calls[0].ts - b.last, k)
      && calls[0].take <= Refill(b, calls[0].ts, k).tokens < k.burst
      && Draining(Call(b, calls[0], k), calls[1..], k)
  }

  // From `b` to `e`, after `taken` messages: each refill that paid lost less than what it paid.
  ghost predicate PaidHalf(b: Bucket, e: Bucket, taken: int, k: Knobs) {
    b.last <= e.last && (e.last - b.last) * k.rate <= 2 * SECOND * (e.tokens + taken - b.tokens)
  }

  lemma {:induction false} CallPays(b: Bucket, c: Tick, k: Knobs)
    requires InRange(b, k) && b.last != k.unset && b.last <= c.ts && Fits(c.ts - b.last, k)
    requires c.take <= Refill(b, c.ts, k).tokens < k.burst
    ensures InRange(Call(b, c, k), k) && PaidHalf(b, Call(b, c, k), c.take, k)
    ensures b.last <= Call(b, c, k).last <= c.ts && (c.ts - Call(b, c, k).last) * k.rate < SECOND
  {
    RefillInRange(b, c.ts, k);
    RefillPays(b, c.ts, k);
    if Refill(b, c.ts, k).last == c.ts {
      assert (c.ts - c.ts) * k.rate == 0;
    } else {
      assert (b.last - b.last) * k.rate == 0;
    }
  }

  lemma {:induction false} PaidTwice(b: Bucket, m: Bucket, e: Bucket, n: int, taken: int, k: Knobs)
    requires PaidHalf(b, m, n, k) && PaidHalf(m, e, taken, k)
    ensures PaidHalf(b, e, n + taken, k)
  {
    Distribute(b.last, m.last, e.last, k.rate);
  }

  lemma {:induction false} DrainingPays(b: Bucket, calls: seq<Tick>, k: Knobs)
    requires InRange(b, k) && Draining(b, calls, k)
    ensures PaidHalf(b, Ends(b, calls, k), Total(calls), k)
    ensures calls != [] ==>
              Ends(b, calls, k).last <= calls[|calls| - 1].ts
              && (calls[|calls| - 1].ts - Ends(b, calls, k).last) * k.rate < SECOND
    decreases |calls|
  {
    if calls == [] {
      assert (b.last - b.last) * k.rate == 0;
    } else {
      var c, m, rest := calls[0], Call(b, calls[0], k), calls[1..];
      CallPays(b, c, k);
      DrainingPays(m, rest, k);
      PaidTwice(b, m, Ends(m, rest, k), c.take, Total(rest), k);
      assert rest != [] ==> rest[|rest| - 1] == calls[|calls| - 1];
    }
  }

  // The bucket serves at least half its rate: from its last refill to the last call, as long as it does not fill
  // up, what was taken and what is left are worth more than half of what the time earned, less one token. In
  // particular a message refused for want of a token means that at least that much was sent.
  lemma {:induction false} ServiceBound(b: Bucket, calls: seq<Tick>, k: Knobs)
    requires InRange(b, k) && Draining(b, calls, k) && calls != []
    ensures var e := Ends(b, calls, k);
            SECOND * (2 * (Total(calls) + e.tokens - b.tokens) + 1) > (calls[|calls| - 1].ts - b.last) * k.rate
  {
    DrainingPays(b, calls, k);
    Distribute(b.last, Ends(b, calls, k).last, calls[|calls| - 1].ts, k.rate);
  }

  lemma {:induction false} DryBound(b: Bucket, calls: seq<Tick>, k: Knobs, taken: int, ts: nat)
    requires InRange(b, k) && Draining(b, calls, k) && calls != [] && Ends(b, calls, k).tokens == 0
    requires taken == Total(calls) && ts == calls[|calls| - 1].ts
    ensures SECOND * (2 * (taken - b.tokens) + 1) > (ts - b.last) * k.rate
  {
    ServiceBound(b, calls, k);
  }
}
