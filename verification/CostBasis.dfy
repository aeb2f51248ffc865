/** The average entry price and the profit booked, against plain sums over the fills. */
module CostBasis {
  import opened FillSim
  import opened Pnl

  function Quantity(fs: seq<Fill>): int {
    if fs == [] then 0 else fs[0].qty + Quantity(fs[1..])
  }

  function Money(fs: seq<Fill>): int {
    if fs == [] then 0 else fs[0].qty * fs[0].px + Money(fs[1..])
  }

  predicate OneSide(fs: seq<Fill>, side: Side) { forall i :: 0 <= i < |fs| ==> fs[i].side == side }

  // A position a fill of this side adds to.
  predicate Facing(inv: int, side: Side) { if side == Buy then inv >= 0 else inv <= 0 }

  // What the position cost at its entry price.
  function Basis(p: Position): real { p.avg * Abs(p.inv) as real }

  // ---------- opening ----------

  // From `p` to `r`, `qty` was added on one side for `money`, and nothing was booked.
  ghost predicate Added(p: Position, r: Position, side: Side, qty: int, money: int) {
    && Abs(r.inv) == Abs(p.inv) + qty && Facing(r.inv, side) && Basis(r) == Basis(p) + money as real
    && r.realized == p.realized && r.exact == p.exact && r.closes == p.closes
  }

  lemma {:induction false} OpenOne(p: Position, f: Fill)
    requires f.qty > 0 && Facing(p.inv, f.side)
    ensures Added(p, Apply(p, f), f.side, f.qty, f.qty * f.px)
  {
    var total := Abs(p.inv + Signed(f)) as real;
    assert (f.qty * f.px) as real == f.qty as real * f.px as real;
    if p.inv != 0 { WeightedTotal(Abs(p.inv) as real, p.avg, f.qty as real, f.px as real, total); }
  }

  lemma {:induction false} AddedTwice(p: Position, q: Position, r: Position, side: Side, a: int, m: int, b: int, n: int)
    requires Added(p, q, side, a, m) && Added(q, r, side, b, n)
    ensures Added(p, r, side, a + b, m + n)
  {}

  // Fills that add to a position, or open one, make the entry price the average of all that is held by quantity,
  // and book no profit.
  lemma {:induction false} OpeningAverages(p: Position, fs: seq<Fill>, side: Side)
    requires AllFilled(fs) && OneSide(fs, side) && Facing(p.inv, side)
    ensures Added(p, ApplyAll(p, fs), side, Quantity(fs), Money(fs))
    decreases |fs|
  {
    if fs != [] {
      var q := Apply(p, fs[0]);
      OpenOne(p, fs[0]);
      OpeningAverages(q, fs[1..], side);
      AddedTwice(p, q, ApplyAll(q, fs[1..]), side, fs[0].qty, fs[0].qty * fs[0].px, Quantity(fs[1..]), Money(fs[1..]));
    }
  }

  // ---------- closing ----------

  function Sign(inv: int): int { if inv > 0 then 1 else if inv < 0 then -1 else 0 }

  // From `p` to `r`, `qty` was taken off for `money` by `n` fills: the entry price stays, and what is booked
  // before rounding is the difference between the money and what the quantity cost.
  ghost predicate Reduced(p: Position, r: Position, qty: int, money: int, n: nat) {
    && r.avg == p.avg && Abs(r.inv) == Abs(p.inv) - qty && Sign(r.inv) == Sign(p.inv)
    && r.exact == p.exact + Sign(p.inv) as real * (money as real - qty as real * p.avg)
    && r.closes == p.closes + n
  }

  lemma {:induction false} CloseOne(p: Position, f: Fill)
    requires 0 < f.qty < Abs(p.inv) && !Opens(p.inv, Signed(f))
    ensures Reduced(p, Apply(p, f), f.qty, f.qty * f.px, 1)
  {
    assert (f.qty * f.px) as real == f.qty as real * f.px as real;
    GainForm(p, f);
  }

  lemma {:induction false} ReducedTwice(p: Position, q: Position, r: Position, a: int, m: int, b: int, n: int, k: nat)
    requires Reduced(p, q, a, m, 1) && Reduced(q, r, b, n, k)
    ensures Reduced(p, r, a + b, m + n, k + 1)
  {
    SumGains(Sign(p.inv) as real, m as real, a as real, n as real, b as real, p.avg);
  }

  lemma {:induction false} SumGains(sign: real, m: real, q: real, m': real, q': real, avg: real)
    ensures sign * (m - q * avg) + sign * (m' - q' * avg) == sign * ((m + m') - (q + q') * avg)
  {
    assert (q + q') * avg == q * avg + q' * avg;
  }

  // Fills that reduce a position without closing it.
  lemma {:induction false} ReducingBooks(p: Position, fs: seq<Fill>, side: Side)
    requires AllFilled(fs) && OneSide(fs, side) && p.inv != 0 && !Facing(p.inv, side) && Quantity(fs) < Abs(p.inv)
    ensures Reduced(p, ApplyAll(p, fs), Quantity(fs), Money(fs), |fs|)
    decreases |fs|
  {
    if fs != [] {
      var f, q := fs[0], Apply(p, fs[0]);
      QuantityPositive(fs[1..]);
      CloseOne(p, f);
      ReducingBooks(q, fs[1..], side);
      ReducedTwice(p, q, ApplyAll(q, fs[1..]), f.qty, f.qty * f.px, Quantity(fs[1..]), Money(fs[1..]), |fs| - 1);
    }
  }

  lemma {:induction false} QuantityPositive(fs: seq<Fill>)
    requires AllFilled(fs)
    ensures Quantity(fs) >= 0
  {
    if fs != [] { QuantityPositive(fs[1..]); }
  }

  // A fill of the whole position or more closes it at its entry price; what is over opens the other way at the
  // fill's price.
  lemma {:induction false} FlippingReprices(p: Position, f: Fill)
    requires p.inv != 0 && f.qty >= Abs(p.inv) && !Opens(p.inv, Signed(f))
    ensures var r := Apply(p, f);
            && r.exact == p.exact + p.inv as real * (f.px as real - p.avg) && r.closes == p.closes + 1
            && Abs(r.inv) == f.qty - Abs(p.inv)
            && (r.inv == 0 ==> r.avg == 0.0) && (r.inv != 0 ==> r.avg == f.px as real && Sign(r.inv) == -Sign(p.inv))
  {
    GainForm(p, f);
  }

  // ---------- any fills ----------

  function NetQuantity(fs: seq<Fill>): int {
    if fs == [] then 0 else Signed(fs[0]) + NetQuantity(fs[1..])
  }

  function NetMoney(fs: seq<Fill>): int {
    if fs == [] then 0 else Signed(fs[0]) * fs[0].px + NetMoney(fs[1..])
  }

  // How many fills go against the position they meet.
  function Reductions(inv: int, fs: seq<Fill>): nat
    decreases |fs|
  {
    if fs == [] then 0
    else (if (inv > 0 && Signed(fs[0]) < 0) || (inv < 0 && Signed(fs[0]) > 0) then 1 else 0)
         + Reductions(inv + Signed(fs[0]), fs[1..])
  }

  // Over any fills the position is their net, the cash their net cost, and profit is booked exactly by the fills
  // that reduce a position.
  lemma {:induction false} TallyExact(p: Position, fs: seq<Fill>)
    requires AllFilled(fs)
    ensures var r := ApplyAll(p, fs);
            && r.inv == p.inv + NetQuantity(fs) && r.cash == p.cash - NetMoney(fs)
            && r.closes == p.closes + Reductions(p.inv, fs)
            && (Reductions(p.inv, fs) == 0 ==> r.realized == p.realized && r.exact == p.exact)
    decreases |fs|
  {
    if fs != [] { TallyExact(Apply(p, fs[0]), fs[1..]); }
  }

  predicate Within(fs: seq<Fill>, lo: int, hi: int) { forall i :: 0 <= i < |fs| ==> lo <= fs[i].px <= hi }

  lemma {:induction false} ConvexBound(w: real, held: real, qty: real, avg: real, px: real, lo: real, hi: real)
    requires held > 0.0 && qty > 0.0 && lo <= px <= hi && lo <= avg <= hi
    requires w * (held + qty) == held * avg + qty * px
    ensures lo <= w <= hi
  {
    Scaled(held, lo, avg, hi);
    Scaled(qty, lo, px, hi);
    Between(w, held, qty, held * avg, qty * px, lo, hi);
  }

  lemma {:induction false} Between(w: real, held: real, qty: real, a: real, b: real, lo: real, hi: real)
    requires held + qty > 0.0 && w * (held + qty) == a + b
    requires lo * held <= a <= hi * held && lo * qty <= b <= hi * qty
    ensures lo <= w <= hi
  {
    var total := held + qty;
    assert lo * total == lo * held + lo * qty;
    assert hi * total == hi * held + hi * qty;
    ScaleStrict(w, lo, total);
    ScaleStrict(hi, w, total);
  }

  lemma {:induction false} ScaleStrict(x: real, y: real, k: real)
    requires k > 0.0
    ensures x < y ==> x * k < y * k
  {
    if x < y { assert (y - x) * k > 0.0; }
  }

  lemma {:induction false} Scaled(k: real, lo: real, x: real, hi: real)
    requires k > 0.0 && lo <= x <= hi
    ensures lo * k <= k * x <= hi * k
  {
    assert (x - lo) * k >= 0.0 && (hi - x) * k >= 0.0;
  }

  lemma {:induction false} AverageStep(p: Position, f: Fill, lo: int, hi: int)
    requires f.qty > 0 && lo <= f.px <= hi && (p.inv != 0 ==> lo as real <= p.avg <= hi as real)
    ensures Apply(p, f).inv != 0 ==> lo as real <= Apply(p, f).avg <= hi as real
  {
    if Opens(p.inv, Signed(f)) && p.inv != 0 {
      var held, qty := Abs(p.inv) as real, f.qty as real;
      assert Abs(p.inv + Signed(f)) as real == held + qty;
      WeightedTotal(held, p.avg, qty, f.px as real, held + qty);
      ConvexBound(Apply(p, f).avg, held, qty, p.avg, f.px as real, lo as real, hi as real);
    }
  }

  // Over any fills the entry price of an open position lies between the lowest and the highest price traded.
  lemma {:induction false} AverageWithin(p: Position, fs: seq<Fill>, lo: int, hi: int)
    requires AllFilled(fs) && Within(fs, lo, hi) && (p.inv != 0 ==> lo as real <= p.avg <= hi as real)
    ensures ApplyAll(p, fs).inv != 0 ==> lo as real <= ApplyAll(p, fs).avg <= hi as real
    decreases |fs|
  {
    if fs != [] {
      AverageStep(p, fs[0], lo, hi);
      AverageWithin(Apply(p, fs[0]), fs[1..], lo, hi);
    }
  }

  // ---------- rounding ----------

  // The nearest integer, and of two as near the one further from zero.
  lemma {:induction false} RoundIs(x: real, n: int)
    ensures Round(x) == n <==>
            && -0.5 <= n as real - x <= 0.5
            && (n as real - x == 0.5 ==> x > 0.0) && (n as real - x == -0.5 ==> x < 0.0)
  {
    RoundNear(x);
  }
}
