/** Profit and loss at an average entry price. Prices are in ticks; the source's doubles are reals here. */
module Pnl {
  import opened FillSim

  // `cash`, `exact` and `closes` are history: money paid and received, the profit booked before
  // rounding, and the number of fills that booked any.
  datatype Position = Position(inv: int, avg: real, realized: int, cash: int, exact: real, closes: nat)

  const FLAT := Position(0, 0.0, 0, 0, 0.0, 0)

  function Abs(x: int): nat { if x < 0 then -x else x }

  function Signed(f: Fill): int { if f.side == Buy then f.qty else -f.qty }

  // std::llround: to the nearest integer, halves away from zero.
  function Round(x: real): int {
    if x >= 0.0 then (x + 0.5).Floor else -((0.5 - x).Floor)
  }

  lemma {:induction false} RoundNear(x: real)
    ensures -0.5 <= Round(x) as real - x <= 0.5
    ensures x == x.Floor as real ==> Round(x) == x.Floor
  {}

  // A fill that opens or adds to a position.
  predicate Opens(inv: int, signed: int) { inv == 0 || (inv > 0 && signed > 0) || (inv < 0 && signed < 0) }

  // The average price of `held` at `avg` and `qty` at `px`, over `total`.
  function Weighted(held: real, avg: real, qty: real, px: real, total: real): real
    requires total != 0.0
  {
    (held * avg + qty * px) / total
  }

  lemma {:induction false} WeightedTotal(held: real, avg: real, qty: real, px: real, total: real)
    requires total != 0.0
    ensures Weighted(held, avg, qty, px, total) * total == held * avg + qty * px
  {}

  function AveragePx(p: Position, f: Fill): real
    requires f.qty > 0 && Opens(p.inv, Signed(f))
  {
    if p.inv == 0 then f.px as real
    else Weighted(Abs(p.inv) as real, p.avg, f.qty as real, f.px as real, Abs(p.inv + Signed(f)) as real)
  }

  function Gain(p: Position, f: Fill): real {
    var closing := Min(Abs(p.inv), f.qty) as real;
    if p.inv > 0 then (f.px as real - p.avg) * closing else (p.avg - f.px as real) * closing
  }

  function Apply(p: Position, f: Fill): Position
    requires f.qty > 0
  {
    var held := p.inv + Signed(f);
    var cash := p.cash - Signed(f) * f.px;
    if Opens(p.inv, Signed(f)) then p.(inv := held, avg := AveragePx(p, f), cash := cash)
    else
      var avg := if held == 0 then 0.0
                 else if (p.inv > 0 && held < 0) || (p.inv < 0 && held > 0) then f.px as real
                 else p.avg;
      Position(held, avg, p.realized + Round(Gain(p, f)), cash, p.exact + Gain(p, f), p.closes + 1)
  }

  predicate AllFilled(fs: seq<Fill>) { forall i :: 0 <= i < |fs| ==> fs[i].qty > 0 }

  function ApplyAll(p: Position, fs: seq<Fill>): Position
    requires AllFilled(fs)
    decreases |fs|
  {
    if fs == [] then p else ApplyAll(Apply(p, fs[0]), fs[1..])
  }

  // What was booked stays the money taken in plus the position at its entry price.
  ghost predicate Balanced(p: Position) { p.exact == p.cash as real + p.inv as real * p.avg }

  ghost predicate Books(p: Position) {
    && Balanced(p)
    && -(p.closes as real) <= 2.0 * (p.realized as real - p.exact) <= p.closes as real
  }

  lemma {:induction false} OpenBooks(p: Position, f: Fill)
    requires Books(p) && f.qty > 0 && Opens(p.inv, Signed(f))
    ensures Books(Apply(p, f))
  {
    if p.inv != 0 {
      WeightedTotal(Abs(p.inv) as real, p.avg, f.qty as real, f.px as real, Abs(p.inv + Signed(f)) as real);
    }
    CashForm(p, f);
  }

  // The closing cases in real arithmetic: `signed` is taken off a position of `inv` held at `avg`.
  lemma {:induction false} PartlyClosed(exact: real, cash: real, inv: real, avg: real, px: real, signed: real)
    requires exact == cash + inv * avg
    ensures exact + (px - avg) * (-signed) == (cash - signed * px) + (inv + signed) * avg
  {
    assert (px - avg) * (-signed) == avg * signed - px * signed;
    assert (inv + signed) * avg == inv * avg + signed * avg;
  }

  lemma {:induction false} Flipped(exact: real, cash: real, inv: real, avg: real, px: real, signed: real)
    requires exact == cash + inv * avg
    ensures exact + (px - avg) * inv == (cash - signed * px) + (inv + signed) * px
  {
    assert (px - avg) * inv == px * inv - avg * inv;
    assert (inv + signed) * px == inv * px + signed * px;
  }

  // Long or short alike, what is closed is the smaller of the fill and the position.
  lemma {:induction false} GainForm(p: Position, f: Fill)
    requires f.qty > 0 && !Opens(p.inv, Signed(f))
    ensures f.qty <= Abs(p.inv) ==> Gain(p, f) == (f.px as real - p.avg) * (-(Signed(f) as real))
    ensures f.qty > Abs(p.inv) ==> Gain(p, f) == (f.px as real - p.avg) * p.inv as real
  {}

  lemma {:induction false} CashForm(p: Position, f: Fill)
    requires f.qty > 0
    ensures Apply(p, f).cash as real == p.cash as real - Signed(f) as real * f.px as real
    ensures Apply(p, f).inv as real == p.inv as real + Signed(f) as real
  {
    assert (Signed(f) * f.px) as real == Signed(f) as real * f.px as real;
  }

  lemma {:induction false} ClosePart(p: Position, f: Fill)
    requires Balanced(p) && f.qty > 0 && !Opens(p.inv, Signed(f)) && f.qty < Abs(p.inv)
    ensures Balanced(Apply(p, f))
  {
    GainForm(p, f);
    CashForm(p, f);
    PartlyClosed(p.exact, p.cash as real, p.inv as real, p.avg, f.px as real, Signed(f) as real);
    assert Apply(p, f).avg == p.avg;
  }

  lemma {:induction false} CloseAll(p: Position, f: Fill)
    requires Balanced(p) && f.qty > 0 && !Opens(p.inv, Signed(f)) && f.qty == Abs(p.inv)
    ensures Balanced(Apply(p, f))
  {
    GainForm(p, f);
    CashForm(p, f);
    PartlyClosed(p.exact, p.cash as real, p.inv as real, p.avg, f.px as real, Signed(f) as real);
    assert Apply(p, f).inv == 0 && Apply(p, f).avg == 0.0;
    assert (p.inv as real + Signed(f) as real) * p.avg == 0.0;
  }

  lemma {:induction false} Flip(p: Position, f: Fill)
    requires Balanced(p) && f.qty > 0 && !Opens(p.inv, Signed(f)) && f.qty > Abs(p.inv)
    ensures Balanced(Apply(p, f))
  {
    GainForm(p, f);
    CashForm(p, f);
    Flipped(p.exact, p.cash as real, p.inv as real, p.avg, f.px as real, Signed(f) as real);
    assert Apply(p, f).avg == f.px as real;
  }

  lemma {:induction false} CloseExact(p: Position, f: Fill)
    requires Balanced(p) && f.qty > 0 && !Opens(p.inv, Signed(f))
    ensures Balanced(Apply(p, f))
  {
    if f.qty < Abs(p.inv) { ClosePart(p, f); } else if f.qty == Abs(p.inv) { CloseAll(p, f); } else { Flip(p, f); }
  }

  lemma {:induction false} CloseBooks(p: Position, f: Fill)
    requires Books(p) && f.qty > 0 && !Opens(p.inv, Signed(f))
    ensures Books(Apply(p, f))
  {
    CloseExact(p, f);
    RoundNear(Gain(p, f));
  }

  lemma {:induction false} ApplyBooks(p: Position, f: Fill)
    requires Books(p) && f.qty > 0
    ensures Books(Apply(p, f))
  {
    if Opens(p.inv, Signed(f)) { OpenBooks(p, f); } else { CloseBooks(p, f); }
  }

  // Through opens, additions, partial and full closes and flips, in any order.
  lemma {:induction false} RealizedIdentity(p: Position, fs: seq<Fill>)
    requires Books(p) && AllFilled(fs)
    ensures Books(ApplyAll(p, fs))
    decreases |fs|
  {
    if fs != [] {
      ApplyBooks(p, fs[0]);
      RealizedIdentity(Apply(p, fs[0]), fs[1..]);
    }
  }

  function Unrealized(p: Position, mid: real): int { Round(p.inv as real * (mid - p.avg)) }

  // The reported realized and unrealized profit together are the cash plus the position marked at the
  // mid price, to within half a tick for each closing fill and half a tick for the mark.
  ghost predicate Marked(p: Position, mid: real) {
    var reported := p.realized as real + Unrealized(p, mid) as real;
    var worth := p.cash as real + p.inv as real * mid;
    -(p.closes as real + 1.0) <= 2.0 * (reported - worth) <= p.closes as real + 1.0
  }

  lemma {:induction false} BooksMarked(p: Position, mid: real)
    requires Books(p)
    ensures Marked(p, mid)
  {}

  lemma {:induction false} MarkToMarket(start: Position, fs: seq<Fill>, mid: real)
    requires start == FLAT && AllFilled(fs)
    ensures Marked(ApplyAll(start, fs), mid)
  {
    RealizedIdentity(start, fs);
    BooksMarked(ApplyAll(start, fs), mid);
  }
}
