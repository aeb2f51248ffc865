/** The fill simulator: one resting quote a side, filled by the trades the feed reports. */
module FillSim {
  import opened Bytes

  datatype Side = Buy | Sell

  datatype Quote = Quote(px: int, qty: int, ahead: int)

  const NO_QUOTE := Quote(0, 0, 0)

  datatype Fill = Fill(side: Side, px: int, qty: int, ts: nat)

  datatype Trade = Trade(px: int, qty: int)

  predicate Better(side: Side, ours: int, traded: int) { if side == Buy then ours > traded else ours < traded }

  function Min(a: int, b: int): int { if a < b then a else b }

  function Max(a: int, b: int): int { if a > b then a else b }

  // What a trade fills of a resting quote: all of it when it prints through our price; at our price
  // what is left once the queue ahead of us is served.
  function Filled(side: Side, q: Quote, t: Trade): int {
    if q.qty <= 0 || t.qty <= 0 then 0
    else if Better(side, q.px, t.px) then q.qty
    else if q.px == t.px then Min(q.qty, t.qty - Min(q.ahead, t.qty))
    else 0
  }

  function AfterTrade(side: Side, q: Quote, t: Trade): Quote {
    if q.qty <= 0 || t.qty <= 0 || (!Better(side, q.px, t.px) && q.px != t.px) then q
    else
      var left := q.qty - Filled(side, q, t);
      Quote(q.px, left, if left == 0 || Better(side, q.px, t.px) then 0 else q.ahead - Min(q.ahead, t.qty))
  }

  // A quantity ahead in the queue is never negative: the book's quantity at the level, or none.
  predicate QuoteOk(q: Quote) { 0 <= q.qty && 0 <= q.ahead }

  function Trades(side: Side, q: Quote, ts: seq<Trade>): Quote
    decreases |ts|
  {
    if ts == [] then q else Trades(side, AfterTrade(side, q, ts[0]), ts[1..])
  }

  function TotalFilled(side: Side, q: Quote, ts: seq<Trade>): int
    decreases |ts|
  {
    if ts == [] then 0 else Filled(side, q, ts[0]) + TotalFilled(side, AfterTrade(side, q, ts[0]), ts[1..])
  }

  // Trades of no quantity print nothing.
  function Volume(ts: seq<Trade>): nat {
    if ts == [] then 0 else Max(0, ts[0].qty) + Volume(ts[1..])
  }

  lemma {:induction false} TradeConserves(side: Side, q: Quote, t: Trade)
    requires QuoteOk(q)
    ensures QuoteOk(AfterTrade(side, q, t)) && AfterTrade(side, q, t).px == q.px
    ensures 0 <= Filled(side, q, t) == q.qty - AfterTrade(side, q, t).qty
  {}

  // Over any mix of trades what is filled is exactly what the quote lost: never more than it had.
  lemma {:induction false} FillsConserve(side: Side, q: Quote, ts: seq<Trade>)
    requires QuoteOk(q)
    ensures QuoteOk(Trades(side, q, ts)) && Trades(side, q, ts).px == q.px
    ensures TotalFilled(side, q, ts) == q.qty - Trades(side, q, ts).qty
    ensures 0 <= TotalFilled(side, q, ts) <= q.qty
    decreases |ts|
  {
    if ts != [] {
      TradeConserves(side, q, ts[0]);
      FillsConserve(side, AfterTrade(side, q, ts[0]), ts[1..]);
    }
  }

  // Trades at our level fill min(q, max(0, T - a)) in all, however the volume T is split into prints.
  lemma {:induction false} AtLevel(side: Side, q: Quote, ts: seq<Trade>)
    requires QuoteOk(q) && forall i :: 0 <= i < |ts| ==> ts[i].px == q.px
    ensures TotalFilled(side, q, ts) == Min(q.qty, Max(0, Volume(ts) - q.ahead))
    decreases |ts|
  {
    if ts != [] {
      var r := AfterTrade(side, q, ts[0]);
      AtLevel(side, r, ts[1..]);
    }
  }

  // One print through our price fills all that is left.
  lemma {:induction false} Sweep(side: Side, q: Quote, ts: seq<Trade>, k: nat)
    requires QuoteOk(q) && k < |ts| && ts[k].qty > 0 && Better(side, q.px, ts[k].px)
    ensures TotalFilled(side, q, ts) == q.qty
    decreases |ts|
  {
    var r := AfterTrade(side, q, ts[0]);
    if k == 0 {
      FillsConserve(side, r, ts[1..]);
    } else {
      TradeConserves(side, q, ts[0]);
      Sweep(side, r, ts[1..], k - 1);
    }
  }

  // ---------- what any trades fill, in closed form ----------

  // The volume printed at one price.
  function VolumeAt(ts: seq<Trade>, px: int): nat {
    if ts == [] then 0 else (if ts[0].px == px then Max(0, ts[0].qty) else 0) + VolumeAt(ts[1..], px)
  }

  // No trade prints through a price of ours.
  predicate NoneThrough(side: Side, px: int, ts: seq<Trade>) {
    forall i :: 0 <= i < |ts| && ts[i].qty > 0 ==> !Better(side, px, ts[i].px)
  }

  // What is left of a quote once `volume` has printed at its price.
  function Served(q: Quote, volume: nat): Quote {
    var left := q.qty - Min(q.qty, Max(0, volume - q.ahead));
    if q.qty == 0 then q else Quote(q.px, left, if left == 0 then 0 else Max(0, q.ahead - volume))
  }

  lemma {:induction false} ServedTwice(q: Quote, v: nat, w: nat)
    requires QuoteOk(q)
    ensures QuoteOk(Served(q, v)) && Served(q, v).px == q.px && Served(Served(q, v), w) == Served(q, v + w)
  {}

  lemma {:induction false} TradeServes(side: Side, q: Quote, t: Trade)
    requires QuoteOk(q) && NoneThrough(side, q.px, [t])
    ensures var v := if t.px == q.px then Max(0, t.qty) else 0;
            AfterTrade(side, q, t) == Served(q, v)
  {
    assert [t][0] == t;
  }

  lemma {:induction false} NoneThroughSplit(side: Side, px: int, ts: seq<Trade>)
    requires ts != [] && NoneThrough(side, px, ts)
    ensures NoneThrough(side, px, [ts[0]]) && NoneThrough(side, px, ts[1..])
  {}

  lemma {:induction false} MixedQuote(side: Side, q: Quote, ts: seq<Trade>)
    requires QuoteOk(q) && NoneThrough(side, q.px, ts)
    ensures Trades(side, q, ts) == Served(q, VolumeAt(ts, q.px))
    decreases |ts|
  {
    if ts != [] {
      var v := if ts[0].px == q.px then Max(0, ts[0].qty) else 0;
      NoneThroughSplit(side, q.px, ts);
      TradeServes(side, q, ts[0]);
      ServedTwice(q, v, VolumeAt(ts[1..], q.px));
      MixedQuote(side, Served(q, v), ts[1..]);
    }
  }

  // While nothing prints through our price only what prints at it counts: the queue ahead is served first, then
  // we are, and prints short of our price change nothing at all.
  lemma {:induction false} MixedPrints(side: Side, q: Quote, ts: seq<Trade>)
    requires QuoteOk(q) && NoneThrough(side, q.px, ts)
    ensures TotalFilled(side, q, ts) == Min(q.qty, Max(0, VolumeAt(ts, q.px) - q.ahead))
    ensures Trades(side, q, ts) == Served(q, VolumeAt(ts, q.px))
  {
    MixedQuote(side, q, ts);
    FillsConserve(side, q, ts);
  }

  // So trades that all stay short of our price fill nothing and leave the quote as it was.
  lemma {:induction false} ShortPrints(side: Side, q: Quote, ts: seq<Trade>)
    requires QuoteOk(q) && forall i :: 0 <= i < |ts| ==> ts[i].px != q.px && !Better(side, q.px, ts[i].px)
    ensures TotalFilled(side, q, ts) == 0 && (q.qty > 0 ==> Trades(side, q, ts) == q)
  {
    NothingAt(ts, q.px);
    MixedPrints(side, q, ts);
  }

  lemma {:induction false} NothingAt(ts: seq<Trade>, px: int)
    requires forall i :: 0 <= i < |ts| ==> ts[i].px != px
    ensures VolumeAt(ts, px) == 0
  {
    if ts != [] { NothingAt(ts[1..], px); }
  }

  // Any trades at all: everything if one prints through, else what the volume at our price leaves us.
  lemma {:induction false} FillsExactly(side: Side, q: Quote, ts: seq<Trade>)
    requires QuoteOk(q)
    ensures TotalFilled(side, q, ts) ==
            if NoneThrough(side, q.px, ts) then Min(q.qty, Max(0, VolumeAt(ts, q.px) - q.ahead)) else q.qty
  {
    if NoneThrough(side, q.px, ts) {
      MixedPrints(side, q, ts);
    } else {
      var k :| 0 <= k < |ts| && ts[k].qty > 0 && Better(side, q.px, ts[k].px);
      Sweep(side, q, ts, k);
    }
  }

  class Sim {
    var bid: Quote
    var ask: Quote

    constructor ()
      ensures bid == NO_QUOTE && ask == NO_QUOTE
    {
      bid, ask := NO_QUOTE, NO_QUOTE;
    }

    function At(side: Side): Quote
      reads this
    {
      if side == Buy then bid else ask
    }

    method OnQuote(side: Side, px: int, qty: int, ahead: int)
      modifies this
      ensures At(side) == Quote(px, qty, ahead)
      ensures if side == Buy then ask == old(ask) else bid == old(bid)
    {
      if side == Buy { bid := Quote(px, qty, ahead); } else { ask := Quote(px, qty, ahead); }
    }

    method OnCancel(side: Side)
      modifies this
      ensures At(side) == NO_QUOTE
      ensures if side == Buy then ask == old(ask) else bid == old(bid)
    {
      if side == Buy { bid := NO_QUOTE; } else { ask := NO_QUOTE; }
    }

    method OnTrade(side: Side, px: int, qty: int, ts: nat) returns (fill: Option<Fill>)
      modifies this
      ensures At(side) == AfterTrade(side, old(At(side)), Trade(px, qty))
      ensures if side == Buy then ask == old(ask) else bid == old(bid)
      ensures var n := Filled(side, old(At(side)), Trade(px, qty));
              fill == if n == 0 then None else Some(Fill(side, old(At(side)).px, n, ts))
    {
      var q := At(side);
      if q.qty <= 0 || qty <= 0 { return None; }
      var better := if side == Buy then q.px > px else q.px < px;
      var equal := q.px == px;
      if !better && !equal { return None; }
      var fillQty := 0;
      if better {
        fillQty := q.qty;
        q := q.(qty := 0, ahead := 0);
      } else {
        var eat := Min(q.ahead, qty);
        q := q.(ahead := q.ahead - eat);
        var residual := qty - eat;
        fillQty := Min(q.qty, residual);
        q := q.(qty := q.qty - fillQty);
        if q.qty == 0 { q := q.(ahead := 0); }
      }
      if side == Buy { bid := q; } else { ask := q; }
      if fillQty == 0 { return None; }
      return Some(Fill(side, q.px, fillQty, ts));
    }
  }
}
