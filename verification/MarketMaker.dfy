/** The market maker: one event on one symbol, as a function of the symbol's state, its simulated quotes
    and the bucket all symbols share. The source's doubles are reals here. */
module MarketMaker {
  import opened Buckets
  import opened FillSim
  import opened Pnl

  datatype Params = Params(
    emaAlpha: real, halfSpread: int, maxSkew: int, aversion: real, quoteQty: int, maxInventory: int,
    requoteThreshold: int, symbolRate: nat, aggregateRate: nat, burst: int,
    softFrac: real, hardFrac: real, panicFrac: real, softMult: real)

  predicate ParamsOk(p: Params) { 0 < p.quoteQty && 0 <= p.burst }

  datatype State = State(
    ema: real, mid: real, emaInit: bool, panic: bool, pos: Position, restBid: int, restAsk: int, bucket: Bucket)

  // A message for the order gateway; a quantity of zero cancels. `shard` is the symbol's index.
  datatype Msg = Msg(shard: nat, side: Side, px: int, qty: int, ts: nat)

  // What one event works on. `out` is the history of the messages sent.
  datatype Desk = Desk(shard: nat, s: State, bid: Quote, ask: Quote, agg: Bucket, out: seq<Msg>)

  // The top of the book: both sides, or not.
  datatype Top = NoTop | Top(bid: int, bidQty: int, ask: int, askQty: int)

  predicate TopOk(t: Top) { t.Top? ==> 0 <= t.bidQty && 0 <= t.askQty }

  function SymbolKnobs(p: Params): Knobs { Knobs(p.symbolRate, p.burst, 0, true) }

  function AggregateKnobs(p: Params): Knobs { Knobs(p.aggregateRate, p.burst, 0, true) }

  // static_cast to an integer type: toward zero.
  function Trunc(x: real): int { if x >= 0.0 then x.Floor else -((-x).Floor) }

  function Ceil(x: real): int { -((-x).Floor) }

  function Clamp(x: real, cap: real): real { if x < -cap then -cap else if cap < x then cap else x }

  function Soft(p: Params): int { Trunc(p.softFrac * p.maxInventory as real) }

  function Hard(p: Params): int { Trunc(p.hardFrac * p.maxInventory as real) }

  function Panic(p: Params): int { Trunc(p.panicFrac * p.maxInventory as real) }

  // Beyond the hard band the side that would add to the position is blocked.
  predicate Blocked(p: Params, inv: int, side: Side) {
    Abs(inv) > Hard(p) && if side == Buy then inv > 0 else inv < 0
  }

  // ---------- the steps of one event ----------

  function Flatten(d: Desk): Desk {
    var e := if d.s.restBid != 0 then d.(bid := NO_QUOTE, s := d.s.(restBid := 0)) else d;
    if e.s.restAsk != 0 then e.(ask := NO_QUOTE, s := e.s.(restAsk := 0)) else e
  }

  function Refills(p: Params, d: Desk, ts: nat): Desk {
    d.(s := d.s.(bucket := Refill(d.s.bucket, ts, SymbolKnobs(p))), agg := Refill(d.agg, ts, AggregateKnobs(p)))
  }

  predicate CanSpend(d: Desk) { d.s.bucket.tokens > 0 && d.agg.tokens > 0 }

  function Spend(d: Desk, m: Msg): Desk {
    d.(s := d.s.(bucket := d.s.bucket.(tokens := d.s.bucket.tokens - 1)),
       agg := d.agg.(tokens := d.agg.tokens - 1), out := d.out + [m])
  }

  function Cancel(d: Desk, side: Side, ts: nat): Desk {
    if !CanSpend(d) then d
    else if side == Buy then
      var e := Spend(d, Msg(d.shard, Buy, d.s.restBid, 0, ts));
      e.(bid := NO_QUOTE, s := e.s.(restBid := 0))
    else
      var e := Spend(d, Msg(d.shard, Sell, d.s.restAsk, 0, ts));
      e.(ask := NO_QUOTE, s := e.s.(restAsk := 0))
  }

  function PutQuote(p: Params, d: Desk, side: Side, px: int, ahead: int, ts: nat): Desk {
    if !CanSpend(d) then d
    else
      var e := Spend(d, Msg(d.shard, side, px, p.quoteQty, ts));
      if side == Buy then e.(bid := Quote(px, p.quoteQty, ahead), s := e.s.(restBid := px))
      else e.(ask := Quote(px, p.quoteQty, ahead), s := e.s.(restAsk := px))
  }

  predicate Stale(rest: int, px: int, threshold: int) { rest == 0 || Abs(px - rest) >= threshold }

  function Resting(d: Desk, side: Side): int { if side == Buy then d.s.restBid else d.s.restAsk }

  function CancelBlocked(p: Params, d: Desk, side: Side, ts: nat): Desk {
    if Blocked(p, d.s.pos.inv, side) && Resting(d, side) != 0 then Cancel(d, side, ts) else d
  }

  // We join the queue at the touch, and lead anywhere else.
  function Ahead(t: Top, side: Side, px: int): int
    requires t.Top?
  {
    if side == Buy then if px == t.bid then t.bidQty else 0 else if px == t.ask then t.askQty else 0
  }

  function QuoteIf(p: Params, d: Desk, side: Side, stale: bool, px: int, t: Top, ts: nat): Desk
    requires t.Top?
  {
    if stale && !Blocked(p, d.s.pos.inv, side) then PutQuote(p, d, side, px, Ahead(t, side, px), ts) else d
  }

  function Requote(p: Params, d: Desk, bidPx: int, askPx: int, t: Top, ts: nat): Desk
    requires t.Top?
  {
    var staleBid := Stale(d.s.restBid, bidPx, p.requoteThreshold);
    var staleAsk := Stale(d.s.restAsk, askPx, p.requoteThreshold);
    var c := CancelBlocked(p, CancelBlocked(p, d, Buy, ts), Sell, ts);
    QuoteIf(p, QuoteIf(p, c, Buy, staleBid, bidPx, t, ts), Sell, staleAsk, askPx, t, ts)
  }

  function Skew(p: Params, s: State): real {
    var aversion := if Abs(s.pos.inv) > Soft(p) then p.aversion * p.softMult else p.aversion;
    -Clamp(s.mid - s.ema, p.maxSkew as real) - s.pos.inv as real * aversion
  }

  function BidPx(p: Params, s: State): int { (s.ema - p.halfSpread as real + Skew(p, s)).Floor }

  function AskPx(p: Params, s: State): int { Ceil(s.ema + p.halfSpread as real + Skew(p, s)) }

  function Observe(p: Params, s: State, t: Top): State
    requires t.Top?
  {
    var mid := 0.5 * (t.bid + t.ask) as real;
    s.(mid := mid, emaInit := true,
       ema := if s.emaInit then p.emaAlpha * mid + (1.0 - p.emaAlpha) * s.ema else mid)
  }

  function Live(p: Params, d: Desk, t: Top, ts: nat): Desk {
    if t.NoTop? || t.bid >= t.ask then d
    else
      var e := d.(s := Observe(p, d.s, t));
      if Abs(e.s.pos.inv) > Panic(p) then Flatten(e.(s := e.s.(panic := true)))
      else
        var bid, ask := BidPx(p, e.s), AskPx(p, e.s);
        if bid <= 0 || bid >= ask then e else Requote(p, e, bid, ask, t, ts)
  }

  function OnBook(p: Params, d: Desk, kill: bool, t: Top, ts: nat): Desk {
    if kill || d.s.panic then Flatten(d) else Live(p, Refills(p, d, ts), t, ts)
  }

  function OnFill(s: State, f: Fill): State
    requires f.qty > 0
  {
    var r := s.(pos := Apply(s.pos, f));
    if f.side == Buy then r.(restBid := 0) else r.(restAsk := 0)
  }

  // A trade in the feed: the simulator fills what it fills, and the position takes it.
  function OnTrade(d: Desk, side: Side, t: Trade, ts: nat): Desk
    requires QuoteOk(d.bid) && QuoteOk(d.ask)
  {
    var q := if side == Buy then d.bid else d.ask;
    var e := if side == Buy then d.(bid := AfterTrade(side, q, t)) else d.(ask := AfterTrade(side, q, t));
    var n := Filled(side, q, t);
    if n == 0 then e else e.(s := OnFill(e.s, Fill(side, q.px, n, ts)))
  }

  // ---------- what every event keeps ----------

  // The most the desk can hold: it quotes only up to the hard band, and a quote is quoteQty.
  function Bound(p: Params): int { Max(0, Hard(p)) + p.quoteQty }

  ghost predicate Bounded(p: Params, d: Desk) {
    && QuoteOk(d.bid) && QuoteOk(d.ask)
    // what is held plus what may still fill
    && d.s.pos.inv + d.bid.qty <= Bound(p)
    && -d.s.pos.inv + d.ask.qty <= Bound(p)
    // a side marked as resting has its whole quote in the simulator
    && (d.s.restBid != 0 ==> d.bid.px == d.s.restBid && d.bid.qty == p.quoteQty)
    && (d.s.restAsk != 0 ==> d.ask.px == d.s.restAsk && d.ask.qty == p.quoteQty)
  }

  ghost predicate DeskOk(p: Params, d: Desk) {
    && Bounded(p, d) && Books(d.s.pos)
    && InRange(d.s.bucket, SymbolKnobs(p)) && InRange(d.agg, AggregateKnobs(p))
  }

  lemma {:induction false} FlattenOk(p: Params, d: Desk)
    requires ParamsOk(p) && DeskOk(p, d)
    ensures DeskOk(p, Flatten(d)) && Flatten(d).out == d.out
  {}

  // A kill or a panic clears a side exactly when the side is marked as resting or has nothing left: what
  // remains of a partly filled quote stays in the simulator, because the fill cleared the mark.
  lemma {:induction false} FlattenClearsIff(d: Desk)
    ensures Flatten(d).bid.qty == 0 <==> d.s.restBid != 0 || d.bid.qty == 0
    ensures Flatten(d).ask.qty == 0 <==> d.s.restAsk != 0 || d.ask.qty == 0
    ensures Flatten(d).s == d.s.(restBid := 0, restAsk := 0) && Flatten(d).out == d.out
  {}

  // So whatever a trade leaves of a quote it fills in part outlives the kill, and can still fill.
  lemma {:induction false} ResidualSurvives(d: Desk, t: Trade, ts: nat)
    requires QuoteOk(d.bid) && QuoteOk(d.ask) && 0 < Filled(Buy, d.bid, t) < d.bid.qty
    ensures Flatten(OnTrade(d, Buy, t, ts)).bid.qty == d.bid.qty - Filled(Buy, d.bid, t) > 0
  {}

  lemma {:induction false} CancelOk(p: Params, d: Desk, side: Side, ts: nat)
    requires ParamsOk(p) && DeskOk(p, d)
    ensures DeskOk(p, CancelBlocked(p, d, side, ts))
  {}

  // A quote goes out only where the whole of it still fits under the bound.
  lemma {:induction false} QuoteIfOk(p: Params, d: Desk, side: Side, stale: bool, px: int, t: Top, ts: nat)
    requires ParamsOk(p) && DeskOk(p, d) && t.Top? && TopOk(t)
    ensures DeskOk(p, QuoteIf(p, d, side, stale, px, t, ts))
  {}

  lemma {:induction false} RequoteOk(p: Params, d: Desk, bidPx: int, askPx: int, t: Top, ts: nat)
    requires ParamsOk(p) && DeskOk(p, d) && t.Top? && TopOk(t)
    ensures DeskOk(p, Requote(p, d, bidPx, askPx, t, ts))
  {
    var staleBid := Stale(d.s.restBid, bidPx, p.requoteThreshold);
    var staleAsk := Stale(d.s.restAsk, askPx, p.requoteThreshold);
    CancelOk(p, d, Buy, ts);
    var b := CancelBlocked(p, d, Buy, ts);
    CancelOk(p, b, Sell, ts);
    var c := CancelBlocked(p, b, Sell, ts);
    QuoteIfOk(p, c, Buy, staleBid, bidPx, t, ts);
    QuoteIfOk(p, QuoteIf(p, c, Buy, staleBid, bidPx, t, ts), Sell, staleAsk, askPx, t, ts);
  }

  lemma {:induction false} OnBookOk(p: Params, d: Desk, kill: bool, t: Top, ts: nat)
    requires ParamsOk(p) && DeskOk(p, d) && TopOk(t)
    ensures DeskOk(p, OnBook(p, d, kill, t, ts))
  {
    FlattenOk(p, d);
    if !kill && !d.s.panic {
      RefillInRange(d.s.bucket, ts, SymbolKnobs(p));
      RefillInRange(d.agg, ts, AggregateKnobs(p));
      var r := Refills(p, d, ts);
      if t.Top? && t.bid < t.ask {
        var e := r.(s := Observe(p, r.s, t));
        if Abs(e.s.pos.inv) > Panic(p) {
          FlattenOk(p, e.(s := e.s.(panic := true)));
        } else {
          RequoteOk(p, e, BidPx(p, e.s), AskPx(p, e.s), t, ts);
        }
      }
    }
  }

  // A fill moves quantity from the quote to the position.
  lemma {:induction false} OnTradeOk(p: Params, d: Desk, side: Side, t: Trade, ts: nat)
    requires ParamsOk(p) && DeskOk(p, d)
    ensures DeskOk(p, OnTrade(d, side, t, ts)) && OnTrade(d, side, t, ts).out == d.out
  {
    var q := if side == Buy then d.bid else d.ask;
    var n := Filled(side, q, t);
    TradeConserves(side, q, t);
    if n != 0 {
      var f := Fill(side, q.px, n, ts);
      ApplyBooks(d.s.pos, f);
      assert Apply(d.s.pos, f).inv == d.s.pos.inv + Signed(f);
    }
  }

  // The inventory bound, and with it: a panic band at or above the bound is never crossed.
  lemma {:induction false} InventoryWithin(p: Params, d: Desk)
    requires DeskOk(p, d)
    ensures Abs(d.s.pos.inv) <= Bound(p)
    ensures Bound(p) <= Panic(p) ==> Abs(d.s.pos.inv) <= Panic(p)
  {}
}
