/** What the market maker quotes, and when: laws of its prices, of the averages behind them and of the messages
    one book event sends. */
module Quoting {
  import opened Bytes
  import opened Buckets
  import opened FillSim
  import opened Pnl
  import opened MarketMaker

  // ---------- the fair value ----------

  // The first two-sided book sets the average to its mid price; each later one takes it the given part of the way
  // to the new mid, so it ends up between the two.
  lemma {:induction false} ObserveMoves(p: Params, s: State, t: Top)
    requires t.Top?
    ensures var r := Observe(p, s, t);
            && r.mid + r.mid == (t.bid + t.ask) as real && r.emaInit && r.pos == s.pos
            && (!s.emaInit ==> r.ema == r.mid)
            && (s.emaInit ==> r.ema - r.mid == (1.0 - p.emaAlpha) * (s.ema - r.mid))
            && (s.emaInit && 0.0 <= p.emaAlpha <= 1.0 ==> s.ema <= r.ema <= r.mid || r.mid <= r.ema <= s.ema)
  {
    var mid := 0.5 * (t.bid + t.ask) as real;
    var a := p.emaAlpha;
    assert a * mid + (1.0 - a) * s.ema - mid == (1.0 - a) * (s.ema - mid);
    assert a * mid + (1.0 - a) * s.ema - s.ema == a * (mid - s.ema);
    if 0.0 <= a <= 1.0 {
      SignKept(1.0 - a, s.ema - mid);
      SignKept(a, mid - s.ema);
    }
  }

  lemma {:induction false} SignKept(k: real, x: real)
    requires k >= 0.0
    ensures x >= 0.0 ==> k * x >= 0.0
    ensures x <= 0.0 ==> k * x <= 0.0
  {
    if x <= 0.0 { assert k * (0.0 - x) >= 0.0; }
  }

  function ObserveAll(p: Params, s: State, ts: seq<Top>): State
    requires forall i :: 0 <= i < |ts| ==> ts[i].Top?
    decreases |ts|
  {
    if ts == [] then s else ObserveAll(p, Observe(p, s, ts[0]), ts[1..])
  }

  // Over any books the average stays within the range of their mid prices.
  lemma {:induction false} AverageStays(p: Params, s: State, ts: seq<Top>, lo: real, hi: real)
    requires 0.0 <= p.emaAlpha <= 1.0 && (s.emaInit ==> lo <= s.ema <= hi)
    requires forall i :: 0 <= i < |ts| ==> ts[i].Top? && lo + lo <= (ts[i].bid + ts[i].ask) as real <= hi + hi
    ensures var r := ObserveAll(p, s, ts); r.emaInit ==> lo <= r.ema <= hi
    decreases |ts|
  {
    if ts != [] {
      ObserveMoves(p, s, ts[0]);
      AverageStays(p, Observe(p, s, ts[0]), ts[1..], lo, hi);
    }
  }

  // ---------- the prices ----------

  // How far the inventory alone moves both prices.
  function Lean(p: Params, inv: int): real {
    inv as real * (if Abs(inv) > Soft(p) then p.aversion * p.softMult else p.aversion)
  }

  lemma {:induction false} LeanGrows(p: Params, i: int, j: int)
    requires i <= j && p.aversion >= 0.0 && p.softMult >= 1.0
    ensures Lean(p, i) <= Lean(p, j)
  {
    var a, m := p.aversion, p.softMult;
    var b := a * m;
    assert b - a == a * (m - 1.0);
    SignKept(a, m - 1.0);
    SignKept(a, j as real - i as real);
    SignKept(b, j as real - i as real);
    SignKept(b - a, i as real);
    SignKept(b - a, j as real);
    assert a * (j as real - i as real) == j as real * a - i as real * a;
    assert b * (j as real - i as real) == j as real * b - i as real * b;
    assert (b - a) * i as real == i as real * b - i as real * a;
    assert (b - a) * j as real == j as real * b - j as real * a;
  }

  // A longer position never raises either price.
  lemma {:induction false} InventoryLowersPrices(p: Params, s: State, r: State)
    requires p.aversion >= 0.0 && p.softMult >= 1.0
    requires s.ema == r.ema && s.mid == r.mid && s.pos.inv <= r.pos.inv
    ensures BidPx(p, r) <= BidPx(p, s) && AskPx(p, r) <= AskPx(p, s)
  {
    LeanGrows(p, s.pos.inv, r.pos.inv);
    SkewIs(p, s);
    SkewIs(p, r);
  }

  // By how much: a lean worth n ticks moves both prices down by n against a flat position.
  lemma {:induction false} InventoryTicks(p: Params, s: State, flat: State, n: int)
    requires flat.ema == s.ema && flat.mid == s.mid && flat.pos.inv == 0 && Lean(p, s.pos.inv) == n as real
    ensures BidPx(p, s) == BidPx(p, flat) - n && AskPx(p, s) == AskPx(p, flat) - n
  {
    assert Lean(p, 0) == 0.0;
    assert Skew(p, flat) - Skew(p, s) == n as real;
  }

  // Flat and at the mid: the greatest tick at or below the average less the half spread, and the least one at or
  // above it plus the half spread.
  lemma {:induction false} FlatPrices(p: Params, s: State)
    requires s.pos.inv == 0 && s.mid == s.ema && p.maxSkew >= 0
    ensures BidPx(p, s) as real <= s.ema - p.halfSpread as real < BidPx(p, s) as real + 1.0
    ensures AskPx(p, s) as real - 1.0 < s.ema + p.halfSpread as real <= AskPx(p, s) as real
  {
    assert Lean(p, 0) == 0.0 && Skew(p, s) == 0.0 - Lean(p, 0);
  }

  // The two prices are the spread apart, plus a tick when the centre is not on one.
  lemma {:induction false} SpreadIs(p: Params, s: State)
    ensures 2 * p.halfSpread <= AskPx(p, s) - BidPx(p, s) <= 2 * p.halfSpread + 1
    ensures AskPx(p, s) - BidPx(p, s) == 2 * p.halfSpread <==>
            s.ema + Skew(p, s) == (s.ema + Skew(p, s)).Floor as real
  {
    var c := s.ema + Skew(p, s);
    assert c - p.halfSpread as real == s.ema - p.halfSpread as real + Skew(p, s);
    assert BidPx(p, s) == c.Floor - p.halfSpread;
  }

  lemma {:induction false} FloorShift(x: real, n: int)
    ensures (x - n as real).Floor == x.Floor - n && Ceil(x - n as real) == Ceil(x) - n
  {}

  lemma {:induction false} FloorBetween(x: real, y: real, n: int)
    requires x - n as real <= y <= x
    ensures x.Floor - n <= y.Floor <= x.Floor && Ceil(x) - n <= Ceil(y) <= Ceil(x)
  {}

  // Where the prices go before they are put on a tick, against the same position with the mid at the average.
  lemma {:induction false} Reverted(p: Params, s: State, still: State)
    requires still.ema == s.ema == still.mid && still.pos.inv == s.pos.inv && p.maxSkew >= 0
    ensures var c := Clamp(s.mid - s.ema, p.maxSkew as real);
            var x, y := s.ema - p.halfSpread as real + Skew(p, still), s.ema + p.halfSpread as real + Skew(p, still);
            && BidPx(p, still) == x.Floor && BidPx(p, s) == (x - c).Floor
            && AskPx(p, still) == Ceil(y) && AskPx(p, s) == Ceil(y - c)
  {
    SkewIs(p, s);
    SkewIs(p, still);
  }

  // A mid above the average lowers both prices and one below raises them, by no more than the cap.
  lemma {:induction false} PricesRevert(p: Params, s: State, still: State)
    requires still.ema == s.ema == still.mid && still.pos.inv == s.pos.inv && p.maxSkew >= 0
    ensures s.mid >= s.ema ==> BidPx(p, still) - p.maxSkew <= BidPx(p, s) <= BidPx(p, still)
    ensures s.mid >= s.ema ==> AskPx(p, still) - p.maxSkew <= AskPx(p, s) <= AskPx(p, still)
    ensures s.mid <= s.ema ==> BidPx(p, still) <= BidPx(p, s) <= BidPx(p, still) + p.maxSkew
    ensures s.mid <= s.ema ==> AskPx(p, still) <= AskPx(p, s) <= AskPx(p, still) + p.maxSkew
  {
    Reverted(p, s, still);
    var c := Clamp(s.mid - s.ema, p.maxSkew as real);
    var x, y := s.ema - p.halfSpread as real + Skew(p, still), s.ema + p.halfSpread as real + Skew(p, still);
    if s.mid >= s.ema {
      FloorBetween(x, x - c, p.maxSkew);
      FloorBetween(y, y - c, p.maxSkew);
    }
    if s.mid <= s.ema {
      FloorBetween(x - c, x, p.maxSkew);
      FloorBetween(y - c, y, p.maxSkew);
    }
  }

  // By how much: tick for tick up to the cap, and by the cap beyond it.
  lemma {:induction false} RevertTicks(p: Params, s: State, still: State, n: int)
    requires still.ema == s.ema == still.mid && still.pos.inv == s.pos.inv && -p.maxSkew <= n <= p.maxSkew
    requires || s.mid - s.ema == n as real || (n == p.maxSkew && s.mid - s.ema >= n as real)
             || (n == -p.maxSkew && s.mid - s.ema <= n as real)
    ensures BidPx(p, s) == BidPx(p, still) - n && AskPx(p, s) == AskPx(p, still) - n
  {
    Reverted(p, s, still);
    FloorShift(s.ema - p.halfSpread as real + Skew(p, still), n);
    FloorShift(s.ema + p.halfSpread as real + Skew(p, still), n);
  }

  // Buying and selling mirror each other: turn average, mid and position round, and the bid is the ask turned round.
  lemma {:induction false} MirrorPrices(p: Params, s: State, r: State)
    requires r.ema == 0.0 - s.ema && r.mid == 0.0 - s.mid && r.pos.inv == -s.pos.inv && p.maxSkew >= 0
    ensures BidPx(p, r) == -AskPx(p, s) && AskPx(p, r) == -BidPx(p, s)
  {
    LeanOdd(p, s.pos.inv);
    SkewIs(p, s);
    SkewIs(p, r);
  }

  lemma {:induction false} LeanOdd(p: Params, inv: int)
    ensures Lean(p, -inv) == 0.0 - Lean(p, inv)
  {
    assert (-inv) as real == 0.0 - inv as real;
    Negated(inv as real, if Abs(inv) > Soft(p) then p.aversion * p.softMult else p.aversion);
  }

  lemma {:induction false} Negated(x: real, k: real)
    ensures (0.0 - x) * k == 0.0 - x * k
  {}

  // ---------- the bands ----------

  // A band is the whole part of its share of the largest position.
  lemma {:induction false} BandIs(x: real)
    ensures x >= 0.0 ==> 0 <= Trunc(x) && Trunc(x) as real <= x < Trunc(x) as real + 1.0
    ensures x <= 0.0 ==> Trunc(x) <= 0 && Trunc(x) as real - 1.0 < x <= Trunc(x) as real
  {}

  // A side is blocked exactly beyond the hard band on its own side of flat; never both.
  lemma {:induction false} BlockedIff(p: Params, inv: int)
    ensures Blocked(p, inv, Buy) <==> inv > Max(0, Hard(p))
    ensures Blocked(p, inv, Sell) <==> -inv > Max(0, Hard(p))
  {}

  // ---------- one book event ----------

  function QuoteOf(d: Desk, side: Side): Quote { if side == Buy then d.bid else d.ask }

  function TouchPx(t: Top, side: Side): int
    requires t.Top?
  {
    if side == Buy then t.bid else t.ask
  }

  function TouchQty(t: Top, side: Side): int
    requires t.Top?
  {
    if side == Buy then t.bidQty else t.askQty
  }

  // What an event with budget makes of one side: beyond the hard band it is taken out of the market; otherwise it
  // stays if it rests within the threshold of the price, and else is quoted at the price in full size, behind what
  // the book shows there if that is the touch and in front elsewhere.
  ghost predicate SideDone(p: Params, d: Desk, r: Desk, side: Side, px: int, t: Top)
    requires t.Top?
  {
    var rest, q := Resting(d, side), QuoteOf(d, side);
    if Blocked(p, d.s.pos.inv, side) then
      Resting(r, side) == 0 && QuoteOf(r, side) == if rest != 0 then NO_QUOTE else q
    else if rest != 0 && Abs(px - rest) < p.requoteThreshold then Resting(r, side) == rest && QuoteOf(r, side) == q
    else
      && Resting(r, side) == px
      && QuoteOf(r, side) == Quote(px, p.quoteQty, if px == TouchPx(t, side) then TouchQty(t, side) else 0)
  }

  ghost function CancelMsgs(p: Params, d: Desk, side: Side, ts: nat): seq<Msg> {
    if Blocked(p, d.s.pos.inv, side) && Resting(d, side) != 0 then [Msg(d.shard, side, Resting(d, side), 0, ts)] else []
  }

  ghost function QuoteMsgs(p: Params, d: Desk, side: Side, px: int, ts: nat): seq<Msg> {
    if !Blocked(p, d.s.pos.inv, side) && (Resting(d, side) == 0 || Abs(px - Resting(d, side)) >= p.requoteThreshold)
    then [Msg(d.shard, side, px, p.quoteQty, ts)] else []
  }

  predicate Budget(d: Desk, n: int) { d.s.bucket.tokens >= n && d.agg.tokens >= n }

  function Other(side: Side): Side { if side == Buy then Sell else Buy }

  // `e` is `d` but for one side, after the messages.
  ghost predicate OneSide(d: Desk, e: Desk, side: Side, msgs: seq<Msg>) {
    && QuoteOf(e, Other(side)) == QuoteOf(d, Other(side)) && Resting(e, Other(side)) == Resting(d, Other(side))
    && e.s.pos == d.s.pos && e.shard == d.shard && e.s.panic == d.s.panic && e.out == d.out + msgs
    && e.s.bucket.tokens == d.s.bucket.tokens - |msgs| && e.agg.tokens == d.agg.tokens - |msgs|
  }

  lemma {:induction false} CancelDone(p: Params, d: Desk, side: Side, ts: nat)
    requires Blocked(p, d.s.pos.inv, side) ==> Budget(d, 1)
    ensures var e := CancelBlocked(p, d, side, ts);
            && OneSide(d, e, side, CancelMsgs(p, d, side, ts))
            && (if CancelMsgs(p, d, side, ts) == [] then Resting(e, side) == Resting(d, side)
                                                        && QuoteOf(e, side) == QuoteOf(d, side)
                else Resting(e, side) == 0 && QuoteOf(e, side) == NO_QUOTE)
  {}

  lemma {:induction false} QuoteDone(p: Params, d: Desk, side: Side, stale: bool, px: int, t: Top, ts: nat)
    requires t.Top? && (stale && !Blocked(p, d.s.pos.inv, side) ==> Budget(d, 1))
    ensures var e := QuoteIf(p, d, side, stale, px, t, ts);
            if stale && !Blocked(p, d.s.pos.inv, side) then
              && OneSide(d, e, side, [Msg(d.shard, side, px, p.quoteQty, ts)]) && Resting(e, side) == px
              && QuoteOf(e, side) == Quote(px, p.quoteQty, if px == TouchPx(t, side) then TouchQty(t, side) else 0)
            else e == d
  {}

  lemma {:induction false} NeverBoth(p: Params, inv: int)
    ensures !(Blocked(p, inv, Buy) && Blocked(p, inv, Sell))
  {}

  ghost function Messages(p: Params, d: Desk, bidPx: int, askPx: int, ts: nat): seq<Msg> {
    CancelMsgs(p, d, Buy, ts) + CancelMsgs(p, d, Sell, ts) + QuoteMsgs(p, d, Buy, bidPx, ts)
    + QuoteMsgs(p, d, Sell, askPx, ts)
  }

  lemma {:induction false} CancelsDone(p: Params, d: Desk, ts: nat)
    requires Budget(d, 2)
    ensures var c := CancelBlocked(p, CancelBlocked(p, d, Buy, ts), Sell, ts);
            && c.s.pos == d.s.pos && c.shard == d.shard && c.s.panic == d.s.panic
            && c.out == d.out + (CancelMsgs(p, d, Buy, ts) + CancelMsgs(p, d, Sell, ts))
            && Budget(c, 1) && (!Blocked(p, d.s.pos.inv, Buy) && !Blocked(p, d.s.pos.inv, Sell) ==> Budget(c, 2))
            && (forall side ::
                  if CancelMsgs(p, d, side, ts) == []
                  then Resting(c, side) == Resting(d, side) && QuoteOf(c, side) == QuoteOf(d, side)
                  else Resting(c, side) == 0 && QuoteOf(c, side) == NO_QUOTE)
  {
    var b := CancelBlocked(p, d, Buy, ts);
    NeverBoth(p, d.s.pos.inv);
    CancelDone(p, d, Buy, ts);
    CancelDone(p, b, Sell, ts);
    assert CancelMsgs(p, b, Sell, ts) == CancelMsgs(p, d, Sell, ts);
    Assoc(d.out, CancelMsgs(p, d, Buy, ts), CancelMsgs(p, d, Sell, ts));
    var c := CancelBlocked(p, b, Sell, ts);
    forall side
      ensures if CancelMsgs(p, d, side, ts) == []
              then Resting(c, side) == Resting(d, side) && QuoteOf(c, side) == QuoteOf(d, side)
              else Resting(c, side) == 0 && QuoteOf(c, side) == NO_QUOTE
    {
      match side case Buy => case Sell =>
    }
  }

  // Requoting with two messages to spend settles both sides and sends exactly what that takes, cancels first.
  lemma {:induction false} RequoteSettles(p: Params, d: Desk, bidPx: int, askPx: int, t: Top, ts: nat)
    requires t.Top? && Budget(d, 2)
    ensures var r := Requote(p, d, bidPx, askPx, t, ts);
            && SideDone(p, d, r, Buy, bidPx, t) && SideDone(p, d, r, Sell, askPx, t)
            && r.out == d.out + Messages(p, d, bidPx, askPx, ts) && |Messages(p, d, bidPx, askPx, ts)| <= 2
  {
    var staleBid := Stale(d.s.restBid, bidPx, p.requoteThreshold);
    var staleAsk := Stale(d.s.restAsk, askPx, p.requoteThreshold);
    NeverBoth(p, d.s.pos.inv);
    CancelsDone(p, d, ts);
    var c := CancelBlocked(p, CancelBlocked(p, d, Buy, ts), Sell, ts);
    QuoteDone(p, c, Buy, staleBid, bidPx, t, ts);
    var b := QuoteIf(p, c, Buy, staleBid, bidPx, t, ts);
    QuoteDone(p, b, Sell, staleAsk, askPx, t, ts);
    assert b.out == c.out + QuoteMsgs(p, d, Buy, bidPx, ts);
  }

  // The event gets as far as quoting: not halted, a book with two sides that do not cross, a position inside the
  // panic band, and prices that make sense.
  ghost predicate Quotes(p: Params, d: Desk, kill: bool, t: Top) {
    && !kill && !d.s.panic && t.Top? && t.bid < t.ask && Abs(d.s.pos.inv) <= Panic(p)
    && var s := Observe(p, d.s, t); 0 < BidPx(p, s) < AskPx(p, s)
  }

  // The desk as the event has it when it comes to quoting.
  function Seen(p: Params, d: Desk, t: Top, ts: nat): Desk
    requires t.Top?
  {
    var f := Refills(p, d, ts);
    f.(s := Observe(p, f.s, t))
  }

  lemma {:induction false} OnBookQuotes(p: Params, d: Desk, kill: bool, t: Top, ts: nat)
    requires Quotes(p, d, kill, t)
    ensures var s := Observe(p, d.s, t);
            OnBook(p, d, kill, t, ts) == Requote(p, Seen(p, d, t, ts), BidPx(p, s), AskPx(p, s), t, ts)
  {
    SamePrices(p, Observe(p, d.s, t), Seen(p, d, t, ts).s);
  }

  // A side that is done rests at the price or within the threshold of it, and a blocked one does not rest at all.
  ghost predicate SideTracks(p: Params, d: Desk, r: Desk, side: Side, px: int) {
    if Blocked(p, d.s.pos.inv, side) then Resting(r, side) == 0
    else Resting(r, side) == px || (Resting(r, side) != 0 && Abs(px - Resting(r, side)) < p.requoteThreshold)
  }

  lemma {:induction false} DoneTracks(p: Params, d: Desk, r: Desk, side: Side, px: int, t: Top)
    requires t.Top? && SideDone(p, d, r, side, px, t)
    ensures SideTracks(p, d, r, side, px)
  {}

  lemma {:induction false} SeenSame(p: Params, d: Desk, e: Desk, r: Desk, side: Side, px: int, t: Top, ts: nat)
    requires t.Top? && e == Seen(p, d, t, ts)
    ensures SideDone(p, e, r, side, px, t) ==> SideDone(p, d, r, side, px, t)
    ensures CancelMsgs(p, e, side, ts) == CancelMsgs(p, d, side, ts)
    ensures QuoteMsgs(p, e, side, px, ts) == QuoteMsgs(p, d, side, px, ts) && e.out == d.out
  {}

  // Where an event quotes and the refilled buckets have two messages to spend, both sides are done afterwards, for
  // the prices of the new book, and what goes out is exactly what that takes.
  lemma {:induction false} QuotesTrack(p: Params, d: Desk, kill: bool, t: Top, ts: nat)
    requires Quotes(p, d, kill, t) && Budget(Refills(p, d, ts), 2)
    ensures var r, s := OnBook(p, d, kill, t, ts), Observe(p, d.s, t);
            && SideDone(p, d, r, Buy, BidPx(p, s), t) && SideDone(p, d, r, Sell, AskPx(p, s), t)
            && SideTracks(p, d, r, Buy, BidPx(p, s)) && SideTracks(p, d, r, Sell, AskPx(p, s))
            && r.out == d.out + Messages(p, d, BidPx(p, s), AskPx(p, s), ts)
  {
    var e, s, r := Seen(p, d, t, ts), Observe(p, d.s, t), OnBook(p, d, kill, t, ts);
    OnBookQuotes(p, d, kill, t, ts);
    RequoteSettles(p, e, BidPx(p, s), AskPx(p, s), t, ts);
    SeenSame(p, d, e, r, Buy, BidPx(p, s), t, ts);
    SeenSame(p, d, e, r, Sell, AskPx(p, s), t, ts);
    DoneTracks(p, d, r, Buy, BidPx(p, s), t);
    DoneTracks(p, d, r, Sell, AskPx(p, s), t);
  }

  lemma {:induction false} SamePrices(p: Params, s: State, r: State)
    requires s.ema == r.ema && s.mid == r.mid && s.pos.inv == r.pos.inv
    ensures BidPx(p, s) == BidPx(p, r) && AskPx(p, s) == AskPx(p, r)
  {
    SkewIs(p, s);
    SkewIs(p, r);
  }

  lemma {:induction false} SkewIs(p: Params, s: State)
    ensures Skew(p, s) == 0.0 - Clamp(s.mid - s.ema, p.maxSkew as real) - Lean(p, s.pos.inv)
  {}

  // Without a message to spend nothing goes out and no quote changes.
  lemma {:induction false} NoBudget(p: Params, d: Desk, kill: bool, t: Top, ts: nat)
    requires Quotes(p, d, kill, t) && !Budget(Refills(p, d, ts), 1)
    ensures var r := OnBook(p, d, kill, t, ts); r.out == d.out && r.bid == d.bid && r.ask == d.ask
  {
    var s := Observe(p, d.s, t);
    OnBookQuotes(p, d, kill, t, ts);
    BrokeStays(p, Seen(p, d, t, ts), BidPx(p, s), AskPx(p, s), t, ts);
  }

  lemma {:induction false} BrokeStays(p: Params, d: Desk, bidPx: int, askPx: int, t: Top, ts: nat)
    requires t.Top? && !Budget(d, 1)
    ensures Requote(p, d, bidPx, askPx, t, ts) == d
  {}

  // The position is beyond the panic band when a book is seen.
  predicate Over(p: Params, d: Desk, t: Top) { t.Top? && t.bid < t.ask && Abs(d.s.pos.inv) > Panic(p) }

  // A book event halts the symbol exactly when its position is beyond the panic band, and never moves the position.
  lemma {:induction false} HaltsIff(p: Params, d: Desk, kill: bool, t: Top, ts: nat)
    ensures var r := OnBook(p, d, kill, t, ts);
            && (r.s.panic <==> d.s.panic || (!kill && Over(p, d, t)))
            && r.s.pos == d.s.pos && r.shard == d.shard
  {
    var f := Refills(p, d, ts);
    if t.Top? {
      var e := f.(s := Observe(p, f.s, t));
      RequoteKeeps(p, e, BidPx(p, e.s), AskPx(p, e.s), t, ts);
    }
  }

  lemma {:induction false} CancelKeeps(p: Params, d: Desk, side: Side, ts: nat)
    ensures var r := CancelBlocked(p, d, side, ts); r.s.panic == d.s.panic && r.s.pos == d.s.pos && r.shard == d.shard
  {}

  lemma {:induction false} QuoteKeeps(p: Params, d: Desk, side: Side, stale: bool, px: int, t: Top, ts: nat)
    requires t.Top?
    ensures var r := QuoteIf(p, d, side, stale, px, t, ts);
            r.s.panic == d.s.panic && r.s.pos == d.s.pos && r.shard == d.shard
  {}

  lemma {:induction false} RequoteKeeps(p: Params, d: Desk, bidPx: int, askPx: int, t: Top, ts: nat)
    requires t.Top?
    ensures var r := Requote(p, d, bidPx, askPx, t, ts);
            r.s.panic == d.s.panic && r.s.pos == d.s.pos && r.shard == d.shard
  {
    var b := CancelBlocked(p, d, Buy, ts);
    var c := CancelBlocked(p, b, Sell, ts);
    CancelKeeps(p, d, Buy, ts);
    CancelKeeps(p, b, Sell, ts);
    var staleBid := Stale(d.s.restBid, bidPx, p.requoteThreshold);
    QuoteKeeps(p, c, Buy, staleBid, bidPx, t, ts);
    QuoteKeeps(p, QuoteIf(p, c, Buy, staleBid, bidPx, t, ts), Sell, Stale(d.s.restAsk, askPx, p.requoteThreshold),
               askPx, t, ts);
  }

  // An event that does not quote sends nothing, and leaves the quotes alone unless the symbol is halted.
  lemma {:induction false} IdleEvents(p: Params, d: Desk, kill: bool, t: Top, ts: nat)
    requires !Quotes(p, d, kill, t)
    ensures var r := OnBook(p, d, kill, t, ts);
            && r.out == d.out
            && (!kill && !d.s.panic && !Over(p, d, t) ==>
                  r.bid == d.bid && r.ask == d.ask && r.s.restBid == d.s.restBid && r.s.restAsk == d.s.restAsk)
  {
    if t.Top? { SamePrices(p, Observe(p, d.s, t), Observe(p, Refills(p, d, ts).s, t)); }
  }

  // A trade moves the position by what the quote lost, at the quote's own price, and leaves the other side alone.
  lemma {:induction false} TradeMoves(d: Desk, side: Side, t: Trade, ts: nat)
    requires QuoteOk(d.bid) && QuoteOk(d.ask)
    ensures var r, q := OnTrade(d, side, t, ts), QuoteOf(d, side);
            var n := q.qty - QuoteOf(r, side).qty;
            var signed := if side == Buy then n else -n;
            && n >= 0 && r.s.pos.inv == d.s.pos.inv + signed && r.s.pos.cash == d.s.pos.cash - signed * q.px
            && QuoteOf(r, Other(side)) == QuoteOf(d, Other(side)) && Resting(r, Other(side)) == Resting(d, Other(side))
            && Resting(r, side) == (if n == 0 then Resting(d, side) else 0) && r.out == d.out
  {
    TradeConserves(side, QuoteOf(d, side), t);
  }
}
