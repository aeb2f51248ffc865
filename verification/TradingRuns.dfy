/** Runs of the trading engine: any number of symbols, each with its book events and trades, kills and
    re-arms, in any order, over one shared message budget. */
module TradingRuns {
  import opened Bytes
  import opened Buckets
  import opened FillSim
  import opened Pnl
  import opened MarketMaker

  datatype Shard = Shard(s: State, bid: Quote, ask: Quote)

  datatype Floor = Floor(shards: seq<Shard>, agg: Bucket, kill: bool, out: seq<Msg>)

  // A book event may carry a trade, which is applied first. `ts` is the event's time.
  datatype Event =
    | Book(shard: nat, trade: Option<(Side, Trade)>, top: Top, ts: nat)
    | Kill(shard: nat)
    | Arm(shard: nat)
    | KillAll
    | ArmAll

  function DeskAt(f: Floor, i: nat): Desk
    requires i < |f.shards|
  {
    Desk(i, f.shards[i].s, f.shards[i].bid, f.shards[i].ask, f.agg, f.out)
  }

  function Put(f: Floor, i: nat, d: Desk): Floor
    requires i < |f.shards|
  {
    f.(shards := f.shards[i := Shard(d.s, d.bid, d.ask)], agg := d.agg, out := d.out)
  }

  function SetPanic(f: Floor, i: nat, on: bool): Floor
    requires i < |f.shards|
  {
    f.(shards := f.shards[i := f.shards[i].(s := f.shards[i].s.(panic := on))])
  }

  predicate EventOk(f: Floor, e: Event) {
    match e
    case Book(i, _, top, _) => i < |f.shards| && TopOk(top)
    case Kill(i) => i < |f.shards|
    case Arm(i) => i < |f.shards|
    case _ => true
  }

  predicate QuotesOk(f: Floor) {
    forall i :: 0 <= i < |f.shards| ==> QuoteOk(f.shards[i].bid) && QuoteOk(f.shards[i].ask)
  }

  function Traded(f: Floor, e: Event): Desk
    requires QuotesOk(f) && EventOk(f, e) && e.Book?
  {
    var d := DeskAt(f, e.shard);
    if e.trade.Some? then OnTrade(d, e.trade.value.0, e.trade.value.1, e.ts) else d
  }

  function Next(p: Params, f: Floor, e: Event): (g: Floor)
    requires QuotesOk(f) && EventOk(f, e)
    ensures |g.shards| == |f.shards|
  {
    match e
    case Book(i, _, top, ts) => Put(f, i, OnBook(p, Traded(f, e), f.kill, top, ts))
    case Kill(i) => SetPanic(f, i, true)
    case Arm(i) => SetPanic(f, i, false)
    case KillAll => f.(kill := true)
    case ArmAll =>
      f.(kill := false,
         shards := seq(|f.shards|, i requires 0 <= i < |f.shards| => f.shards[i].(s := f.shards[i].s.(panic := false))))
  }

  // ---------- what holds in every reachable state ----------

  ghost predicate FloorOk(p: Params, f: Floor) {
    && InRange(f.agg, AggregateKnobs(p))
    && forall i :: 0 <= i < |f.shards| ==> DeskOk(p, DeskAt(f, i))
  }

  lemma {:induction false} FloorQuotes(p: Params, f: Floor)
    requires FloorOk(p, f)
    ensures QuotesOk(f)
  {
    forall i | 0 <= i < |f.shards| ensures QuoteOk(f.shards[i].bid) && QuoteOk(f.shards[i].ask) {
      assert DeskOk(p, DeskAt(f, i));
    }
  }

  function Fresh(p: Params): State { State(0.0, 0.0, false, false, FLAT, 0, 0, Bucket(p.burst, 0)) }

  ghost predicate Initial(p: Params, f: Floor) {
    && f.agg == Bucket(p.burst, 0) && f.out == []
    && forall i :: 0 <= i < |f.shards| ==> f.shards[i] == Shard(Fresh(p), NO_QUOTE, NO_QUOTE)
  }

  lemma {:induction false} InitialOk(p: Params, f: Floor)
    requires ParamsOk(p) && Initial(p, f)
    ensures FloorOk(p, f) && QuotesOk(f)
  {}

  // An event leaves the other symbols as they are, but for the shared bucket.
  lemma {:induction false} PutOk(p: Params, f: Floor, i: nat, d: Desk)
    requires FloorOk(p, f) && i < |f.shards| && d.shard == i && DeskOk(p, d)
    ensures FloorOk(p, Put(f, i, d))
  {
    forall j | 0 <= j < |f.shards| ensures DeskOk(p, DeskAt(Put(f, i, d), j)) {
      assert DeskOk(p, DeskAt(f, j));
    }
  }

  lemma {:induction false} TradedOk(p: Params, f: Floor, e: Event)
    requires ParamsOk(p) && FloorOk(p, f) && QuotesOk(f) && EventOk(f, e) && e.Book?
    ensures DeskOk(p, Traded(f, e)) && Traded(f, e).shard == e.shard && Traded(f, e).out == f.out
    ensures Traded(f, e).agg == f.agg && Traded(f, e).s.bucket == f.shards[e.shard].s.bucket
    ensures Traded(f, e).s.panic == f.shards[e.shard].s.panic
  {
    var d := DeskAt(f, e.shard);
    assert DeskOk(p, d);
    if e.trade.Some? { OnTradeOk(p, d, e.trade.value.0, e.trade.value.1, e.ts); }
  }

  lemma {:induction false} SetPanicOk(p: Params, f: Floor, i: nat, on: bool)
    requires FloorOk(p, f) && i < |f.shards|
    ensures FloorOk(p, SetPanic(f, i, on))
  {
    forall j | 0 <= j < |f.shards| ensures DeskOk(p, DeskAt(SetPanic(f, i, on), j)) {
      assert DeskOk(p, DeskAt(f, j));
    }
  }

  lemma {:induction false} NextOk(p: Params, f: Floor, e: Event)
    requires ParamsOk(p) && FloorOk(p, f) && QuotesOk(f) && EventOk(f, e)
    ensures FloorOk(p, Next(p, f, e)) && QuotesOk(Next(p, f, e))
  {
    match e {
      case Book(i, _, top, ts) =>
        TradedOk(p, f, e);
        OnBookOk(p, Traded(f, e), f.kill, top, ts);
        PutOk(p, f, i, OnBook(p, Traded(f, e), f.kill, top, ts));
      case Kill(i) => SetPanicOk(p, f, i, true);
      case Arm(i) => SetPanicOk(p, f, i, false);
      case _ =>
        forall j | 0 <= j < |f.shards| ensures DeskOk(p, DeskAt(Next(p, f, e), j)) {
          assert DeskOk(p, DeskAt(f, j));
        }
    }
    FloorQuotes(p, Next(p, f, e));
  }

  ghost predicate IsRun(p: Params, states: seq<Floor>, events: seq<Event>) {
    && |states| == |events| + 1 && Initial(p, states[0])
    && forall k :: 0 <= k < |events| ==>
         QuotesOk(states[k]) && EventOk(states[k], events[k]) && states[k + 1] == Next(p, states[k], events[k])
  }

  lemma {:induction false} RunOk(p: Params, states: seq<Floor>, events: seq<Event>, k: nat)
    requires ParamsOk(p) && IsRun(p, states, events) && k < |states|
    ensures FloorOk(p, states[k]) && QuotesOk(states[k])
  {
    if k == 0 {
      InitialOk(p, states[0]);
    } else {
      RunOk(p, states, events, k - 1);
      NextOk(p, states[k - 1], events[k - 1]);
    }
  }

  // In every state of every run, on every symbol: what is held plus what may still fill is within the
  // hard band and one quote, cancels refused by the message budget or not; so is the position; a panic
  // band at or above that is never crossed; and the profit booked is the cash and the position at cost.
  lemma {:induction false} InventoryBound(p: Params, states: seq<Floor>, events: seq<Event>, k: nat, i: nat)
    requires ParamsOk(p) && IsRun(p, states, events) && k < |states| && i < |states[k].shards|
    ensures var h := states[k].shards[i];
            && h.s.pos.inv + h.bid.qty <= Bound(p) && -h.s.pos.inv + h.ask.qty <= Bound(p)
            && Abs(h.s.pos.inv) <= Bound(p)
            && (Bound(p) <= Panic(p) ==> Abs(h.s.pos.inv) <= Panic(p))
            && Books(h.s.pos)
  {
    RunOk(p, states, events, k);
    assert DeskOk(p, DeskAt(states[k], i));
    InventoryWithin(p, DeskAt(states[k], i));
  }

  // ---------- message rates ----------

  // `e` is `d` after sending some messages, each of which took a token from both buckets.
  ghost predicate Spent(d: Desk, e: Desk) {
    && |d.out| <= |e.out| && e.out[..|d.out|] == d.out && e.shard == d.shard
    && (forall k :: |d.out| <= k < |e.out| ==> e.out[k].shard == d.shard)
    && var n := |e.out| - |d.out|;
       && e.agg == d.agg.(tokens := d.agg.tokens - n) && n <= Max(0, d.agg.tokens)
       && e.s.bucket == d.s.bucket.(tokens := d.s.bucket.tokens - n) && n <= Max(0, d.s.bucket.tokens)
  }

  lemma {:induction false} SpentTrans(d: Desk, e: Desk, f: Desk)
    requires Spent(d, e) && Spent(e, f)
    ensures Spent(d, f)
  {}

  lemma {:induction false} CancelSpent(p: Params, d: Desk, side: Side, ts: nat)
    ensures Spent(d, CancelBlocked(p, d, side, ts))
  {}

  lemma {:induction false} QuoteSpent(p: Params, d: Desk, side: Side, stale: bool, px: int, t: Top, ts: nat)
    requires t.Top?
    ensures Spent(d, QuoteIf(p, d, side, stale, px, t, ts))
  {}

  lemma {:induction false} CancelsSpent(p: Params, d: Desk, ts: nat)
    ensures Spent(d, CancelBlocked(p, CancelBlocked(p, d, Buy, ts), Sell, ts))
  {
    var b := CancelBlocked(p, d, Buy, ts);
    CancelSpent(p, d, Buy, ts);
    CancelSpent(p, b, Sell, ts);
    SpentTrans(d, b, CancelBlocked(p, b, Sell, ts));
  }

  lemma {:induction false} QuotesSpent(p: Params, d: Desk, staleBid: bool, bidPx: int, staleAsk: bool, askPx: int,
                                       t: Top, ts: nat)
    requires t.Top?
    ensures Spent(d, QuoteIf(p, QuoteIf(p, d, Buy, staleBid, bidPx, t, ts), Sell, staleAsk, askPx, t, ts))
  {
    var b := QuoteIf(p, d, Buy, staleBid, bidPx, t, ts);
    QuoteSpent(p, d, Buy, staleBid, bidPx, t, ts);
    QuoteSpent(p, b, Sell, staleAsk, askPx, t, ts);
    SpentTrans(d, b, QuoteIf(p, b, Sell, staleAsk, askPx, t, ts));
  }

  lemma {:induction false} RequoteSpent(p: Params, d: Desk, bidPx: int, askPx: int, t: Top, ts: nat)
    requires t.Top?
    ensures Spent(d, Requote(p, d, bidPx, askPx, t, ts))
  {
    var c := CancelBlocked(p, CancelBlocked(p, d, Buy, ts), Sell, ts);
    CancelsSpent(p, d, ts);
    QuotesSpent(p, c, Stale(d.s.restBid, bidPx, p.requoteThreshold), bidPx,
                Stale(d.s.restAsk, askPx, p.requoteThreshold), askPx, t, ts);
    SpentTrans(d, c, Requote(p, d, bidPx, askPx, t, ts));
  }

  lemma {:induction false} LiveSpent(p: Params, d: Desk, t: Top, ts: nat)
    ensures Spent(d, Live(p, d, t, ts))
  {
    if t.Top? && t.bid < t.ask {
      var e := d.(s := Observe(p, d.s, t));
      RequoteSpent(p, e, BidPx(p, e.s), AskPx(p, e.s), t, ts);
    }
  }

  // Messages of one symbol.
  function Count(out: seq<Msg>, i: nat): nat {
    if out == [] then 0 else Count(out[..|out| - 1], i) + (if out[|out| - 1].shard == i then 1 else 0)
  }

  lemma {:induction false} CountSpent(d: Desk, e: Desk, n: nat, i: nat)
    requires |d.out| <= n <= |e.out| && Spent(d, e)
    ensures Count(e.out[..n], i) == Count(d.out, i) + (if i == d.shard then n - |d.out| else 0)
    decreases n
  {
    if n > |d.out| {
      CountSpent(d, e, n - 1, i);
      assert e.out[..n][..n - 1] == e.out[..n - 1];
    }
  }

  predicate Acts(f: Floor, e: Event)
    requires EventOk(f, e)
  {
    e.Book? && !f.kill && !f.shards[e.shard].s.panic
  }

  // What an event does to the shared bucket, to its symbol's bucket and to no other.
  lemma {:induction false} NextSpends(p: Params, f: Floor, e: Event, i: nat)
    requires ParamsOk(p) && FloorOk(p, f) && QuotesOk(f) && EventOk(f, e) && i < |f.shards|
    ensures var g := Next(p, f, e);
            var n := |g.out| - |f.out|;
            var mine := Count(g.out, i) - Count(f.out, i);
            if Acts(f, e) then
              && 0 <= n <= Refill(f.agg, e.ts, AggregateKnobs(p)).tokens
              && g.agg == Call(f.agg, Tick(e.ts, n), AggregateKnobs(p))
              && mine == (if i == e.shard then n else 0)
              && (if i == e.shard
                  then && 0 <= n <= Refill(f.shards[i].s.bucket, e.ts, SymbolKnobs(p)).tokens
                       && g.shards[i].s.bucket == Call(f.shards[i].s.bucket, Tick(e.ts, n), SymbolKnobs(p))
                  else g.shards[i].s.bucket == f.shards[i].s.bucket)
            else g.agg == f.agg && g.out == f.out && g.shards[i].s.bucket == f.shards[i].s.bucket
  {
    if Acts(f, e) {
      TradedOk(p, f, e);
      var d := Refills(p, Traded(f, e), e.ts);
      var l := Live(p, d, e.top, e.ts);
      LiveSpent(p, d, e.top, e.ts);
      CountSpent(d, l, |l.out|, i);
      assert l.out[..|l.out|] == l.out;
      RefillInRange(f.agg, e.ts, AggregateKnobs(p));
      RefillInRange(f.shards[e.shard].s.bucket, e.ts, SymbolKnobs(p));
    } else if e.Book? {
      TradedOk(p, f, e);
    }
  }

  // One of the buckets: the shared one, or a symbol's.
  datatype Budget = All | Of(shard: nat)

  function KnobsOf(p: Params, w: Budget): Knobs { if w.All? then AggregateKnobs(p) else SymbolKnobs(p) }

  predicate Has(f: Floor, w: Budget) { w.Of? ==> w.shard < |f.shards| }

  function BucketOf(f: Floor, w: Budget): Bucket
    requires Has(f, w)
  {
    if w.All? then f.agg else f.shards[w.shard].s.bucket
  }

  function SentOn(f: Floor, w: Budget): nat { if w.All? then |f.out| else Count(f.out, w.shard) }

  predicate ActsOn(f: Floor, e: Event, w: Budget)
    requires EventOk(f, e)
  {
    Acts(f, e) && (w.Of? ==> e.shard == w.shard)
  }

  // An event is one call on each bucket it acts on, and none on the others.
  lemma {:induction false} NextCalls(p: Params, f: Floor, e: Event, w: Budget)
    requires ParamsOk(p) && FloorOk(p, f) && QuotesOk(f) && EventOk(f, e) && Has(f, w)
    ensures SentOn(f, w) <= SentOn(Next(p, f, e), w)
    ensures if ActsOn(f, e, w) then
              var n := SentOn(Next(p, f, e), w) - SentOn(f, w);
              && n <= Refill(BucketOf(f, w), e.ts, KnobsOf(p, w)).tokens
              && BucketOf(Next(p, f, e), w) == Call(BucketOf(f, w), Tick(e.ts, n), KnobsOf(p, w))
            else BucketOf(Next(p, f, e), w) == BucketOf(f, w) && SentOn(Next(p, f, e), w) == SentOn(f, w)
  {
    if |f.shards| > 0 {
      NextSpends(p, f, e, if w.Of? then w.shard else 0);
    }
  }

  // The book events from position a up to b come in time order, from t1 to t2.
  predicate InOrder(events: seq<Event>, a: nat, b: nat, t1: nat, t2: nat)
    requires a <= b <= |events|
    decreases b - a
  {
    if a == b then t1 <= t2
    else if events[a].Book? then t1 <= events[a].ts && InOrder(events, a + 1, b, events[a].ts, t2)
    else InOrder(events, a + 1, b, t1, t2)
  }

  lemma {:induction false} OrderEnds(events: seq<Event>, a: nat, b: nat, t1: nat, t2: nat)
    requires a <= b <= |events| && InOrder(events, a, b, t1, t2)
    ensures t1 <= t2
    decreases b - a
  {
    if a < b { OrderEnds(events, a + 1, b, if events[a].Book? then events[a].ts else t1, t2); }
  }

  // The calls a stretch of a run makes on one bucket.
  ghost function CallsOn(p: Params, states: seq<Floor>, events: seq<Event>, a: nat, b: nat, w: Budget): seq<Tick>
    requires ParamsOk(p) && IsRun(p, states, events) && a <= b <= |events| && Has(states[0], w)
    decreases b - a
  {
    if a == b then []
    else
      var rest := CallsOn(p, states, events, a + 1, b, w);
      if !ActsOn(states[a], events[a], w) then rest
      else if SentOn(states[a], w) <= SentOn(states[a + 1], w)
      then [Tick(events[a].ts, SentOn(states[a + 1], w) - SentOn(states[a], w))] + rest
      else rest
  }

  lemma {:induction false} ShardsStay(p: Params, states: seq<Floor>, events: seq<Event>, k: nat)
    requires IsRun(p, states, events) && k < |states|
    ensures |states[k].shards| == |states[0].shards|
  {
    if k > 0 { ShardsStay(p, states, events, k - 1); }
  }

  lemma {:induction false} BucketInRange(p: Params, states: seq<Floor>, events: seq<Event>, a: nat, w: Budget)
    requires ParamsOk(p) && IsRun(p, states, events) && a < |states| && Has(states[0], w)
    ensures Has(states[a], w) && InRange(BucketOf(states[a], w), KnobsOf(p, w))
  {
    ShardsStay(p, states, events, a);
    RunOk(p, states, events, a);
    assert w.Of? ==> DeskOk(p, DeskAt(states[a], w.shard));
  }

  // One step of a run, seen from one bucket.
  lemma {:induction false} RunStep(p: Params, states: seq<Floor>, events: seq<Event>, a: nat, w: Budget)
    requires ParamsOk(p) && IsRun(p, states, events) && a < |events| && Has(states[0], w)
    ensures Has(states[a], w) && Has(states[a + 1], w)
    ensures SentOn(states[a], w) <= SentOn(states[a + 1], w)
    ensures EventOk(states[a], events[a])
    ensures if ActsOn(states[a], events[a], w) then
              var n := SentOn(states[a + 1], w) - SentOn(states[a], w);
              && events[a].Book? && n <= Refill(BucketOf(states[a], w), events[a].ts, KnobsOf(p, w)).tokens
              && BucketOf(states[a + 1], w) == Call(BucketOf(states[a], w), Tick(events[a].ts, n), KnobsOf(p, w))
            else
              && BucketOf(states[a + 1], w) == BucketOf(states[a], w)
              && SentOn(states[a + 1], w) == SentOn(states[a], w)
  {
    ShardsStay(p, states, events, a);
    RunOk(p, states, events, a);
    NextCalls(p, states[a], events[a], w);
  }

  lemma {:induction false} CallsStep(p: Params, states: seq<Floor>, events: seq<Event>, a: nat, b: nat, w: Budget)
    requires ParamsOk(p) && IsRun(p, states, events) && a < b <= |events| && Has(states[0], w)
    requires EventOk(states[a], events[a]) && SentOn(states[a], w) <= SentOn(states[a + 1], w)
    ensures CallsOn(p, states, events, a, b, w)
            == (if ActsOn(states[a], events[a], w)
              then [Tick(events[a].ts, SentOn(states[a + 1], w) - SentOn(states[a], w))] else [])
               + CallsOn(p, states, events, a + 1, b, w)
  {}

  lemma {:induction false} FeasibleFront(b: Bucket, c: Tick, rest: seq<Tick>, t1: nat, t2: nat, k: Knobs)
    requires t1 <= c.ts <= t2 && c.take <= Refill(b, c.ts, k).tokens && Feasible(Call(b, c, k), rest, c.ts, t2, k)
    ensures Feasible(b, [c] + rest, t1, t2, k) && Total([c] + rest) == c.take + Total(rest)
  {}

  lemma {:induction false} CallsFeasible(p: Params, states: seq<Floor>, events: seq<Event>, a: nat, b: nat, w: Budget,
                                         t1: nat, t2: nat)
    requires ParamsOk(p) && IsRun(p, states, events) && a <= b <= |events| && Has(states[0], w)
    requires InOrder(events, a, b, t1, t2)
    ensures Has(states[a], w) && Has(states[b], w)
    ensures Feasible(BucketOf(states[a], w), CallsOn(p, states, events, a, b, w), t1, t2, KnobsOf(p, w))
    ensures SentOn(states[b], w) - SentOn(states[a], w) == Total(CallsOn(p, states, events, a, b, w))
    decreases b - a
  {
    if a == b {
      ShardsStay(p, states, events, a);
    } else {
      var e, rest := events[a], CallsOn(p, states, events, a + 1, b, w);
      var t := if e.Book? then e.ts else t1;
      RunStep(p, states, events, a, w);
      CallsStep(p, states, events, a, b, w);
      CallsFeasible(p, states, events, a + 1, b, w, t, t2);
      OrderEnds(events, a + 1, b, t, t2);
      if ActsOn(states[a], e, w) {
        FeasibleFront(BucketOf(states[a], w), Tick(e.ts, SentOn(states[a + 1], w) - SentOn(states[a], w)), rest, t1,
          t2, KnobsOf(p, w));
      } else {
        FeasibleEarlier(BucketOf(states[a], w), rest, t1, t, t2, KnobsOf(p, w));
        assert [] + rest == rest;
      }
    }
  }

  lemma {:induction false} FeasibleEarlier(b: Bucket, calls: seq<Tick>, t: nat, t1: nat, t2: nat, k: Knobs)
    requires Feasible(b, calls, t1, t2, k) && t <= t1
    ensures Feasible(b, calls, t, t2, k)
  {}

  // In every stretch of every run, from t1 to t2, fewer than burst + 1 + rate * (t2 - t1) / 1e9 messages go
  // out, in all and for each symbol.
  lemma {:induction false} MessageRate(p: Params, states: seq<Floor>, events: seq<Event>, a: nat, b: nat,
                                       w: Budget, t1: nat, t2: nat)
    requires ParamsOk(p) && IsRun(p, states, events) && a <= b <= |events| && Has(states[0], w)
    requires InOrder(events, a, b, t1, t2)
    ensures SECOND * (SentOn(states[b], w) - SentOn(states[a], w))
            < SECOND * (p.burst + 1) + (t2 - t1) * KnobsOf(p, w).rate
  {
    CallsFeasible(p, states, events, a, b, w, t1, t2);
    OrderEnds(events, a, b, t1, t2);
    BucketInRange(p, states, events, a, w);
    RateBound(BucketOf(states[a], w), CallsOn(p, states, events, a, b, w), t1, t2, KnobsOf(p, w));
  }

  // The bucket at the end of a stretch is what its calls make of it.
  lemma {:induction false} CallsEnd(p: Params, states: seq<Floor>, events: seq<Event>, a: nat, b: nat, w: Budget)
    requires ParamsOk(p) && IsRun(p, states, events) && a <= b <= |events| && Has(states[0], w)
    ensures Has(states[a], w) && Has(states[b], w)
    ensures Ends(BucketOf(states[a], w), CallsOn(p, states, events, a, b, w), KnobsOf(p, w)) == BucketOf(states[b], w)
    ensures SentOn(states[b], w) - SentOn(states[a], w) == Total(CallsOn(p, states, events, a, b, w))
    decreases b - a
  {
    if a == b {
      ShardsStay(p, states, events, a);
    } else {
      var rest := CallsOn(p, states, events, a + 1, b, w);
      RunStep(p, states, events, a, w);
      CallsStep(p, states, events, a, b, w);
      CallsEnd(p, states, events, a + 1, b, w);
      if ActsOn(states[a], events[a], w) {
        var c := Tick(events[a].ts, SentOn(states[a + 1], w) - SentOn(states[a], w));
        EndsFront(BucketOf(states[a], w), c, rest, KnobsOf(p, w));
      } else {
        assert [] + rest == rest;
      }
    }
  }

  lemma {:induction false} EndsFront(b: Bucket, c: Tick, rest: seq<Tick>, k: Knobs)
    ensures Ends(b, [c] + rest, k) == Ends(Call(b, c, k), rest, k) && Total([c] + rest) == c.take + Total(rest)
  {
    assert ([c] + rest)[1..] == rest;
  }

  ghost predicate RunsDry(b: Bucket, calls: seq<Tick>, k: Knobs) { calls != [] && Draining(b, calls, k) }

  function LastTs(calls: seq<Tick>): nat { if calls == [] then 0 else calls[|calls| - 1].ts }

  // The budget is there to be used: when a bucket has run dry at the end of a stretch in which it was never full,
  // all its tokens and more than half of what the time since its last refill earned, less one, were sent.
  lemma {:induction false} MessageService(p: Params, states: seq<Floor>, events: seq<Event>, a: nat, b: nat, w: Budget)
    requires ParamsOk(p) && IsRun(p, states, events) && a <= b <= |events| && Has(states[0], w)
    requires Has(states[a], w) && Has(states[b], w) && BucketOf(states[b], w).tokens == 0
    requires RunsDry(BucketOf(states[a], w), CallsOn(p, states, events, a, b, w), KnobsOf(p, w))
    ensures SECOND * (2 * (SentOn(states[b], w) - SentOn(states[a], w) - BucketOf(states[a], w).tokens) + 1)
            > (LastTs(CallsOn(p, states, events, a, b, w)) - BucketOf(states[a], w).last) * KnobsOf(p, w).rate
  {
    CallsEnd(p, states, events, a, b, w);
    BucketInRange(p, states, events, a, w);
    var calls := CallsOn(p, states, events, a, b, w);
    DryBound(BucketOf(states[a], w), calls, KnobsOf(p, w), SentOn(states[b], w) - SentOn(states[a], w), LastTs(calls));
  }
}
