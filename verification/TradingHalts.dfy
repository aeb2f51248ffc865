/** What a kill does over whole runs: a halted symbol sends nothing, and can only fill what it had resting. */
module TradingHalts {
  import opened FillSim
  import opened MarketMaker
  import opened TradingRuns

  predicate Halted(f: Floor, i: nat)
    requires i < |f.shards|
  {
    f.kill || f.shards[i].s.panic
  }

  predicate Rearms(e: Event, i: nat) { e.ArmAll? || (e.Arm? && e.shard == i) }

  // The most and the least a symbol can come to hold if nothing more is quoted.
  function Longest(h: Shard): int { h.s.pos.inv + h.bid.qty }

  function Shortest(h: Shard): int { h.s.pos.inv - h.ask.qty }

  // A fill moves quantity from a quote to the position, and flattening only cancels.
  lemma {:induction false} TradeKeepsReach(d: Desk, side: Side, t: Trade, ts: nat)
    requires QuoteOk(d.bid) && QuoteOk(d.ask)
    ensures var e := OnTrade(d, side, t, ts);
            && QuoteOk(e.bid) && QuoteOk(e.ask) && e.out == d.out && e.s.panic == d.s.panic
            && e.s.pos.inv + e.bid.qty <= d.s.pos.inv + d.bid.qty
            && e.s.pos.inv - e.ask.qty >= d.s.pos.inv - d.ask.qty
  {
    TradeConserves(side, if side == Buy then d.bid else d.ask, t);
  }

  lemma {:induction false} FlattenKeepsReach(d: Desk)
    requires QuoteOk(d.bid) && QuoteOk(d.ask)
    ensures var e := Flatten(d);
            && e.out == d.out && e.s.panic == d.s.panic && e.s.pos == d.s.pos
            && e.bid.qty <= d.bid.qty && e.ask.qty <= d.ask.qty
  {}

  // An event of the halted symbol itself: its trade, then the flattening.
  lemma {:induction false} HaltOwn(p: Params, f: Floor, e: Event)
    requires QuotesOk(f) && EventOk(f, e) && e.Book? && Halted(f, e.shard)
    ensures var g, i := Next(p, f, e), e.shard;
            && Halted(g, i) && g.out == f.out
            && Longest(g.shards[i]) <= Longest(f.shards[i]) && Shortest(g.shards[i]) >= Shortest(f.shards[i])
  {
    var i, d, t := e.shard, DeskAt(f, e.shard), Traded(f, e);
    assert QuoteOk(d.bid) && QuoteOk(d.ask);
    if e.trade.Some? { TradeKeepsReach(d, e.trade.value.0, e.trade.value.1, e.ts); }
    FlattenKeepsReach(t);
    assert Next(p, f, e) == Put(f, i, Flatten(t));
  }

  // Any other event leaves the symbol as it is.
  lemma {:induction false} HaltOther(p: Params, f: Floor, e: Event, i: nat)
    requires ParamsOk(p) && FloorOk(p, f) && QuotesOk(f) && EventOk(f, e) && i < |f.shards|
    requires Halted(f, i) && !Rearms(e, i) && !(e.Book? && e.shard == i)
    ensures var g := Next(p, f, e);
            && Halted(g, i) && Count(g.out, i) == Count(f.out, i)
            && g.shards[i].s.pos == f.shards[i].s.pos && g.shards[i].bid == f.shards[i].bid
            && g.shards[i].ask == f.shards[i].ask
  {
    NextSpends(p, f, e, i);
  }

  lemma {:induction false} HaltStep(p: Params, f: Floor, e: Event, i: nat)
    requires ParamsOk(p) && FloorOk(p, f) && QuotesOk(f) && EventOk(f, e) && i < |f.shards|
    requires Halted(f, i) && !Rearms(e, i)
    ensures var g := Next(p, f, e);
            && Halted(g, i) && Count(g.out, i) == Count(f.out, i)
            && Longest(g.shards[i]) <= Longest(f.shards[i]) && Shortest(g.shards[i]) >= Shortest(f.shards[i])
  {
    if e.Book? && e.shard == i { HaltOwn(p, f, e); } else { HaltOther(p, f, e, i); }
  }

  lemma {:induction false} HaltedNext(p: Params, states: seq<Floor>, events: seq<Event>, k: nat, i: nat)
    requires ParamsOk(p) && IsRun(p, states, events) && k < |events| && i < |states[k].shards|
    requires Halted(states[k], i) && !Rearms(events[k], i)
    ensures |states[k + 1].shards| == |states[k].shards| && Halted(states[k + 1], i)
    ensures Count(states[k + 1].out, i) == Count(states[k].out, i)
    ensures Longest(states[k + 1].shards[i]) <= Longest(states[k].shards[i])
    ensures Shortest(states[k + 1].shards[i]) >= Shortest(states[k].shards[i])
  {
    RunOk(p, states, events, k);
    HaltStep(p, states[k], events[k], i);
  }

  lemma {:induction false} HaltedRun(p: Params, states: seq<Floor>, events: seq<Event>, a: nat, b: nat, i: nat)
    requires ParamsOk(p) && IsRun(p, states, events) && a <= b < |states| && i < |states[a].shards|
    requires Halted(states[a], i) && forall k :: a <= k < b ==> !Rearms(events[k], i)
    ensures |states[b].shards| == |states[a].shards| && Halted(states[b], i)
    ensures Count(states[b].out, i) == Count(states[a].out, i)
    ensures Longest(states[b].shards[i]) <= Longest(states[a].shards[i])
    ensures Shortest(states[b].shards[i]) >= Shortest(states[a].shards[i])
    decreases b
  {
    if b > a {
      HaltedRun(p, states, events, a, b - 1, i);
      HaltedNext(p, states, events, b - 1, i);
    }
  }

  // From a kill until the symbol is armed again, in every run: no message of the symbol goes out, and
  // its position stays within what it could already reach with the quotes it had resting.
  lemma {:induction false} HaltedExposure(p: Params, states: seq<Floor>, events: seq<Event>, a: nat, b: nat, i: nat)
    requires ParamsOk(p) && IsRun(p, states, events) && a <= b < |states| && i < |states[a].shards|
    requires Halted(states[a], i) && forall k :: a <= k < b ==> !Rearms(events[k], i)
    ensures |states[b].shards| == |states[a].shards| && Halted(states[b], i)
    ensures Count(states[b].out, i) == Count(states[a].out, i)
    ensures Shortest(states[a].shards[i]) <= states[b].shards[i].s.pos.inv <= Longest(states[a].shards[i])
  {
    HaltedRun(p, states, events, a, b, i);
    RunOk(p, states, events, b);
    assert QuoteOk(states[b].shards[i].bid) && QuoteOk(states[b].shards[i].ask);
  }

  // ---------- the switches ----------

  // What an event is about, if it is about one symbol.
  predicate About(e: Event, i: nat) { !e.KillAll? && !e.ArmAll? && e.shard == i }

  // A kill halts and an arm frees, one symbol or all: no switch touches a position or a quote or sends anything,
  // and none but those for all touches another symbol.
  lemma {:induction false} SwitchesWork(p: Params, f: Floor, e: Event, i: nat)
    requires QuotesOk(f) && EventOk(f, e) && !e.Book? && i < |f.shards|
    ensures var g := Next(p, f, e);
            && g.out == f.out && g.agg == f.agg && g.shards[i].s.pos == f.shards[i].s.pos
            && g.shards[i].bid == f.shards[i].bid && g.shards[i].ask == f.shards[i].ask
            && (e.KillAll? || (e.Kill? && About(e, i)) ==> Halted(g, i))
            && (e.ArmAll? ==> !Halted(g, i)) && (e.Arm? && About(e, i) ==> (Halted(g, i) <==> f.kill))
            && ((e.Kill? || e.Arm?) && !About(e, i) ==> (Halted(g, i) <==> Halted(f, i)))
  {}

  // A book event touches no other symbol.
  lemma {:induction false} OthersUntouched(p: Params, f: Floor, e: Event, i: nat)
    requires QuotesOk(f) && EventOk(f, e) && e.Book? && i < |f.shards| && i != e.shard
    ensures Next(p, f, e).shards[i] == f.shards[i] && Next(p, f, e).kill == f.kill
  {}
}
