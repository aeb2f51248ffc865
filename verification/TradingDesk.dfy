/** The market maker and the engine's event loop as they run: state updated in place, symbol by symbol. */
module TradingDesk {
  import opened Bytes
  import opened Buckets
  import opened FillSim
  import opened Pnl
  import opened MarketMaker
  import opened TradingRuns

  method ApplyPnl(p0: Position, f: Fill) returns (p: Position)
    requires f.qty > 0
    ensures p == Apply(p0, f)
  {
    p := p0;
    var px := f.px as real;
    var signed := if f.side == Buy then f.qty else -f.qty;
    var oldInv, newInv := p.inv, p.inv + signed;
    p := p.(cash := p.cash - signed * f.px);
    if oldInv == 0 || (oldInv > 0 && signed > 0) || (oldInv < 0 && signed < 0) {
      var oldAbs, newAbs := Abs(oldInv) as real, Abs(newInv) as real;
      assert oldAbs == 0.0 <==> oldInv == 0;
      var avg := if oldAbs == 0.0 then px else Weighted(oldAbs, p.avg, f.qty as real, px, newAbs);
      p := p.(avg := avg, inv := newInv);
      return;
    }
    var closing := Min(Abs(oldInv), f.qty) as real;
    var gain := if oldInv > 0 then (px - p.avg) * closing else (p.avg - px) * closing;
    assert gain == Gain(p0, f);
    p := p.(realized := p.realized + Round(gain), exact := p.exact + gain, closes := p.closes + 1, inv := newInv);
    if newInv == 0 {
      p := p.(avg := 0.0);
    } else if (oldInv > 0 && newInv < 0) || (oldInv < 0 && newInv > 0) {
      p := p.(avg := px);
    }
    assert p.avg == Apply(p0, f).avg;
  }

  class Maker {
    const params: Params
    const states: array<State>
    var aggTokens: int
    var lastAgg: nat
    var kill: bool
    var out: seq<Msg>                  // what submit_ was called with

    ghost function View(i: nat, sim: Sim): Desk
      requires i < states.Length
      reads this, states, sim
    {
      Desk(i, states[i], sim.bid, sim.ask, Bucket(aggTokens, lastAgg), out)
    }

    constructor (p: Params, n: nat)
      ensures params == p && fresh(states) && states.Length == n
      ensures forall i :: 0 <= i < n ==> states[i] == TradingRuns.Fresh(p)
      ensures Bucket(aggTokens, lastAgg) == Bucket(p.burst, 0) && !kill && out == []
    {
      params := p;
      states := new State[n](_ => TradingRuns.Fresh(p));
      aggTokens, lastAgg, kill, out := p.burst, 0, false, [];
    }

    method RefillBuckets(i: nat, ts: nat)
      requires i < states.Length
      modifies states, this`aggTokens, this`lastAgg
      ensures states[..]
              == old(states[..])[i := old(states[i]).(bucket := Refill(old(states[i].bucket), ts, SymbolKnobs(params)))]
      ensures Bucket(aggTokens, lastAgg) == Refill(Bucket(old(aggTokens), old(lastAgg)), ts, AggregateKnobs(params))
    {
      var s := states[i];
      if s.bucket.last == 0 {
        states[i] := s.(bucket := s.bucket.(last := ts));
      } else if ts > s.bucket.last {
        var dt := ts - s.bucket.last;
        var add := ToInt32(dt * params.symbolRate % U64 / SECOND);
        if add > 0 {
          states[i] := s.(bucket := Bucket(Min(s.bucket.tokens + add, params.burst), ts));
        }
      }
      if lastAgg == 0 {
        lastAgg := ts;
      } else if ts > lastAgg {
        var dt := ts - lastAgg;
        var add := ToInt32(dt * params.aggregateRate % U64 / SECOND);
        if add > 0 {
          lastAgg := ts;
          aggTokens := Min(aggTokens + add, params.burst);
        }
      }
    }

    method TryConsume(i: nat) returns (ok: bool)
      requires i < states.Length
      modifies states, this`aggTokens
      ensures ok <==> old(states[i].bucket.tokens > 0 && aggTokens > 0)
      ensures aggTokens == old(aggTokens) - if ok then 1 else 0
      ensures var b := old(states[i].bucket);
              states[..]
                == old(states[..])[i := old(states[i]).(bucket := b.(tokens := b.tokens - if ok then 1 else 0))]
    {
      if states[i].bucket.tokens <= 0 || aggTokens <= 0 { return false; }
      states[i] := states[i].(bucket := states[i].bucket.(tokens := states[i].bucket.tokens - 1));
      aggTokens := aggTokens - 1;
      return true;
    }

    method FlattenShard(i: nat, sim: Sim)
      requires i < states.Length
      modifies states, sim
      ensures View(i, sim) == Flatten(old(View(i, sim))) && states[..] == old(states[..])[i := states[i]]
    {
      if states[i].restBid != 0 { sim.OnCancel(Buy); states[i] := states[i].(restBid := 0); }
      if states[i].restAsk != 0 { sim.OnCancel(Sell); states[i] := states[i].(restAsk := 0); }
    }

    method CancelSide(i: nat, sim: Sim, side: Side, blocked: bool, ts: nat)
      requires i < states.Length && blocked == Blocked(params, states[i].pos.inv, side)
      modifies states, sim, this`aggTokens, this`out
      ensures View(i, sim) == CancelBlocked(params, old(View(i, sim)), side, ts)
      ensures states[..] == old(states[..])[i := states[i]] && states[i].pos == old(states[i].pos)
    {
      var rest := if side == Buy then states[i].restBid else states[i].restAsk;
      if blocked && rest != 0 {
        var ok := TryConsume(i);
        if ok {
          sim.OnCancel(side);
          out := out + [Msg(i, side, rest, 0, ts)];
          states[i] := if side == Buy then states[i].(restBid := 0) else states[i].(restAsk := 0);
        }
      }
    }

    method QuoteSide(i: nat, sim: Sim, side: Side, requote: bool, blocked: bool, px: int, top: Top, ts: nat)
      requires i < states.Length && top.Top? && blocked == Blocked(params, states[i].pos.inv, side)
      modifies states, sim, this`aggTokens, this`out
      ensures View(i, sim) == QuoteIf(params, old(View(i, sim)), side, requote, px, top, ts)
      ensures states[..] == old(states[..])[i := states[i]] && states[i].pos == old(states[i].pos)
    {
      if requote && !blocked {
        var ok := TryConsume(i);
        if ok {
          sim.OnQuote(side, px, params.quoteQty, Ahead(top, side, px));
          out := out + [Msg(i, side, px, params.quoteQty, ts)];
          states[i] := if side == Buy then states[i].(restBid := px) else states[i].(restAsk := px);
        }
      }
    }

    method CancelSides(i: nat, sim: Sim, blockBuy: bool, blockSell: bool, ts: nat)
      requires i < states.Length
      requires blockBuy == Blocked(params, states[i].pos.inv, Buy)
               && blockSell == Blocked(params, states[i].pos.inv, Sell)
      modifies states, sim, this`aggTokens, this`out
      ensures View(i, sim) == CancelBlocked(params, CancelBlocked(params, old(View(i, sim)), Buy, ts), Sell, ts)
      ensures states[..] == old(states[..])[i := states[i]] && states[i].pos == old(states[i].pos)
    {
      CancelSide(i, sim, Buy, blockBuy, ts);
      CancelSide(i, sim, Sell, blockSell, ts);
    }

    // The part of on_book_event after the prices are known.
    method RequoteSides(i: nat, sim: Sim, bidPx: int, askPx: int, top: Top, ts: nat)
      requires i < states.Length && top.Top?
      modifies states, sim, this`aggTokens, this`out
      ensures View(i, sim) == Requote(params, old(View(i, sim)), bidPx, askPx, top, ts)
      ensures states[..] == old(states[..])[i := states[i]]
    {
      var s := states[i];
      var requoteB := s.restBid == 0 || Abs(bidPx - s.restBid) >= params.requoteThreshold;
      var requoteA := s.restAsk == 0 || Abs(askPx - s.restAsk) >= params.requoteThreshold;
      var hardBand := Abs(s.pos.inv) > Hard(params);
      var blockBuy, blockSell := hardBand && s.pos.inv > 0, hardBand && s.pos.inv < 0;
      CancelSides(i, sim, blockBuy, blockSell, ts);
      QuoteSide(i, sim, Buy, requoteB, blockBuy, bidPx, top, ts);
      QuoteSide(i, sim, Sell, requoteA, blockSell, askPx, top, ts);
    }

    method OnBookEvent(i: nat, sim: Sim, top: Top, ts: nat)
      requires i < states.Length
      modifies states, sim, this`aggTokens, this`lastAgg, this`out
      ensures View(i, sim) == OnBook(params, old(View(i, sim)), kill, top, ts)
      ensures states[..] == old(states[..])[i := states[i]]
    {
      if kill || states[i].panic { FlattenShard(i, sim); return; }
      RefillBuckets(i, ts);
      assert View(i, sim) == Refills(params, old(View(i, sim)), ts);
      if top.NoTop? || top.bid >= top.ask { return; }
      states[i] := Observe(params, states[i], top);
      var s := states[i];
      if Abs(s.pos.inv) > Panic(params) {
        states[i] := s.(panic := true);
        FlattenShard(i, sim);
        return;
      }
      var bidPx, askPx := BidPx(params, s), AskPx(params, s);
      if bidPx <= 0 || bidPx >= askPx { return; }
      RequoteSides(i, sim, bidPx, askPx, top, ts);
    }

    method ApplyFill(i: nat, f: Fill)
      requires i < states.Length && f.qty > 0
      modifies states
      ensures states[..] == old(states[..])[i := OnFill(old(states[i]), f)]
    {
      var s := states[i];
      var p := ApplyPnl(s.pos, f);
      s := s.(pos := p);
      states[i] := if f.side == Buy then s.(restBid := 0) else s.(restAsk := 0);
    }

    // An event of the feed for a symbol that is traded here: its trade, if it carries one, then the book.
    method OnFeedEvent(i: nat, sim: Sim, trade: Option<(Side, Trade)>, top: Top, ts: nat)
      requires i < states.Length && QuoteOk(sim.bid) && QuoteOk(sim.ask)
      modifies states, sim, this`aggTokens, this`lastAgg, this`out
      ensures var d := old(View(i, sim));
              var e := if trade.Some? then OnTrade(d, trade.value.0, trade.value.1, ts) else d;
              View(i, sim) == OnBook(params, e, kill, top, ts)
      ensures states[..] == old(states[..])[i := states[i]]
    {
      if trade.Some? {
        TradeConserves(trade.value.0, sim.At(trade.value.0), trade.value.1);
        var fill := sim.OnTrade(trade.value.0, trade.value.1.px, trade.value.1.qty, ts);
        if fill.Some? { ApplyFill(i, fill.value); }
        assert View(i, sim) == OnTrade(old(View(i, sim)), trade.value.0, trade.value.1, ts);
      }
      OnBookEvent(i, sim, top, ts);
    }

    method KillShard(i: nat)
      requires i < states.Length
      modifies states
      ensures states[..] == old(states[..])[i := old(states[i]).(panic := true)]
    {
      states[i] := states[i].(panic := true);
    }

    method ArmShard(i: nat)
      requires i < states.Length
      modifies states
      ensures states[..] == old(states[..])[i := old(states[i]).(panic := false)]
    {
      states[i] := states[i].(panic := false);
    }

    method KillGlobal()
      modifies this`kill
      ensures kill
    {
      kill := true;
    }

    method ArmEverything()
      modifies this`kill, states
      ensures !kill && forall i :: 0 <= i < states.Length ==> states[i] == old(states[i]).(panic := false)
    {
      kill := false;
      for i := 0 to states.Length
        invariant !kill
        invariant forall j :: 0 <= j < states.Length ==>
          states[j] == if j < i then old(states[j]).(panic := false) else old(states[j])
      {
        states[i] := states[i].(panic := false);
      }
    }
  }

  // The dispatcher's globals: one market maker and a simulator for each symbol.
  class TradingEngine {
    const mm: Maker
    const sims: seq<Sim>

    ghost predicate Shaped()
      reads mm
    {
      && |sims| == mm.states.Length
      && forall i, j :: 0 <= i < j < |sims| ==> sims[i] != sims[j]
    }

    // The state of the model this stands for.
    ghost function Now(): Floor
      requires Shaped()
      reads mm, mm.states, sims
    {
      Floor(seq(|sims|, i requires 0 <= i < |sims| reads mm, mm.states, sims requires Shaped() =>
                  Shard(mm.states[i], sims[i].bid, sims[i].ask)),
            Bucket(mm.aggTokens, mm.lastAgg), mm.kill, mm.out)
    }

    ghost predicate Valid()
      reads mm, mm.states, sims
    {
      ParamsOk(mm.params) && Shaped() && FloorOk(mm.params, Now()) && QuotesOk(Now())
    }

    constructor (p: Params, n: nat)
      requires ParamsOk(p)
      ensures Valid() && mm.params == p && |sims| == n && Initial(p, Now()) && !Now().kill
      ensures fresh(mm) && fresh(mm.states) && forall i :: 0 <= i < n ==> fresh(sims[i])
    {
      var ss: seq<Sim> := [];
      for k := 0 to n
        invariant |ss| == k && forall i :: 0 <= i < k ==> fresh(ss[i]) && ss[i].bid == NO_QUOTE && ss[i].ask == NO_QUOTE
        invariant forall i, j :: 0 <= i < j < k ==> ss[i] != ss[j]
      {
        var sim := new Sim();
        ss := ss + [sim];
      }
      sims := ss;
      mm := new Maker(p, n);
      new;
      InitialOk(p, Now());
    }

    method Step(i: nat, trade: Option<(Side, Trade)>, top: Top, ts: nat)
      requires Shaped() && QuotesOk(Now()) && i < |sims| && TopOk(top)
      modifies mm.states, mm`aggTokens, mm`lastAgg, mm`out, sims[i]
      ensures Shaped() && Now() == Next(mm.params, old(Now()), Book(i, trade, top, ts))
    {
      ghost var f, e := Now(), Book(i, trade, top, ts);
      assert mm.View(i, sims[i]) == DeskAt(f, i);
      mm.OnFeedEvent(i, sims[i], trade, top, ts);
      ghost var d := mm.View(i, sims[i]);
      assert d == OnBook(mm.params, Traded(f, e), f.kill, top, ts);
      assert Now().shards == Put(f, i, d).shards;
    }

    // apply_event: the event is the model's step, so every position stays within the bound.
    method ApplyEvent(i: nat, trade: Option<(Side, Trade)>, top: Top, ts: nat)
      requires Valid() && i < |sims| && TopOk(top)
      modifies mm.states, mm`aggTokens, mm`lastAgg, mm`out, sims[i]
      ensures Valid() && Now() == Next(mm.params, old(Now()), Book(i, trade, top, ts))
      ensures forall j :: 0 <= j < |sims| ==> Abs(mm.states[j].pos.inv) <= Bound(mm.params)
    {
      NextOk(mm.params, Now(), Book(i, trade, top, ts));
      Step(i, trade, top, ts);
      PositionsWithin(mm.params, Now());
      assert forall j :: 0 <= j < |sims| ==> mm.states[j] == Now().shards[j].s;
    }

    method Kill(i: nat)
      requires Valid() && i < |sims|
      modifies mm.states
      ensures Valid() && Now() == Next(mm.params, old(Now()), Event.Kill(i))
    {
      NextOk(mm.params, Now(), Event.Kill(i));
      mm.KillShard(i);
      assert Now().shards == Next(mm.params, old(Now()), Event.Kill(i)).shards;
    }

    method Arm(i: nat)
      requires Valid() && i < |sims|
      modifies mm.states
      ensures Valid() && Now() == Next(mm.params, old(Now()), Event.Arm(i))
    {
      NextOk(mm.params, Now(), Event.Arm(i));
      mm.ArmShard(i);
      assert Now().shards == Next(mm.params, old(Now()), Event.Arm(i)).shards;
    }

    method KillAll()
      requires Valid()
      modifies mm`kill
      ensures Valid() && Now() == Next(mm.params, old(Now()), Event.KillAll)
    {
      NextOk(mm.params, Now(), Event.KillAll);
      mm.KillGlobal();
      assert Now().shards == Next(mm.params, old(Now()), Event.KillAll).shards;
    }

    method ArmAll()
      requires Valid()
      modifies mm`kill, mm.states
      ensures Valid() && Now() == Next(mm.params, old(Now()), Event.ArmAll)
    {
      NextOk(mm.params, Now(), Event.ArmAll);
      mm.ArmEverything();
      assert Now().shards == Next(mm.params, old(Now()), Event.ArmAll).shards;
    }
  }

  lemma {:induction false} PositionsWithin(p: Params, f: Floor)
    requires FloorOk(p, f)
    ensures forall j :: 0 <= j < |f.shards| ==> Abs(f.shards[j].s.pos.inv) <= Bound(p)
  {
    forall j | 0 <= j < |f.shards| ensures Abs(f.shards[j].s.pos.inv) <= Bound(p) {
      InventoryWithin(p, DeskAt(f, j));
    }
  }
}
