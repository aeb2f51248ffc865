/** The risk gate: a token bucket, per-order and per-symbol limits, and the positions it has let through. */
module Risk {
  import opened Bytes
  import opened Buckets

  const MAX_POSITION: int := 10000
  const MAX_QTY: nat := 500
  const SYMBOLS: nat := 65536
  const NOT_PRIMED: nat := U64 - 1

  datatype Signal = Signal(locate: nat, price: nat, qty: nat, buy: bool, ns: nat)

  predicate SignalOk(s: Signal) { s.locate < SYMBOLS && s.price < U32 && s.qty < U32 && s.ns < U64 }

  function Delta(s: Signal): int { if s.buy then ToInt32(s.qty) else -ToInt32(s.qty) }

  function Notional(s: Signal): nat { s.price * s.qty % U64 }

  function GateKnobs(rate: nat, burst: nat): Knobs { Knobs(rate, burst, NOT_PRIMED, false) }

  // `accepted` is the history of the signals let through.
  datatype Gate = Gate(bucket: Bucket, net: seq<int>, daily: nat, accepted: seq<Signal>)

  predicate GateShape(g: Gate) { |g.net| == SYMBOLS }

  predicate Passes(g: Gate, s: Signal)
    requires GateShape(g) && SignalOk(s)
  {
    && g.bucket.tokens > 0
    && s.qty <= MAX_QTY
    && -MAX_POSITION <= g.net[s.locate] + Delta(s) <= MAX_POSITION
  }

  function Accept(g: Gate, s: Signal): Gate
    requires GateShape(g) && SignalOk(s)
  {
    Gate(g.bucket.(tokens := g.bucket.tokens - 1), g.net[s.locate := g.net[s.locate] + Delta(s)],
         (g.daily + Notional(s)) % U64, g.accepted + [s])
  }

  function Primed(g: Gate, s: Signal, k: Knobs): Gate { g.(bucket := Refill(g.bucket, s.ns, k)) }

  function Check(g: Gate, s: Signal, k: Knobs): (h: Gate)
    requires GateShape(g) && SignalOk(s)
    ensures GateShape(h)
  {
    var p := Primed(g, s, k);
    if Passes(p, s) then Accept(p, s) else p
  }

  predicate AllOk(ss: seq<Signal>) { forall i :: 0 <= i < |ss| ==> SignalOk(ss[i]) }

  function Run(g: Gate, ss: seq<Signal>, k: Knobs): (h: Gate)
    requires GateShape(g) && AllOk(ss)
    ensures GateShape(h)
    decreases |ss|
  {
    if ss == [] then g else Run(Check(g, ss[0], k), ss[1..], k)
  }

  // ---------- positions ----------

  // The signed quantity of one symbol among some signals.
  function Net(ss: seq<Signal>, locate: nat): int {
    if ss == [] then 0
    else
      var s := ss[|ss| - 1];
      Net(ss[..|ss| - 1], locate)
      + (if s.locate != locate then 0 else if s.buy then s.qty else 0 - s.qty)
  }

  ghost predicate Safe(g: Gate, k: Knobs) {
    && GateShape(g) && InRange(g.bucket, k)
    && (forall l :: 0 <= l < SYMBOLS ==> g.net[l] == Net(g.accepted, l) && -MAX_POSITION <= g.net[l] <= MAX_POSITION)
    && (forall i :: 0 <= i < |g.accepted| ==> g.accepted[i].qty <= MAX_QTY)
  }

  lemma {:induction false} NetSnoc(ss: seq<Signal>, s: Signal, locate: nat)
    ensures Net(ss + [s], locate) == Net(ss, locate)
            + if s.locate != locate then 0 else if s.buy then s.qty else 0 - s.qty
  {
    assert (ss + [s])[..|ss|] == ss;
  }

  // The signed quantity of a signal.
  function Quantity(s: Signal): int { if s.buy then s.qty else 0 - s.qty }

  lemma {:induction false} DeltaIs(s: Signal)
    requires s.qty <= MAX_QTY
    ensures Delta(s) == Quantity(s)
  {}

  lemma {:induction false} NetUpdate(net: seq<int>, accepted: seq<Signal>, s: Signal, l: nat)
    requires |net| == SYMBOLS && s.locate < SYMBOLS && l < SYMBOLS && net[l] == Net(accepted, l)
    ensures net[s.locate := net[s.locate] + Quantity(s)][l] == Net(accepted + [s], l)
  {
    NetSnoc(accepted, s, l);
  }

  lemma {:induction false} AcceptSafe(g: Gate, s: Signal, k: Knobs)
    requires Safe(g, k) && SignalOk(s) && Passes(g, s)
    ensures Safe(Accept(g, s), k)
  {
    var h := Accept(g, s);
    DeltaIs(s);
    forall l | 0 <= l < SYMBOLS
      ensures h.net[l] == Net(h.accepted, l) && -MAX_POSITION <= h.net[l] <= MAX_POSITION
    {
      NetUpdate(g.net, g.accepted, s, l);
    }
  }

  lemma {:induction false} CheckSafe(g: Gate, s: Signal, k: Knobs)
    requires Safe(g, k) && SignalOk(s)
    ensures Safe(Check(g, s, k), k)
  {
    RefillInRange(g.bucket, s.ns, k);
    if Passes(Primed(g, s, k), s) { AcceptSafe(Primed(g, s, k), s, k); }
  }

  // Over any run of signals the net accepted quantity of every symbol stays within 10000 either way,
  // no accepted order exceeds 500, and the tokens stay between 0 and the burst.
  lemma {:induction false} RunSafe(g: Gate, ss: seq<Signal>, k: Knobs)
    requires Safe(g, k) && AllOk(ss)
    ensures Safe(Run(g, ss, k), k)
    decreases |ss|
  {
    if ss != [] {
      CheckSafe(g, ss[0], k);
      RunSafe(Check(g, ss[0], k), ss[1..], k);
    }
  }

  // A signal whose size, and whose symbol's quantity with it, is within the limits.
  predicate Allowed(s: Signal, net: int) {
    s.qty <= MAX_QTY && -MAX_POSITION <= net + Quantity(s) <= MAX_POSITION
  }

  lemma {:induction false} PassesIff(g: Gate, s: Signal, net: int)
    requires GateShape(g) && SignalOk(s) && g.net[s.locate] == net
    ensures Passes(g, s) <==> g.bucket.tokens > 0 && Allowed(s, net)
  {
    if s.qty <= MAX_QTY { DeltaIs(s); }
  }

  lemma {:induction false} NetIs(g: Gate, k: Knobs, locate: nat)
    requires Safe(g, k) && locate < SYMBOLS
    ensures g.net[locate] == Net(g.accepted, locate)
  {}

  // A signal is accepted if and only if a token is left after the refill and it is within the limits, given what
  // has been let through of its symbol so far.
  lemma {:induction false} AcceptedIff(g: Gate, s: Signal, k: Knobs)
    requires Safe(g, k) && SignalOk(s)
    ensures Check(g, s, k).accepted ==
            if Refill(g.bucket, s.ns, k).tokens > 0 && Allowed(s, Net(g.accepted, s.locate))
            then g.accepted + [s] else g.accepted
  {
    NetIs(g, k, s.locate);
    PassesIff(Primed(g, s, k), s, Net(g.accepted, s.locate));
  }

  // The value of all signals accepted, in 64 bits.
  function Turnover(ss: seq<Signal>): nat {
    if ss == [] then 0 else (Turnover(ss[..|ss| - 1]) + Notional(ss[|ss| - 1])) % U64
  }

  // Over any run of signals the day's notional is that of the signals accepted.
  lemma {:induction false} RunTurnover(g: Gate, ss: seq<Signal>, k: Knobs)
    requires GateShape(g) && AllOk(ss) && g.daily == Turnover(g.accepted)
    ensures Run(g, ss, k).daily == Turnover(Run(g, ss, k).accepted)
    decreases |ss|
  {
    if ss != [] {
      assert (g.accepted + [ss[0]])[..|g.accepted|] == g.accepted;
      RunTurnover(Check(g, ss[0], k), ss[1..], k);
    }
  }

  // ---------- rate ----------

  predicate Ordered(ss: seq<Signal>) { forall i, j :: 0 <= i < j < |ss| ==> ss[i].ns <= ss[j].ns }

  // The calls a run makes on the bucket.
  function Calls(g: Gate, ss: seq<Signal>, k: Knobs): (cs: seq<Tick>)
    requires GateShape(g) && AllOk(ss)
    ensures |cs| == |ss|
    decreases |ss|
  {
    if ss == [] then []
    else [Tick(ss[0].ns, if Passes(Primed(g, ss[0], k), ss[0]) then 1 else 0)] + Calls(Check(g, ss[0], k), ss[1..], k)
  }

  lemma {:induction false} CallsFeasible(g: Gate, ss: seq<Signal>, t1: nat, t2: nat, k: Knobs)
    requires GateShape(g) && InRange(g.bucket, k) && AllOk(ss) && Ordered(ss) && t1 <= t2
    requires ss != [] ==> t1 <= ss[0].ns && ss[|ss| - 1].ns <= t2
    ensures Feasible(g.bucket, Calls(g, ss, k), t1, t2, k)
    ensures |Run(g, ss, k).accepted| == |g.accepted| + Total(Calls(g, ss, k))
    decreases |ss|
  {
    if ss != [] {
      RefillInRange(g.bucket, ss[0].ns, k);
      var h, cs := Check(g, ss[0], k), Calls(g, ss, k);
      assert cs[1..] == Calls(h, ss[1..], k);
      assert h.bucket == Call(g.bucket, cs[0], k);
      CallsFeasible(h, ss[1..], ss[0].ns, t2, k);
    }
  }

  // From t1 to t2 the gate accepts fewer than burst + 1 + rate * (t2 - t1) / 1e9 orders.
  lemma {:induction false} GateRate(g: Gate, ss: seq<Signal>, t1: nat, t2: nat, k: Knobs)
    requires GateShape(g) && InRange(g.bucket, k) && AllOk(ss) && Ordered(ss) && t1 <= t2
    requires ss != [] ==> t1 <= ss[0].ns && ss[|ss| - 1].ns <= t2
    ensures SECOND * (|Run(g, ss, k).accepted| - |g.accepted|) < SECOND * (k.burst + 1) + (t2 - t1) * k.rate
  {
    CallsFeasible(g, ss, t1, t2, k);
    RateBound(g.bucket, Calls(g, ss, k), t1, t2, k);
  }

  lemma {:induction false} CallsEnd(g: Gate, ss: seq<Signal>, k: Knobs)
    requires GateShape(g) && AllOk(ss)
    ensures Ends(g.bucket, Calls(g, ss, k), k) == Run(g, ss, k).bucket
    ensures |Run(g, ss, k).accepted| == |g.accepted| + Total(Calls(g, ss, k))
    ensures ss != [] ==> Calls(g, ss, k)[|ss| - 1].ts == ss[|ss| - 1].ns
    decreases |ss|
  {
    if ss != [] {
      var h, cs := Check(g, ss[0], k), Calls(g, ss, k);
      assert cs[1..] == Calls(h, ss[1..], k);
      assert h.bucket == Call(g.bucket, cs[0], k);
      CallsEnd(h, ss[1..], k);
    }
  }

  // The gate lets through at least half its rate: when it has run dry, at the last of some signals that never
  // found the bucket full, it has accepted all the tokens it had and more than half of what the time earned, less
  // one.
  lemma {:induction false} GateServes(g: Gate, ss: seq<Signal>, k: Knobs)
    requires GateShape(g) && InRange(g.bucket, k) && AllOk(ss) && ss != [] && Draining(g.bucket, Calls(g, ss, k), k)
    requires Run(g, ss, k).bucket.tokens == 0
    ensures SECOND * (2 * (|Run(g, ss, k).accepted| - |g.accepted| - g.bucket.tokens) + 1)
            > (ss[|ss| - 1].ns - g.bucket.last) * k.rate
  {
    CallsEnd(g, ss, k);
    DryBound(g.bucket, Calls(g, ss, k), k, |Run(g, ss, k).accepted| - |g.accepted|, ss[|ss| - 1].ns);
  }

  // ---------- the code ----------

  class RiskGate {
    var tokens: int
    var last: nat
    const positions: array<int>
    var daily: nat
    var rate: nat
    var burst: nat
    ghost var m: Gate

    ghost predicate Valid()
      reads this, positions
    {
      && 0 < burst < U32 && 0 < rate < U32
      && Safe(m, GateKnobs(rate, burst))
      && m.bucket == Bucket(tokens, last) && positions.Length == SYMBOLS && positions[..] == m.net && daily == m.daily
    }

    constructor ()
      ensures Valid() && fresh(positions) && m.accepted == [] && rate == 100 && burst == 50
      ensures m.bucket == Bucket(50, NOT_PRIMED)
    {
      tokens, last, daily, rate, burst := 50, NOT_PRIMED, 0, 100, 50;
      positions := new int[SYMBOLS](_ => 0);
      new;
      m := Gate(Bucket(50, NOT_PRIMED), positions[..], 0, []);
    }

    // Zero keeps the current value of a knob.
    method SetLimits(ordersPerSec: nat, burst': nat)
      requires Valid() && ordersPerSec < U32 && burst' < U32
      modifies this`rate, this`burst, this`tokens, this`m
      ensures Valid() && m.accepted == old(m.accepted) && m.net == old(m.net)
      ensures rate == (if ordersPerSec > 0 then ordersPerSec else old(rate))
      ensures burst == (if burst' > 0 then burst' else old(burst))
      ensures tokens == (if burst' > 0 then burst' else old(tokens))
    {
      if ordersPerSec > 0 { rate := ordersPerSec; }
      if burst' > 0 {
        burst, tokens := burst', burst';
        m := m.(bucket := m.bucket.(tokens := burst'));
      }
    }

    method InlineRefill(now: nat)
      requires Valid() && now < U64
      modifies this`tokens, this`last, this`m
      ensures Valid() && m == old(m).(bucket := Refill(old(m.bucket), now, GateKnobs(rate, burst)))
    {
      RefillInRange(m.bucket, now, GateKnobs(rate, burst));
      m := m.(bucket := Refill(m.bucket, now, GateKnobs(rate, burst)));
      if last == NOT_PRIMED { last := now; return; }
      if now <= last { return; }
      var elapsed := now - last;
      var add := elapsed * rate % U64 / SECOND;
      if add <= 0 { return; }
      last := now;
      var want := tokens + add;
      tokens := if want > burst then burst else want;
    }

    // The notional limits are the largest 64-bit value, so they hold of every signal.
    method CheckAndFill(s: Signal) returns (ok: bool)
      requires Valid() && SignalOk(s)
      modifies this`tokens, this`last, this`daily, this`m, positions
      ensures Valid() && m == Check(old(m), s, GateKnobs(rate, burst))
      ensures m.accepted == old(m.accepted) + (if ok then [s] else [])
    {
      CheckSafe(m, s, GateKnobs(rate, burst));
      InlineRefill(s.ns);
      var notional := Notional(s);
      var delta := Delta(s);
      var newPos := positions[s.locate] + delta;
      ok :=
        && tokens > 0
        && s.qty <= MAX_QTY
        && notional <= U64 - 1
        && (daily + notional) % U64 <= U64 - 1
        && newPos <= MAX_POSITION
        && newPos >= -MAX_POSITION;
      if !ok { return; }
      tokens := tokens - 1;
      positions[s.locate] := newPos;
      daily := (daily + notional) % U64;
      m := Accept(m, s);
    }
  }
}
