/** From the risk gate to the exchange: every NEW order the exchange accepts is one the gate accepted. */
module OrderChain {
  import opened Bytes
  import opened Wire
  import opened OrderPath
  import opened Risk
  import opened Oms

  function SideByte(buy: bool): byte { if buy then 66 else 83 }

  // What the sender takes from the ring, with the time it stamps on each order.
  function RingOf(es: seq<Entry>, ts: seq<nat>): (ring: seq<RingOrder>)
    requires |ts| == |es|
    ensures |ring| == |es|
  {
    seq(|es|, i requires 0 <= i < |es| => RingOrder(es[i].locate, SideByte(es[i].buy), es[i].price, es[i].qty, ts[i]))
  }

  // The wire order carries what the gate saw.
  predicate Carries(o: Order, s: Signal) {
    o.symbol == s.locate && o.side == SideByte(s.buy) && o.price == s.price && o.qty == s.qty
  }

  // Order i of `os`, if it is NEW, is acceptance gs[i] of the gate; in gate order, each at most once.
  ghost predicate FromGate(os: seq<Order>, accepted: seq<Signal>, gs: seq<nat>) {
    && |gs| == |os|
    && (forall i :: 0 <= i < |os| && os[i].kind == MSG_NEW ==> gs[i] < |accepted| && Carries(os[i], accepted[gs[i]]))
    && (forall i, j :: 0 <= i < j < |os| && os[i].kind == MSG_NEW && os[j].kind == MSG_NEW ==> gs[i] < gs[j])
  }

  lemma {:induction false} NewIsNew(o: RingOrder, seqNo: nat)
    ensures Message(o, seqNo).kind == MSG_NEW <==> o.qty != 0
  {}

  lemma {:induction false} MatchedFromGate(es: seq<Entry>, accepted: seq<Signal>, at: seq<nat>, ts: seq<nat>,
                                           os: seq<Order>, ps: seq<nat>) returns (gs: seq<nat>)
    requires Passed(es, accepted, at) && |ts| == |es| && Matches(RingOf(es, ts), os, ps) && Ascending(ps)
    ensures FromGate(os, accepted, gs)
  {
    var ring := RingOf(es, ts);
    gs := seq(|os|, i requires 0 <= i < |os| => at[ps[i]]);
    forall i | 0 <= i < |os| && os[i].kind == MSG_NEW
      ensures IsNew(es[ps[i]]) && gs[i] < |accepted| && Carries(os[i], accepted[gs[i]])
    {
      NewIsNew(ring[ps[i]], os[i].seqNo);
      assert IsNew(es[ps[i]]);
    }
    forall i, j | 0 <= i < j < |os| && os[i].kind == MSG_NEW && os[j].kind == MSG_NEW ensures gs[i] < gs[j] {
      assert IsNew(es[ps[i]]) && IsNew(es[ps[j]]);
    }
  }

  // What the engine puts in the ring fits the wire.
  lemma {:induction false} InWidthOk(es: seq<Entry>, ts: seq<nat>)
    requires InWidth(es) && |ts| == |es| < U64 - 1 && forall i :: 0 <= i < |ts| ==> ts[i] < U64
    ensures RingOk(RingOf(es, ts))
  {
    forall i | 0 <= i < |es| ensures SignalOk(SignalOf(es[i])) {}
  }

  // Across the gate, the ring, any outcomes of send(), any reconnects and any part of each connection
  // delivered: the NEW orders the exchange accepts are acceptances of the gate, in gate order, each at most
  // once, and so within the gate's limits.
  lemma {:induction false} AcceptedPassedGate(e: Engine, ts: seq<nat>, results: seq<SendResult>, ds: seq<nat>)
    returns (gs: seq<nat>)
    requires e.Valid() && |ts| == |e.ring.m.pushed| < U64 - 1 && forall i :: 0 <= i < |ts| ==> ts[i] < U64
    requires var ring := RingOf(e.ring.m.pushed, ts); Delivered(SendAll(RingEncoder(ring), |ring|, results).conns, ds)
    ensures var ring := RingOf(e.ring.m.pushed, ts);
            var os := Accepted(SendAll(RingEncoder(ring), |ring|, results).conns, ds);
            && FromGate(os, e.gate.m.accepted, gs)
            && forall i :: 0 <= i < |os| && os[i].kind == MSG_NEW ==> os[i].qty <= MAX_QTY
  {
    var ring := RingOf(e.ring.m.pushed, ts);
    InWidthOk(e.ring.m.pushed, ts);
    Delivery(ring, results, ds);
    var conns := SendAll(RingEncoder(ring), |ring|, results).conns;
    gs := MatchedFromGate(e.ring.m.pushed, e.gate.m.accepted, e.at, ts, Accepted(conns, ds), Positions(conns, ds));
    WithinLimits(Accepted(conns, ds), e.gate.m.accepted, gs);
  }

  lemma {:induction false} WithinLimits(os: seq<Order>, accepted: seq<Signal>, gs: seq<nat>)
    requires FromGate(os, accepted, gs) && forall i :: 0 <= i < |accepted| ==> accepted[i].qty <= MAX_QTY
    ensures forall i :: 0 <= i < |os| && os[i].kind == MSG_NEW ==> os[i].qty <= MAX_QTY
  {}
}
