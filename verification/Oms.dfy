/** The order manager's end of the order ring, and the way a quote takes through the risk gate to it. */
module Oms {
  import opened Bytes
  import opened Risk
  import opened Spsc

  datatype Entry = Entry(id: nat, locate: nat, price: nat, qty: nat, buy: bool, ns: nat)

  // Ids count up from 1 in ring order.
  predicate Numbered(es: seq<Entry>) { forall k :: 0 <= k < |es| ==> es[k].id == k + 1 }

  class OrderRing {
    const data: array<Entry>
    var nextWrite: nat
    var nextRead: nat
    var nextId: nat
    ghost var m: Ring<Entry>

    ghost predicate Valid()
      reads this, data
    {
      && Inv(m) && m.writing.None? && m.taken.None?
      && data.Length == SIZE && data[..] == m.data && nextWrite == m.w && nextRead == m.r
      && Numbered(m.pushed) && nextId == |m.pushed| + 1
    }

    constructor (blank: Entry)
      ensures Valid() && fresh(data) && m.pushed == [] && m.popped == []
    {
      data := new Entry[SIZE](_ => blank);
      nextWrite, nextRead, nextId := 0, 0, 1;
      new;
      m := Ring(data[..], 0, 0, 0, 0, None, None, [], [], 0, 0);
    }

    // The id of the order, or 0 when the ring is full.
    method Submit(locate: nat, buy: bool, price: nat, qty: nat, ns: nat) returns (id: nat)
      requires Valid()
      modifies data, this`nextWrite, this`nextId, this`m
      ensures Valid() && m.popped == old(m.popped)
      ensures id == if |old(m.pushed)| - |old(m.popped)| == SIZE then 0 else |old(m.pushed)| + 1
      ensures if id == 0 then m.pushed == old(m.pushed)
              else m.pushed == old(m.pushed) + [Entry(id, locate, price, qty, buy, ns)]
    {
      var w, r := nextWrite, nextRead;
      var e := Entry(nextId, locate, price, qty, buy, ns);
      PushInv(m, e);
      m := Push(m, e);
      if (w - r) % U32 >= SIZE { return 0; }
      id := nextId;
      nextId := nextId + 1;
      data[w % SIZE] := e;
      nextWrite := (w + 1) % U32;
    }

    // The consumer's pass: the entry at the read cursor, if there is one.
    method Dequeue() returns (x: Option<Entry>)
      requires Valid()
      modifies this`nextRead, this`m
      ensures Valid() && m.pushed == old(m.pushed)
      ensures x == if |old(m.popped)| == |m.pushed| then None else Some(m.pushed[|old(m.popped)|])
      ensures m.popped == old(m.popped) + (if x.Some? then [x.value] else [])
    {
      PopInv(m);
      m := Pop(m);
      if nextRead == nextWrite { return None; }
      x := Some(data[nextRead % SIZE]);
      nextRead := (nextRead + 1) % U32;
    }
  }

  // ---------- quotes through the gate ----------

  // A quantity of zero is a cancel.
  predicate IsNew(e: Entry) { e.qty != 0 }

  function SignalOf(e: Entry): Signal { Signal(e.locate, e.price, e.qty, e.buy, e.ns) }

  function EntryOf(id: nat, s: Signal): Entry { Entry(id, s.locate, s.price, s.qty, s.buy, s.ns) }

  // Every NEW order is one the gate let through, at position at[k] of its history; no acceptance stands
  // behind two orders, and the order is kept.
  ghost predicate Passed(es: seq<Entry>, accepted: seq<Signal>, at: seq<nat>) {
    && |at| == |es|
    && (forall k :: 0 <= k < |es| && IsNew(es[k]) ==> at[k] < |accepted| && accepted[at[k]] == SignalOf(es[k]))
    && (forall j, k :: 0 <= j < k < |es| && IsNew(es[j]) && IsNew(es[k]) ==> at[j] < at[k])
  }

  // Every field fits its width in the ring entry.
  ghost predicate InWidth(es: seq<Entry>) { forall k :: 0 <= k < |es| ==> SignalOk(SignalOf(es[k])) }

  lemma {:induction false} PassedExtend(es: seq<Entry>, accepted: seq<Signal>, at: seq<nat>, e: Entry)
    requires Passed(es, accepted, at)
    ensures Passed(es, accepted + [SignalOf(e)], at)
    ensures !IsNew(e) ==> Passed(es + [e], accepted, at + [0])
    ensures Passed(es + [e], accepted + [SignalOf(e)], at + [|accepted|])
  {}

  // static_cast<std::uint32_t>
  function Wrap(x: int): nat { x % U32 }

  lemma {:induction false} WrapZeroIff(qty: int)
    requires -0x8000_0000 <= qty < 0x8000_0000
    ensures Wrap(qty) == 0 <==> qty == 0
  {}

  class Engine {
    const gate: RiskGate
    const ring: OrderRing
    ghost var at: seq<nat>

    ghost predicate Valid()
      reads this, gate, gate.positions, ring, ring.data
    {
      gate.Valid() && ring.Valid() && Passed(ring.m.pushed, gate.m.accepted, at) && InWidth(ring.m.pushed)
    }

    constructor ()
      ensures Valid() && fresh(gate) && fresh(gate.positions) && fresh(ring) && fresh(ring.data)
      ensures ring.m.pushed == []
    {
      gate := new RiskGate();
      ring := new OrderRing(Entry(0, 0, 0, 0, true, 0));
      at := [];
    }

    // Into the ring, unless it is full; the gate has let the order through unless it is a cancel.
    method Send(s: Signal, ghost p: nat) returns (ok: bool)
      requires ring.Valid() && Passed(ring.m.pushed, gate.m.accepted, at) && InWidth(ring.m.pushed) && SignalOk(s)
      requires Passed(ring.m.pushed + [EntryOf(|ring.m.pushed| + 1, s)], gate.m.accepted, at + [p])
      modifies ring`nextWrite, ring`nextId, ring`m, ring.data, this`at
      ensures ring.Valid() && Passed(ring.m.pushed, gate.m.accepted, at) && InWidth(ring.m.pushed)
      ensures ok <==> |old(ring.m.pushed)| - |old(ring.m.popped)| != SIZE
      ensures if ok then ring.m.pushed == old(ring.m.pushed) + [EntryOf(|old(ring.m.pushed)| + 1, s)]
              else ring.m.pushed == old(ring.m.pushed)
    {
      var id := ring.Submit(s.locate, s.buy, s.price, s.qty, s.ns);
      ok := id != 0;
      if ok { at := at + [p]; }
    }

    // Through the gate, then into the ring.
    method SendNew(s: Signal) returns (ok: bool)
      requires Valid() && SignalOk(s)
      modifies gate`tokens, gate`last, gate`daily, gate`m, gate.positions
      modifies ring`nextWrite, ring`nextId, ring`m, ring.data, this`at
      ensures Valid() && gate.m == Check(old(gate.m), s, GateKnobs(gate.rate, gate.burst))
      ensures ok <==> |gate.m.accepted| > |old(gate.m.accepted)| && |old(ring.m.pushed)| - |old(ring.m.popped)| != SIZE
      ensures if ok then ring.m.pushed == old(ring.m.pushed) + [EntryOf(|old(ring.m.pushed)| + 1, s)]
              else ring.m.pushed == old(ring.m.pushed)
    {
      PassedExtend(ring.m.pushed, gate.m.accepted, at, EntryOf(|ring.m.pushed| + 1, s));
      var pass := gate.CheckAndFill(s);
      if !pass { return false; }
      ok := Send(s, |old(gate.m.accepted)|);
    }

    // engine_submit_quote: a cancel goes straight to the ring, anything else passes the gate first.
    method SubmitQuote(locate: nat, buy: bool, px: int, qty: int, ns: nat) returns (ok: bool)
      requires Valid() && locate < SYMBOLS && -0x8000_0000 <= qty < 0x8000_0000 && ns < U64
      modifies gate`tokens, gate`last, gate`daily, gate`m, gate.positions
      modifies ring`nextWrite, ring`nextId, ring`m, ring.data, this`at
      ensures Valid()
      ensures var s := Signal(locate, Wrap(px), Wrap(qty), buy, ns);
              && gate.m == (if qty == 0 then old(gate.m) else Check(old(gate.m), s, GateKnobs(gate.rate, gate.burst)))
              && (ok <==> (qty == 0 || |gate.m.accepted| > |old(gate.m.accepted)|)
                          && |old(ring.m.pushed)| - |old(ring.m.popped)| != SIZE)
              && if ok then ring.m.pushed == old(ring.m.pushed) + [EntryOf(|old(ring.m.pushed)| + 1, s)]
                 else ring.m.pushed == old(ring.m.pushed)
    {
      WrapZeroIff(qty);
      var s := Signal(locate, Wrap(px), Wrap(qty), buy, ns);
      if qty == 0 {
        PassedExtend(ring.m.pushed, gate.m.accepted, at, EntryOf(|ring.m.pushed| + 1, s));
        ok := Send(s, 0);
      } else {
        ok := SendNew(s);
      }
    }

    // So each NEW order in the ring is at most 500, and every symbol's accepted net is within 10000.
    lemma {:induction false} RingWithinLimits(k: nat)
      requires Valid() && k < |ring.m.pushed| && IsNew(ring.m.pushed[k])
      ensures ring.m.pushed[k].qty <= MAX_QTY && SignalOf(ring.m.pushed[k]) in gate.m.accepted
      ensures forall l :: 0 <= l < SYMBOLS ==> -MAX_POSITION <= Net(gate.m.accepted, l) <= MAX_POSITION
    {}
  }
}
