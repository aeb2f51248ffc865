/** The receiver over whole runs: any interleaving of arrivals, rewinder replies, consumption and
    recycling, with any loss, duplication and reordering of the packets of one session. */
module SequencerRuns {
  import opened Bytes
  import opened Mold
  import opened Sequencer
  import opened SequencerProofs

  // What the network may bring, in any order and any number of times. The rewinder replays only
  // packets of the session.
  ghost predicate Legal(e: Event, feed: set<Packet>) {
    match e
    case Arrive(_, p) => Expectable(p, feed)
    case Reply(p) => p.count == 0 || p in feed
    case _ => true
  }

  // The state after afxdp_init: all frames on the free list, nothing buffered.
  ghost predicate Initial(s: Rx) {
    && Shape(s) && !s.started && s.expected == 0 == s.first
    && s.ring == [] && s.log == [] && s.ledger == [] && s.out == [] && s.read == 0 == s.recycled
    && (forall i :: 0 <= i < |s.pool| ==> !s.pool[i].used)
    && multiset(s.free) == multiset(Frames(FRAMES)) && s.fill == multiset{} == s.hand
  }

  lemma {:induction false} InitialInv(s: Rx, feed: set<Packet>)
    requires Initial(s)
    ensures Inv(s, feed)
  {
    assert Idle(s.pool, s.expected) == Slots(SLOTS);
    assert s.ring[s.recycled..] == [];
    forall r | r in s.free ensures r.Umem? { assert r in multiset(s.free); }
  }

  lemma {:induction false} RefillInv(s: Rx, n: nat, feed: set<Packet>)
    requires Inv(s, feed) && n <= |s.free|
    ensures Inv(Step(s, Refill(n)), feed)
  {
    var k := |s.free| - n;
    assert s.free == s.free[..k] + s.free[k..];
    assert multiset(s.free) == multiset(s.free[..k]) + multiset(s.free[k..]);
  }

  // Moving one buffer from one place to another.
  lemma {:induction false} Moved(a: multiset<Ref>, b: multiset<Ref>, x: Ref)
    requires x in a
    ensures (a - multiset{x}) + (b + multiset{x}) == a + b
    ensures (b + multiset{x}) + (a - multiset{x}) == b + a
  {}

  lemma {:induction false} ArriveConserved(s: Rx, f: nat, p: Packet)
    requires Shape(s) && Conserved(s) && f < FRAMES && Umem(f) in s.fill
    ensures Conserved(Step(s, Arrive(f, p)))
  {
    Moved(s.fill, s.hand, Umem(f));
    var r, t := multiset(s.ring[s.recycled..]), Step(s, Arrive(f, p));
    assert r + t.hand + t.fill == r + (t.hand + t.fill);
    assert r + s.hand + s.fill == r + (s.hand + s.fill);
  }

  // The kernel writes only frames of the fill ring, which no outstanding entry points at.
  lemma {:induction false} ArriveIntact(s: Rx, f: nat, p: Packet)
    requires Shape(s) && Conserved(s) && Intact(s) && f < FRAMES && Umem(f) in s.fill
    ensures Shape(Step(s, Arrive(f, p))) && Intact(Step(s, Arrive(f, p)))
  {
    NotInRing(s, Umem(f));
    forall k | s.recycled <= k < |s.ring| ensures s.ring[k] != Umem(f) {
      assert s.ring[k] in s.ring[s.recycled..];
    }
  }

  lemma {:induction false} ArriveBuffers(s: Rx, f: nat, p: Packet, feed: set<Packet>)
    requires Buffers(s, feed) && f < FRAMES && Umem(f) in s.fill && Expectable(p, feed)
    ensures Buffers(Step(s, Arrive(f, p)), feed)
  {
    ArriveIntact(s, f, p);
    ArriveConserved(s, f, p);
  }

  lemma {:induction false} ArriveInv(s: Rx, f: nat, p: Packet, feed: set<Packet>)
    requires Inv(s, feed) && f < FRAMES && Umem(f) in s.fill && Expectable(p, feed)
    ensures Inv(Step(s, Arrive(f, p)), feed)
  {
    ArriveBuffers(s, f, p, feed);
  }

  lemma {:induction false} DropConserved(s: Rx, f: nat)
    requires Shape(s) && Conserved(s) && Umem(f) in s.hand
    ensures Conserved(Step(s, Drop(f)))
  {
    var t := Step(s, Drop(f));
    assert multiset(t.free) == multiset(s.free) + multiset{Umem(f)};
    Moved(s.hand, multiset(s.free), Umem(f));
    var r := multiset(s.ring[s.recycled..]);
    assert r + t.hand + t.fill + multiset(t.free) == r + t.fill + (t.hand + multiset(t.free));
    assert r + s.hand + s.fill + multiset(s.free) == r + s.fill + (s.hand + multiset(s.free));
  }

  lemma {:induction false} DropHand(s: Rx, f: nat, feed: set<Packet>)
    requires Shape(s) && HandOk(s, feed) && Umem(f) in s.hand
    ensures HandOk(Step(s, Drop(f)), feed)
  {
    assert forall r :: r in Step(s, Drop(f)).hand ==> r in s.hand;
  }

  lemma {:induction false} DropInv(s: Rx, f: nat, feed: set<Packet>)
    requires Inv(s, feed) && Umem(f) in s.hand
    ensures Inv(Step(s, Drop(f)), feed)
  {
    DropConserved(s, f);
    DropHand(s, f, feed);
  }

  // The decoded packet is the published one: its buffer is intact.
  lemma {:induction false} ConsumeSequence(s: Rx, feed: set<Packet>)
    requires Buffers(s, feed) && Sequence(s, feed) && s.read < |s.ring|
    ensures Sequence(ConsumeOne(s), feed)
  {
    assert s.log[..s.read + 1] == s.log[..s.read] + [s.log[s.read]];
  }

  lemma {:induction false} ConsumeBuffers(s: Rx, feed: set<Packet>)
    requires Buffers(s, feed) && s.read < |s.ring|
    ensures Buffers(ConsumeOne(s), feed)
  {}

  lemma {:induction false} ConsumeInv(s: Rx, feed: set<Packet>)
    requires Inv(s, feed)
    ensures Inv(Step(s, Consume), feed)
  {
    if s.read < |s.ring| {
      ConsumeSequence(s, feed);
      ConsumeBuffers(s, feed);
    }
  }

  lemma {:induction false} RecycleUmem(s: Rx)
    requires Shape(s) && Conserved(s) && s.recycled < s.read && s.ring[s.recycled].Umem?
    ensures Conserved(RecycleOne(s))
  {
    var ref, t := s.ring[s.recycled], RecycleOne(s);
    assert s.ring[s.recycled..] == [ref] + t.ring[t.recycled..];
    assert multiset(t.free) == multiset(s.free) + multiset{ref};
  }

  lemma {:induction false} RecycleSlot(s: Rx)
    requires Shape(s) && Conserved(s) && s.recycled < s.read && s.ring[s.recycled].Reorder?
    ensures Conserved(RecycleOne(s))
  {
    var ref, t := s.ring[s.recycled], RecycleOne(s);
    assert s.ring[s.recycled..] == [ref] + t.ring[t.recycled..];
    EntryIsInFlight(s, s.recycled);
    assert Idle(t.pool, t.expected) == Idle(s.pool, s.expected) + {ref};
  }

  lemma {:induction false} RecycleConserved(s: Rx)
    requires Shape(s) && Conserved(s) && s.recycled < s.read
    ensures Conserved(RecycleOne(s))
  {
    if s.ring[s.recycled].Umem? { RecycleUmem(s); } else { RecycleSlot(s); }
  }

  // A slot some outstanding entry points at is used and below the expected sequence number.
  lemma {:induction false} EntryIsInFlight(s: Rx, k: nat)
    requires Shape(s) && Conserved(s) && s.recycled <= k < |s.ring| && s.ring[k].Reorder?
    ensures InFlight(s.pool[s.ring[k].idx], s.expected)
  {
    assert s.ring[k] in s.ring[s.recycled..];
    if s.ring[k] in Idle(s.pool, s.expected) { NotInRing(s, s.ring[k]); }
  }

  // Returning one buffer touches no other entry's.
  lemma {:induction false} RecycleIntact(s: Rx)
    requires Shape(s) && Conserved(s) && Intact(s) && s.recycled < s.read
    ensures Shape(RecycleOne(s)) && Intact(RecycleOne(s))
  {
    forall k | s.recycled < k < |s.ring| ensures s.ring[k] != s.ring[s.recycled] {
      EntriesDistinct(s, s.recycled, k);
    }
  }

  lemma {:induction false} RecycleBuffers(s: Rx, feed: set<Packet>)
    requires Buffers(s, feed) && s.recycled < s.read
    ensures Buffers(RecycleOne(s), feed)
  {
    RecycleIntact(s);
    RecycleConserved(s);
  }

  lemma {:induction false} RecycleInv(s: Rx, feed: set<Packet>)
    requires Inv(s, feed) && s.recycled < s.read
    ensures Inv(RecycleOne(s), feed)
  {
    RecycleBuffers(s, feed);
  }

  lemma {:induction false} StepInv(s: Rx, e: Event, feed: set<Packet>)
    requires Partition(feed) && Inv(s, feed) && Legal(e, feed)
    ensures Inv(Step(s, e), feed)
  {
    match e
    case Refill(n) => if n <= |s.free| { RefillInv(s, n, feed); }
    case Arrive(f, p) => if f < FRAMES && Umem(f) in s.fill { ArriveInv(s, f, p, feed); }
    case Live(f) =>
      if f < FRAMES && Umem(f) in s.hand && s.mem[f].count != END_OF_SESSION {
        HandleInv(s, s.mem[f], Some(f), feed);
      }
    case Reply(p) => HandleInv(s, p, None, feed);
    case Drop(f) => if Umem(f) in s.hand { DropInv(s, f, feed); }
    case Consume => ConsumeInv(s, feed);
    case Recycle => if s.recycled < s.read { RecycleInv(s, feed); }
  }

  // A run: states[0] is the start and each event takes one state to the next.
  ghost predicate IsRun(states: seq<Rx>, events: seq<Event>, feed: set<Packet>) {
    && |states| == |events| + 1
    && Initial(states[0])
    && (forall k :: 0 <= k < |events| ==> Legal(events[k], feed))
    && (forall k :: 0 <= k < |events| ==> Shape(states[k]) && states[k + 1] == Step(states[k], events[k]))
  }

  // Every state of every run satisfies the invariant.
  lemma {:induction false} RunInv(states: seq<Rx>, events: seq<Event>, feed: set<Packet>, k: nat)
    requires Partition(feed) && IsRun(states, events, feed) && k < |states|
    ensures Inv(states[k], feed)
  {
    if k == 0 {
      InitialInv(states[0], feed);
    } else {
      RunInv(states, events, feed, k - 1);
      StepInv(states[k - 1], events[k - 1], feed);
    }
  }

  // ---------- lists of steps ----------

  // The state after a list of events.
  ghost function Run(s: Rx, es: seq<Event>): Rx {
    if es == [] then s
    else
      var t := Run(s, es[..|es| - 1]);
      if Shape(t) then Step(t, es[|es| - 1]) else t
  }

  lemma {:induction false} RunSnoc(s: Rx, es: seq<Event>, e: Event)
    requires Shape(Run(s, es))
    ensures Run(s, es + [e]) == Step(Run(s, es), e)
  {
    assert (es + [e])[..|es|] == es;
  }

  lemma {:induction false} RunConcat(s: Rx, es: seq<Event>, more: seq<Event>)
    ensures Run(s, es + more) == Run(Run(s, es), more)
  {
    if more == [] {
      assert es + more == es;
    } else {
      var n := |more| - 1;
      assert (es + more)[..|es + more| - 1] == es + more[..n];
      RunConcat(s, es, more[..n]);
    }
  }

  lemma {:induction false} RunCons(s: Rx, es: seq<Event>)
    requires es != []
    ensures Run(Run(s, [es[0]]), es[1..]) == Run(s, es)
  {
    RunConcat(s, [es[0]], es[1..]);
    assert [es[0]] + es[1..] == es;
  }

  ghost predicate AllLegal(es: seq<Event>, feed: set<Packet>) { forall k :: 0 <= k < |es| ==> Legal(es[k], feed) }

  lemma {:induction false} LegalCons(events: seq<Event>, es: seq<Event>, feed: set<Packet>)
    requires AllLegal(es, feed) && es != []
    ensures Legal(es[0], feed) && AllLegal(es[1..], feed) && events + [es[0]] + es[1..] == events + es
  {}

  ghost predicate EndsIn(states: seq<Rx>, events: seq<Event>, feed: set<Packet>, s: Rx) {
    IsRun(states, events, feed) && states[|states| - 1] == s
  }

  lemma {:induction false} OneMore(states: seq<Rx>, events: seq<Event>, e: Event, feed: set<Packet>, s: Rx)
    returns (longer: seq<Rx>)
    requires Partition(feed) && EndsIn(states, events, feed, s) && Legal(e, feed)
    ensures EndsIn(longer, events + [e], feed, Run(s, [e]))
  {
    RunInv(states, events, feed, |states| - 1);
    longer := states + [Step(s, e)];
    assert [e][..0] == [];
  }

  // The same steps at the end of a run give a longer run, so what is proved of runs holds after them.
  lemma {:induction false} RunExtends(states: seq<Rx>, events: seq<Event>, es: seq<Event>, feed: set<Packet>, s: Rx)
    returns (longer: seq<Rx>)
    requires Partition(feed) && EndsIn(states, events, feed, s) && AllLegal(es, feed)
    ensures EndsIn(longer, events + es, feed, Run(s, es))
    decreases |es|
  {
    longer := states;
    if es == [] {
      assert events + es == events;
    } else {
      LegalCons(events, es, feed);
      RunCons(s, es);
      longer := OneMore(states, events, es[0], feed, s);
      longer := RunExtends(longer, events + [es[0]], es[1..], feed, Run(s, [es[0]]));
    }
  }

  // ---------- lists of steps as a relation ----------

  ghost predicate StepAt(states: seq<Rx>, es: seq<Event>, k: nat) {
    k < |es| && k + 1 < |states| && Shape(states[k]) && states[k + 1] == Step(states[k], es[k])
  }

  ghost predicate Path(states: seq<Rx>, es: seq<Event>, s: Rx, t: Rx) {
    && |states| == |es| + 1 && states[0] == s && states[|es|] == t
    && forall k :: 0 <= k < |es| ==> StepAt(states, es, k)
  }

  // The events take `s` to `t`.
  ghost predicate Reaches(s: Rx, es: seq<Event>, t: Rx) { exists states :: Path(states, es, s, t) }

  lemma {:induction false} ReachesNone(s: Rx, es: seq<Event>)
    requires es == []
    ensures Reaches(s, es, s)
  {
    assert Path([s], es, s, s);
  }

  lemma {:induction false} ReachesSnoc(s: Rx, es: seq<Event>, u: Rx, e: Event, t: Rx)
    requires Reaches(s, es, u) && Shape(u) && t == Step(u, e)
    ensures Reaches(s, es + [e], t)
  {
    var states :| Path(states, es, s, u);
    forall k | 0 <= k < |es + [e]| ensures StepAt(states + [t], es + [e], k) {
      if k < |es| { assert StepAt(states, es, k); }
    }
    assert Path(states + [t], es + [e], s, t);
  }

  lemma {:induction false} ReachesConcat(s: Rx, es: seq<Event>, u: Rx, more: seq<Event>, t: Rx)
    requires Reaches(s, es, u) && Reaches(u, more, t)
    ensures Reaches(s, es + more, t)
  {
    var a :| Path(a, es, s, u);
    var b :| Path(b, more, u, t);
    var states := a[..|es|] + b;
    forall k | 0 <= k < |es + more| ensures StepAt(states, es + more, k) {
      if k < |es| { assert StepAt(a, es, k); } else { assert StepAt(b, more, k - |es|); }
    }
    assert Path(states, es + more, s, t);
  }

  // There is one state they lead to.
  lemma {:induction false} ReachesRun(s: Rx, es: seq<Event>, t: Rx)
    requires Reaches(s, es, t)
    ensures t == Run(s, es)
    decreases |es|
  {
    var states :| Path(states, es, s, t);
    if es != [] {
      var n := |es| - 1;
      var front, before := es[..n], states[..n + 1];
      assert StepAt(states, es, n);
      forall k | 0 <= k < |front| ensures StepAt(before, front, k) { assert StepAt(states, es, k); }
      assert Path(before, front, s, states[n]);
      ReachesRun(s, front, states[n]);
    }
  }
}
