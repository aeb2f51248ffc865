/** The reorder buffer as a whole: which packets the receiver keeps, and that the expected number is exactly the
    first one missing among the packets it was handed, in whatever order they came. */
module Reordering {
  import opened Bytes
  import opened Mold
  import opened Sequencer
  import opened SequencerProofs
  import opened SequencerRuns
  import opened Pipeline
  import opened Recovery

  // ---------- what is kept ----------

  ghost predicate HeldAt(s: Rx, i: nat, p: Packet) {
    i < |s.pool| && Pending(s.pool[i], s.expected) && s.pool[i].pkt == p
  }

  ghost predicate Held(s: Rx, p: Packet) { exists i: nat :: HeldAt(s, i, p) }

  // A packet is kept once it is published or waits in a slot.
  ghost predicate Kept(s: Rx, p: Packet) { p in s.log || Held(s, p) }

  ghost predicate SlotFree(s: Rx) { exists i :: 0 <= i < |s.pool| && !s.pool[i].used }

  // A packet finds room when a slot is free; a live one at the expected number needs none.
  ghost predicate Room(s: Rx, p: Packet, frame: Option<nat>) {
    SlotFree(s) || (frame.Some? && p.start == s.expected)
  }

  lemma {:induction false} SameKept(s: Rx, t: Rx, q: Packet)
    requires t.pool == s.pool && t.expected == s.expected && t.log == s.log
    ensures Kept(t, q) <==> Kept(s, q)
  {
    if i: nat :| HeldAt(s, i, q) { assert HeldAt(t, i, q); }
    if i: nat :| HeldAt(t, i, q) { assert HeldAt(s, i, q); }
  }

  // Publishing a packet that waits, or one that is new, keeps what was kept and adds at most that packet.
  lemma {:induction false} PublishKept(s: Rx, ref: Ref, p: Packet, feed: set<Packet>, q: Packet)
    requires Partition(feed) && FromFeed(s.pool, feed) && p in feed && p.start == s.expected
    ensures Kept(Publish(s, ref, p), q) <==> Kept(s, q) || q == p
  {
    var t := Publish(s, ref, p);
    PublishKeepsPending(s.pool, p, feed);
    if i: nat :| HeldAt(s, i, q) && q != p { assert HeldAt(t, i, q); }
    if i: nat :| HeldAt(t, i, q) { assert HeldAt(s, i, q); }
  }

  // Draining moves packets from slots to the ring and forgets none.
  lemma {:induction false} DrainKept(s: Rx, feed: set<Packet>, q: Packet)
    requires Partition(feed) && Core(s, feed) && s.started
    ensures Kept(Drain(s), q) <==> Kept(s, q)
    decreases PendingSet(s.pool, s.expected)
  {
    RingNeverFull(s, s.read);
    var i := Find(s.pool, s.expected, s.expected);
    if i.Some? {
      var p := s.pool[i.value].pkt;
      PublishShrinksPending(s.pool, s.expected, i.value);
      PublishSlotCore(s, i.value, feed);
      PublishKept(s, Reorder(i.value), p, feed, q);
      assert HeldAt(s, i.value, p);
      DrainKept(Publish(s, Reorder(i.value), p), feed, q);
    }
  }

  // Storing a packet in an unused slot keeps exactly one more.
  lemma {:induction false} BufferKept(s: Rx, i: nat, p: Packet, q: Packet)
    requires i < |s.pool| && !s.pool[i].used && p.start >= s.expected
    ensures Kept(Buffer(s, i, p), q) <==> Kept(s, q) || q == p
  {
    var t := Buffer(s, i, p);
    assert HeldAt(t, i, p);
    if j: nat :| HeldAt(s, j, q) { assert HeldAt(t, j, q); }
    if j: nat :| HeldAt(t, j, q) && q != p { assert HeldAt(s, j, q); }
  }

  lemma {:induction false} SkipKept(s: Rx, m: nat, q: Packet)
    requires FindMin(s.pool, s.expected) == Some(m)
    ensures Kept(SkipTo(s, s.pool[m].pkt.start), q) <==> Kept(s, q)
  {
    var t := SkipTo(s, s.pool[m].pkt.start);
    if j: nat :| HeldAt(s, j, q) { assert HeldAt(t, j, q); }
    if j: nat :| HeldAt(t, j, q) { assert HeldAt(s, j, q); }
  }

  lemma {:induction false} LiveKept(s: Rx, p: Packet, f: nat, feed: set<Packet>, q: Packet)
    requires Partition(feed) && Inv(s, feed) && s.started && p in feed && p.start == s.expected
    requires f < FRAMES && Umem(f) in s.hand && s.mem[f] == p
    ensures Kept(HandleInOrder(s, p, f).s, q) <==> Kept(s, q) || q == p
  {
    RingNeverFull(s, s.read);
    PublishFrameCore(s, f, feed);
    var t := Publish(s, Umem(f), p);
    PublishKept(s, Umem(f), p, feed, q);
    SameKept(t, t.(hand := t.hand - multiset{Umem(f)}), q);
    DrainKept(t.(hand := t.hand - multiset{Umem(f)}), feed, q);
  }

  lemma {:induction false} AllocIff(s: Rx)
    ensures Alloc(s.pool).Some? <==> SlotFree(s)
  {
    var i := Alloc(s.pool);
    if i.Some? { assert !s.pool[i.value].used; }
  }

  // With nothing waiting at the expected number, a reply there is not a duplicate.
  lemma {:induction false} ReplyKept(s: Rx, p: Packet, feed: set<Packet>, q: Packet)
    requires Partition(feed) && Inv(s, feed) && s.started && p in feed && p.start == s.expected
    ensures Kept(HandleReply(s, p).s, q) <==> Kept(s, q) || (q == p && SlotFree(s))
  {
    AllocIff(s);
    var i := Alloc(s.pool);
    assert Find(s.pool, s.expected, p.start).None?;
    if i.Some? {
      var t := Buffer(s, i.value, p);
      BufferCore(s, i.value, p, feed);
      BufferKept(s, i.value, p, q);
      RingNeverFull(t, t.read);
      PublishSlotCore(t, i.value, feed);
      PublishKept(t, Reorder(i.value), p, feed, q);
      DrainKept(Publish(t, Reorder(i.value), p), feed, q);
    }
  }

  lemma {:induction false} FutureKept(s: Rx, p: Packet, feed: set<Packet>, q: Packet)
    requires Partition(feed) && Inv(s, feed) && s.started && p in feed && p.start > s.expected
    ensures Kept(HandleFuture(s, p).s, q) <==> Kept(s, q) || (q == p && SlotFree(s))
  {
    AllocIff(s);
    var d, i := Find(s.pool, s.expected, p.start), Alloc(s.pool);
    if d.Some? {
      assert HeldAt(s, d.value, p);
    } else if i.Some? {
      BufferKept(s, i.value, p, q);
    } else {
      var m := FindMin(s.pool, s.expected);
      if m.Some? {
        SkipCore(s, m.value, feed);
        SkipKept(s, m.value, q);
        DrainKept(SkipTo(s, s.pool[m.value].pkt.start), feed, q);
      }
    }
  }

  lemma {:induction false} StartKeeps(s: Rx, p: Packet, feed: set<Packet>)
    requires Partition(feed) && Inv(s, feed) && p in feed
    ensures Inv(Start(s, p), feed) && Start(s, p).started
    ensures forall q :: Kept(Start(s, p), q) <==> Kept(s, q)
    ensures !s.started ==> SlotFree(s)
  {
    assert Idle(s.pool, Start(s, p).expected) == Idle(s.pool, s.expected);
    forall q ensures Kept(Start(s, p), q) <==> Kept(s, q) {
      if s.started { SameKept(s, Start(s, p), q); }
    }
    if !s.started { assert !s.pool[0].used; }
  }

  // Handling a packet of the session, live or reply, keeps what was kept, and of the rest exactly the packet
  // itself, if and only if it is not behind the expected number and finds room.
  lemma {:induction false} KeptIff(s: Rx, p: Packet, frame: Option<nat>, feed: set<Packet>, q: Packet)
    requires Partition(feed) && Inv(s, feed) && p in feed
    requires frame.Some? ==> frame.value < FRAMES && Umem(frame.value) in s.hand && s.mem[frame.value] == p
    ensures Kept(Handle(s, p, frame).s, q) <==> Kept(s, q) || (q == p && p.start >= s.expected && Room(s, p, frame))
  {
    var u := Start(s, p);
    StartKeeps(s, p, feed);
    assert SlotFree(u) <==> SlotFree(s);
    if p.start == u.expected {
      if frame.Some? { LiveKept(u, p, frame.value, feed, q); } else { ReplyKept(u, p, feed, q); }
    } else if p.start > u.expected {
      FutureKept(u, p, feed, q);
    }
  }

  // A live or replayed packet makes a request exactly when it is a new one beyond a gap and finds a slot.
  lemma {:induction false} RequestIff(s: Rx, p: Packet, frame: Option<nat>, feed: set<Packet>)
    requires Partition(feed) && Inv(s, feed) && s.started && p in feed
    ensures Handle(s, p, frame).request.Some? <==> p.start > s.expected && !Held(s, p) && SlotFree(s)
  {
    AllocIff(s);
    var d := Find(s.pool, s.expected, p.start);
    if d.Some? { assert HeldAt(s, d.value, p); }
    if i: nat :| HeldAt(s, i, p) { assert Pending(s.pool[i], s.expected) && s.pool[i].pkt.start == p.start; }
  }

  // ---------- one step ----------

  // The packet of the session a step hands to the receiver, if any.
  ghost function Offered(s: Rx, e: Event): Option<Packet> {
    match e
    case Live(f) =>
      if f < FRAMES && f < |s.mem| && Umem(f) in s.hand && s.mem[f].count != END_OF_SESSION && s.mem[f].count > 0
      then Some(s.mem[f]) else None
    case Reply(p) => if p.count > 0 then Some(p) else None
    case _ => None
  }

  ghost function FrameOf(e: Event): Option<nat> { if e.Live? then Some(e.frame) else None }

  // The step hands over `q`, not behind the expected number, and there is room for it.
  ghost predicate Takes(s: Rx, e: Event, q: Packet) {
    Offered(s, e) == Some(q) && q.start >= s.expected && Room(s, q, FrameOf(e))
  }

  lemma {:induction false} OfferedInFeed(s: Rx, e: Event, feed: set<Packet>)
    requires Inv(s, feed) && Legal(e, feed) && Offered(s, e).Some?
    ensures Offered(s, e).value in feed && Step(s, e) == Handle(s, Offered(s, e).value, FrameOf(e)).s
  {}

  lemma {:induction false} RecycleKept(s: Rx, feed: set<Packet>, q: Packet)
    requires Inv(s, feed) && s.recycled < s.read
    ensures Kept(RecycleOne(s), q) <==> Kept(s, q)
  {
    var t := RecycleOne(s);
    if s.ring[s.recycled].Reorder? { EntryIsInFlight(s, s.recycled); }
    if i: nat :| HeldAt(s, i, q) { assert HeldAt(t, i, q); }
    if i: nat :| HeldAt(t, i, q) { assert HeldAt(s, i, q); }
  }

  lemma {:induction false} OtherKept(s: Rx, e: Event, q: Packet)
    requires Shape(s) && Offered(s, e).None? && !(e.Recycle? && s.recycled < s.read)
    ensures Kept(Step(s, e), q) <==> Kept(s, q)
  {
    SameKept(s, Step(s, e), q);
  }

  lemma {:induction false} OfferKept(s: Rx, e: Event, feed: set<Packet>, q: Packet)
    requires Partition(feed) && Inv(s, feed) && Legal(e, feed) && Offered(s, e).Some?
    ensures Kept(Step(s, e), q) <==> Kept(s, q) || Takes(s, e, q)
  {
    OfferedInFeed(s, e, feed);
    KeptIff(s, Offered(s, e).value, FrameOf(e), feed, q);
  }

  lemma {:induction false} StepKept(s: Rx, e: Event, feed: set<Packet>, q: Packet)
    requires Partition(feed) && Inv(s, feed) && Legal(e, feed)
    ensures Kept(Step(s, e), q) <==> Kept(s, q) || Takes(s, e, q)
  {
    if Offered(s, e).Some? {
      OfferKept(s, e, feed, q);
    } else if e.Recycle? && s.recycled < s.read {
      RecycleKept(s, feed, q);
    } else {
      OtherKept(s, e, q);
    }
  }

  // ---------- whole runs ----------

  ghost predicate TakesAt(states: seq<Rx>, events: seq<Event>, q: Packet, j: nat) {
    j < |events| && j < |states| && Takes(states[j], events[j], q)
  }

  lemma {:induction false} InitialKept(s: Rx, q: Packet)
    requires Initial(s)
    ensures !Kept(s, q)
  {}

  // Exactly the packets that were taken are kept, in every state of every run: no packet for which there was
  // room is ever dropped, and none comes from nowhere.
  lemma {:induction false} KeptExactly(states: seq<Rx>, events: seq<Event>, feed: set<Packet>, k: nat, q: Packet)
    requires Partition(feed) && IsRun(states, events, feed) && k < |states|
    ensures Kept(states[k], q) <==> exists j: nat :: j < k && TakesAt(states, events, q, j)
  {
    if k == 0 {
      InitialKept(states[0], q);
    } else {
      KeptExactly(states, events, feed, k - 1, q);
      RunInv(states, events, feed, k - 1);
      StepKept(states[k - 1], events[k - 1], feed, q);
      KeptStep(states, events, k, q);
    }
  }

  lemma {:induction false} KeptStep(states: seq<Rx>, events: seq<Event>, k: nat, q: Packet)
    requires 0 < k < |states| && k <= |events|
    requires Kept(states[k - 1], q) <==> exists j: nat :: j < k - 1 && TakesAt(states, events, q, j)
    requires Kept(states[k], q) <==> Kept(states[k - 1], q) || Takes(states[k - 1], events[k - 1], q)
    ensures Kept(states[k], q) <==> exists j: nat :: j < k && TakesAt(states, events, q, j)
  {
    if Takes(states[k - 1], events[k - 1], q) { assert TakesAt(states, events, q, k - 1); }
    if j: nat :| j < k && TakesAt(states, events, q, j) { assert j == k - 1 || j < k - 1; }
  }
}
