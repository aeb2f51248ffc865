/** Every step of the receiver keeps `Sequencer.Inv`; what follows from it for whole runs. */
module SequencerProofs {
  import opened Bytes
  import opened Mold
  import opened Sequencer

  lemma {:induction false} CountBuffers(n: nat)
    ensures |Frames(n)| == |Slots(n)| == n
  {
    if n > 0 {
      CountBuffers(n - 1);
      assert Frames(n) == Frames(n - 1) + {Umem(n - 1)};
      assert Slots(n) == Slots(n - 1) + {Reorder(n - 1)};
    } else {
      assert Frames(0) == {} == Slots(0);
    }
  }

  lemma {:induction false} OfEachOne(ref: Ref)
    ensures AllBuffers()[ref] <= 1
    ensures AllBuffers()[ref] == 1 <==> RefInRange(ref)
  {}

  // Each outstanding entry pins a buffer of its own, so there are at most 4096 + 512 of them.
  lemma {:induction false} RingBound(s: Rx)
    requires Shape(s) && Conserved(s)
    ensures |s.ring| - s.recycled <= FRAMES + SLOTS
  {
    CountBuffers(FRAMES);
    CountBuffers(SLOTS);
    assert |AllBuffers()| == |multiset(Frames(FRAMES))| + |multiset(Slots(SLOTS))|;
    assert |multiset(s.ring[s.recycled..])| <= |AllBuffers()|;
  }

  // So publish_ref never finds the ring full, whichever value of next_read it loads.
  lemma {:induction false} RingNeverFull(s: Rx, view: nat)
    requires Shape(s) && Conserved(s) && s.recycled <= view <= |s.ring|
    ensures |s.ring| - view < RING && !RingFull(s)
  {
    RingBound(s);
  }

  // Two entries that are not yet recycled never share a buffer.
  lemma {:induction false} EntriesDistinct(s: Rx, j: nat, k: nat)
    requires Shape(s) && Conserved(s) && s.recycled <= j < k < |s.ring|
    ensures s.ring[j] != s.ring[k]
  {
    var t := s.ring[s.recycled..];
    OfEachOne(s.ring[j]);
    assert multiset(t)[s.ring[j]] <= AllBuffers()[s.ring[j]];
    if s.ring[j] == s.ring[k] { Twice(t, j - s.recycled, k - s.recycled); }
  }

  lemma {:induction false} Twice<T>(t: seq<T>, j: nat, k: nat)
    requires j < k < |t| && t[j] == t[k]
    ensures multiset(t)[t[j]] >= 2
  {
    assert t == t[..k] + t[k..];
    assert t[..k][j] == t[j];
    assert t[k..][0] == t[j];
    assert t[j] in multiset(t[..k]) && t[j] in multiset(t[k..]);
  }

  // A buffer held elsewhere is not behind an outstanding entry.
  lemma {:induction false} NotInRing(s: Rx, ref: Ref)
    requires Shape(s) && Conserved(s)
    requires ref in s.hand || ref in s.fill || ref in Idle(s.pool, s.expected)
    ensures ref !in s.ring[s.recycled..]
  {
    var t := multiset(s.ring[s.recycled..]);
    OfEachOne(ref);
    assert AllBuffers()[ref] == t[ref] + s.hand[ref] + s.fill[ref] + multiset(s.free)[ref]
           + multiset(Idle(s.pool, s.expected))[ref];
    if ref in Idle(s.pool, s.expected) { assert multiset(Idle(s.pool, s.expected))[ref] == 1; }
    assert t[ref] == 0;
  }

  // In how many of the places it can be a frame is.
  ghost function Places(s: Rx, ref: Ref): nat
    requires Shape(s)
  {
    multiset(s.ring[s.recycled..])[ref] + s.hand[ref] + s.fill[ref] + multiset(s.free)[ref]
  }

  lemma {:induction false} PlacesSum(s: Rx, ref: Ref)
    requires Shape(s) && Conserved(s)
    ensures AllBuffers()[ref] == Places(s, ref) + if ref in Idle(s.pool, s.expected) then 1 else 0
  {}

  lemma {:induction false} Fewer(a: multiset<Ref>, b: multiset<Ref>)
    requires forall r :: r in a ==> a[r] <= b[r]
    ensures |a| <= |b|
  {
    assert a <= b;
    assert b == a + (b - a);
  }

  // A frame is on the free list at most once.
  lemma {:induction false} FreeOnce(s: Rx, r: Ref)
    requires Shape(s) && Conserved(s) && r.Umem?
    ensures multiset(s.free)[r] <= multiset(Frames(FRAMES))[r]
  {
    PlacesSum(s, r);
    OfEachOne(r);
  }

  // xsk_free_umem_frame never finds the free list full.
  lemma {:induction false} FreeBound(s: Rx)
    requires Shape(s) && Conserved(s) && forall r :: r in s.free ==> r.Umem?
    ensures |s.free| <= FRAMES
  {
    var free := multiset(s.free);
    forall r | r in free ensures free[r] <= multiset(Frames(FRAMES))[r] {
      assert r in s.free;
      FreeOnce(s, r);
    }
    Fewer(free, multiset(Frames(FRAMES)));
    CountBuffers(FRAMES);
  }

  lemma {:induction false} RingTail(s: Rx, ref: Ref)
    requires s.recycled <= |s.ring|
    ensures (s.ring + [ref])[s.recycled..] == s.ring[s.recycled..] + [ref]
  {}

  // Publishing packet `p` of the feed extends the history by exactly `p`.
  lemma {:induction false} PublishHistory(s: Rx, ref: Ref, p: Packet, feed: set<Packet>)
    requires Partition(feed) && History(s, feed) && p in feed && p.start == s.expected
    ensures History(Publish(s, ref, p), feed)
  {
    var l := s.ledger + [Sent(p)];
    assert l[..|l| - 1] == s.ledger;
  }

  // Publishing `p` moves no slot but the one that starts at `p.start` out of the pending ones.
  lemma {:induction false} PublishKeepsPending(pool: seq<Slot>, p: Packet, feed: set<Packet>)
    requires Partition(feed) && p in feed && FromFeed(pool, feed)
    ensures forall i :: 0 <= i < |pool| && pool[i].pkt.start != p.start ==>
                          Pending(pool[i], p.End()) == Pending(pool[i], p.start)
    ensures forall i :: 0 <= i < |pool| && pool[i].pkt.start != p.start ==>
                          InFlight(pool[i], p.End()) == InFlight(pool[i], p.start)
  {}

  lemma {:induction false} PublishFrameConserved(s: Rx, f: nat, p: Packet, feed: set<Packet>)
    requires Partition(feed) && p in feed && FromFeed(s.pool, feed) && NoneStranded(s)
    requires s.recycled <= |s.ring| && Conserved(s) && Umem(f) in s.hand && p.start == s.expected
    ensures Conserved(Publish(s, Umem(f), p).(hand := s.hand - multiset{Umem(f)}))
  {
    var t := Publish(s, Umem(f), p).(hand := s.hand - multiset{Umem(f)});
    RingTail(s, Umem(f));
    PublishKeepsPending(s.pool, p, feed);
    assert multiset(t.ring[t.recycled..]) + t.hand == multiset(s.ring[s.recycled..]) + s.hand;
    assert Idle(t.pool, t.expected) == Idle(s.pool, s.expected);
  }

  lemma {:induction false} PublishFrameBuffers(s: Rx, f: nat, feed: set<Packet>)
    requires Partition(feed) && Buffers(s, feed) && FromFeed(s.pool, feed) && NoneStranded(s)
    requires f < FRAMES && Umem(f) in s.hand && s.mem[f] in feed && s.mem[f].start == s.expected
    ensures Buffers(Publish(s, Umem(f), s.mem[f]).(hand := s.hand - multiset{Umem(f)}), feed)
  {
    PublishFrameConserved(s, f, s.mem[f], feed);
  }

  lemma {:induction false} PublishSequence(s: Rx, ref: Ref, p: Packet, feed: set<Packet>)
    requires Partition(feed) && Sequence(s, feed) && s.started && p in feed && p.start == s.expected
    ensures Sequence(Publish(s, ref, p), feed)
  {
    PublishHistory(s, ref, p, feed);
    PublishKeepsPending(s.pool, p, feed);
  }

  lemma {:induction false} PublishFrameCore(s: Rx, f: nat, feed: set<Packet>)
    requires Partition(feed) && Inv(s, feed) && s.started && f < FRAMES && Umem(f) in s.hand
    requires s.mem[f] in feed && s.mem[f].start == s.expected
    ensures var t := Publish(s, Umem(f), s.mem[f]);
            Core(t.(hand := t.hand - multiset{Umem(f)}), feed)
  {
    PublishFrameBuffers(s, f, feed);
    PublishSequence(s, Umem(f), s.mem[f], feed);
  }

  lemma {:induction false} PublishSlotBuffers(s: Rx, i: nat, feed: set<Packet>)
    requires Partition(feed) && Buffers(s, feed) && FromFeed(s.pool, feed) && Distinct(s.pool, s.expected)
    requires i < SLOTS && Pending(s.pool[i], s.expected) && s.pool[i].pkt.start == s.expected
    ensures Buffers(Publish(s, Reorder(i), s.pool[i].pkt), feed)
  {
    PublishSlotConserved(s, i, feed);
  }

  lemma {:induction false} PublishSlotConserved(s: Rx, i: nat, feed: set<Packet>)
    requires Partition(feed) && FromFeed(s.pool, feed) && Distinct(s.pool, s.expected)
    requires Shape(s) && Conserved(s)
    requires i < SLOTS && Pending(s.pool[i], s.expected) && s.pool[i].pkt.start == s.expected
    ensures Conserved(Publish(s, Reorder(i), s.pool[i].pkt))
  {
    var t := Publish(s, Reorder(i), s.pool[i].pkt);
    RingTail(s, Reorder(i));
    PublishKeepsPending(s.pool, s.pool[i].pkt, feed);
    assert Reorder(i) in Idle(s.pool, s.expected);
    assert Idle(t.pool, t.expected) == Idle(s.pool, s.expected) - {Reorder(i)};
  }

  lemma {:induction false} PublishSlotCore(s: Rx, i: nat, feed: set<Packet>)
    requires Partition(feed) && Core(s, feed) && s.started && i < SLOTS
    requires Pending(s.pool[i], s.expected) && s.pool[i].pkt.start == s.expected
    ensures Core(Publish(s, Reorder(i), s.pool[i].pkt), feed)
  {
    PublishSequence(s, Reorder(i), s.pool[i].pkt, feed);
    PublishSlotBuffers(s, i, feed);
  }

  lemma {:induction false} DrainCore(s: Rx, feed: set<Packet>)
    requires Partition(feed) && Core(s, feed) && s.started
    ensures Inv(Drain(s), feed) && Drain(s).started
    ensures Drain(s).expected >= s.expected
    decreases PendingSet(s.pool, s.expected)
  {
    RingNeverFull(s, s.read);
    var i := Find(s.pool, s.expected, s.expected);
    if i.Some? {
      PublishShrinksPending(s.pool, s.expected, i.value);
      PublishSlotCore(s, i.value, feed);
      DrainCore(Publish(s, Reorder(i.value), s.pool[i.value].pkt), feed);
    }
  }

  // Writing a new packet into an unused slot disturbs no outstanding entry.
  lemma {:induction false} BufferBuffers(s: Rx, i: nat, p: Packet, feed: set<Packet>)
    requires Buffers(s, feed) && i < SLOTS && !s.pool[i].used && p.count >= 1 && p.start >= s.expected
    ensures Buffers(Buffer(s, i, p), feed)
  {
    var t := Buffer(s, i, p);
    assert Reorder(i) in Idle(s.pool, s.expected);
    NotInRing(s, Reorder(i));
    assert forall k :: s.recycled <= k < |s.ring| ==> s.ring[k] in s.ring[s.recycled..];
    assert Idle(t.pool, t.expected) == Idle(s.pool, s.expected);
  }

  lemma {:induction false} BufferSequence(s: Rx, i: nat, p: Packet, feed: set<Packet>)
    requires Sequence(s, feed) && s.started && i < |s.pool| && !s.pool[i].used
    requires p in feed && Find(s.pool, s.expected, p.start).None?
    ensures Sequence(Buffer(s, i, p), feed)
  {}

  lemma {:induction false} BufferCore(s: Rx, i: nat, p: Packet, feed: set<Packet>)
    requires Partition(feed) && Core(s, feed) && s.started && i < SLOTS && !s.pool[i].used
    requires p in feed && p.start >= s.expected && Find(s.pool, s.expected, p.start).None?
    ensures Core(Buffer(s, i, p), feed)
  {
    BufferBuffers(s, i, p, feed);
    BufferSequence(s, i, p, feed);
  }

  lemma {:induction false} SkipCore(s: Rx, m: nat, feed: set<Packet>)
    requires Partition(feed) && Inv(s, feed) && s.started
    requires FindMin(s.pool, s.expected) == Some(m)
    ensures Core(SkipTo(s, s.pool[m].pkt.start), feed)
  {
    var t := SkipTo(s, s.pool[m].pkt.start);
    assert t.ledger[..|t.ledger| - 1] == s.ledger;
    assert Idle(t.pool, t.expected) == Idle(s.pool, s.expected);
  }

  lemma {:induction false} HandleInv(s: Rx, p: Packet, frame: Option<nat>, feed: set<Packet>)
    requires Partition(feed) && Inv(s, feed) && (p.count == 0 || p in feed)
    requires frame.Some? ==> frame.value < FRAMES && Umem(frame.value) in s.hand && s.mem[frame.value] == p
    ensures Inv(Handle(s, p, frame).s, feed)
  {
    if p.count > 0 {
      var t := Start(s, p);
      assert Idle(t.pool, t.expected) == Idle(s.pool, s.expected);
      assert Inv(t, feed);
      if p.start == t.expected && frame.Some? {
        RingNeverFull(t, t.read);
        PublishFrameCore(t, frame.value, feed);
        var u := Publish(t, Umem(frame.value), p);
        DrainCore(u.(hand := u.hand - multiset{Umem(frame.value)}), feed);
      } else if p.start == t.expected {
        ReplyInv(t, p, feed);
      } else if p.start > t.expected {
        FutureInv(t, p, feed);
      }
    }
  }

  lemma {:induction false} ReplyInv(s: Rx, p: Packet, feed: set<Packet>)
    requires Partition(feed) && Inv(s, feed) && s.started && p in feed && p.start == s.expected
    ensures Inv(HandleReply(s, p).s, feed)
  {
    var i := Alloc(s.pool);
    if Find(s.pool, s.expected, p.start).None? && i.Some? {
      BufferCore(s, i.value, p, feed);
      var t := Buffer(s, i.value, p);
      RingNeverFull(t, t.read);
      PublishSlotCore(t, i.value, feed);
      DrainCore(Publish(t, Reorder(i.value), p), feed);
    }
  }

  lemma {:induction false} FutureInv(s: Rx, p: Packet, feed: set<Packet>)
    requires Partition(feed) && Inv(s, feed) && s.started && p in feed && p.start > s.expected
    ensures Inv(HandleFuture(s, p).s, feed)
  {
    var i := Alloc(s.pool);
    if Find(s.pool, s.expected, p.start).None? {
      if i.Some? {
        BufferCore(s, i.value, p, feed);
      } else {
        var m := FindMin(s.pool, s.expected);
        if m.Some? {
          SkipCore(s, m.value, feed);
          DrainCore(SkipTo(s, s.pool[m.value].pkt.start), feed);
        }
      }
    }
  }
}
