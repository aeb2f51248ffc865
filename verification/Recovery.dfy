/** Gap recovery: one request to the rewinder moves the receiver past every packet of the reply. */
module Recovery {
  import opened Bytes
  import opened Mold
  import opened Sequencer
  import opened SequencerProofs
  import opened Pipeline
  import opened Rewinder

  // Handling rewinder replies in the order they were sent.
  function HandleAll(s: Rx, replies: seq<Packet>): Rx
    requires PoolOk(s.pool)
    decreases |replies|
  {
    if replies == [] then s
    else
      var t := Handle(s, replies[0], None).s;
      if PoolOk(t.pool) then HandleAll(t, replies[1..]) else t
  }

  ghost function FreeSlots(pool: seq<Slot>): set<nat> { set i | 0 <= i < |pool| && !pool[i].used }

  lemma {:induction false} DrainPool(s: Rx)
    requires PoolOk(s.pool)
    ensures Drain(s).pool == s.pool && Drain(s).started == s.started && Drain(s).expected >= s.expected
    decreases PendingSet(s.pool, s.expected)
  {
    var i := Find(s.pool, s.expected, s.expected);
    if i.Some? && !RingFull(s) {
      PublishShrinksPending(s.pool, s.expected, i.value);
      DrainPool(Publish(s, Reorder(i.value), s.pool[i.value].pkt));
    }
  }

  lemma {:induction false} BufferTakesSlot(pool: seq<Slot>, i: nat, p: Packet)
    requires i < |pool| && !pool[i].used
    ensures |FreeSlots(pool[i := Slot(true, p)])| + 1 == |FreeSlots(pool)|
  {
    assert FreeSlots(pool[i := Slot(true, p)]) == FreeSlots(pool) - {i};
  }

  // A reply takes at most one slot.
  lemma {:induction false} ReplyTakesOneSlot(s: Rx, p: Packet, feed: set<Packet>)
    requires Partition(feed) && Inv(s, feed) && s.started && p in feed && p.start <= s.expected
    ensures |FreeSlots(Handle(s, p, None).s.pool)| + 1 >= |FreeSlots(s.pool)| && Handle(s, p, None).s.started
  {
    var i := Alloc(s.pool);
    if p.start == s.expected && i.Some? {
      var t := Buffer(s, i.value, p);
      RingNeverFull(s, s.read);
      DrainPool(Publish(t, Reorder(i.value), p));
      BufferTakesSlot(s.pool, i.value, p);
    }
  }

  // With a slot free, a reply at or below the expected number leaves the receiver past it.
  lemma {:induction false} ReplyReaches(s: Rx, p: Packet, feed: set<Packet>)
    requires Partition(feed) && Inv(s, feed) && s.started && p in feed && p.start <= s.expected
             && |FreeSlots(s.pool)| > 0
    ensures Handle(s, p, None).s.expected >= p.End()
  {
    HandleInv(s, p, None, feed);
    if p.start == s.expected {
      ReplyAdvancesIff(s, p, feed);
      SomeFree(s.pool);
    }
  }

  // One such reply: the receiver is past it, sound, and has lost at most one slot.
  lemma {:induction false} ReplyStep(s: Rx, p: Packet, feed: set<Packet>)
    requires Partition(feed) && Inv(s, feed) && s.started && p in feed && p.start <= s.expected
             && |FreeSlots(s.pool)| > 0
    ensures var t := Handle(s, p, None).s;
            && Inv(t, feed) && t.started && t.expected >= p.End() && PoolOk(t.pool)
            && |FreeSlots(t.pool)| + 1 >= |FreeSlots(s.pool)|
  {
    HandleInv(s, p, None, feed);
    ReplyTakesOneSlot(s, p, feed);
    ReplyReaches(s, p, feed);
  }

  lemma {:induction false} HandleAllStep(s: Rx, replies: seq<Packet>, t: Rx)
    requires PoolOk(s.pool) && replies != [] && t == Handle(s, replies[0], None).s && PoolOk(t.pool)
    ensures HandleAll(s, replies) == HandleAll(t, replies[1..])
  {}

  ghost predicate FollowsAt(ps: seq<Packet>, k: nat)
    requires 0 < k < |ps|
  {
    ps[k].start == ps[k - 1].End()
  }

  // Packets of the session, one right after the other.
  ghost predicate InRow(ps: seq<Packet>, feed: set<Packet>) {
    (forall k :: 0 <= k < |ps| ==> ps[k] in feed) && (forall k :: 0 < k < |ps| ==> FollowsAt(ps, k))
  }

  lemma {:induction false} RowTail(ps: seq<Packet>, feed: set<Packet>)
    requires InRow(ps, feed) && ps != []
    ensures ps[0] in feed && InRow(ps[1..], feed) && (|ps| > 1 ==> ps[1].start == ps[0].End())
  {
    forall k | 0 < k < |ps[1..]| ensures FollowsAt(ps[1..], k) { assert FollowsAt(ps, k + 1); }
    if |ps| > 1 { assert FollowsAt(ps, 1); }
  }

  // Consecutive replies starting at or below the expected number, with a free slot for each: the
  // receiver ends past all of them.
  lemma {:induction false} RepliesAdvance(s: Rx, replies: seq<Packet>, feed: set<Packet>)
    requires Partition(feed) && Inv(s, feed) && s.started && replies != [] && InRow(replies, feed)
    requires replies[0].start <= s.expected && |FreeSlots(s.pool)| >= |replies|
    ensures HandleAll(s, replies).expected >= replies[|replies| - 1].End()
    ensures Inv(HandleAll(s, replies), feed)
    decreases |replies|
  {
    var p := replies[0];
    var t := Handle(s, p, None).s;
    RowTail(replies, feed);
    ReplyStep(s, p, feed);
    HandleAllStep(s, replies, t);
    if |replies| > 1 {
      RepliesAdvance(t, replies[1..], feed);
    } else {
      assert replies[1..] == [];
    }
  }

  lemma {:induction false} SomeFree(pool: seq<Slot>)
    requires |FreeSlots(pool)| > 0
    ensures exists i :: 0 <= i < |pool| && !pool[i].used
  {}

  // If the expected number is in the cached window and a slot is free for each reply, one request for
  // the gap takes the receiver past every packet the rewinder sends, and it sends at least the packet
  // at the expected number. `budget` is the rewinder's bound of sixteen packets per request.
  lemma {:induction false} RecoveryMakesProgress(s: Rx, hist: seq<Packet>, cnt: nat, budget: nat, feed: set<Packet>)
    requires Partition(feed) && Inv(s, feed) && s.started && cnt > 0 && 0 < budget <= MAX_REPLAY
    requires Chain(hist) && PacketSet(hist) <= feed && Lookup(hist, s.expected).Some?
    requires |FreeSlots(s.pool)| >= |Replay(hist, s.expected, cnt, budget)|
    ensures var sent := Replay(hist, s.expected, cnt, budget);
            && 0 < |sent| <= budget && sent[0].start == s.expected
            && HandleAll(s, sent).expected >= sent[|sent| - 1].End() > s.expected
  {
    var sent := Replay(hist, s.expected, cnt, budget);
    var j := ReplayConsecutive(hist, s.expected, cnt, budget);
    ReplyChain(hist, j, sent, feed);
    assert sent[0].start <= s.expected;
    RepliesAdvance(s, sent, feed);
  }

  lemma {:induction false} ReplyChain(hist: seq<Packet>, j: nat, sent: seq<Packet>, feed: set<Packet>)
    requires Chain(hist) && PacketSet(hist) <= feed && j + |sent| <= |hist| && sent == hist[j..j + |sent|]
    ensures InRow(sent, feed)
    ensures sent != [] ==> sent[|sent| - 1].End() >= sent[0].End()
  {
    forall k | 0 <= k < |sent| ensures sent[k] in feed { assert hist[j + k] in PacketSet(hist); }
    if |sent| > 1 { ChainOrder(hist, j, j + |sent| - 1); }
  }

  // A request starts at the expected number and asks for everything up to the packet that revealed the gap, or
  // for 65535 messages if that is further away.
  lemma {:induction false} RequestInsideGap(s: Rx, p: Packet, frame: Option<nat>, feed: set<Packet>)
    requires Inv(s, feed) && Handle(s, p, frame).request.Some?
    ensures var r := Handle(s, p, frame).request.value;
            && r.start == s.expected && 0 < r.count <= 0xFFFF && r.start + r.count <= p.start
            && (r.count < 0xFFFF ==> r.start + r.count == p.start)
  {}

  // The idle request is repeated exactly while something is pending, and asks for everything up to the nearest
  // packet the receiver holds, or for 65535 messages if that is further away.
  lemma {:induction false} IdleRequestsTheGap(s: Rx, feed: set<Packet>)
    requires Inv(s, feed)
    ensures IdleRequest(s).Some? <==> exists i :: 0 <= i < |s.pool| && Pending(s.pool[i], s.expected)
    ensures IdleRequest(s).Some? ==>
              var r := IdleRequest(s).value;
              && r.start == s.expected && 0 < r.count <= 0xFFFF
              && (forall i :: 0 <= i < |s.pool| && Pending(s.pool[i], s.expected) ==>
                                r.start + r.count <= s.pool[i].pkt.start)
              && (r.count < 0xFFFF ==>
                    exists i :: 0 <= i < |s.pool| && Pending(s.pool[i], s.expected)
                                && r.start + r.count == s.pool[i].pkt.start)
  {
    var m := FindMin(s.pool, s.expected);
    assert m.Some? ==> Pending(s.pool[m.value], s.expected);
  }
}
