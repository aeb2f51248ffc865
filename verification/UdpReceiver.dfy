/** The receiver's code over its arrays and 32-bit cursors. Each method is proved to take the one step
    of Sequencer it stands for: the ghost field `m` is the machine state the arrays represent. */
module UdpReceiver {
  import opened Bytes
  import opened Cursors
  import opened Mold
  import opened Sequencer
  import opened SequencerProofs
  import opened SequencerRuns
  import Pipeline

  // ---------- packet_ref::umem_addr ----------

  const FRAME_SIZE: nat := 4096
  const TURNS: nat := U32 / RING
  const REORDER_ADDR_FLAG: nat := 0x8000_0000_0000_0000

  // The tagged address that goes into a packet_ref.
  function AddrOf(ref: Ref): nat {
    match ref
    case Umem(f) => f * FRAME_SIZE
    case Reorder(i) => REORDER_ADDR_FLAG + i
  }

  // How the recycle path reads it back: the high bit, then the low nine bits or the frame number.
  function RefOf(addr: nat): Ref {
    if addr / REORDER_ADDR_FLAG % 2 == 1 then Reorder(addr % SLOTS) else Umem(addr / FRAME_SIZE)
  }

  // The tag tells the two kinds of buffer apart and names each one.
  lemma {:induction false} TagRoundTrip(ref: Ref)
    requires RefInRange(ref)
    ensures AddrOf(ref) < U64 && RefOf(AddrOf(ref)) == ref
  {}

  // ---------- the scans of the reorder pool ----------

  lemma {:induction false} FindStays(pool: seq<Slot>, expected: nat, q: nat, k: nat, n: nat)
    requires k <= n <= |pool| && FindUpTo(pool, expected, q, k).Some?
    ensures FindUpTo(pool, expected, q, n) == FindUpTo(pool, expected, q, k)
  {
    if k < n { FindStays(pool, expected, q, k, n - 1); }
  }

  lemma {:induction false} AllocStays(pool: seq<Slot>, k: nat, n: nat)
    requires k <= n <= |pool| && AllocUpTo(pool, k).Some?
    ensures AllocUpTo(pool, n) == AllocUpTo(pool, k)
  {
    if k < n { AllocStays(pool, k, n - 1); }
  }

  // reorder_alloc_slot
  method AllocSlot(pool: array<Slot>) returns (r: Option<nat>)
    ensures r == Alloc(pool[..])
  {
    for i := 0 to pool.Length
      invariant AllocUpTo(pool[..], i).None?
    {
      if !pool[i].used {
        AllocStays(pool[..], i + 1, pool.Length);
        return Some(i);
      }
    }
    r := None;
  }

  // reorder_find
  method FindSlot(pool: array<Slot>, expected: nat, q: nat) returns (r: Option<nat>)
    ensures r == Find(pool[..], expected, q)
  {
    for i := 0 to pool.Length
      invariant FindUpTo(pool[..], expected, q, i).None?
    {
      if pool[i].used && pool[i].pkt.start >= expected && pool[i].pkt.start == q {
        FindStays(pool[..], expected, q, i + 1, pool.Length);
        return Some(i);
      }
    }
    r := None;
  }

  // reorder_find_min
  method FindMinSlot(pool: array<Slot>, expected: nat) returns (r: Option<nat>)
    ensures r == FindMin(pool[..], expected)
  {
    r := None;
    for i := 0 to pool.Length
      invariant r == FindMinUpTo(pool[..], expected, i)
    {
      if pool[i].used && pool[i].pkt.start >= expected {
        if r.None? || pool[i].pkt.start < pool[r.value].pkt.start { r := Some(i); }
      }
    }
  }

  // ---------- the receiver ----------

  class Receiver {
    const pool: array<Slot>            // reorder_pool
    var started: bool                  // gap_session_set
    var expected: nat                  // gap_expected_seq
    const ring: array<Ref>             // PARSER_ENGINE.data
    var nextWrite: nat                 // the cursors, modulo 2^32
    var nextRead: nat
    var recycleRead: nat
    const mem: array<Packet>           // what each UMEM frame holds
    const freeFrames: array<Ref>       // umem_frame_addr
    var freeCount: nat                 // umem_frame_free

    ghost var m: Rx
    ghost const feed: set<Packet>

    // The arrays and cursors represent the machine state `m`.
    ghost predicate Repr()
      reads this, pool, ring, mem, freeFrames
    {
      && pool.Length == SLOTS && ring.Length == RING && mem.Length == FRAMES && freeFrames.Length == FRAMES
      && ring != freeFrames
      && Shape(m)
      && pool[..] == m.pool && mem[..] == m.mem && started == m.started && expected == m.expected
      && nextWrite == |m.ring| % U32 && nextRead == m.read % U32 && recycleRead == m.recycled % U32
      && freeCount == |m.free| <= FRAMES && freeFrames[..freeCount] == m.free
      && RingHolds()
    }

    ghost predicate RingHolds()
      reads this, ring
    {
      ring.Length == RING && forall k :: m.recycled <= k < |m.ring| ==> ring[k % RING] == m.ring[k]
    }

    ghost predicate Valid()
      reads this, pool, ring, mem, freeFrames
    {
      Repr() && Partition(feed) && Inv(m, feed)
    }

    // The statics at start-up, with afxdp_init's free list.
    constructor (feed: set<Packet>)
      requires Partition(feed)
      ensures Valid() && Initial(m) && this.feed == feed
      ensures fresh(pool) && fresh(ring) && fresh(mem) && fresh(freeFrames)
    {
      var none := Packet(0, 0, []);
      pool := new Slot[SLOTS](i => Slot(false, none));
      ring := new Ref[RING](i => Umem(0));
      mem := new Packet[FRAMES](i => none);
      freeFrames := new Ref[FRAMES](i => Umem(i));
      started, expected, nextWrite, nextRead, recycleRead, freeCount := false, 0, 0, 0, 0, FRAMES;
      this.feed := feed;
      new;
      m := Rx(pool[..], false, 0, [], 0, 0, mem[..], freeFrames[..], multiset{}, multiset{}, 0, [], [], []);
      AllFramesOnce(m.free, FRAMES);
      InitialInv(m, feed);
    }

    // publish_ref, and the advance of the expected number that follows it everywhere. It returns
    // whether there was room; there always is.
    method PublishRef(ref: Ref, p: Packet) returns (ok: bool)
      requires Repr() && RefInRange(ref) && |m.ring| - m.recycled <= FRAMES + SLOTS
      modifies ring, this`nextWrite, this`expected, this`m
      ensures Repr() && ok && m == Publish(old(m), ref, p)
    {
      Distance(|m.ring|, m.read);
      Position(|m.ring|, RING, TURNS);
      if (nextWrite - nextRead) % U32 >= RING {
        assert false;
        return false;
      }
      ring[nextWrite % RING] := ref;
      nextWrite := (nextWrite + 1) % U32;
      expected := expected + p.count;
      ghost var was := m;
      m := Publish(m, ref, p);
      forall k | m.recycled <= k < |m.ring| ensures ring[k % RING] == m.ring[k] {
        Apart(k, |was.ring|, RING);
      }
      ok := true;
    }

    // drain_pending
    method DrainPending()
      requires Repr() && Partition(feed) && Core(m, feed) && m.started
      modifies ring, this`nextWrite, this`expected, this`m
      ensures Repr() && Inv(m, feed) && m == Drain(old(m))
    {
      DrainCore(m, feed);
      while true
        invariant Repr() && Core(m, feed) && m.started && Drain(m) == Drain(old(m))
        decreases PendingSet(m.pool, m.expected)
      {
        var i := FindSlot(pool, expected, expected);
        RingNeverFull(m, m.read);
        RingBound(m);
        if i.None? { break; }
        PublishShrinksPending(m.pool, m.expected, i.value);
        PublishSlotCore(m, i.value, feed);
        var ok := PublishRef(Reorder(i.value), pool[i.value].pkt);
        if !ok { assert false; break; }
      }
    }

    // build_reorder_ref and the copy into the slot
    method StoreSlot(i: nat, p: Packet)
      requires Repr() && i < SLOTS && p.count >= 1
      modifies pool, this`m
      ensures Repr() && m == Buffer(old(m), i, p)
    {
      pool[i] := Slot(true, p);
      m := Buffer(m, i, p);
    }

    // The fast path: publish the UMEM frame itself.
    method HandleLive(p: Packet, f: nat) returns (pinned: bool)
      requires Valid() && started && f < FRAMES && Umem(f) in m.hand && m.mem[f] == p
      requires p in feed && p.start == expected
      modifies ring, this`nextWrite, this`expected, this`m
      ensures Valid() && Outcome(m, pinned, None) == HandleInOrder(old(m), p, f)
    {
      RingNeverFull(m, m.read);
      RingBound(m);
      PublishFrameCore(m, f, feed);
      var ok := PublishRef(Umem(f), p);
      if !ok { assert false; return false; }
      m := m.(hand := m.hand - multiset{Umem(f)});
      DrainPending();
      pinned := true;
    }

    // An in-order rewinder reply: copy into a slot and publish that.
    method HandleInOrderReply(p: Packet)
      requires Valid() && started && p in feed && p.start == expected
      modifies pool, ring, this`nextWrite, this`expected, this`m
      ensures Valid() && Outcome(m, false, None) == HandleReply(old(m), p)
    {
      var dup := FindSlot(pool, expected, p.start);
      if dup.Some? { return; }
      var i := AllocSlot(pool);
      if i.None? { return; }
      BufferCore(m, i.value, p, feed);
      StoreSlot(i.value, p);
      RingNeverFull(m, m.read);
      RingBound(m);
      PublishSlotCore(m, i.value, feed);
      var ok := PublishRef(Reorder(i.value), p);
      if !ok { assert false; return; }
      DrainPending();
    }

    // Every slot is used: give up the numbers before the nearest pending packet.
    method SkipAhead(ghost p: Packet)
      requires Valid() && started && p in feed && p.start > expected
      requires Alloc(pool[..]).None? && Find(pool[..], expected, p.start).None?
      modifies ring, this`nextWrite, this`expected, this`m
      ensures Valid() && m == HandleFuture(old(m), p).s
    {
      var next := FindMinSlot(pool, expected);
      if next.Some? && pool[next.value].pkt.start > expected {
        SkipCore(m, next.value, feed);
        m := SkipTo(m, pool[next.value].pkt.start);
        expected := pool[next.value].pkt.start;
        DrainPending();
      }
    }

    // A future packet: buffer it, or skip ahead when every slot is used.
    method HandleFuturePacket(p: Packet) returns (request: Option<Request>)
      requires Valid() && started && p in feed && p.start > expected
      modifies pool, ring, this`nextWrite, this`expected, this`m
      ensures Valid() && Outcome(m, false, request) == HandleFuture(old(m), p)
    {
      request := None;
      var dup := FindSlot(pool, expected, p.start);
      if dup.None? {
        var i := AllocSlot(pool);
        if i.None? {
          SkipAhead(p);
        } else {
          BufferCore(m, i.value, p, feed);
          StoreSlot(i.value, p);
          var missing := p.start - expected;
          request := Some(Request(expected, if missing > 0xFFFF then 0xFFFF else missing));
        }
      }
    }

    method BeginSession(p: Packet)
      requires Valid() && p in feed
      modifies this`started, this`expected, this`m
      ensures Valid() && m == Start(old(m), p)
    {
      StartInv(m, p, feed);
      if !started {
        started, expected := true, p.start;
        m := Start(m, p);
      }
    }

    // handle_payload, on the parsed packet: `frame` is the UMEM frame of a live packet, None for a
    // rewinder reply.
    method HandlePayload(p: Packet, frame: Option<nat>) returns (pinned: bool, request: Option<Request>)
      requires Valid() && (p.count == 0 || p in feed)
      requires frame.Some? ==> frame.value < FRAMES && Umem(frame.value) in m.hand && m.mem[frame.value] == p
      modifies pool, ring, this`started, this`nextWrite, this`expected, this`m
      ensures Valid() && Outcome(m, pinned, request) == Handle(old(m), p, frame)
    {
      pinned, request := false, None;
      if p.count > 0 {
        BeginSession(p);
        if p.start == expected {
          if frame.Some? { pinned := HandleLive(p, frame.value); } else { HandleInOrderReply(p); }
        } else if p.start > expected {
          request := HandleFuturePacket(p);
        }
      }
    }

    // The bytes behind a ring entry.
    method Load(ref: Ref) returns (body: seq<byte>)
      requires Repr() && RefInRange(ref)
      ensures body == Deref(m, ref).body
    {
      match ref {
        case Umem(f) => body := mem[f].body;
        case Reorder(i) => body := pool[i].pkt.body;
      }
    }

    // The body of consume's loop when the ring is not empty.
    method DecodeHead() returns (msgs: seq<Msg>)
      requires Repr() && m.read < |m.ring|
      modifies this`nextRead, this`m
      ensures Repr() && m == ConsumeOne(old(m)) && msgs == Unpack(Deref(m, m.ring[old(m.read)]).body)
    {
      Position(m.read, RING, TURNS);
      var body := Load(ring[nextRead % RING]);
      msgs := UnpackLoop(body);
      nextRead := (nextRead + 1) % U32;
      m := ConsumeOne(m);
    }

    // One pass of consume: decode the packet at the read cursor and advance it.
    method ConsumePacket() returns (msgs: Option<seq<Msg>>)
      requires Valid()
      modifies this`nextRead, this`m
      ensures Valid() && m == Step(old(m), Consume)
      ensures msgs == if old(m.read) == |m.ring| then None else Some(Unpack(m.log[old(m.read)].body))
    {
      ConsumeInv(m, feed);
      RingBound(m);
      SameCursor(|m.ring|, m.read);
      msgs := None;
      if nextRead != nextWrite {
        var decoded := DecodeHead();
        msgs := Some(decoded);
      }
    }

    // xsk_free_umem_frame
    method PushFree(ref: Ref) returns (ok: bool)
      requires freeFrames.Length == FRAMES && freeCount <= FRAMES
      modifies freeFrames, this`freeCount
      ensures ok <==> old(freeCount) < FRAMES
      ensures freeCount <= FRAMES && freeFrames[..freeCount] == old(freeFrames[..freeCount]) + if ok then [ref] else []
    {
      ok := freeCount < FRAMES;
      if ok {
        freeFrames[freeCount] := ref;
        freeCount := freeCount + 1;
      }
    }

    // One entry of recycle_consumed_frames: the tag says whether a frame goes back on the free list
    // or a slot becomes free.
    method ReturnBuffer()
      requires Repr() && m.recycled < m.read && |RecycleOne(m).free| <= FRAMES
      modifies pool, freeFrames, this`recycleRead, this`freeCount, this`m
      ensures Repr() && m == RecycleOne(old(m))
    {
      Position(m.recycled, RING, TURNS);
      var ref := ring[recycleRead % RING];
      TagRoundTrip(ref);
      var addr := AddrOf(ref);
      recycleRead := (recycleRead + 1) % U32;
      if addr / REORDER_ADDR_FLAG % 2 == 1 {
        var i := addr % SLOTS;
        pool[i] := pool[i].(used := false);
      } else {
        var ok := PushFree(Umem(addr / FRAME_SIZE));
      }
      m := RecycleOne(m);
    }

    // One pass of its loop.
    method RecycleNext(ghost start: Rx, ghost k: nat)
      requires Valid() && m.recycled < m.read && Reaches(start, Recycles(k), m)
      modifies pool, freeFrames, this`recycleRead, this`freeCount, this`m
      ensures Valid() && m.recycled == old(m.recycled) + 1 && m.read == old(m.read) && m.hand == old(m.hand)
      ensures Reaches(start, Recycles(k + 1), m)
    {
      ghost var u := m;
      RecycleInv(m, feed);
      FreeBound(RecycleOne(m));
      ReturnBuffer();
      RecyclesSnoc(start, k, u, m);
    }

    // recycle_consumed_frames: everything consumed so far.
    method RecycleConsumed()
      requires Valid()
      modifies pool, freeFrames, this`recycleRead, this`freeCount, this`m
      ensures Valid() && m.recycled == m.read && m.hand == old(m.hand)
      ensures Reaches(old(m), Recycles(Backlog(old(m))), m)
    {
      RingBound(m);
      SameCursor(m.read, m.recycled);
      ghost var k := 0;
      ReachesNone(m, Recycles(0));
      while recycleRead != nextRead
        invariant Valid() && m.read == old(m.read) && m.read - m.recycled < U32 && m.hand == old(m.hand)
        invariant recycleRead == nextRead <==> m.recycled == m.read
        invariant k == m.recycled - old(m.recycled) && Reaches(old(m), Recycles(k), m)
        decreases m.read - m.recycled
      {
        RecycleNext(old(m), k);
        SameCursor(m.read, m.recycled);
        k := k + 1;
      }
    }

    // xsk_alloc_umem_frame, `n` times
    method PopFrames(n: nat) returns (addrs: seq<Ref>)
      requires n <= freeCount <= freeFrames.Length
      modifies this`freeCount
      ensures freeCount == old(freeCount) - n && addrs == freeFrames[freeCount..old(freeCount)]
    {
      addrs := [];
      for i := 0 to n
        invariant freeCount == old(freeCount) - i && addrs == freeFrames[freeCount..old(freeCount)]
      {
        freeCount := freeCount - 1;
        addrs := [freeFrames[freeCount]] + addrs;
      }
    }

    // afxdp_refill_fq: move `n` frames to the fill ring.
    method RefillFillRing(n: nat) returns (addrs: seq<Ref>)
      requires Valid() && n <= freeCount
      modifies this`freeCount, this`m
      ensures Valid() && m == Step(old(m), Refill(n)) && m.fill == old(m.fill) + multiset(addrs)
    {
      RefillInv(m, n, feed);
      addrs := MoveToFill(n);
    }

    method MoveToFill(n: nat) returns (addrs: seq<Ref>)
      requires Repr() && n <= freeCount
      modifies this`freeCount, this`m
      ensures Repr() && m == Step(old(m), Refill(n)) && m.fill == old(m.fill) + multiset(addrs)
    {
      ghost var free := freeFrames[..freeCount];
      addrs := PopFrames(n);
      assert addrs == free[freeCount..] && freeFrames[..freeCount] == free[..freeCount];
      m := Step(m, Refill(n));
    }

    // The kernel fills a frame of the fill ring and the receiver takes it into its burst.
    method KernelDeliver(f: nat, p: Packet)
      requires Valid() && f < FRAMES && Umem(f) in m.fill && Expectable(p, feed)
      modifies mem, this`m
      ensures Valid() && m == Step(old(m), Arrive(f, p))
    {
      ArriveInv(m, f, p, feed);
      mem[f] := p;
      m := Step(m, Arrive(f, p));
    }

    method FreeFrame(f: nat)
      requires Repr() && Umem(f) in m.hand && |m.free| < FRAMES
      modifies freeFrames, this`freeCount, this`m
      ensures Repr() && m == Step(old(m), Drop(f))
    {
      var ok := PushFree(Umem(f));
      m := Step(m, Drop(f));
    }

    // afxdp_recycle of one frame of the burst that was not pinned
    method DropFrame(f: nat)
      requires Valid() && Umem(f) in m.hand
      modifies freeFrames, this`freeCount, this`m
      ensures Valid() && m == Step(old(m), Drop(f)) && m.hand == old(m.hand) - multiset{Umem(f)}
    {
      DropInv(m, f, feed);
      FreeBound(Step(m, Drop(f)));
      FreeFrame(f);
    }

    // One frame of the burst.
    method HandleFrame(f: nat) returns (kept: bool)
      requires Valid() && f < FRAMES && Umem(f) in m.hand && mem[f].count != END_OF_SESSION
      modifies pool, ring, this`started, this`nextWrite, this`expected, this`m
      ensures Valid() && m == Step(old(m), Live(f)) && m.mem == old(m.mem)
      ensures m.hand == if kept then old(m.hand) - multiset{Umem(f)} else old(m.hand)
    {
      HandleKeeps(m, mem[f], Some(f));
      var request;
      kept, request := HandlePayload(mem[f], Some(f));
    }

    // One frame of the burst, with the test for the end of the session.
    method TakeLive(f: nat) returns (stop: bool, kept: bool)
      requires Valid() && f < FRAMES && Umem(f) in m.hand
      modifies pool, ring, this`started, this`nextWrite, this`expected, this`m
      ensures Valid() && m == Step(old(m), Live(f)) && m.mem == old(m.mem) && (stop <==> IsEnd(f, m.mem))
      ensures m.hand == if kept then old(m.hand) - multiset{Umem(f)} else old(m.hand)
    {
      stop, kept := mem[f].count == END_OF_SESSION, false;
      if !stop { kept := HandleFrame(f); }
    }

    // The same, as one more step of a burst.
    method NextLive(frames: seq<nat>, k: nat, ghost start: Rx) returns (stop: bool, kept: bool)
      requires Valid() && k < |frames| && frames[k] < FRAMES && Umem(frames[k]) in m.hand
      requires Reaches(start, Lives(frames[..k]), m)
      modifies pool, ring, this`started, this`nextWrite, this`expected, this`m
      ensures Valid() && Reaches(start, Lives(frames[..k + 1]), m)
      ensures m.mem == old(m.mem) && (stop <==> IsEnd(frames[k], m.mem))
      ensures m.hand == if kept then old(m.hand) - multiset{Umem(frames[k])} else old(m.hand)
    {
      ghost var u := m;
      stop, kept := TakeLive(frames[k]);
      LivesSnoc(start, frames, k, u, m);
    }

    // One pass of the burst loop: frame k is pinned or put aside; an end of session is put aside.
    method TakeFrame(frames: seq<nat>, k: nat, drops: seq<nat>, ghost pinned: multiset<Ref>, ghost start: Rx)
      returns (stop: bool, drops': seq<nat>, ghost pinned': multiset<Ref>)
      requires Valid() && k < |frames| && Bag(frames) <= m.hand + pinned && pinned + Bag(drops) == Bag(frames[..k])
      requires Reaches(start, Lives(frames[..k]), m)
      modifies pool, ring, this`started, this`nextWrite, this`expected, this`m
      ensures Valid() && Reaches(start, Lives(frames[..k + 1]), m)
      ensures m.mem == old(m.mem) && (stop <==> IsEnd(frames[k], m.mem))
      ensures m.hand + pinned' == old(m.hand) + pinned && pinned' + Bag(drops') == Bag(frames[..k + 1])
    {
      var f := frames[k];
      BurstInHand(frames, k, m.hand, pinned, Bag(drops));
      BagSnoc(drops, f);
      Moved(m.hand, pinned, Umem(f));
      drops', pinned' := drops, pinned;
      var kept;
      stop, kept := NextLive(frames, k, start);
      if kept { pinned' := pinned + multiset{Umem(f)}; } else { drops' := drops + [f]; }
    }

    // The loop over a burst, up to the first end of session or its last frame: a live step for each frame.
    method HandleFrames(frames: seq<nat>)
      returns (done: nat, stop: bool, drops: seq<nat>, ghost pinned: multiset<Ref>)
      requires Valid() && Bag(frames) <= m.hand
      modifies pool, ring, this`started, this`nextWrite, this`expected, this`m
      ensures Valid() && done <= |frames| && Reaches(old(m), Lives(frames[..done]), m)
      ensures m.hand + pinned == old(m.hand) && pinned + Bag(drops) == Bag(frames[..done])
      ensures ReadUpTo(frames, mem[..], done, stop)
    {
      done, stop, drops, pinned := 0, false, [], multiset{};
      ReachesNone(m, Lives(frames[..0]));
      ReadNone(frames, m.mem);
      while done < |frames| && !stop
        invariant Valid() && done <= |frames| && Reaches(old(m), Lives(frames[..done]), m)
        invariant m.hand + pinned == old(m.hand)
        invariant pinned + Bag(drops) == Bag(frames[..done])
        invariant m.mem == old(m.mem) && Reading(frames, m.mem, done, stop)
        decreases |frames| - done
      {
        stop, drops, pinned := TakeFrame(frames, done, drops, pinned, old(m));
        ReadMore(frames, m.mem, done, stop);
        done := done + 1;
      }
      ReadAll(frames, m.mem, done, stop);
    }

    // A whole burst: a live step for each frame up to the first end of session, that one included, or for
    // all; then each of them that was not pinned is put back on the free list.
    method HandleBurst(frames: seq<nat>) returns (done: nat, stop: bool, drops: seq<nat>)
      requires Valid() && Bag(frames) <= m.hand
      modifies pool, ring, freeFrames, this`started, this`nextWrite, this`expected, this`freeCount, this`m
      ensures Valid() && done <= |frames| && Reaches(old(m), Lives(frames[..done]) + Drops(drops), m)
      ensures m.hand + Bag(frames[..done]) == old(m.hand)
      ensures ReadUpTo(frames, mem[..], done, stop)
    {
      ghost var pinned;
      done, stop, drops, pinned := HandleFrames(frames);
      BagLeq(frames, done);
      BurstRest(m.hand, pinned, Bag(drops), old(m.hand));
      ghost var u := m;
      DropFrames(drops);
      BurstSum(m.hand, Bag(drops), u.hand, pinned, old(m.hand));
      ReachesConcat(old(m), Lives(frames[..done]), u, Drops(drops), m);
    }

    // One more frame put back.
    method NextDrop(drops: seq<nat>, k: nat, ghost start: Rx)
      requires Valid() && k < |drops| && Umem(drops[k]) in m.hand && Reaches(start, Drops(drops[..k]), m)
      modifies freeFrames, this`freeCount, this`m
      ensures Valid() && Reaches(start, Drops(drops[..k + 1]), m) && m.hand == old(m.hand) - multiset{Umem(drops[k])}
    {
      ghost var u := m;
      DropFrame(drops[k]);
      DropsSnoc(start, drops, k, u, m);
    }

    // afxdp_recycle of the frames put aside: a drop step for each.
    method DropFrames(drops: seq<nat>)
      requires Valid() && Bag(drops) <= m.hand
      modifies freeFrames, this`freeCount, this`m
      ensures Valid() && Reaches(old(m), Drops(drops), m) && m.hand + Bag(drops) == old(m.hand)
    {
      ReachesNone(m, Drops(drops[..0]));
      for k := 0 to |drops|
        invariant Valid() && Reaches(old(m), Drops(drops[..k]), m) && m.hand + Bag(drops[..k]) == old(m.hand)
      {
        DropNext(drops, k, m.hand, old(m.hand));
        NextDrop(drops, k, old(m));
      }
      assert drops[..|drops|] == drops;
    }

    // One reply.
    method NextReply(replies: seq<Packet>, k: nat, ghost start: Rx)
      requires Valid() && k < |replies| && Legal(Reply(replies[k]), feed) && Reaches(start, Replies(replies[..k]), m)
      modifies pool, ring, this`started, this`nextWrite, this`expected, this`m
      ensures Valid() && Reaches(start, Replies(replies[..k + 1]), m) && m.hand == old(m.hand)
    {
      ghost var u := m;
      HandleKeeps(m, replies[k], None);
      var pinned, request := HandlePayload(replies[k], None);
      RepliesSnoc(start, replies, k, u, m);
    }

    // poll_rewinder: each reply that has come, in turn.
    method PollRewinder(replies: seq<Packet>)
      requires Valid() && AllLegal(Replies(replies), feed)
      modifies pool, ring, this`started, this`nextWrite, this`expected, this`m
      ensures Valid() && Reaches(old(m), Replies(replies), m) && m.hand == old(m.hand)
    {
      ReachesNone(m, Replies(replies[..0]));
      for k := 0 to |replies|
        invariant Valid() && Reaches(old(m), Replies(replies[..k]), m) && m.hand == old(m.hand)
      {
        assert Legal(Replies(replies)[k], feed);
        NextReply(replies, k, old(m));
      }
      assert replies[..|replies|] == replies;
    }

    // The request of an idle pass.
    method RequestGap() returns (r: Option<Request>)
      requires Repr()
      ensures r == IdleRequest(m)
    {
      r := None;
      var next := FindMinSlot(pool, expected);
      if started && next.Some? && pool[next.value].pkt.start > expected {
        var missing := pool[next.value].pkt.start - expected;
        r := Some(Request(expected, if missing > 0xFFFF then 0xFFFF else missing));
      }
    }

    // One pass of the receiver's loop, with the replies and the frames that have come: what has been
    // consumed is recycled, the replies are handled, then the burst, or the request if there is none.
    method Pass(replies: seq<Packet>, frames: seq<nat>)
      returns (request: Option<Request>, done: nat, stop: bool, drops: seq<nat>)
      requires Valid() && Bag(frames) <= m.hand && AllLegal(Replies(replies), feed)
      modifies pool, ring, freeFrames, this`started, this`nextWrite, this`expected, this`recycleRead
      modifies this`freeCount, this`m
      ensures Valid() && done <= |frames|
      ensures Reaches(old(m), PassEvents(old(m), replies, frames[..done], drops), m)
      ensures m.hand + Bag(frames[..done]) == old(m.hand)
      ensures request == if frames == [] then IdleRequest(m) else None
      ensures ReadUpTo(frames, mem[..], done, stop)
    {
      RecycleConsumed();
      ghost var u := m;
      PollRewinder(replies);
      ghost var v := m;
      request, done, stop, drops := None, 0, false, [];
      if frames == [] {
        request := RequestGap();
        ReachesNone(m, Lives(frames[..0]) + Drops([]));
      } else {
        done, stop, drops := HandleBurst(frames);
      }
      PassReaches(old(m), replies, frames[..done], drops, u, v, m);
    }

    // So whatever the loops did, what the dispatcher has decoded is the file's messages in order, less those
    // given up.
    lemma {:induction false} DecodesFile(pk: seq<Packet>)
      requires Valid() && Cut(pk, 1) && feed == Pipeline.PacketSet(pk)
      ensures Pipeline.Decodes(m, pk)
    {
      Pipeline.InvDecodes(m, pk);
    }
  }

  // ---------- lists of steps ----------

  ghost function Lives(frames: seq<nat>): seq<Event> {
    seq(|frames|, i requires 0 <= i < |frames| => Live(frames[i]))
  }

  ghost function Drops(frames: seq<nat>): seq<Event> {
    seq(|frames|, i requires 0 <= i < |frames| => Drop(frames[i]))
  }

  ghost function Replies(ps: seq<Packet>): seq<Event> {
    seq(|ps|, i requires 0 <= i < |ps| => Reply(ps[i]))
  }

  ghost function Recycles(n: nat): seq<Event> { seq(n, i => Recycle) }

  // How many entries are consumed and not yet recycled.
  ghost function Backlog(s: Rx): nat { if s.recycled <= s.read then s.read - s.recycled else 0 }

  // The steps of one pass of the receiver's loop that starts in `s`.
  ghost function PassEvents(s: Rx, replies: seq<Packet>, handled: seq<nat>, drops: seq<nat>): seq<Event> {
    Recycles(Backlog(s)) + Replies(replies) + (Lives(handled) + Drops(drops))
  }

  lemma {:induction false} PassReaches(s: Rx, replies: seq<Packet>, handled: seq<nat>, drops: seq<nat>,
                                       u: Rx, v: Rx, t: Rx)
    requires Reaches(s, Recycles(Backlog(s)), u) && Reaches(u, Replies(replies), v)
    requires Reaches(v, Lives(handled) + Drops(drops), t)
    ensures Reaches(s, PassEvents(s, replies, handled, drops), t)
  {
    ReachesConcat(s, Recycles(Backlog(s)), u, Replies(replies), v);
    ReachesConcat(s, Recycles(Backlog(s)) + Replies(replies), v, Lives(handled) + Drops(drops), t);
  }

  // Each of them may stand in a run of the machine.
  lemma {:induction false} PassLegal(s: Rx, replies: seq<Packet>, handled: seq<nat>, drops: seq<nat>, feed: set<Packet>)
    requires AllLegal(Replies(replies), feed)
    ensures AllLegal(PassEvents(s, replies, handled, drops), feed)
  {}

  // So a pass takes a run of the machine to a longer one, and every result about runs holds after it.
  lemma {:induction false} PassExtendsRun(states: seq<Rx>, events: seq<Event>, feed: set<Packet>, s: Rx, t: Rx,
                                          replies: seq<Packet>, handled: seq<nat>, drops: seq<nat>)
    returns (longer: seq<Rx>)
    requires Partition(feed) && EndsIn(states, events, feed, s) && AllLegal(Replies(replies), feed)
    requires Reaches(s, PassEvents(s, replies, handled, drops), t)
    ensures EndsIn(longer, events + PassEvents(s, replies, handled, drops), feed, t)
  {
    PassLegal(s, replies, handled, drops, feed);
    ReachesRun(s, PassEvents(s, replies, handled, drops), t);
    longer := RunExtends(states, events, PassEvents(s, replies, handled, drops), feed, s);
  }

  lemma {:induction false} RecyclesSnoc(s: Rx, k: nat, u: Rx, t: Rx)
    requires Reaches(s, Recycles(k), u) && Shape(u) && t == Step(u, Recycle)
    ensures Reaches(s, Recycles(k + 1), t)
  {
    ReachesSnoc(s, Recycles(k), u, Recycle, t);
    assert Recycles(k + 1) == Recycles(k) + [Recycle];
  }

  lemma {:induction false} LivesSnoc(s: Rx, frames: seq<nat>, k: nat, u: Rx, t: Rx)
    requires k < |frames| && Reaches(s, Lives(frames[..k]), u) && Shape(u) && t == Step(u, Live(frames[k]))
    ensures Reaches(s, Lives(frames[..k + 1]), t)
  {
    ReachesSnoc(s, Lives(frames[..k]), u, Live(frames[k]), t);
    assert Lives(frames[..k + 1]) == Lives(frames[..k]) + [Live(frames[k])];
  }

  lemma {:induction false} DropsSnoc(s: Rx, frames: seq<nat>, k: nat, u: Rx, t: Rx)
    requires k < |frames| && Reaches(s, Drops(frames[..k]), u) && Shape(u) && t == Step(u, Drop(frames[k]))
    ensures Reaches(s, Drops(frames[..k + 1]), t)
  {
    ReachesSnoc(s, Drops(frames[..k]), u, Drop(frames[k]), t);
    assert Drops(frames[..k + 1]) == Drops(frames[..k]) + [Drop(frames[k])];
  }

  lemma {:induction false} RepliesSnoc(s: Rx, ps: seq<Packet>, k: nat, u: Rx, t: Rx)
    requires k < |ps| && Reaches(s, Replies(ps[..k]), u) && Shape(u) && t == Step(u, Reply(ps[k]))
    ensures Reaches(s, Replies(ps[..k + 1]), t)
  {
    ReachesSnoc(s, Replies(ps[..k]), u, Reply(ps[k]), t);
    assert Replies(ps[..k + 1]) == Replies(ps[..k]) + [Reply(ps[k])];
  }

  lemma {:induction false} DropNext(drops: seq<nat>, k: nat, hand: multiset<Ref>, total: multiset<Ref>)
    requires k < |drops| && hand + Bag(drops[..k]) == total && Bag(drops) <= total
    ensures Umem(drops[k]) in hand && hand - multiset{Umem(drops[k])} + Bag(drops[..k + 1]) == total
  {
    BagPrefix(drops, k);
    var r := Umem(drops[k]);
    assert Bag(drops[..k + 1])[r] <= Bag(drops)[r] <= total[r];
    Moved(hand, Bag(drops[..k]), r);
  }

  lemma {:induction false} BurstRest(hand: multiset<Ref>, pinned: multiset<Ref>, drops: multiset<Ref>,
                                     total: multiset<Ref>)
    requires hand + pinned == total && pinned + drops <= total
    ensures drops <= hand
  {
    forall r ensures drops[r] <= hand[r] { assert (pinned + drops)[r] <= total[r]; }
  }

  lemma {:induction false} BurstSum(left: multiset<Ref>, drops: multiset<Ref>, hand: multiset<Ref>,
                                    pinned: multiset<Ref>, total: multiset<Ref>)
    requires left + drops == hand && hand + pinned == total
    ensures left + (pinned + drops) == total
  {}

  lemma {:induction false} BagLeq(frames: seq<nat>, k: nat)
    requires k <= |frames|
    ensures Bag(frames[..k]) <= Bag(frames)
  {
    if k > 0 { BagPrefix(frames, k - 1); }
  }

  // The free list afxdp_init builds: every frame once.
  lemma {:induction false} AllFramesOnce(list: seq<Ref>, n: nat)
    requires n == |list| && forall i :: 0 <= i < n ==> list[i] == Umem(i)
    ensures multiset(list) == multiset(Frames(n))
  {
    if n == 0 {
      assert list == [] && Frames(0) == {};
    } else {
      AllFramesOnce(list[..n - 1], n - 1);
      assert list == list[..n - 1] + [Umem(n - 1)];
      assert Frames(n) == Frames(n - 1) + {Umem(n - 1)};
    }
  }

  predicate IsEnd(f: nat, mem: seq<Packet>) { f < |mem| && mem[f].count == END_OF_SESSION }

  // Where the first end of session of a burst is, or its length.
  ghost function FirstEnd(frames: seq<nat>, mem: seq<Packet>): (k: nat)
    ensures k <= |frames|
  {
    if frames == [] || IsEnd(frames[0], mem) then 0 else 1 + FirstEnd(frames[1..], mem)
  }

  // `done` frames of the burst were read: up to the first end of session, that one included, or all.
  ghost predicate ReadUpTo(frames: seq<nat>, mem: seq<Packet>, done: nat, stop: bool) {
    && (stop <==> FirstEnd(frames, mem) < |frames|)
    && done == FirstEnd(frames, mem) + if stop then 1 else 0
  }

  ghost predicate Reading(frames: seq<nat>, mem: seq<Packet>, done: nat, stop: bool) {
    if stop then done == FirstEnd(frames, mem) + 1 <= |frames| else done <= FirstEnd(frames, mem)
  }

  lemma {:induction false} ReadNone(frames: seq<nat>, mem: seq<Packet>)
    ensures Reading(frames, mem, 0, false)
  {}

  lemma {:induction false} ReadMore(frames: seq<nat>, mem: seq<Packet>, k: nat, stop: bool)
    requires k < |frames| && Reading(frames, mem, k, false) && (stop <==> IsEnd(frames[k], mem))
    ensures Reading(frames, mem, k + 1, stop)
  {
    FirstEndIs(frames, mem, k);
  }

  lemma {:induction false} ReadAll(frames: seq<nat>, mem: seq<Packet>, done: nat, stop: bool)
    requires Reading(frames, mem, done, stop) && (stop || done == |frames|)
    ensures ReadUpTo(frames, mem, done, stop)
  {}

  lemma {:induction false} FirstEndIs(frames: seq<nat>, mem: seq<Packet>, k: nat)
    requires k < |frames| && k <= FirstEnd(frames, mem)
    ensures IsEnd(frames[k], mem) <==> k == FirstEnd(frames, mem)
    decreases |frames|
  {
    if k > 0 { FirstEndIs(frames[1..], mem, k - 1); }
  }

  // The frames of a burst, as buffers.
  ghost function Bag(frames: seq<nat>): multiset<Ref> {
    if frames == [] then multiset{} else Bag(frames[..|frames| - 1]) + multiset{Umem(frames[|frames| - 1])}
  }

  lemma {:induction false} BagSnoc(frames: seq<nat>, f: nat)
    ensures Bag(frames + [f]) == Bag(frames) + multiset{Umem(f)}
  {}

  lemma {:induction false} BagPrefix(frames: seq<nat>, k: nat)
    requires k < |frames|
    ensures Bag(frames[..k + 1]) == Bag(frames[..k]) + multiset{Umem(frames[k])}
    ensures Bag(frames[..k + 1]) <= Bag(frames)
  {
    BagSnoc(frames[..k], frames[k]);
    assert frames[..k + 1] == frames[..k] + [frames[k]];
    if k + 1 < |frames| {
      BagPrefix(frames[..|frames| - 1], k);
      assert frames[..|frames| - 1][..k + 1] == frames[..k + 1];
    } else {
      assert frames[..k + 1] == frames;
    }
  }

  // The next frame of a burst is in hand: it was neither pinned nor put aside yet.
  lemma {:induction false} BurstInHand(frames: seq<nat>, k: nat, hand: multiset<Ref>, pinned: multiset<Ref>,
                                       drops: multiset<Ref>)
    requires k < |frames| && Bag(frames) <= hand + pinned && pinned + drops == Bag(frames[..k])
    ensures Umem(frames[k]) in hand
    ensures pinned + multiset{Umem(frames[k])} + drops == Bag(frames[..k + 1])
    ensures pinned + (drops + multiset{Umem(frames[k])}) == Bag(frames[..k + 1])
  {
    BagPrefix(frames, k);
    var r := Umem(frames[k]);
    assert Bag(frames[..k + 1])[r] <= Bag(frames)[r] <= (hand + pinned)[r];
  }

  lemma {:induction false} DrainKeeps(s: Rx)
    requires PoolOk(s.pool)
    ensures Drain(s).hand == s.hand && Drain(s).mem == s.mem
    decreases PendingSet(s.pool, s.expected)
  {
    var i := Find(s.pool, s.expected, s.expected);
    if i.Some? && !RingFull(s) {
      PublishShrinksPending(s.pool, s.expected, i.value);
      DrainKeeps(Publish(s, Reorder(i.value), s.pool[i.value].pkt));
    }
  }

  lemma {:induction false} InOrderKeeps(s: Rx, p: Packet, f: nat)
    requires PoolOk(s.pool)
    ensures var o := HandleInOrder(s, p, f);
            o.s.mem == s.mem && o.s.hand == if o.pinned then s.hand - multiset{Umem(f)} else s.hand
  {
    var t := Publish(s, Umem(f), p);
    DrainKeeps(t.(hand := t.hand - multiset{Umem(f)}));
  }

  lemma {:induction false} ReplyKeeps(s: Rx, p: Packet)
    requires PoolOk(s.pool) && p.count >= 1
    ensures var o := HandleReply(s, p); o.s.mem == s.mem && o.s.hand == s.hand && !o.pinned
  {
    var i := Alloc(s.pool);
    if i.Some? { DrainKeeps(Publish(Buffer(s, i.value, p), Reorder(i.value), p)); }
  }

  lemma {:induction false} FutureKeeps(s: Rx, p: Packet)
    requires PoolOk(s.pool) && p.count >= 1 && p.start > s.expected
    ensures var o := HandleFuture(s, p); o.s.mem == s.mem && o.s.hand == s.hand && !o.pinned
  {
    var q := FindMin(s.pool, s.expected);
    if q.Some? { DrainKeeps(SkipTo(s, s.pool[q.value].pkt.start)); }
  }

  // Handling a live packet takes its frame out of the burst exactly when it is pinned.
  lemma {:induction false} HandleKeeps(s: Rx, p: Packet, frame: Option<nat>)
    requires PoolOk(s.pool)
    ensures var o := Handle(s, p, frame);
            o.s.mem == s.mem && (o.pinned ==> frame.Some?)
            && o.s.hand == if o.pinned then s.hand - multiset{Umem(frame.value)} else s.hand
  {
    if p.count > 0 {
      var u, o := Start(s, p), Handle(s, p, frame);
      if p.start == u.expected {
        if frame.Some? {
          InOrderKeeps(u, p, frame.value);
          assert o == HandleInOrder(u, p, frame.value);
        } else {
          ReplyKeeps(u, p);
          assert o == HandleReply(u, p);
        }
      } else if p.start > u.expected {
        FutureKeeps(u, p);
        assert o == HandleFuture(u, p);
      }
    }
  }

  lemma {:induction false} StartInv(s: Rx, p: Packet, feed: set<Packet>)
    requires Partition(feed) && Inv(s, feed) && p in feed
    ensures Inv(Start(s, p), feed)
  {
    assert Idle(s.pool, Start(s, p).expected) == Idle(s.pool, s.expected);
  }
}
