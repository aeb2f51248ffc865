/** The reorder and gap-recovery machine of the feed receiver, on values: the statics of the
    receiver thread, the ring it shares with the dispatcher, the UMEM frames behind both, and a
    history (`first`, `log`, `ledger`, `out`) that only the proofs read.

    Cursors are unbounded here; UdpReceiver ties them to 32-bit cursors and arrays. */
module Sequencer {
  import opened Bytes
  import opened Mold

  const SLOTS: nat := 512          // REORDER_MAX
  const FRAMES: nat := 4096        // AFXDP_NUM_FRAMES
  const RING: nat := 524288        // PARSER_TO_ENGINE_SIZE

  datatype Slot = Slot(used: bool, pkt: Packet)

  // What a ring entry points at: the packet_ref of a UMEM frame or of a reorder slot.
  datatype Ref = Umem(frame: nat) | Reorder(idx: nat)

  // One step of the sequence number: a packet published, or an interval given up.
  datatype Item = Sent(pkt: Packet) | Lost(lo: nat, hi: nat)

  datatype Rx = Rx(
    pool: seq<Slot>, started: bool, expected: nat,       // reorder_pool, gap_session_set, gap_expected_seq
    ring: seq<Ref>, read: nat, recycled: nat,            // every ref ever published; next_read; recycle_read
    mem: seq<Packet>,                                    // the packet each UMEM frame holds
    free: seq<Ref>, fill: multiset<Ref>, hand: multiset<Ref>,  // free list; fill ring; current burst
    first: nat, log: seq<Packet>, ledger: seq<Item>, out: seq<Packet>)

  datatype Request = Request(start: nat, count: nat)
  datatype Outcome = Outcome(s: Rx, pinned: bool, request: Option<Request>)

  // ---------- the reorder pool ----------

  predicate Pending(slot: Slot, expected: nat) { slot.used && slot.pkt.start >= expected }
  predicate InFlight(slot: Slot, expected: nat) { slot.used && slot.pkt.start < expected }

  // reorder_find: the first pending slot among the first `n` that starts at `q`.
  function FindUpTo(pool: seq<Slot>, expected: nat, q: nat, n: nat): (r: Option<nat>)
    requires n <= |pool|
    ensures r.Some? ==> r.value < n && Pending(pool[r.value], expected) && pool[r.value].pkt.start == q
    ensures r.None? ==> forall i :: 0 <= i < n ==> !(Pending(pool[i], expected) && pool[i].pkt.start == q)
  {
    if n == 0 then None
    else
      var r := FindUpTo(pool, expected, q, n - 1);
      if r.Some? then r
      else if Pending(pool[n - 1], expected) && pool[n - 1].pkt.start == q then Some(n - 1)
      else None
  }

  // reorder_alloc_slot
  function AllocUpTo(pool: seq<Slot>, n: nat): (r: Option<nat>)
    requires n <= |pool|
    ensures r.Some? ==> r.value < n && !pool[r.value].used
    ensures r.None? ==> forall i :: 0 <= i < n ==> pool[i].used
  {
    if n == 0 then None
    else
      var r := AllocUpTo(pool, n - 1);
      if r.Some? then r else if !pool[n - 1].used then Some(n - 1) else None
  }

  // reorder_find_min
  function FindMinUpTo(pool: seq<Slot>, expected: nat, n: nat): (r: Option<nat>)
    requires n <= |pool|
    ensures r.Some? ==> r.value < n && Pending(pool[r.value], expected)
    ensures r.Some? ==> forall i :: 0 <= i < n && Pending(pool[i], expected) ==>
                                      pool[r.value].pkt.start <= pool[i].pkt.start
    ensures r.None? ==> forall i :: 0 <= i < n ==> !Pending(pool[i], expected)
  {
    if n == 0 then None
    else
      var r := FindMinUpTo(pool, expected, n - 1);
      if Pending(pool[n - 1], expected) && (r.None? || pool[n - 1].pkt.start < pool[r.value].pkt.start)
      then Some(n - 1) else r
  }

  function Find(pool: seq<Slot>, expected: nat, q: nat): Option<nat> { FindUpTo(pool, expected, q, |pool|) }
  function Alloc(pool: seq<Slot>): Option<nat> { AllocUpTo(pool, |pool|) }
  function FindMin(pool: seq<Slot>, expected: nat): Option<nat> { FindMinUpTo(pool, expected, |pool|) }

  // ---------- publishing ----------

  predicate RingFull(s: Rx) { |s.ring| - s.read >= RING }

  function Publish(s: Rx, ref: Ref, p: Packet): Rx {
    s.(ring := s.ring + [ref], log := s.log + [p], ledger := s.ledger + [Sent(p)],
       expected := s.expected + p.count)
  }

  // Every buffered packet carries a message, so publishing one advances `expected`.
  predicate PoolOk(pool: seq<Slot>) {
    |pool| == SLOTS && forall i :: 0 <= i < |pool| && pool[i].used ==> pool[i].pkt.count >= 1
  }

  ghost function PendingSet(pool: seq<Slot>, expected: nat): set<nat> {
    set i | 0 <= i < |pool| && Pending(pool[i], expected)
  }

  lemma {:induction false} PublishShrinksPending(pool: seq<Slot>, expected: nat, i: nat)
    requires PoolOk(pool) && i < |pool| && Pending(pool[i], expected) && pool[i].pkt.start == expected
    ensures PendingSet(pool, expected + pool[i].pkt.count) < PendingSet(pool, expected)
  {
    assert i in PendingSet(pool, expected);
  }

  // drain_pending
  function Drain(s: Rx): (t: Rx)
    requires PoolOk(s.pool)
    decreases PendingSet(s.pool, s.expected)
  {
    var i := Find(s.pool, s.expected, s.expected);
    if i.None? || RingFull(s) then s
    else
      PublishShrinksPending(s.pool, s.expected, i.value);
      Drain(Publish(s, Reorder(i.value), s.pool[i.value].pkt))
  }

  function Buffer(s: Rx, i: nat, p: Packet): Rx
    requires i < |s.pool|
  {
    s.(pool := s.pool[i := Slot(true, p)])
  }

  function Unbuffer(s: Rx, i: nat): Rx
    requires i < |s.pool|
  {
    s.(pool := s.pool[i := s.pool[i].(used := false)])
  }

  // The first packet of the session fixes where the sequence starts.
  function Start(s: Rx, p: Packet): Rx {
    if s.started then s else s.(started := true, expected := p.start, first := p.start)
  }

  // handle_payload. `frame` is the UMEM frame of a live packet, None for a rewinder reply.
  function Handle(s0: Rx, p: Packet, frame: Option<nat>): Outcome
    requires PoolOk(s0.pool)
  {
    if p.count == 0 then Outcome(s0, false, None)
    else
      var s := Start(s0, p);
      if p.start < s.expected then Outcome(s, false, None)
      else if p.start == s.expected then
        if frame.Some? then HandleInOrder(s, p, frame.value) else HandleReply(s, p)
      else HandleFuture(s, p)
  }

  function HandleInOrder(s: Rx, p: Packet, f: nat): Outcome
    requires PoolOk(s.pool)
  {
    if RingFull(s) then Outcome(s, false, None)
    else
      var t := Publish(s, Umem(f), p);
      Outcome(Drain(t.(hand := t.hand - multiset{Umem(f)})), true, None)
  }

  function HandleReply(s: Rx, p: Packet): Outcome
    requires PoolOk(s.pool) && p.count >= 1
  {
    if Find(s.pool, s.expected, p.start).Some? then Outcome(s, false, None)
    else
      var i := Alloc(s.pool);
      if i.None? then Outcome(s, false, None)
      else
        var t := Buffer(s, i.value, p);
        if RingFull(t) then Outcome(Unbuffer(t, i.value), false, None)
        else Outcome(Drain(Publish(t, Reorder(i.value), p)), false, None)
  }

  function SkipTo(s: Rx, q: nat): Rx {
    s.(expected := q, ledger := s.ledger + [Lost(s.expected, q)])
  }

  function HandleFuture(s: Rx, p: Packet): Outcome
    requires PoolOk(s.pool) && p.count >= 1 && p.start > s.expected
  {
    if Find(s.pool, s.expected, p.start).Some? then Outcome(s, false, None)
    else
      var i := Alloc(s.pool);
      if i.None? then
        var m := FindMin(s.pool, s.expected);
        if m.Some? && s.pool[m.value].pkt.start > s.expected
        then Outcome(Drain(SkipTo(s, s.pool[m.value].pkt.start)), false, None)
        else Outcome(s, false, None)
      else
        var missing := p.start - s.expected;
        Outcome(Buffer(s, i.value, p), false,
                Some(Request(s.expected, if missing > 0xFFFF then 0xFFFF else missing)))
  }

  // The request the main loop repeats while a gap is open and nothing arrives.
  function IdleRequest(s: Rx): Option<Request> {
    var m := FindMin(s.pool, s.expected);
    if s.started && m.Some? && s.pool[m.value].pkt.start > s.expected then
      var missing := s.pool[m.value].pkt.start - s.expected;
      Some(Request(s.expected, if missing > 0xFFFF then 0xFFFF else missing))
    else None
  }

  // ---------- the other steps ----------

  function Deref(s: Rx, ref: Ref): Packet
    requires |s.mem| == FRAMES && |s.pool| == SLOTS && RefInRange(ref)
  {
    match ref
    case Umem(f) => s.mem[f]
    case Reorder(i) => s.pool[i].pkt
  }

  predicate RefInRange(ref: Ref) {
    match ref
    case Umem(f) => f < FRAMES
    case Reorder(i) => i < SLOTS
  }

  datatype Event =
    | Refill(n: nat)                      // afxdp_refill_fq moves n frames from the free list to the fill ring
    | Arrive(frame: nat, pkt: Packet)     // the kernel fills a frame and the receiver takes it into its burst
    | Live(frame: nat)                    // handle_payload on a frame of the burst
    | Reply(pkt: Packet)                  // handle_payload on a rewinder reply
    | Drop(frame: nat)                    // afxdp_recycle of a frame that was not pinned
    | Consume                             // the dispatcher decodes one entry and advances next_read
    | Recycle                             // recycle_consumed_frames returns one consumed buffer

  // One step. An event that is not enabled changes nothing.
  function Step(s: Rx, e: Event): Rx
    requires Shape(s)
  {
    match e
    case Refill(n) =>
      if n > |s.free| then s
      else s.(free := s.free[..|s.free| - n], fill := s.fill + multiset(s.free[|s.free| - n..]))
    case Arrive(f, p) =>
      if f >= FRAMES || Umem(f) !in s.fill then s
      else s.(fill := s.fill - multiset{Umem(f)}, hand := s.hand + multiset{Umem(f)}, mem := s.mem[f := p])
    case Live(f) =>
      if f >= FRAMES || Umem(f) !in s.hand || s.mem[f].count == END_OF_SESSION then s
      else Handle(s, s.mem[f], Some(f)).s
    case Reply(p) => Handle(s, p, None).s
    case Drop(f) =>
      if Umem(f) !in s.hand then s
      else s.(hand := s.hand - multiset{Umem(f)}, free := s.free + [Umem(f)])
    case Consume =>
      if s.read == |s.ring| then s else ConsumeOne(s)
    case Recycle =>
      if s.recycled == s.read then s else RecycleOne(s)
  }

  function ConsumeOne(s: Rx): Rx
    requires |s.mem| == FRAMES && |s.pool| == SLOTS && s.read < |s.ring| && RefInRange(s.ring[s.read])
  {
    s.(out := s.out + [Deref(s, s.ring[s.read])], read := s.read + 1)
  }

  function RecycleOne(s: Rx): Rx
    requires |s.pool| == SLOTS && s.recycled < |s.ring| && RefInRange(s.ring[s.recycled])
  {
    match s.ring[s.recycled]
    case Umem(f) => s.(recycled := s.recycled + 1, free := s.free + [Umem(f)])
    case Reorder(i) => Unbuffer(s, i).(recycled := s.recycled + 1)
  }

  predicate Shape(s: Rx) {
    && PoolOk(s.pool) && |s.mem| == FRAMES
    && s.recycled <= s.read <= |s.ring| == |s.log|
    && (forall k :: s.recycled <= k < |s.ring| ==> RefInRange(s.ring[k]))
  }

  // ---------- what every run keeps ----------

  // The packets of one session cut the sequence numbers into disjoint intervals.
  ghost predicate Partition(feed: set<Packet>) {
    && (forall p :: p in feed ==> p.count >= 1)
    && (forall p, q :: p in feed && q in feed && p.start < q.start ==> p.End() <= q.start)
    && (forall p, q :: p in feed && q in feed && p.start == q.start ==> p == q)
  }

  ghost function Frames(n: nat): set<Ref> { set f | 0 <= f < n :: Umem(f) }
  ghost function Slots(n: nat): set<Ref> { set i | 0 <= i < n :: Reorder(i) }

  // Every buffer there is, once.
  ghost function AllBuffers(): multiset<Ref> { multiset(Frames(FRAMES)) + multiset(Slots(SLOTS)) }

  // The slots no ring entry points at: free ones and pending ones.
  ghost function Idle(pool: seq<Slot>, expected: nat): set<Ref> {
    set i | 0 <= i < |pool| && !InFlight(pool[i], expected) :: Reorder(i)
  }

  // Every buffer, UMEM frame or reorder slot, is in exactly one place.
  ghost predicate Conserved(s: Rx)
    requires s.recycled <= |s.ring|
  {
    multiset(s.ring[s.recycled..]) + s.hand + s.fill + multiset(s.free) + multiset(Idle(s.pool, s.expected))
    == AllBuffers()
  }

  // The packets of a ledger, in order.
  function Sents(ledger: seq<Item>): (ps: seq<Packet>) {
    if ledger == [] then []
    else
      var rest := Sents(ledger[..|ledger| - 1]);
      match ledger[|ledger| - 1]
      case Sent(p) => rest + [p]
      case Lost(_, _) => rest
  }

  // The items of a ledger take the sequence number from `first` to `next` without gap or overlap.
  predicate Contiguous(ledger: seq<Item>, first: nat, next: nat) {
    if ledger == [] then first == next
    else
      var rest := ledger[..|ledger| - 1];
      match ledger[|ledger| - 1]
      case Sent(p) => p.End() == next && Contiguous(rest, first, p.start)
      case Lost(lo, hi) => lo < hi == next && Contiguous(rest, first, lo)
  }

  // Pending slots start at distinct sequence numbers.
  ghost predicate Distinct(pool: seq<Slot>, expected: nat) {
    forall i, j :: 0 <= i < j < |pool| && Pending(pool[i], expected) && Pending(pool[j], expected) ==>
                     pool[i].pkt.start != pool[j].pkt.start
  }

  // A buffer some ring entry points at still holds the packet that was published.
  ghost predicate Intact(s: Rx)
    requires Shape(s)
  {
    forall k :: s.recycled <= k < |s.ring| ==> Deref(s, s.ring[k]) == s.log[k]
  }

  ghost predicate History(s: Rx, feed: set<Packet>) {
    && s.log == Sents(s.ledger)
    && Contiguous(s.ledger, s.first, s.expected)
    && s.read <= |s.log| && s.out == s.log[..s.read]
    && (forall p :: p in s.log ==> p in feed)
    && (forall p :: p in feed && p.start < s.expected ==> p.End() <= s.expected)
  }

  ghost predicate FromFeed(pool: seq<Slot>, feed: set<Packet>) {
    forall i :: 0 <= i < |pool| && pool[i].used ==> pool[i].pkt in feed
  }

  ghost predicate Fresh(s: Rx) {
    !s.started ==>
      && s.ring == [] && s.ledger == [] && s.expected == 0 == s.first
      && forall i :: 0 <= i < |s.pool| ==> !s.pool[i].used
  }

  // What a live frame may carry: a heartbeat, the end of the session, or a packet of it.
  ghost predicate Expectable(p: Packet, feed: set<Packet>) {
    p.count == 0 || p.count == END_OF_SESSION || p in feed
  }

  ghost predicate HandOk(s: Rx, feed: set<Packet>) {
    && (forall r :: r in s.hand ==> r.Umem? && r.frame < |s.mem|)
    && (forall r :: r in s.hand ==> Expectable(s.mem[r.frame], feed))
    && (forall r :: r in s.free ==> r.Umem?)
    && (forall r :: r in s.fill ==> r.Umem?)
  }

  // Where the buffers are and what they hold.
  ghost predicate Buffers(s: Rx, feed: set<Packet>) {
    Shape(s) && Conserved(s) && Intact(s) && HandOk(s, feed)
  }

  // What was published and what waits.
  ghost predicate Sequence(s: Rx, feed: set<Packet>) {
    Distinct(s.pool, s.expected) && FromFeed(s.pool, feed) && History(s, feed) && Fresh(s)
  }

  ghost predicate Core(s: Rx, feed: set<Packet>) { Buffers(s, feed) && Sequence(s, feed) }

  // No pending slot is waiting at the expected sequence number.
  ghost predicate NoneStranded(s: Rx) {
    forall i :: 0 <= i < |s.pool| && Pending(s.pool[i], s.expected) ==> s.pool[i].pkt.start > s.expected
  }

  ghost predicate Inv(s: Rx, feed: set<Packet>) { Core(s, feed) && NoneStranded(s) }
}
