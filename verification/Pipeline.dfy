/** From the exchange's file to the dispatcher: what a whole run of the receiver delivers, and what
    holds of its buffers and slots in every state on the way. */
module Pipeline {
  import opened Bytes
  import opened Mold
  import Feed
  import opened Sequencer
  import opened SequencerProofs
  import opened SequencerRuns

  ghost function PacketSet(pk: seq<Packet>): set<Packet> { set i | 0 <= i < |pk| :: pk[i] }

  // The packets a packetiser cuts are the session the receiver relies on.
  lemma {:induction false} CutIsPartition(pk: seq<Packet>, first: nat)
    requires Cut(pk, first)
    ensures Partition(PacketSet(pk))
  {
    forall i, j | 0 <= i < j < |pk| ensures pk[i].End() <= pk[j].start {
      CutOrder(pk, first, i, j);
    }
  }

  // ---------- delivery ----------

  // Sequence number `n` was given up.
  predicate IsLost(ledger: seq<Item>, n: nat) {
    ledger != [] &&
    (IsLost(ledger[..|ledger| - 1], n)
     || match ledger[|ledger| - 1] { case Sent(_) => false case Lost(lo, hi) => lo <= n < hi })
  }

  // Every number of [lo, hi) that was not given up names one of the messages.
  ghost predicate Named(msgs: seq<Msg>, lo: nat, hi: nat, ledger: seq<Item>) {
    forall n :: lo <= n < hi && !IsLost(ledger, n) ==> 1 <= n <= |msgs|
  }

  // Messages lo..hi-1 (message n is msgs[n - 1]) except the ones given up, in order.
  ghost function Surviving(msgs: seq<Msg>, lo: nat, hi: nat, ledger: seq<Item>): seq<Msg>
    requires Named(msgs, lo, hi, ledger)
  {
    if hi <= lo then []
    else Surviving(msgs, lo, hi - 1, ledger) + (if IsLost(ledger, hi - 1) then [] else [msgs[hi - 2]])
  }

  lemma {:induction false} SurvivingSolid(msgs: seq<Msg>, lo: nat, mid: nat, hi: nat, ledger: seq<Item>)
    requires lo <= mid <= hi && 1 <= mid && hi - 1 <= |msgs| && Named(msgs, lo, hi, ledger)
    requires forall n :: mid <= n < hi ==> !IsLost(ledger, n)
    ensures Surviving(msgs, lo, hi, ledger) == Surviving(msgs, lo, mid, ledger) + msgs[mid - 1..hi - 1]
  {
    if mid < hi {
      SurvivingSolid(msgs, lo, mid, hi - 1, ledger);
      assert msgs[mid - 1..hi - 1] == msgs[mid - 1..hi - 2] + [msgs[hi - 2]];
    }
  }

  lemma {:induction false} SurvivingGap(msgs: seq<Msg>, lo: nat, mid: nat, hi: nat, ledger: seq<Item>)
    requires lo <= mid <= hi && Named(msgs, lo, hi, ledger)
    requires forall n :: mid <= n < hi ==> IsLost(ledger, n)
    ensures Surviving(msgs, lo, hi, ledger) == Surviving(msgs, lo, mid, ledger)
  {
    if mid < hi { SurvivingGap(msgs, lo, mid, hi - 1, ledger); }
  }

  lemma {:induction false} SurvivingSame(msgs: seq<Msg>, lo: nat, hi: nat, rest: seq<Item>, ledger: seq<Item>)
    requires Named(msgs, lo, hi, rest) && Named(msgs, lo, hi, ledger)
    requires forall n :: lo <= n < hi ==> IsLost(rest, n) == IsLost(ledger, n)
    ensures Surviving(msgs, lo, hi, rest) == Surviving(msgs, lo, hi, ledger)
  {
    if lo < hi { SurvivingSame(msgs, lo, hi - 1, rest, ledger); }
  }

  lemma {:induction false} LostInside(ledger: seq<Item>, first: nat, next: nat)
    requires Contiguous(ledger, first, next)
    ensures first <= next && forall n: nat :: IsLost(ledger, n) ==> first <= n < next
  {
    if ledger != [] {
      var rest := ledger[..|ledger| - 1];
      match ledger[|ledger| - 1]
      case Sent(p) => LostInside(rest, first, p.start);
      case Lost(lo, hi) => LostInside(rest, first, lo);
    }
  }

  ghost predicate AllSentFrom(ledger: seq<Item>, pk: seq<Packet>) {
    forall k :: 0 <= k < |ledger| && ledger[k].Sent? ==> ledger[k].pkt in PacketSet(pk)
  }

  // A number that was not given up lies in a published packet, so it names a message of the file.
  lemma {:induction false} KeptNumbers(ledger: seq<Item>, first: nat, next: nat, pk: seq<Packet>)
    requires Cut(pk, 1) && Contiguous(ledger, first, next) && AllSentFrom(ledger, pk)
    ensures Named(Contents(pk), first, next, ledger)
  {
    if ledger != [] {
      var rest, last := ledger[..|ledger| - 1], ledger[|ledger| - 1];
      match last
      case Sent(p) =>
        KeptNumbers(rest, first, p.start, pk);
        SentMessages(last.pkt, pk);
      case Lost(lo, hi) =>
        KeptNumbers(rest, first, lo, pk);
    }
  }

  lemma {:induction false} SentMessages(p: Packet, pk: seq<Packet>)
    requires Cut(pk, 1) && p in PacketSet(pk)
    ensures 1 <= p.start && p.End() - 1 <= |Contents(pk)| && p.count >= 1
    ensures Unpack(p.body) == Contents(pk)[p.start - 1..p.End() - 1]
  {
    var i :| 0 <= i < |pk| && pk[i] == p;
    CutMessages(pk, 1, i);
  }

  // The step of LedgerContents for a published packet and for an interval given up.
  lemma {:induction false} SentStep(rest: seq<Item>, first: nat, p: Packet, pk: seq<Packet>, ledger: seq<Item>)
    requires Cut(pk, 1) && p in PacketSet(pk) && ledger == rest + [Sent(p)] && Contiguous(rest, first, p.start)
    requires Named(Contents(pk), first, p.start, rest) && Named(Contents(pk), first, p.End(), ledger)
    ensures Surviving(Contents(pk), first, p.End(), ledger)
            == Surviving(Contents(pk), first, p.start, rest) + Unpack(p.body)
  {
    LostInside(rest, first, p.start);
    SentMessages(p, pk);
    assert ledger[..|ledger| - 1] == rest;
    SurvivingSolid(Contents(pk), first, p.start, p.End(), ledger);
    SurvivingSame(Contents(pk), first, p.start, rest, ledger);
  }

  lemma {:induction false} LostStep(rest: seq<Item>, first: nat, lo: nat, hi: nat, msgs: seq<Msg>, ledger: seq<Item>)
    requires ledger == rest + [Lost(lo, hi)] && Contiguous(rest, first, lo) && lo <= hi
    requires Named(msgs, first, lo, rest) && Named(msgs, first, hi, ledger)
    ensures Surviving(msgs, first, hi, ledger) == Surviving(msgs, first, lo, rest)
  {
    LostInside(rest, first, lo);
    assert ledger[..|ledger| - 1] == rest;
    SurvivingGap(msgs, first, lo, hi, ledger);
    SurvivingSame(msgs, first, lo, rest, ledger);
  }

  // The published packets carry the file's messages from `first` to `next` minus exactly the lost ones.
  lemma {:induction false} LedgerContents(ledger: seq<Item>, first: nat, next: nat, pk: seq<Packet>)
    requires Cut(pk, 1) && Contiguous(ledger, first, next) && AllSentFrom(ledger, pk)
    ensures Named(Contents(pk), first, next, ledger)
    ensures Contents(Sents(ledger)) == Surviving(Contents(pk), first, next, ledger)
  {
    KeptNumbers(ledger, first, next, pk);
    if ledger != [] {
      var rest, last := ledger[..|ledger| - 1], ledger[|ledger| - 1];
      assert ledger == rest + [last];
      match last
      case Sent(p) =>
        LedgerContents(rest, first, p.start, pk);
        assert last.pkt in PacketSet(pk);
        SentStep(rest, first, p, pk, ledger);
        assert (Sents(rest) + [p])[..|Sents(rest)|] == Sents(rest);
      case Lost(lo, hi) =>
        LedgerContents(rest, first, lo, pk);
        LostStep(rest, first, lo, hi, Contents(pk), ledger);
    }
  }

  lemma {:induction false} SentsFrom(ledger: seq<Item>, pk: seq<Packet>)
    requires forall p :: p in Sents(ledger) ==> p in PacketSet(pk)
    ensures AllSentFrom(ledger, pk)
  {
    if ledger != [] {
      var rest, last := ledger[..|ledger| - 1], ledger[|ledger| - 1];
      assert forall p :: p in Sents(rest) ==> p in Sents(ledger);
      SentsFrom(rest, pk);
      if last.Sent? { assert last.pkt in Sents(ledger); }
      forall k | 0 <= k < |ledger| && ledger[k].Sent? ensures ledger[k].pkt in PacketSet(pk) {
        if k < |rest| { assert ledger[k] == rest[k]; }
      }
    }
  }

  // The messages decoded so far are a prefix of the file's messages from the first packet seen up to the
  // expected number, minus exactly the numbers given up, and all of them once the ring is drained.
  ghost predicate Decodes(s: Rx, pk: seq<Packet>) {
    var msgs := Contents(pk);
    && Named(msgs, s.first, s.expected, s.ledger)
    && Contents(s.out) <= Surviving(msgs, s.first, s.expected, s.ledger)
    && (s.read == |s.ring| ==> Contents(s.out) == Surviving(msgs, s.first, s.expected, s.ledger))
  }

  lemma {:induction false} InvDecodes(s: Rx, pk: seq<Packet>)
    requires Cut(pk, 1) && Inv(s, PacketSet(pk))
    ensures Decodes(s, pk)
  {
    SentsFrom(s.ledger, pk);
    LedgerContents(s.ledger, s.first, s.expected, pk);
    ContentsSplit(s.log, s.read);
    if s.read == |s.ring| { assert s.log[..s.read] == s.log; }
  }

  // In every state of every run, whatever the network lost, repeated or reordered.
  lemma {:induction false} EndToEnd(states: seq<Rx>, events: seq<Event>, pk: seq<Packet>, k: nat)
    requires Cut(pk, 1) && IsRun(states, events, PacketSet(pk)) && k < |states|
    ensures Decodes(states[k], pk)
  {
    CutIsPartition(pk, 1);
    RunInv(states, events, PacketSet(pk), k);
    InvDecodes(states[k], pk);
  }

  // With nothing given up, that is the file's own list of messages.
  lemma {:induction false} NothingLost(states: seq<Rx>, events: seq<Event>, pk: seq<Packet>, k: nat)
    requires Cut(pk, 1) && IsRun(states, events, PacketSet(pk)) && k < |states|
    requires states[k].first < states[k].expected && forall n: nat :: !IsLost(states[k].ledger, n)
    ensures var s := states[k];
            && 1 <= s.first && s.expected - 1 <= |Contents(pk)|
            && Contents(s.out) <= Contents(pk)[s.first - 1..s.expected - 1]
            && (s.read == |s.ring| ==> Contents(s.out) == Contents(pk)[s.first - 1..s.expected - 1])
  {
    EndToEnd(states, events, pk, k);
    var s := states[k];
    assert !IsLost(s.ledger, s.first) && !IsLost(s.ledger, s.expected - 1);
    SurvivingSolid(Contents(pk), s.first, s.first, s.expected, s.ledger);
  }

  // From file to engine: a file bulk_feed cut into `pk`, every message of which fits a packet, seen from
  // its first packet with nothing given up, is decoded message for message.
  lemma {:induction false} FileToEngine(states: seq<Rx>, events: seq<Event>, file: seq<byte>, pk: seq<Packet>, k: nat)
    requires Feed.Good(pk) && Contents(pk) == Feed.Sendable(file) && forall m :: m in Unpack(file) ==> |m| <= MAX_MSG
    requires IsRun(states, events, PacketSet(pk)) && k < |states|
    requires states[k].first == 1 < states[k].expected && forall n: nat :: !IsLost(states[k].ledger, n)
    ensures var s := states[k];
            && s.expected - 1 <= |Unpack(file)|
            && Contents(s.out) <= Unpack(file)[..s.expected - 1]
            && (s.read == |s.ring| ==> Contents(s.out) == Unpack(file)[..s.expected - 1])
  {
    Feed.SendsAllIff(file);
    NothingLost(states, events, pk, k);
    assert Unpack(file)[0..states[k].expected - 1] == Unpack(file)[..states[k].expected - 1];
  }

  // ---------- the ledger ----------

  function Published(ps: seq<Packet>): nat {
    if ps == [] then 0 else Published(ps[..|ps| - 1]) + ps[|ps| - 1].count
  }

  function LostTotal(ledger: seq<Item>): int {
    if ledger == [] then 0
    else LostTotal(ledger[..|ledger| - 1])
         + match ledger[|ledger| - 1] { case Sent(_) => 0 case Lost(lo, hi) => hi - lo }
  }

  // Messages published plus messages given up account for every number passed.
  lemma {:induction false} LedgerBalance(ledger: seq<Item>, first: nat, next: nat)
    requires Contiguous(ledger, first, next)
    ensures Published(Sents(ledger)) + LostTotal(ledger) == next - first
  {
    if ledger != [] {
      var rest := ledger[..|ledger| - 1];
      match ledger[|ledger| - 1]
      case Sent(p) =>
        LedgerBalance(rest, first, p.start);
        assert (Sents(rest) + [p])[..|Sents(rest)|] == Sents(rest);
      case Lost(lo, hi) =>
        LedgerBalance(rest, first, lo);
    }
  }

  function Losses(ledger: seq<Item>): seq<Item> {
    if ledger == [] then []
    else
      var rest, last := Losses(ledger[..|ledger| - 1]), ledger[|ledger| - 1];
      if last.Lost? then rest + [last] else rest
  }

  lemma {:induction false} LossesAppend(ledger: seq<Item>, item: Item)
    ensures Losses(ledger + [item]) == if item.Lost? then Losses(ledger) + [item] else Losses(ledger)
  {}

  lemma {:induction false} DrainLosesNothing(s: Rx)
    requires PoolOk(s.pool)
    ensures Losses(Drain(s).ledger) == Losses(s.ledger)
    decreases PendingSet(s.pool, s.expected)
  {
    var i := Find(s.pool, s.expected, s.expected);
    if i.Some? && !RingFull(s) {
      PublishShrinksPending(s.pool, s.expected, i.value);
      LossesAppend(s.ledger, Sent(s.pool[i.value].pkt));
      DrainLosesNothing(Publish(s, Reorder(i.value), s.pool[i.value].pkt));
    }
  }

  // When a packet makes the receiver give numbers up: a new future packet, every slot used, and
  // something pending to skip to.
  ghost predicate GivesUp(s: Rx, p: Packet) {
    && s.started && p.count > 0 && p.start > s.expected
    && (forall i :: 0 <= i < |s.pool| ==> s.pool[i].used)
    && (forall i :: 0 <= i < |s.pool| ==> s.pool[i].pkt.start != p.start)
    && (exists i :: 0 <= i < |s.pool| && Pending(s.pool[i], s.expected))
  }

  // `q` is where the nearest pending packet starts.
  ghost predicate NearestPending(s: Rx, q: nat) {
    && (exists i :: 0 <= i < |s.pool| && Pending(s.pool[i], s.expected) && s.pool[i].pkt.start == q)
    && (forall i :: 0 <= i < |s.pool| && Pending(s.pool[i], s.expected) ==> q <= s.pool[i].pkt.start)
  }

  lemma {:induction false} FutureLosses(s: Rx, p: Packet, feed: set<Packet>) returns (q: nat)
    requires Inv(s, feed) && s.started && p.count > 0 && p.start > s.expected
    ensures GivesUp(s, p) ==> NearestPending(s, q)
    ensures Losses(HandleFuture(s, p).s.ledger) ==
            Losses(s.ledger) + if GivesUp(s, p) then [Lost(s.expected, q)] else []
  {
    var m := FindMin(s.pool, s.expected);
    q := if m.Some? then s.pool[m.value].pkt.start else 0;
    if Alloc(s.pool).None? && m.Some? {
      LossesAppend(s.ledger, Lost(s.expected, q));
      DrainLosesNothing(SkipTo(s, q));
    }
  }

  lemma {:induction false} InOrderLosses(s: Rx, p: Packet, frame: Option<nat>)
    requires PoolOk(s.pool) && p.count > 0
    ensures frame.Some? ==> Losses(HandleInOrder(s, p, frame.value).s.ledger) == Losses(s.ledger)
    ensures Losses(HandleReply(s, p).s.ledger) == Losses(s.ledger)
  {
    LossesAppend(s.ledger, Sent(p));
    if frame.Some? {
      var t := Publish(s, Umem(frame.value), p);
      DrainLosesNothing(t.(hand := t.hand - multiset{Umem(frame.value)}));
    }
    var i := Alloc(s.pool);
    if i.Some? { DrainLosesNothing(Publish(Buffer(s, i.value, p), Reorder(i.value), p)); }
  }

  // Numbers are given up if and only if GivesUp holds, and then up to the nearest pending packet.
  lemma {:induction false} GivesUpIff(s: Rx, p: Packet, frame: Option<nat>, feed: set<Packet>) returns (q: nat)
    requires Inv(s, feed)
    ensures GivesUp(s, p) ==> NearestPending(s, q)
    ensures Losses(Handle(s, p, frame).s.ledger) ==
            Losses(s.ledger) + if GivesUp(s, p) then [Lost(s.expected, q)] else []
  {
    q := 0;
    if p.count > 0 {
      var u := Start(s, p);
      if p.start == u.expected {
        InOrderLosses(u, p, frame);
      } else if p.start > u.expected {
        q := FutureLosses(s, p, feed);
      }
    }
  }

  // ---------- buffers and slots ----------

  // Each UMEM frame is in exactly one place; a slot is behind exactly one outstanding entry when it
  // is in flight and behind none otherwise; the ring is not full and the free list has not overflowed.
  ghost predicate Accounted(s: Rx) {
    && Shape(s)
    && (forall f :: 0 <= f < FRAMES ==> Places(s, Umem(f)) == 1)
    && (forall i :: 0 <= i < SLOTS ==>
          multiset(s.ring[s.recycled..])[Reorder(i)] == if InFlight(s.pool[i], s.expected) then 1 else 0)
    && |s.ring| - s.recycled <= FRAMES + SLOTS && !RingFull(s) && |s.free| <= FRAMES
  }

  lemma {:induction false} BuffersInEveryState(states: seq<Rx>, events: seq<Event>, feed: set<Packet>, k: nat)
    requires Partition(feed) && IsRun(states, events, feed) && k < |states|
    ensures Accounted(states[k]) && NoneStranded(states[k]) && Distinct(states[k].pool, states[k].expected)
  {
    RunInv(states, events, feed, k);
    InvAccounted(states[k], feed);
  }

  lemma {:induction false} InvAccounted(s: Rx, feed: set<Packet>)
    requires Inv(s, feed)
    ensures Accounted(s)
  {
    RingNeverFull(s, s.read);
    RingBound(s);
    FreeBound(s);
    forall f | 0 <= f < FRAMES ensures Places(s, Umem(f)) == 1 {
      OfEachOne(Umem(f));
      PlacesSum(s, Umem(f));
    }
    forall i | 0 <= i < SLOTS
      ensures multiset(s.ring[s.recycled..])[Reorder(i)] == if InFlight(s.pool[i], s.expected) then 1 else 0
    {
      OfEachOne(Reorder(i));
      PlacesSum(s, Reorder(i));
      SlotNotElsewhere(s, i, feed);
    }
  }

  lemma {:induction false} SlotNotElsewhere(s: Rx, i: nat, feed: set<Packet>)
    requires Inv(s, feed)
    ensures s.hand[Reorder(i)] == 0 && s.fill[Reorder(i)] == 0 && multiset(s.free)[Reorder(i)] == 0
  {
    assert Reorder(i) in multiset(s.free) <==> Reorder(i) in s.free;
  }

  // A rewinder reply at the expected number advances it if and only if a slot is free; a live packet
  // there always does.
  lemma {:induction false} ReplyAdvancesIff(s: Rx, p: Packet, feed: set<Packet>)
    requires Partition(feed) && Inv(s, feed) && s.started && p in feed && p.start == s.expected
    ensures Handle(s, p, None).s.expected > s.expected <==> exists i :: 0 <= i < |s.pool| && !s.pool[i].used
    ensures Handle(s, p, None).s.expected > s.expected ==> Handle(s, p, None).s.expected >= p.End()
  {
    var i := Alloc(s.pool);
    if i.Some? {
      var t := Buffer(s, i.value, p);
      BufferCore(s, i.value, p, feed);
      RingNeverFull(t, t.read);
      PublishSlotCore(t, i.value, feed);
      DrainCore(Publish(t, Reorder(i.value), p), feed);
    }
  }

  lemma {:induction false} LiveAdvances(s: Rx, f: nat, feed: set<Packet>)
    requires Partition(feed) && Inv(s, feed) && s.started && f < FRAMES && Umem(f) in s.hand
    requires s.mem[f] in feed && s.mem[f].start == s.expected
    ensures Handle(s, s.mem[f], Some(f)).pinned && Handle(s, s.mem[f], Some(f)).s.expected >= s.mem[f].End()
  {
    RingNeverFull(s, s.read);
    PublishFrameCore(s, f, feed);
    var t := Publish(s, Umem(f), s.mem[f]);
    DrainCore(t.(hand := t.hand - multiset{Umem(f)}), feed);
  }
}
