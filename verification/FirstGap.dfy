/** What the reorder buffer computes: while every packet finds room, the expected number is the first one missing
    among the packets handed to the receiver, and neither it nor what was published depends on their order. */
module FirstGap {
  import opened Bytes
  import opened Mold
  import opened Sequencer
  import opened SequencerProofs
  import opened SequencerRuns
  import opened Pipeline
  import opened Reordering

  // ---------- ledgers without losses ----------

  ghost predicate AllSent(ledger: seq<Item>, feed: set<Packet>) {
    forall k :: 0 <= k < |ledger| ==> ledger[k].Sent? && ledger[k].pkt in feed
  }

  lemma {:induction false} NoLosses(ledger: seq<Item>, feed: set<Packet>)
    requires Losses(ledger) == [] && forall p :: p in Sents(ledger) ==> p in feed
    ensures AllSent(ledger, feed)
  {
    if ledger != [] {
      var rest := ledger[..|ledger| - 1];
      assert forall p :: p in Sents(rest) ==> p in Sents(ledger);
      NoLosses(rest, feed);
      assert ledger[|ledger| - 1].Sent?;
      assert ledger[|ledger| - 1].pkt in Sents(ledger);
    }
  }

  lemma {:induction false} SentsSpan(ledger: seq<Item>, first: nat, next: nat, feed: set<Packet>, p: Packet)
    requires Partition(feed) && AllSent(ledger, feed) && Contiguous(ledger, first, next)
    ensures first <= next
    ensures p in Sents(ledger) ==> first <= p.start < p.End() <= next && p in feed
  {
    if ledger != [] {
      var rest, last := ledger[..|ledger| - 1], ledger[|ledger| - 1].pkt;
      SentsSpan(rest, first, last.start, feed, p);
      assert last in feed;
    }
  }

  // Every number passed lies in a published packet.
  lemma {:induction false} SentsCover(ledger: seq<Item>, first: nat, next: nat, feed: set<Packet>, n: nat)
    returns (p: Packet)
    requires Partition(feed) && AllSent(ledger, feed) && Contiguous(ledger, first, next) && first <= n < next
    ensures p in Sents(ledger) && p in feed && p.start <= n < p.End()
  {
    var rest := ledger[..|ledger| - 1];
    p := ledger[|ledger| - 1].pkt;
    assert p in feed;
    if n < p.start { p := SentsCover(rest, first, p.start, feed, n); }
  }

  // There is one way to get from one number to another through packets of a session.
  lemma {:induction false} SentsUnique(a: seq<Item>, b: seq<Item>, first: nat, next: nat, feed: set<Packet>)
    requires Partition(feed) && AllSent(a, feed) && AllSent(b, feed)
    requires Contiguous(a, first, next) && Contiguous(b, first, next)
    ensures Sents(a) == Sents(b)
    decreases |a|
  {
    if a == [] || b == [] {
      if a != [] { EndsLater(a, first, next, feed); }
      if b != [] { EndsLater(b, first, next, feed); }
    } else {
      var p, q := a[|a| - 1].pkt, b[|b| - 1].pkt;
      assert p in feed && q in feed && p.End() == q.End() == next;
      assert p == q;
      SentsUnique(a[..|a| - 1], b[..|b| - 1], first, p.start, feed);
    }
  }

  lemma {:induction false} EndsLater(ledger: seq<Item>, first: nat, next: nat, feed: set<Packet>)
    requires Partition(feed) && AllSent(ledger, feed) && Contiguous(ledger, first, next) && ledger != []
    ensures first < next
  {
    SentsSpan(ledger, first, next, feed, ledger[|ledger| - 1].pkt);
  }

  // ---------- where the session starts ----------

  lemma {:induction false} DrainFirst(s: Rx)
    requires PoolOk(s.pool)
    ensures Drain(s).first == s.first && Drain(s).started == s.started
    decreases PendingSet(s.pool, s.expected)
  {
    var i := Find(s.pool, s.expected, s.expected);
    if i.Some? && !RingFull(s) {
      PublishShrinksPending(s.pool, s.expected, i.value);
      DrainFirst(Publish(s, Reorder(i.value), s.pool[i.value].pkt));
    }
  }

  // The first packet handed over says where the sequence starts, and no other does.
  lemma {:induction false} HandleFirst(s: Rx, p: Packet, frame: Option<nat>)
    requires PoolOk(s.pool) && p.count > 0
    ensures var t := Handle(s, p, frame).s; t.started && t.first == if s.started then s.first else p.start
  {
    var u := Start(s, p);
    if p.start == u.expected {
      if frame.Some? {
        var t := Publish(u, Umem(frame.value), p);
        DrainFirst(t.(hand := t.hand - multiset{Umem(frame.value)}));
      } else {
        var i := Alloc(u.pool);
        if i.Some? { DrainFirst(Publish(Buffer(u, i.value, p), Reorder(i.value), p)); }
      }
    } else if p.start > u.expected {
      var m := FindMin(u.pool, u.expected);
      if m.Some? { DrainFirst(SkipTo(u, u.pool[m.value].pkt.start)); }
    }
  }

  lemma {:induction false} StepFirst(s: Rx, e: Event, feed: set<Packet>)
    requires Inv(s, feed) && Legal(e, feed)
    ensures var t := Step(s, e);
            if Offered(s, e).Some? then t.started && t.first == if s.started then s.first else Offered(s, e).value.start
            else t.started == s.started && t.first == s.first
  {
    if Offered(s, e).Some? {
      OfferedInFeed(s, e, feed);
      HandleFirst(s, Offered(s, e).value, FrameOf(e));
    }
  }

  // ---------- runs with room ----------

  // The step's packet, if it is not behind, finds room or is there already.
  ghost predicate RoomAt(s: Rx, e: Event) {
    Offered(s, e).Some? && Offered(s, e).value.start >= s.expected ==>
      Room(s, Offered(s, e).value, FrameOf(e)) || Held(s, Offered(s, e).value)
  }

  ghost predicate RoomyAt(states: seq<Rx>, events: seq<Event>, j: nat) {
    j < |events| && j < |states| && RoomAt(states[j], events[j])
  }

  ghost predicate Roomy(states: seq<Rx>, events: seq<Event>, k: nat) {
    forall j: nat :: j < k ==> RoomyAt(states, events, j)
  }

  ghost predicate HeardAt(states: seq<Rx>, events: seq<Event>, q: Packet, j: nat) {
    j < |events| && j < |states| && Offered(states[j], events[j]) == Some(q)
  }

  // `q` was handed to the receiver, live or by the rewinder, before state k.
  ghost predicate Heard(states: seq<Rx>, events: seq<Event>, q: Packet, k: nat) {
    exists j: nat :: j < k && HeardAt(states, events, q, j)
  }

  lemma {:induction false} RoomNeverGivesUp(s: Rx, e: Event)
    requires Offered(s, e).Some? && RoomAt(s, e)
    ensures !GivesUp(s, Offered(s, e).value)
  {}

  lemma {:induction false} QuietLedger(s: Rx, e: Event)
    requires Shape(s) && Offered(s, e).None?
    ensures Step(s, e).ledger == s.ledger
  {}

  lemma {:induction false} HandleLosesNothing(s: Rx, p: Packet, frame: Option<nat>, feed: set<Packet>)
    requires Inv(s, feed) && !GivesUp(s, p)
    ensures Losses(Handle(s, p, frame).s.ledger) == Losses(s.ledger)
  {
    var q := GivesUpIff(s, p, frame, feed);
  }

  lemma {:induction false} RoomLosesNothing(s: Rx, e: Event, feed: set<Packet>)
    requires Inv(s, feed) && Legal(e, feed) && RoomAt(s, e)
    ensures Losses(Step(s, e).ledger) == Losses(s.ledger)
  {
    if Offered(s, e).Some? {
      OfferedInFeed(s, e, feed);
      RoomNeverGivesUp(s, e);
      HandleLosesNothing(s, Offered(s, e).value, FrameOf(e), feed);
    } else {
      QuietLedger(s, e);
    }
  }

  // Between `s` and `t` nothing kept is forgotten and the session's start does not move.
  ghost predicate GoesOn(s: Rx, t: Rx, q: Packet) {
    (Kept(s, q) ==> Kept(t, q)) && (s.started ==> t.started && t.first == s.first)
  }

  lemma {:induction false} GoesOnTrans(s: Rx, t: Rx, u: Rx, q: Packet)
    requires GoesOn(s, t, q) && GoesOn(t, u, q)
    ensures GoesOn(s, u, q)
  {}

  // One step of a run.
  lemma {:induction false} StepOf(states: seq<Rx>, events: seq<Event>, feed: set<Packet>, k: nat, q: Packet)
    requires Partition(feed) && IsRun(states, events, feed) && k < |events|
    ensures GoesOn(states[k], states[k + 1], q)
    ensures RoomyAt(states, events, k) ==> Losses(states[k + 1].ledger) == Losses(states[k].ledger)
  {
    RunInv(states, events, feed, k);
    StepKept(states[k], events[k], feed, q);
    StepFirst(states[k], events[k], feed);
    if RoomyAt(states, events, k) { RoomLosesNothing(states[k], events[k], feed); }
  }

  lemma {:induction false} RoomyLosses(states: seq<Rx>, events: seq<Event>, feed: set<Packet>, k: nat)
    requires Partition(feed) && IsRun(states, events, feed) && k < |states| && Roomy(states, events, k)
    ensures Losses(states[k].ledger) == []
  {
    if k > 0 {
      RoomyLosses(states, events, feed, k - 1);
      assert RoomyAt(states, events, k - 1);
      StepOf(states, events, feed, k - 1, Packet(0, 0, []));
    }
  }

  lemma {:induction false} RoomyRun(states: seq<Rx>, events: seq<Event>, feed: set<Packet>, k: nat)
    requires Partition(feed) && IsRun(states, events, feed) && k < |states| && Roomy(states, events, k)
    ensures AllSent(states[k].ledger, feed)
  {
    RunInv(states, events, feed, k);
    RoomyLosses(states, events, feed, k);
    NoLosses(states[k].ledger, feed);
  }

  // What is kept stays kept, and so does the start of the session.
  lemma {:induction false} StaysKept(states: seq<Rx>, events: seq<Event>, feed: set<Packet>, j: nat, k: nat, q: Packet)
    requires Partition(feed) && IsRun(states, events, feed) && j <= k < |states|
    ensures GoesOn(states[j], states[k], q)
    decreases k
  {
    if j < k {
      StaysKept(states, events, feed, j, k - 1, q);
      StepOf(states, events, feed, k - 1, q);
      GoesOnTrans(states[j], states[k - 1], states[k], q);
    }
  }

  // A packet behind the expected number has been published, if it is not from before the start.
  lemma {:induction false} BehindIsPublished(s: Rx, feed: set<Packet>, q: Packet)
    requires Partition(feed) && Inv(s, feed) && AllSent(s.ledger, feed) && q in feed && s.first <= q.start < s.expected
    ensures q in s.log
  {
    var p := SentsCover(s.ledger, s.first, s.expected, feed, q.start);
  }

  lemma {:induction false} HeardNow(s: Rx, e: Event, feed: set<Packet>, q: Packet)
    requires Partition(feed) && Inv(s, feed) && Legal(e, feed) && RoomAt(s, e) && AllSent(s.ledger, feed)
    requires Offered(s, e) == Some(q) && q.start >= Step(s, e).first
    ensures Kept(Step(s, e), q)
  {
    OfferedInFeed(s, e, feed);
    StepKept(s, e, feed, q);
    StepFirst(s, e, feed);
    if q.start < s.expected { BehindIsPublished(s, feed, q); }
  }

  lemma {:induction false} HeardIsKept(states: seq<Rx>, events: seq<Event>, feed: set<Packet>, j: nat, k: nat,
                                       q: Packet)
    requires Partition(feed) && IsRun(states, events, feed) && j < k < |states| && Roomy(states, events, k)
    requires HeardAt(states, events, q, j) && q.start >= states[k].first
    ensures Kept(states[k], q)
  {
    RunInv(states, events, feed, j);
    RoomyRun(states, events, feed, j);
    assert RoomyAt(states, events, j);
    StepFirst(states[j], events[j], feed);
    StaysKept(states, events, feed, j + 1, k, q);
    HeardNow(states[j], events[j], feed, q);
  }

  lemma {:induction false} KeptIsHeard(states: seq<Rx>, events: seq<Event>, feed: set<Packet>, k: nat, q: Packet)
    requires Partition(feed) && IsRun(states, events, feed) && k < |states| && Kept(states[k], q)
    requires AllSent(states[k].ledger, feed)
    ensures Heard(states, events, q, k) && q.start >= states[k].first && q in feed
  {
    KeptExactly(states, events, feed, k, q);
    var j: nat :| j < k && TakesAt(states, events, q, j);
    assert HeardAt(states, events, q, j);
    RunInv(states, events, feed, k);
    RunInv(states, events, feed, j);
    OfferedInFeed(states[j], events[j], feed);
    SentsSpan(states[k].ledger, states[k].first, states[k].expected, feed, q);
  }

  // So, with room for all: the packets kept are the packets handed over, from the session's start on.
  lemma {:induction false} KeptIsHeardIff(states: seq<Rx>, events: seq<Event>, feed: set<Packet>, k: nat, q: Packet)
    requires Partition(feed) && IsRun(states, events, feed) && k < |states| && Roomy(states, events, k)
    ensures Kept(states[k], q) <==> Heard(states, events, q, k) && q.start >= states[k].first
  {
    RoomyRun(states, events, feed, k);
    if Kept(states[k], q) { KeptIsHeard(states, events, feed, k, q); }
    if Heard(states, events, q, k) && q.start >= states[k].first {
      var j: nat :| j < k && HeardAt(states, events, q, j);
      HeardIsKept(states, events, feed, j, k, q);
    }
  }

  lemma {:induction false} KeptSplit(s: Rx, feed: set<Packet>, q: Packet)
    requires Partition(feed) && Inv(s, feed) && AllSent(s.ledger, feed)
    ensures q in s.log <==> Kept(s, q) && q.start < s.expected
    ensures Kept(s, q) ==> q.start != s.expected
  {
    SentsSpan(s.ledger, s.first, s.expected, feed, q);
    if i: nat :| HeldAt(s, i, q) { assert Pending(s.pool[i], s.expected); }
  }

  // The expected number is the first one missing: what is published is exactly the packets handed over from the
  // session's start up to it, and no packet that starts at it has been handed over.
  lemma {:induction false} ExpectedIsFirstGap(states: seq<Rx>, events: seq<Event>, feed: set<Packet>, k: nat, q: Packet)
    requires Partition(feed) && IsRun(states, events, feed) && k < |states| && Roomy(states, events, k)
    ensures var s := states[k];
            && (q in s.log <==> Heard(states, events, q, k) && s.first <= q.start < s.expected)
            && (Heard(states, events, q, k) && q.start >= s.first ==> q.start != s.expected)
            && (Held(s, q) <==> Heard(states, events, q, k) && q.start >= s.first && q.start > s.expected)
  {
    RunInv(states, events, feed, k);
    RoomyRun(states, events, feed, k);
    KeptIsHeardIff(states, events, feed, k, q);
    KeptSplit(states[k], feed, q);
    if i: nat :| HeldAt(states[k], i, q) { assert Pending(states[k].pool[i], states[k].expected); }
  }

  // ---------- the order of arrival does not matter ----------

  ghost predicate SameHeard(a: seq<Rx>, as': seq<Event>, j: nat, b: seq<Rx>, bs: seq<Event>, k: nat) {
    forall q :: Heard(a, as', q, j) <==> Heard(b, bs, q, k)
  }

  lemma {:induction false} NotFurther(a: seq<Rx>, as': seq<Event>, j: nat, b: seq<Rx>, bs: seq<Event>, k: nat,
                                      feed: set<Packet>)
    requires Partition(feed) && IsRun(a, as', feed) && IsRun(b, bs, feed) && j < |a| && k < |b|
    requires Roomy(a, as', j) && Roomy(b, bs, k) && a[j].first == b[k].first && SameHeard(a, as', j, b, bs, k)
    ensures a[j].expected >= b[k].expected
  {
    RunInv(a, as', feed, j);
    RunInv(b, bs, feed, k);
    RoomyRun(a, as', feed, j);
    RoomyRun(b, bs, feed, k);
    var e := a[j].expected;
    if e < b[k].expected {
      SentsSpan(a[j].ledger, a[j].first, e, feed, Packet(0, 0, []));
      var q := SentsCover(b[k].ledger, b[k].first, b[k].expected, feed, e);
      SentsSpan(b[k].ledger, b[k].first, b[k].expected, feed, q);
      ExpectedIsFirstGap(b, bs, feed, k, q);
      assert Heard(b, bs, q, k) && Heard(a, as', q, j);
      ExpectedIsFirstGap(a, as', feed, j, q);
    }
  }

  // Two runs that start at the same number and are handed the same packets, in any order and any number of times,
  // from the feed or the rewinder, expect the same number and have published the same packets in the same order.
  lemma {:induction false} OrderIndependent(a: seq<Rx>, as': seq<Event>, j: nat, b: seq<Rx>, bs: seq<Event>, k: nat,
                                            feed: set<Packet>)
    requires Partition(feed) && IsRun(a, as', feed) && IsRun(b, bs, feed) && j < |a| && k < |b|
    requires Roomy(a, as', j) && Roomy(b, bs, k) && a[j].first == b[k].first && SameHeard(a, as', j, b, bs, k)
    ensures a[j].expected == b[k].expected && a[j].log == b[k].log
  {
    NotFurther(a, as', j, b, bs, k, feed);
    NotFurther(b, bs, k, a, as', j, feed);
    RunInv(a, as', feed, j);
    RunInv(b, bs, feed, k);
    RoomyRun(a, as', feed, j);
    RoomyRun(b, bs, feed, k);
    SentsUnique(a[j].ledger, b[k].ledger, a[j].first, a[j].expected, feed);
  }

  // The start is where the first packet handed over starts.
  lemma {:induction false} StartIsFirstHeard(states: seq<Rx>, events: seq<Event>, feed: set<Packet>, j: nat, k: nat,
                                             q: Packet)
    requires Partition(feed) && IsRun(states, events, feed) && j < k < |states| && HeardAt(states, events, q, j)
    requires forall i: nat, p :: i < j ==> !HeardAt(states, events, p, i)
    ensures states[k].started && states[k].first == q.start
  {
    NothingHeard(states, events, feed, j);
    RunInv(states, events, feed, j);
    StepFirst(states[j], events[j], feed);
    StaysKept(states, events, feed, j + 1, k, q);
  }

  lemma {:induction false} NothingHeard(states: seq<Rx>, events: seq<Event>, feed: set<Packet>, k: nat)
    requires Partition(feed) && IsRun(states, events, feed) && k < |states|
    requires forall i: nat, p :: i < k ==> !HeardAt(states, events, p, i)
    ensures !states[k].started
  {
    if k > 0 {
      NothingHeard(states, events, feed, k - 1);
      RunInv(states, events, feed, k - 1);
      StepFirst(states[k - 1], events[k - 1], feed);
      if Offered(states[k - 1], events[k - 1]).Some? {
        assert HeardAt(states, events, Offered(states[k - 1], events[k - 1]).value, k - 1);
      }
    }
  }
}
