/** Gap recovery over repeated requests: while the missing packets stay in the rewinder's window and no packet
    meets a full pool, the idle requests close every gap and give nothing up. The live feed goes on, the
    dispatcher consumes when it likes, and requests and replies may be lost, repeated and reordered. */
module GapRecovery {
  import opened Bytes
  import opened Mold
  import opened Sequencer
  import opened SequencerProofs
  import opened SequencerRuns
  import opened Pipeline
  import opened Rewinder
  import opened Recovery
  import opened Reordering

  // ---------- what recovery keeps ----------

  ghost predicate IsPending(s: Rx, i: nat)
    requires i < |s.pool|
  {
    Pending(s.pool[i], s.expected)
  }

  ghost predicate AnyPending(s: Rx) { exists i :: 0 <= i < |s.pool| && IsPending(s, i) }

  // Between `s` and `t` nothing is given up, and what waited still waits or has been passed.
  ghost predicate Keeps(s: Rx, t: Rx) {
    && |s.pool| == |t.pool| && s.expected <= t.expected && Losses(t.ledger) == Losses(s.ledger)
    && (forall i :: 0 <= i < |s.pool| && IsPending(s, i) ==> t.pool[i] == s.pool[i] || s.pool[i].pkt.start < t.expected)
  }

  // A state of the recovery.
  ghost predicate Recovering(s: Rx, feed: set<Packet>) { Partition(feed) && Inv(s, feed) && s.started }

  lemma {:induction false} KeepsSame(s: Rx, t: Rx)
    requires t.pool == s.pool && t.expected == s.expected && t.ledger == s.ledger
    ensures Keeps(s, t)
  {}

  lemma {:induction false} KeepsTrans(s: Rx, t: Rx, u: Rx)
    requires Keeps(s, t) && Keeps(t, u)
    ensures Keeps(s, u)
  {
    forall i | 0 <= i < |s.pool| && IsPending(s, i) ensures u.pool[i] == s.pool[i] || s.pool[i].pkt.start < u.expected {
      if t.pool[i] == s.pool[i] && s.pool[i].pkt.start >= t.expected { assert IsPending(t, i); }
    }
  }

  // A step of the recovery: any step of the receiver, its kernel or the dispatcher, as long as no new future
  // packet, live or reply, meets a full pool.
  ghost predicate Calm(s: Rx, e: Event, feed: set<Packet>) {
    && Legal(e, feed)
    && (e.Live? && e.frame < |s.mem| ==> !GivesUp(s, s.mem[e.frame]))
    && (e.Reply? ==> !GivesUp(s, e.pkt))
  }

  // ---------- one packet ----------

  // Handling a packet leaves the pool as it is or fills an unused slot with it.
  ghost predicate OneSlotFilled(s: Rx, t: Rx, p: Packet) {
    t.pool == s.pool || exists i :: 0 <= i < |s.pool| && !s.pool[i].used && t.pool == s.pool[i := Slot(true, p)]
  }

  lemma {:induction false} LivePool(s: Rx, p: Packet, f: nat)
    requires PoolOk(s.pool)
    ensures var t := HandleInOrder(s, p, f).s;
            t.pool == s.pool && t.started == s.started && t.expected >= s.expected
  {
    var t := Publish(s, Umem(f), p);
    DrainPool(t.(hand := t.hand - multiset{Umem(f)}));
  }

  lemma {:induction false} ReplyPool(s: Rx, p: Packet)
    requires PoolOk(s.pool) && p.count >= 1 && !RingFull(s)
    ensures var t := HandleReply(s, p).s;
            OneSlotFilled(s, t, p) && t.started == s.started && t.expected >= s.expected
  {
    var i := Alloc(s.pool);
    if i.Some? { DrainPool(Publish(Buffer(s, i.value, p), Reorder(i.value), p)); }
  }

  lemma {:induction false} FuturePool(s: Rx, p: Packet)
    requires PoolOk(s.pool) && p.count >= 1 && p.start > s.expected
    ensures var t := HandleFuture(s, p).s;
            OneSlotFilled(s, t, p) && t.started == s.started && t.expected >= s.expected
  {
    var m := FindMin(s.pool, s.expected);
    if m.Some? { DrainPool(SkipTo(s, s.pool[m.value].pkt.start)); }
  }

  lemma {:induction false} HandlePool(s: Rx, p: Packet, frame: Option<nat>)
    requires PoolOk(s.pool) && s.started && !RingFull(s)
    ensures var t := Handle(s, p, frame).s; OneSlotFilled(s, t, p) && t.started && t.expected >= s.expected
  {
    if p.count > 0 && p.start == s.expected {
      if frame.Some? { LivePool(s, p, frame.value); } else { ReplyPool(s, p); }
    } else if p.count > 0 && p.start > s.expected {
      FuturePool(s, p);
    }
  }

  lemma {:induction false} HandleKeepsOn(s: Rx, p: Packet, frame: Option<nat>, feed: set<Packet>)
    requires Recovering(s, feed) && !GivesUp(s, p)
    ensures var t := Handle(s, p, frame).s; t.started && Keeps(s, t)
  {
    RingNeverFull(s, s.read);
    HandlePool(s, p, frame);
    var q := GivesUpIff(s, p, frame, feed);
  }

  // ---------- one step ----------

  // Recycling touches no slot but one in flight.
  lemma {:induction false} RecycleKeeps(s: Rx, feed: set<Packet>)
    requires Recovering(s, feed) && s.recycled < s.read
    ensures Keeps(s, RecycleOne(s)) && RecycleOne(s).started
  {
    if s.ring[s.recycled].Reorder? { EntryIsInFlight(s, s.recycled); }
  }

  lemma {:induction false} CalmStep(s: Rx, e: Event, feed: set<Packet>)
    requires Recovering(s, feed) && Calm(s, e, feed)
    ensures Recovering(Step(s, e), feed) && Keeps(s, Step(s, e))
  {
    StepInv(s, e, feed);
    match e
    case Live(f) =>
      if f < FRAMES && Umem(f) in s.hand && s.mem[f].count != END_OF_SESSION {
        HandleKeepsOn(s, s.mem[f], Some(f), feed);
      } else {
        KeepsSame(s, s);
      }
    case Reply(p) => HandleKeepsOn(s, p, None, feed);
    case Recycle => if s.recycled < s.read { RecycleKeeps(s, feed); } else { KeepsSame(s, s); }
    case _ => KeepsSame(s, Step(s, e));
  }

  // ---------- a round of steps ----------

  ghost predicate CalmAt(s: Rx, es: seq<Event>, feed: set<Packet>, k: nat)
    requires k < |es|
  {
    Calm(Run(s, es[..k]), es[k], feed)
  }

  ghost predicate CalmRun(s: Rx, es: seq<Event>, feed: set<Packet>) {
    forall k :: 0 <= k < |es| ==> CalmAt(s, es, feed, k)
  }

  lemma {:induction false} RunPrefix(s: Rx, es: seq<Event>, k: nat)
    requires k < |es| && Shape(Run(s, es[..k]))
    ensures Run(s, es[..k + 1]) == Step(Run(s, es[..k]), es[k])
  {
    assert es[..k + 1] == es[..k] + [es[k]];
    RunSnoc(s, es[..k], es[k]);
  }

  lemma {:induction false} CalmNext(s: Rx, es: seq<Event>, feed: set<Packet>, k: nat)
    requires CalmRun(s, es, feed) && k < |es| && Recovering(Run(s, es[..k]), feed)
    ensures Recovering(Run(s, es[..k + 1]), feed) && Keeps(Run(s, es[..k]), Run(s, es[..k + 1]))
  {
    assert CalmAt(s, es, feed, k);
    CalmStep(Run(s, es[..k]), es[k], feed);
    RunPrefix(s, es, k);
  }

  lemma {:induction false} CalmPrefix(s: Rx, es: seq<Event>, feed: set<Packet>, j: nat, k: nat)
    requires CalmRun(s, es, feed) && j <= k <= |es| && Recovering(Run(s, es[..j]), feed)
    ensures Recovering(Run(s, es[..k]), feed) && Keeps(Run(s, es[..j]), Run(s, es[..k]))
    decreases k
  {
    if j == k {
      KeepsSame(Run(s, es[..j]), Run(s, es[..j]));
    } else {
      CalmPrefix(s, es, feed, j, k - 1);
      CalmNext(s, es, feed, k - 1);
      KeepsTrans(Run(s, es[..j]), Run(s, es[..k - 1]), Run(s, es[..k]));
    }
  }

  lemma {:induction false} RoundKeeps(s: Rx, es: seq<Event>, feed: set<Packet>)
    requires CalmRun(s, es, feed) && Recovering(s, feed)
    ensures Recovering(Run(s, es), feed) && Keeps(s, Run(s, es))
  {
    assert es[..0] == [] && es[..|es|] == es;
    CalmPrefix(s, es, feed, 0, |es|);
  }

  // ---------- the answer to a request ----------

  // What the rewinder sends for the idle request made in `s`.
  function Answer(s: Rx, hist: seq<Packet>, budget: nat): seq<Packet> {
    var r := IdleRequest(s);
    if r.None? then [] else Replay(hist, r.value.start, r.value.count, budget)
  }

  // The reply comes through in a round, at a moment when a slot is free.
  ghost predicate ArrivesAt(s: Rx, es: seq<Event>, p: Packet, k: nat) {
    k < |es| && es[k] == Reply(p) && SlotFree(Run(s, es[..k]))
  }

  ghost predicate Arrives(s: Rx, es: seq<Event>, p: Packet) { exists k: nat :: ArrivesAt(s, es, p, k) }

  // In a round that begins with the idle request of `s`, the first packet of the answer comes through; the
  // others may be lost.
  ghost predicate Answered(s: Rx, es: seq<Event>, hist: seq<Packet>, budget: nat) {
    var sent := Answer(s, hist, budget);
    sent != [] ==> Arrives(s, es, sent[0])
  }

  lemma {:induction false} ReplayBelow(hist: seq<Packet>, q: nat, cnt: nat, left: nat, k: nat)
    requires k < |Replay(hist, q, cnt, left)|
    ensures Replay(hist, q, cnt, left)[k].start < q + cnt
    decreases left
  {
    var sent := Replay(hist, q, cnt, left);
    var j := FindBackComplete(hist, q, 0, Window(|hist|));
    if k > 0 {
      var p := sent[0];
      var covered := p.End() - q;
      ReplayBelow(hist, p.End(), if covered >= cnt then 0 else cnt - covered, left - 1, k - 1);
    }
  }

  // Every packet of an answer starts inside the gap, so below everything that waits.
  lemma {:induction false} AnswerInsideGap(s: Rx, hist: seq<Packet>, budget: nat, feed: set<Packet>, k: nat, i: nat)
    requires Inv(s, feed) && k < |Answer(s, hist, budget)| && i < |s.pool| && IsPending(s, i)
    ensures Answer(s, hist, budget)[k].start < s.pool[i].pkt.start
  {
    IdleRequestsTheGap(s, feed);
    var r := IdleRequest(s).value;
    ReplayBelow(hist, r.start, r.count, budget, k);
    assert Pending(s.pool[i], s.expected);
  }

  // What the rewinder holds of the session.
  ghost predicate Cached(hist: seq<Packet>, feed: set<Packet>) { Chain(hist) && PacketSet(hist) <= feed }

  // While something waits and its number is in the window, the answer begins with the packet at the
  // expected number.
  lemma {:induction false} AnswerStarts(s: Rx, hist: seq<Packet>, budget: nat, feed: set<Packet>)
    requires Partition(feed) && Inv(s, feed) && Cached(hist, feed) && budget > 0
    requires AnyPending(s) && Lookup(hist, s.expected).Some?
    ensures var sent := Answer(s, hist, budget); sent != [] && sent[0] in feed && sent[0].start == s.expected
  {
    IdleRequestsTheGap(s, feed);
    var i :| 0 <= i < |s.pool| && IsPending(s, i);
    assert Pending(s.pool[i], s.expected);
    var j := HitIff(hist, s.expected);
    assert hist[j] in PacketSet(hist);
  }

  // A reply at the expected number, or below it, leaves the number past where the round found it.
  lemma {:induction false} ReplyMoves(u: Rx, p: Packet, first: nat, feed: set<Packet>)
    requires Recovering(u, feed) && p in feed && p.start == first <= u.expected && SlotFree(u)
             && Calm(u, Reply(p), feed)
    ensures Step(u, Reply(p)).expected > first
  {
    CalmStep(u, Reply(p), feed);
    if u.expected == first { ReplyAdvancesIff(u, p, feed); }
  }

  lemma {:induction false} ReplyInRound(s: Rx, es: seq<Event>, p: Packet, k: nat, feed: set<Packet>)
    requires CalmRun(s, es, feed) && Recovering(s, feed) && p in feed && p.start == s.expected
    requires ArrivesAt(s, es, p, k)
    ensures Run(s, es[..k + 1]).expected > s.expected && Recovering(Run(s, es[..k + 1]), feed)
  {
    assert CalmAt(s, es, feed, k);
    assert es[..0] == [];
    CalmPrefix(s, es, feed, 0, k);
    CalmNext(s, es, feed, k);
    RunPrefix(s, es, k);
    ReplyMoves(Run(s, es[..k]), p, s.expected, feed);
  }

  lemma {:induction false} ArrivalMoves(s: Rx, es: seq<Event>, p: Packet, feed: set<Packet>)
    requires CalmRun(s, es, feed) && Recovering(s, feed) && p in feed && p.start == s.expected && Arrives(s, es, p)
    ensures Run(s, es).expected > s.expected
  {
    var k: nat :| ArrivesAt(s, es, p, k);
    ReplyInRound(s, es, p, k, feed);
    CalmPrefix(s, es, feed, k + 1, |es|);
    assert es[..|es|] == es;
  }

  // An answered round moves the expected number.
  lemma {:induction false} RoundAdvances(s: Rx, es: seq<Event>, hist: seq<Packet>, budget: nat, feed: set<Packet>)
    requires CalmRun(s, es, feed) && Recovering(s, feed)
    requires Cached(hist, feed) && budget > 0 && Answered(s, es, hist, budget)
    requires AnyPending(s) && Lookup(hist, s.expected).Some?
    ensures Recovering(Run(s, es), feed) && Keeps(s, Run(s, es)) && Run(s, es).expected > s.expected
  {
    AnswerStarts(s, hist, budget, feed);
    RoundKeeps(s, es, feed);
    ArrivalMoves(s, es, Answer(s, hist, budget)[0], feed);
  }

  // ---------- rounds ----------

  ghost predicate RoundAt(states: seq<Rx>, rounds: seq<seq<Event>>, feed: set<Packet>, k: nat)
    requires k < |rounds| < |states|
  {
    CalmRun(states[k], rounds[k], feed) && states[k + 1] == Run(states[k], rounds[k])
  }

  // A recovery: rounds of calm steps.
  ghost predicate IsRecovery(states: seq<Rx>, rounds: seq<seq<Event>>, feed: set<Packet>) {
    |states| == |rounds| + 1 && forall k :: 0 <= k < |rounds| ==> RoundAt(states, rounds, feed, k)
  }

  // How many of the first `n` flags are set.
  function Count(flags: seq<bool>, n: nat): (c: nat)
    requires n <= |flags|
    ensures c <= n
  {
    if n == 0 then 0 else Count(flags, n - 1) + if flags[n - 1] then 1 else 0
  }

  lemma {:induction false} RecoveryKeeps(states: seq<Rx>, rounds: seq<seq<Event>>, feed: set<Packet>, n: nat)
    requires IsRecovery(states, rounds, feed) && Recovering(states[0], feed) && n <= |rounds|
    ensures Recovering(states[n], feed) && Keeps(states[0], states[n])
  {
    if n == 0 {
      KeepsSame(states[0], states[0]);
    } else {
      RecoveryKeeps(states, rounds, feed, n - 1);
      assert RoundAt(states, rounds, feed, n - 1);
      RoundKeeps(states[n - 1], rounds[n - 1], feed);
      KeepsTrans(states[0], states[n - 1], states[n]);
    }
  }

  // Every number from `first` up to `target` can be had from the rewinder.
  ghost predicate Recoverable(first: nat, target: nat, hist: seq<Packet>, feed: set<Packet>) {
    Cached(hist, feed) && forall q :: first <= q < target ==> Lookup(hist, q).Some?
  }

  // The numbers below `target` are passed, or nothing waits for any.
  ghost predicate Closed(s: Rx, target: nat) { s.expected >= target || !AnyPending(s) }

  // A round with the rewinder: `hist` is what it had cached when it saw the request, if it did, and unless the
  // request or the first packet of the answer was lost, `answered`.
  ghost predicate ServedAt(states: seq<Rx>, rounds: seq<seq<Event>>, hists: seq<seq<Packet>>, answered: seq<bool>,
                           budget: nat, target: nat, feed: set<Packet>, k: nat)
    requires k < |rounds| < |states| && |hists| == |answered| == |rounds|
  {
    && RoundAt(states, rounds, feed, k)
    && Recoverable(states[0].expected, target, hists[k], feed)
    && (answered[k] ==> Answered(states[k], rounds[k], hists[k], budget))
  }

  ghost predicate IsServed(states: seq<Rx>, rounds: seq<seq<Event>>, hists: seq<seq<Packet>>, answered: seq<bool>,
                           budget: nat, target: nat, feed: set<Packet>)
  {
    && IsRecovery(states, rounds, feed) && |hists| == |answered| == |rounds| && budget > 0
    && forall k :: 0 <= k < |rounds| ==> ServedAt(states, rounds, hists, answered, budget, target, feed, k)
  }

  lemma {:induction false} OpenRound(states: seq<Rx>, rounds: seq<seq<Event>>, hists: seq<seq<Packet>>,
                                     answered: seq<bool>, budget: nat, target: nat, feed: set<Packet>, k: nat)
    requires IsServed(states, rounds, hists, answered, budget, target, feed) && k < |rounds|
    requires Recovering(states[0], feed) && !Closed(states[k], target)
    ensures states[k + 1].expected >= states[k].expected + if answered[k] then 1 else 0
  {
    RecoveryKeeps(states, rounds, feed, k);
    assert ServedAt(states, rounds, hists, answered, budget, target, feed, k);
    RoundKeeps(states[k], rounds[k], feed);
    if answered[k] { RoundAdvances(states[k], rounds[k], hists[k], budget, feed); }
  }

  // After n rounds there was one before which the gap was closed, or the expected number has moved by one at
  // least for each answer.
  lemma {:induction false} RoundsAdvance(states: seq<Rx>, rounds: seq<seq<Event>>, hists: seq<seq<Packet>>,
                                         answered: seq<bool>, budget: nat, target: nat, feed: set<Packet>, n: nat)
    returns (k: nat)
    requires IsServed(states, rounds, hists, answered, budget, target, feed) && n <= |rounds|
    requires Recovering(states[0], feed)
    ensures k <= n
    ensures Closed(states[k], target) || states[n].expected >= states[0].expected + Count(answered, n)
  {
    k := 0;
    if n > 0 {
      k := RoundsAdvance(states, rounds, hists, answered, budget, target, feed, n - 1);
      if Closed(states[n - 1], target) {
        k := n - 1;
      } else {
        OpenRound(states, rounds, hists, answered, budget, target, feed, n - 1);
      }
    }
  }

  // If the numbers missing below `target` stay in the rewinder's window and no packet meets a full pool, then
  // after as many answered rounds as numbers are missing there was a moment when the gap was closed: the
  // receiver was past `target` or waited for nothing, past every packet below `target` it had buffered, and
  // nothing had been given up.
  lemma {:induction false} GapCloses(states: seq<Rx>, rounds: seq<seq<Event>>, hists: seq<seq<Packet>>,
                                     answered: seq<bool>, budget: nat, target: nat, feed: set<Packet>)
    returns (k: nat)
    requires IsServed(states, rounds, hists, answered, budget, target, feed) && Recovering(states[0], feed)
    requires target <= states[0].expected + Count(answered, |rounds|)
    ensures k < |states| && Inv(states[k], feed) && |states[k].pool| == |states[0].pool|
    ensures Closed(states[k], target) && Losses(states[k].ledger) == Losses(states[0].ledger)
    ensures var s := states[0];
            forall i :: 0 <= i < |s.pool| && IsPending(s, i) && s.pool[i].pkt.start < target ==>
                          s.pool[i].pkt.start < states[k].expected
  {
    k := RoundsAdvance(states, rounds, hists, answered, budget, target, feed, |rounds|);
    if !Closed(states[k], target) { k := |rounds|; }
    RecoveryKeeps(states, rounds, feed, k);
    var s, t := states[0], states[k];
    forall i | 0 <= i < |s.pool| && IsPending(s, i) && s.pool[i].pkt.start < target
      ensures s.pool[i].pkt.start < t.expected
    {
      if !AnyPending(t) { assert !IsPending(t, i); }
    }
  }

  // ---------- room in the pool ----------

  ghost function UpTo(n: nat): (r: set<nat>)
    ensures |r| == n && forall i: nat :: i in r <==> i < n
  {
    if n == 0 then {} else UpTo(n - 1) + {n - 1}
  }

  lemma {:induction false} FreeOrPending(pool: seq<Slot>, expected: nat)
    requires forall i :: 0 <= i < |pool| ==> !InFlight(pool[i], expected)
    ensures |FreeSlots(pool)| + |PendingSet(pool, expected)| == |pool|
  {
    var free, pending := FreeSlots(pool), PendingSet(pool, expected);
    forall i | 0 <= i < |pool| ensures i in free || i in pending { assert !InFlight(pool[i], expected); }
    assert free + pending == UpTo(|pool|);
    assert free !! pending;
  }

  // Once everything published has been consumed and recycled, every slot not pending is free.
  lemma {:induction false} SettledSlots(s: Rx, feed: set<Packet>)
    requires Inv(s, feed) && s.recycled == |s.ring|
    ensures |FreeSlots(s.pool)| + |PendingSet(s.pool, s.expected)| == SLOTS
  {
    InvAccounted(s, feed);
    assert s.ring[s.recycled..] == [];
    forall i | 0 <= i < |s.pool| ensures !InFlight(s.pool[i], s.expected) {
      assert multiset(s.ring[s.recycled..])[Reorder(i)] == 0;
    }
    FreeOrPending(s.pool, s.expected);
  }
}
