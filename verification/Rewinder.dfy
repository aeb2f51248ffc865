/** The retransmit cache of the exchange: a ring of the last 65536 packets with a 32-bit write cursor,
    searched backwards, and the replay of up to sixteen packets per request. Requests are atomic. */
module Rewinder {
  import opened Bytes
  import opened Cursors
  import opened Mold

  const CACHE: nat := 65536        // REWINDER_CACHE_SLOTS
  const TURNS: nat := U32 / CACHE
  const MAX_PACKET: nat := 1500
  const MAX_REPLAY: nat := 16

  predicate Covers(p: Packet, q: nat) { p.start != 0 && p.start <= q < p.End() }

  // ---------- what the cache answers, on the history of cached packets ----------

  // How many of the newest packets find_packet looks at after `n` packets were cached.
  function Window(n: nat): nat {
    var w := n % U32;
    if w < CACHE then w else CACHE
  }

  // The newest of the last `n` packets, skipping the newest `i`, that covers `q`.
  function FindBack(hist: seq<Packet>, q: nat, i: nat, n: nat): (r: Option<Packet>)
    requires i <= n <= |hist|
    decreases n - i
  {
    if i == n then None
    else
      var p := hist[|hist| - 1 - i];
      if Covers(p, q) then Some(p) else FindBack(hist, q, i + 1, n)
  }

  function Lookup(hist: seq<Packet>, q: nat): Option<Packet> { FindBack(hist, q, 0, Window(|hist|)) }

  // The replay loop: `left` packets may still be sent, `cnt` messages are still wanted.
  function Replay(hist: seq<Packet>, q: nat, cnt: nat, left: nat): seq<Packet>
    decreases left
  {
    if left == 0 || cnt == 0 then []
    else
      match Lookup(hist, q)
      case None => []
      case Some(p) =>
        if p.End() <= q then [p]
        else
          var covered := p.End() - q;
          [p] + Replay(hist, p.End(), if covered >= cnt then 0 else cnt - covered, left - 1)
  }

  // ---------- the code ----------

  class Cache {
    const slots: array<Packet>         // g_cache; start 0 marks an empty slot
    var cursor: nat                    // g_write_cursor, modulo 2^32
    ghost var hist: seq<Packet>        // every packet ever cached

    ghost predicate Valid()
      reads this, slots
    {
      && slots.Length == CACHE && cursor == |hist| % U32
      && forall k :: 0 <= k < |hist| && |hist| - CACHE <= k ==> slots[k % CACHE] == hist[k]
    }

    // rewinder_init
    constructor ()
      ensures Valid() && hist == [] && fresh(slots)
    {
      slots := new Packet[CACHE](i => Packet(0, 0, []));
      cursor, hist := 0, [];
    }

    // rewinder_cache_packet
    method CachePacket(p: Packet)
      requires Valid()
      modifies this, slots
      ensures Valid()
      ensures hist == if HEADER + |p.body| > MAX_PACKET || p.count == 0 then old(hist) else old(hist) + [p]
    {
      if HEADER + |p.body| > MAX_PACKET || p.count == 0 { return; }
      Position(|hist|, CACHE, TURNS);
      slots[cursor % CACHE] := p;
      cursor := (cursor + 1) % U32;
      hist := hist + [p];
      forall k | 0 <= k < |hist| && |hist| - CACHE <= k ensures slots[k % CACHE] == hist[k] {
        Apart(k, |hist| - 1, CACHE);
      }
    }

    // find_packet
    method FindPacket(q: nat) returns (r: Option<Packet>)
      requires Valid()
      ensures r == Lookup(hist, q)
    {
      var scan := if cursor < CACHE then cursor else CACHE;
      for i := 0 to scan
        invariant scan == Window(|hist|) <= |hist|
        invariant Lookup(hist, q) == FindBack(hist, q, i, scan)
      {
        ScanPosition(|hist|, i);
        var p := slots[(cursor - 1 - i) % CACHE];
        if Covers(p, q) { return Some(p); }
      }
      r := None;
    }

    // The request loop of rewinder_thread, with its bound on the packets per request as a parameter.
    method ServeUpTo(q: nat, cnt: nat, budget: nat) returns (sent: seq<Packet>)
      requires Valid()
      ensures sent == Replay(hist, q, cnt, budget)
    {
      var want, left, i := q, cnt, 0;
      sent := [];
      while i < budget && left > 0
        invariant 0 <= i <= budget && left >= 0
        invariant Replay(hist, q, cnt, budget) == sent + Replay(hist, want, left, budget - i)
      {
        var p := FindPacket(want);
        if p.None? { return; }
        sent := sent + [p.value];
        var next := p.value.End();
        if next <= want { return; }
        var covered := next - want;
        want := next;
        left := if covered >= left then 0 else left - covered;
        i := i + 1;
      }
    }

    method Serve(q: nat, cnt: nat) returns (sent: seq<Packet>)
      requires Valid()
      ensures sent == Replay(hist, q, cnt, MAX_REPLAY)
    {
      sent := ServeUpTo(q, cnt, MAX_REPLAY);
    }
  }

  lemma {:induction false} ScanPosition(n: nat, i: nat)
    requires i < Window(n)
    ensures i < n && n - CACHE <= n - 1 - i && (n % U32 - 1 - i) % CACHE == (n - 1 - i) % CACHE
  {
    assert n % U32 <= n;
    PositionBack(n, i + 1, CACHE, TURNS);
  }

  // ---------- what a hit means ----------

  // The cached packets follow each other without gap, from number 1 or later.
  ghost predicate Chain(hist: seq<Packet>) {
    && (forall k :: 0 <= k < |hist| ==> hist[k].start >= 1 && hist[k].count >= 1)
    && (forall k :: 0 < k < |hist| ==> hist[k].start == hist[k - 1].End())
  }

  // What a packetiser caches is such a chain.
  lemma {:induction false} CutIsChain(hist: seq<Packet>, first: nat)
    requires Cut(hist, first) && first >= 1
    ensures Chain(hist)
  {
    forall k | 0 < k < |hist| ensures hist[k].start == hist[k - 1].End() { ContentsSplit(hist, k - 1); }
  }

  lemma {:induction false} ChainOrder(hist: seq<Packet>, i: nat, j: nat)
    requires Chain(hist) && i < j < |hist|
    ensures hist[i].End() <= hist[j].start
  {
    if i + 1 < j { ChainOrder(hist, i, j - 1); }
  }

  // At most one packet covers a number.
  lemma {:induction false} CoverUnique(hist: seq<Packet>, i: nat, j: nat, q: nat)
    requires Chain(hist) && i < |hist| && j < |hist| && Covers(hist[i], q) && Covers(hist[j], q)
    ensures i == j
  {
    if i < j { ChainOrder(hist, i, j); } else if j < i { ChainOrder(hist, j, i); }
  }

  // The oldest number among the last n packets.
  function Oldest(hist: seq<Packet>, n: nat): nat
    requires 0 < n <= |hist|
  {
    hist[|hist| - n].start
  }

  // The scan returns the position of a packet that covers `q` if there is one where it looks.
  lemma {:induction false} FindBackComplete(hist: seq<Packet>, q: nat, i: nat, n: nat) returns (j: nat)
    requires i <= n <= |hist|
    ensures FindBack(hist, q, i, n).Some? ==> |hist| - n <= j < |hist| - i && Covers(hist[j], q)
    ensures FindBack(hist, q, i, n).Some? ==> FindBack(hist, q, i, n).value == hist[j]
    ensures FindBack(hist, q, i, n).None? ==> forall k :: |hist| - n <= k < |hist| - i ==> !Covers(hist[k], q)
    decreases n - i
  {
    if i < n && !Covers(hist[|hist| - 1 - i], q) {
      j := FindBackComplete(hist, q, i + 1, n);
    } else if i < n {
      j := |hist| - 1 - i;
    } else {
      j := 0;
    }
  }

  // Every number between a packet's start and the newest end lies in some packet.
  lemma {:induction false} CoveringIndex(hist: seq<Packet>, a: nat, q: nat) returns (k: nat)
    requires Chain(hist) && a < |hist| && hist[a].start <= q < hist[|hist| - 1].End()
    ensures a <= k < |hist| && Covers(hist[k], q)
    decreases |hist| - a
  {
    k := a;
    if q >= hist[a].End() { k := CoveringIndex(hist, a + 1, q); }
  }

  // find_packet hits if and only if the number lies in the last Window packets, and then it returns
  // the one packet of the session that covers it.
  lemma {:induction false} HitIff(hist: seq<Packet>, q: nat) returns (j: nat)
    requires Chain(hist)
    ensures Lookup(hist, q).Some? <==>
            Window(|hist|) > 0 && Oldest(hist, Window(|hist|)) <= q < hist[|hist| - 1].End()
    ensures Lookup(hist, q).Some? ==> |hist| - Window(|hist|) <= j < |hist| && Covers(hist[j], q)
    ensures Lookup(hist, q).Some? ==> Lookup(hist, q).value == hist[j]
    ensures forall k :: 0 <= k < |hist| && Covers(hist[k], q) && Lookup(hist, q).Some? ==> k == j
  {
    var n := Window(|hist|);
    j := FindBackComplete(hist, q, 0, n);
    if n > 0 && Oldest(hist, n) <= q < hist[|hist| - 1].End() {
      var k := CoveringIndex(hist, |hist| - n, q);
    }
    if Lookup(hist, q).Some? {
      if |hist| - n < j { ChainOrder(hist, |hist| - n, j); }
      if j < |hist| - 1 { ChainOrder(hist, j, |hist| - 1); }
      forall k | 0 <= k < |hist| && Covers(hist[k], q) ensures k == j { CoverUnique(hist, k, j, q); }
    }
  }

  // The window is the whole cache exactly while the cursor has not wrapped into its first 65536 values.
  lemma {:induction false} WindowIsCacheIff(n: nat)
    ensures Window(n) == (if n < CACHE then n else CACHE) <==> n < U32 || n % U32 >= CACHE
  {}

  // Just after the cursor wraps nothing is found although the cache is full.
  lemma {:induction false} WrapForgets(hist: seq<Packet>, q: nat)
    requires |hist| == U32
    ensures Lookup(hist, q).None?
  {}

  // A number covered by a packet of the window is answered with that packet.
  lemma {:induction false} LookupCovering(hist: seq<Packet>, i: nat, q: nat)
    requires Chain(hist) && |hist| - Window(|hist|) <= i < |hist| && Covers(hist[i], q)
    ensures Lookup(hist, q) == Some(hist[i])
  {
    var n := Window(|hist|);
    if |hist| - n < i { ChainOrder(hist, |hist| - n, i); }
    if i < |hist| - 1 { ChainOrder(hist, i, |hist| - 1); }
    var k := HitIff(hist, q);
  }

  lemma {:induction false} LookupPastEnd(hist: seq<Packet>, q: nat)
    requires Chain(hist) && hist != [] && q >= hist[|hist| - 1].End()
    ensures Lookup(hist, q).None?
  {
    var k := HitIff(hist, q);
  }

  lemma {:induction false} ReplayStep(hist: seq<Packet>, q: nat, cnt: nat, left: nat, p: Packet)
    requires cnt > 0 && left > 0 && Lookup(hist, q) == Some(p) && p.End() > q
    ensures Replay(hist, q, cnt, left)
            == [p] + if p.End() - q >= cnt then [] else Replay(hist, p.End(), cnt - (p.End() - q), left - 1)
  {}

  // `sent` are at most `left` packets of the window, consecutive from packet j, which covers `q`; it stops
  // short only when `cnt` messages are covered or the newest packet is reached.
  ghost predicate Consecutive(hist: seq<Packet>, sent: seq<Packet>, j: nat, q: nat, cnt: nat, left: nat) {
    && 0 < |sent| <= left && j + |sent| <= |hist| && sent == hist[j..j + |sent|]
    && Covers(hist[j], q) && |hist| - Window(|hist|) <= j
    && (|sent| < left ==> sent[|sent| - 1].End() >= q + cnt || j + |sent| == |hist|)
  }

  lemma {:induction false} ConsecutiveFront(hist: seq<Packet>, rest: seq<Packet>, j: nat, q: nat, cnt: nat, left: nat)
    requires j + 1 < |hist| && Covers(hist[j], q) && |hist| - Window(|hist|) <= j && hist[j].End() - q < cnt && left > 1
    requires Consecutive(hist, rest, j + 1, hist[j].End(), cnt - (hist[j].End() - q), left - 1)
    ensures Consecutive(hist, [hist[j]] + rest, j, q, cnt, left)
  {}

  lemma {:induction false} ReplayEnds(hist: seq<Packet>, j: nat, q: nat, cnt: nat, left: nat)
    requires Chain(hist) && |hist| - Window(|hist|) <= j < |hist| && Covers(hist[j], q) && cnt > 0 && left > 0
    requires hist[j].End() - q >= cnt || left == 1 || j + 1 == |hist|
    ensures Replay(hist, q, cnt, left) == [hist[j]]
  {
    LookupCovering(hist, j, q);
    ReplayStep(hist, q, cnt, left, hist[j]);
    if j + 1 == |hist| { LookupPastEnd(hist, hist[j].End()); }
  }

  lemma {:induction false} ReplayFrom(hist: seq<Packet>, j: nat, q: nat, cnt: nat, left: nat)
    requires Chain(hist) && |hist| - Window(|hist|) <= j < |hist| && Covers(hist[j], q) && cnt > 0 && left > 0
    ensures Consecutive(hist, Replay(hist, q, cnt, left), j, q, cnt, left)
    decreases left
  {
    var p := hist[j];
    if p.End() - q >= cnt || left == 1 || j + 1 == |hist| {
      ReplayEnds(hist, j, q, cnt, left);
      assert [p] == hist[j..j + 1];
    } else {
      LookupCovering(hist, j, q);
      ReplayStep(hist, q, cnt, left, p);
      ReplayFrom(hist, j + 1, p.End(), cnt - (p.End() - q), left - 1);
      ConsecutiveFront(hist, Replay(hist, p.End(), cnt - (p.End() - q), left - 1), j, q, cnt, left);
    }
  }

  // One request is answered with consecutive packets from the one that covers the number asked for.
  lemma {:induction false} ReplayConsecutive(hist: seq<Packet>, q: nat, cnt: nat, left: nat) returns (j: nat)
    requires Chain(hist) && cnt > 0 && left > 0 && Lookup(hist, q).Some?
    ensures Consecutive(hist, Replay(hist, q, cnt, left), j, q, cnt, left)
  {
    j := HitIff(hist, q);
    ReplayFrom(hist, j, q, cnt, left);
  }
}
