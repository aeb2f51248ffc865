/** What the exchange answers, and what it accepts, against the frames that came in; and that the sender gets on. */
module OrderAcks {
  import opened Bytes
  import opened Wire
  import opened OrderPath

  // ---------- what is accepted ----------

  // The highest number among the frames that pass the checksum.
  ghost function Highest(fs: seq<seq<byte>>): nat
    requires AllFrames(fs)
  {
    if fs == [] then 0
    else
      var h, f := Highest(fs[..|fs| - 1]), fs[|fs| - 1];
      if ChecksumOk(f) && Decode(f).seqNo > h then Decode(f).seqNo else h
  }

  // The orders numbered above every good frame before them.
  ghost function Records(fs: seq<seq<byte>>): seq<Order>
    requires AllFrames(fs)
  {
    if fs == [] then []
    else
      var r, f := Records(fs[..|fs| - 1]), fs[|fs| - 1];
      if ChecksumOk(f) && Decode(f).seqNo > Highest(fs[..|fs| - 1]) then r + [Decode(f)] else r
  }

  lemma {:induction false} HighestIs(fs: seq<seq<byte>>)
    requires AllFrames(fs)
    ensures Highest(fs) < U64
    ensures HasTop(fs) <==> Highest(fs) == U64 - 1
  {
    if fs != [] {
      var init, f := fs[..|fs| - 1], fs[|fs| - 1];
      HighestIs(init);
      SeqNoBound(f);
      assert init + [f] == fs;
      TopSnoc(init, f);
    }
  }

  lemma {:induction false} RecordStep(init: seq<seq<byte>>, f: seq<byte>, x: Exchange)
    requires AllFrames(init) && |f| == ORDER && Highest(init) < U64 && Decode(f).seqNo < U64
    requires x.accepted == Records(init) && x.expected == (Highest(init) + 1) % U64
    requires Highest(init) == U64 - 1 ==> !ChecksumOk(f)
    ensures AllFrames(init + [f])
    ensures OnFrame(x, f).accepted == Records(init + [f]) && OnFrame(x, f).expected == (Highest(init + [f]) + 1) % U64
  {
    assert (init + [f])[..|init|] == init;
  }

  // Unless a good frame follows one with the last number there is, the exchange accepts exactly the orders
  // numbered above every good frame before them, whatever was lost, repeated or damaged.
  lemma {:induction false} AcceptedAreRecords(fs: seq<seq<byte>>)
    requires AllFrames(fs) && TopEnds(fs)
    ensures OnFrames(CONNECTED, fs).accepted == Records(fs)
    ensures OnFrames(CONNECTED, fs).expected == (Highest(fs) + 1) % U64
  {
    if fs != [] {
      var init, f := fs[..|fs| - 1], fs[|fs| - 1];
      assert init + [f] == fs;
      TopSnoc(init, f);
      HighestIs(init);
      SeqNoBound(f);
      AcceptedAreRecords(init);
      RecordStep(init, f, OnFrames(CONNECTED, init));
    }
  }

  // ---------- what is answered ----------

  // The numbers acknowledged with one flag, in order.
  function Flagged(acks: seq<Ack>, flag: Flag): seq<nat> {
    if acks == [] then []
    else
      var rest, a := Flagged(acks[..|acks| - 1], flag), acks[|acks| - 1];
      if a.flag == flag then rest + [a.seqNo] else rest
  }

  // The numbers of the frames that fail the checksum.
  function Damaged(fs: seq<seq<byte>>): seq<nat>
    requires AllFrames(fs)
  {
    if fs == [] then []
    else
      var rest, f := Damaged(fs[..|fs| - 1]), fs[|fs| - 1];
      if ChecksumOk(f) then rest else rest + [Decode(f).seqNo]
  }

  // The number the exchange is at after some accepted orders: that of the last, or none.
  function LastNumber(os: seq<Order>): nat { if os == [] then 0 else os[|os| - 1].seqNo }

  // The numbers after which accepted orders leave some out.
  function Skips(os: seq<Order>): seq<nat> {
    if os == [] then []
    else
      var init, o := os[..|os| - 1], os[|os| - 1];
      if o.seqNo > (LastNumber(init) + 1) % U64 then Skips(init) + [LastNumber(init)] else Skips(init)
  }

  lemma {:induction false} FlaggedSnoc(acks: seq<Ack>, a: Ack, flag: Flag)
    ensures Flagged(acks + [a], flag) == if a.flag == flag then Flagged(acks, flag) + [a.seqNo] else Flagged(acks, flag)
  {}

  // The expected number follows the last accepted order, so an acknowledgement of the one before it is always of
  // that order.
  ghost predicate Follows(x: Exchange) {
    x.expected == (LastNumber(x.accepted) + 1) % U64 && Before(x.expected) == LastNumber(x.accepted) < U64
  }

  ghost predicate AcksMatch(x: Exchange, fs: seq<seq<byte>>)
    requires AllFrames(fs)
  {
    && Follows(x) && Flagged(x.acks, BadChecksum) == Damaged(fs) && Flagged(x.acks, SeqGap) == Skips(x.accepted)
    && |x.acks| == |fs| + |Skips(x.accepted)|
  }

  lemma {:induction false} BadAck(x: Exchange, fs: seq<seq<byte>>, f: seq<byte>)
    requires AllFrames(fs) && AcksMatch(x, fs) && |f| == ORDER && !ChecksumOk(f)
    ensures AllFrames(fs + [f]) && AcksMatch(OnFrame(x, f), fs + [f])
  {
    var a := Ack(Decode(f).seqNo, BadChecksum);
    FlaggedSnoc(x.acks, a, BadChecksum);
    FlaggedSnoc(x.acks, a, SeqGap);
    assert (fs + [f])[..|fs|] == fs;
  }

  lemma {:induction false} DuplicateAck(x: Exchange, fs: seq<seq<byte>>, f: seq<byte>)
    requires AllFrames(fs) && AcksMatch(x, fs) && |f| == ORDER && ChecksumOk(f) && Decode(f).seqNo < x.expected
    ensures AllFrames(fs + [f]) && AcksMatch(OnFrame(x, f), fs + [f])
    ensures OnFrame(x, f).acks == x.acks + [Ack(LastNumber(x.accepted), Ok)]
  {
    var a := Ack(LastNumber(x.accepted), Ok);
    FlaggedSnoc(x.acks, a, BadChecksum);
    FlaggedSnoc(x.acks, a, SeqGap);
    assert (fs + [f])[..|fs|] == fs;
  }

  // The answers to an accepted order, after those in `acks`.
  function Answers(acks: seq<Ack>, last: nat, expected: nat, seqNo: nat): seq<Ack> {
    (if seqNo > expected then acks + [Ack(last, SeqGap)] else acks) + [Ack(seqNo, Ok)]
  }

  lemma {:induction false} AnswersFlagged(acks: seq<Ack>, last: nat, expected: nat, seqNo: nat)
    ensures Flagged(Answers(acks, last, expected, seqNo), BadChecksum) == Flagged(acks, BadChecksum)
    ensures Flagged(Answers(acks, last, expected, seqNo), SeqGap)
            == Flagged(acks, SeqGap) + if seqNo > expected then [last] else []
  {
    var gap := if seqNo > expected then acks + [Ack(last, SeqGap)] else acks;
    FlaggedSnoc(acks, Ack(last, SeqGap), BadChecksum);
    FlaggedSnoc(acks, Ack(last, SeqGap), SeqGap);
    FlaggedSnoc(gap, Ack(seqNo, Ok), BadChecksum);
    FlaggedSnoc(gap, Ack(seqNo, Ok), SeqGap);
  }

  lemma {:induction false} SkipsSnoc(os: seq<Order>, o: Order)
    ensures LastNumber(os + [o]) == o.seqNo
    ensures Skips(os + [o])
            == Skips(os) + if o.seqNo > (LastNumber(os) + 1) % U64 then [LastNumber(os)] else []
  {
    assert (os + [o])[..|os|] == os;
  }

  lemma {:induction false} AcceptedIs(x: Exchange, f: seq<byte>)
    requires |f| == ORDER && Follows(x) && ChecksumOk(f) && x.expected <= Decode(f).seqNo < U64
    ensures var o, y := Decode(f), OnFrame(x, f);
            && y.accepted == x.accepted + [o] && y.expected == (o.seqNo + 1) % U64
            && Before(y.expected) == o.seqNo && y.acks == Answers(x.acks, LastNumber(x.accepted), x.expected, o.seqNo)
  {}

  lemma {:induction false} AcceptedAck(x: Exchange, fs: seq<seq<byte>>, f: seq<byte>)
    requires AllFrames(fs) && AcksMatch(x, fs) && |f| == ORDER && ChecksumOk(f) && x.expected <= Decode(f).seqNo < U64
    ensures AllFrames(fs + [f]) && AcksMatch(OnFrame(x, f), fs + [f])
  {
    var o := Decode(f);
    AcceptedIs(x, f);
    SkipsSnoc(x.accepted, o);
    AnswersFlagged(x.acks, LastNumber(x.accepted), x.expected, o.seqNo);
    assert (fs + [f])[..|fs|] == fs;
  }

  // For any frames: each damaged one is answered with its own number and the checksum flag, each place where the
  // accepted numbers leave some out with the number before it and the gap flag, and every frame besides with one
  // more answer.
  lemma {:induction false} AcksTell(fs: seq<seq<byte>>)
    requires AllFrames(fs)
    ensures AcksMatch(OnFrames(CONNECTED, fs), fs)
  {
    if fs != [] {
      var init, f := fs[..|fs| - 1], fs[|fs| - 1];
      AcksTell(init);
      assert init + [f] == fs;
      SeqNoBound(f);
      var x := OnFrames(CONNECTED, init);
      if !ChecksumOk(f) {
        BadAck(x, init, f);
      } else if Decode(f).seqNo < x.expected {
        DuplicateAck(x, init, f);
      } else {
        AcceptedAck(x, init, f);
      }
    }
  }

  // ---------- the sender gets on ----------

  // Outcomes of send() on a connection that holds: some bytes of the frame at hand, or none.
  ghost predicate Sane(enc: Encoder, n: nat, results: seq<SendResult>)
    decreases |results|
  {
    results == [] ||
    (var init, r := results[..|results| - 1], results[|results| - 1];
     && Sane(enc, n, init) && !r.Failed?
     && (r.Wrote? ==> SendAll(enc, n, init).read < n && 0 < r.k <= ORDER - SendAll(enc, n, init).off))
  }

  function Taken(results: seq<SendResult>): nat {
    if results == [] then 0
    else Taken(results[..|results| - 1]) + match results[|results| - 1] { case Wrote(k) => k case _ => 0 }
  }

  // While the connection holds, every byte send() takes is progress: after 36 for each order of the ring all of
  // them are on the wire.
  lemma {:induction false} SenderProgress(enc: Encoder, n: nat, results: seq<SendResult>)
    requires EncoderOk(enc) && Sane(enc, n, results)
    ensures var s := SendAll(enc, n, results);
            ORDER * s.read + s.off == Taken(results) && |s.conns| == 1
            && (Taken(results) == ORDER * n ==> s.read == n)
  {
    if results != [] {
      var init, r := results[..|results| - 1], results[|results| - 1];
      SenderProgress(enc, n, init);
      var s := SendAll(enc, n, init);
      if r.Wrote? { WroteFields(enc, n, s, r.k); }
    }
  }
}
