/** The two order threads as code: order_sender's nested send loop and order_receiver's client loop,
    each proved to compute what OrderPath says of a whole run. */
module OrderThreads {
  import opened Bytes
  import opened Streams
  import opened Wire
  import opened OrderPath

  const BUF_SIZE: nat := 4096

  // ---------- order_receiver ----------

  class Client {
    const buf: StreamBuffer
    var expected: nat                  // expected_seq
    var accepted: seq<Order>           // what was logged and counted
    var acks: seq<Ack>                 // what was sent back

    ghost function State(): Exchange
      reads this
    {
      Exchange(expected, accepted, acks)
    }

    // The state is that of the whole stream received, however it was chunked.
    ghost predicate Valid()
      reads this, buf, buf.bytes
    {
      && buf.Synced() && buf.size == ORDER && buf.opens == ANY && buf.bytes.Length == BUF_SIZE + ORDER
      && State() == Session(buf.stream)
    }

    constructor ()
      ensures Valid() && buf.stream == [] && fresh(buf) && fresh(buf.bytes)
    {
      buf := new StreamBuffer(BUF_SIZE + ORDER, ORDER, ANY);
      expected, accepted, acks := 1, [], [];
    }

    method HandleFrame(f: seq<byte>)
      requires |f| == ORDER
      modifies this
      ensures State() == OnFrame(old(State()), f)
    {
      var o := Decode(f);
      if !ChecksumOk(f) {
        acks := acks + [Ack(o.seqNo, BadChecksum)];
        return;
      }
      if o.seqNo != expected {
        if o.seqNo > expected {
          acks := acks + [Ack(Before(expected), SeqGap)];
          expected := o.seqNo;
        } else {
          acks := acks + [Ack(Before(expected), Ok)];
          return;
        }
      }
      acks := acks + [Ack(o.seqNo, Ok)];
      accepted := accepted + [o];
      expected := (o.seqNo + 1) % U64;
    }

    // The loop over the frames of one recv; `before` are those of earlier ones.
    method HandleFrames(frames: seq<seq<byte>>, ghost before: seq<seq<byte>>)
      requires AllFrames(before) && AllFrames(frames) && State() == OnFrames(CONNECTED, before)
      modifies this
      ensures AllFrames(before + frames) && State() == OnFrames(CONNECTED, before + frames)
    {
      assert before + frames[..0] == before;
      for i := 0 to |frames|
        invariant AllFrames(before + frames[..i]) && State() == OnFrames(CONNECTED, before + frames[..i])
      {
        SnocAssoc(before, frames, i);
        OnFramesSnoc(CONNECTED, before + frames[..i], frames[i]);
        HandleFrame(frames[i]);
      }
      assert frames[..|frames|] == frames;
    }

    // One recv of at most 4096 bytes; the carry is below one frame, so the buffer never overflows.
    method Receive(chunk: seq<byte>)
      requires Valid() && |chunk| <= BUF_SIZE
      modifies this, buf, buf.bytes
      ensures Valid() && buf.stream == old(buf.stream) + chunk
    {
      ghost var before := Frames(buf.stream, ORDER, ANY);
      FramesAreOrders(buf.stream);
      FramesAreOrders(buf.stream + chunk);
      var frames := buf.Feed(chunk);
      FramesOfSuffix(before, frames);
      HandleFrames(frames, before);
    }
  }

  lemma {:induction false} SnocAssoc<T>(a: seq<T>, b: seq<T>, i: nat)
    requires i < |b|
    ensures a + b[..i + 1] == (a + b[..i]) + [b[i]]
  {}

  lemma {:induction false} FramesOfSuffix(a: seq<seq<byte>>, b: seq<seq<byte>>)
    requires AllFrames(a + b)
    ensures AllFrames(b)
  {
    forall i | 0 <= i < |b| ensures |b[i]| == ORDER { assert b[i] == (a + b)[|a| + i]; }
  }

  // ---------- order_sender ----------

  // The sender once `off` bytes of its current frame are written.
  function Written(read: nat, off: nat, nextSeq: nat, conns: seq<Connection>): Sender {
    if off == ORDER then Sender(read + 1, 0, nextSeq + 1, conns) else Sender(read, off, nextSeq, conns)
  }

  lemma {:induction false} StepWritten(enc: Encoder, n: nat, read: nat, off: nat, nextSeq: nat, conns: seq<Connection>,
                                       r: SendResult)
    requires EncoderOk(enc) && conns != [] && off < ORDER && read < n
    ensures SendStep(enc, n, Written(read, off, nextSeq, conns), r) ==
            match r
            case Again => Written(read, off, nextSeq, conns)
            case Failed => Written(read, 0, 1, conns + [Connection(read, 0, 0, [])])
            case Wrote(k) =>
              if 0 < k <= ORDER - off
              then Written(read, off + k, nextSeq, Extend(conns, enc(read, nextSeq)[off..off + k]))
              else Written(read, off, nextSeq, conns)
  {}

  // The inner loop: write one frame, retrying and reconnecting, until it is whole or `results` run out.
  method SendFrame(enc: Encoder, n: nat, s: Sender, results: seq<SendResult>, i0: nat) returns (t: Sender, i: nat)
    requires s.conns != [] && s.off == 0 && s.read < n && i0 < |results| && EncoderOk(enc)
    requires s == SendAll(enc, n, results[..i0])
    ensures i0 < i <= |results| && t == SendAll(enc, n, results[..i])
    ensures (t.read == s.read + 1 && t.off == 0) || (t.read == s.read && i == |results|)
  {
    var msg := enc(s.read, s.nextSeq);
    var off, nextSeq, conns := 0, s.nextSeq, s.conns;
    i := i0;
    while off < ORDER && i < |results|
      invariant i0 <= i <= |results| && 0 <= off <= ORDER && conns != [] && (off == ORDER ==> i > i0)
      invariant msg == enc(s.read, nextSeq)
      invariant SendAll(enc, n, results[..i]) == Written(s.read, off, nextSeq, conns)
      decreases |results| - i
    {
      SendAllSnoc(enc, n, results, i);
      StepWritten(enc, n, s.read, off, nextSeq, conns, results[i]);
      match results[i] {
        case Wrote(k) =>
          if 0 < k <= ORDER - off {
            conns := Extend(conns, msg[off..off + k]);
            off := off + k;
          }
        case Again =>
        case Failed =>
          conns := conns + [Connection(s.read, 0, 0, [])];
          nextSeq, off := 1, 0;
          msg := enc(s.read, nextSeq);
      }
      i := i + 1;
    }
    t := Written(s.read, off, nextSeq, conns);
  }

  lemma {:induction false} SendAllSnoc(enc: Encoder, n: nat, results: seq<SendResult>, i: nat)
    requires i < |results|
    ensures SendAll(enc, n, results[..i + 1]) == SendStep(enc, n, SendAll(enc, n, results[..i]), results[i])
  {
    assert results[..i + 1][..i] == results[..i];
  }

  // Once the ring is empty, nothing more is written.
  lemma {:induction false} IdleSender(enc: Encoder, n: nat, results: seq<SendResult>, i: nat)
    requires i <= |results| && SendAll(enc, n, results[..i]).read >= n
    ensures SendAll(enc, n, results) == SendAll(enc, n, results[..i])
    decreases |results| - i
  {
    if i < |results| {
      SendAllSnoc(enc, n, results, i);
      IdleSender(enc, n, results, i + 1);
    } else {
      assert results[..i] == results;
    }
  }

  // order_sender_thread over a ring and any outcomes of send().
  method SenderThread(enc: Encoder, n: nat, results: seq<SendResult>) returns (s: Sender)
    requires EncoderOk(enc)
    ensures s == SendAll(enc, n, results)
  {
    s := START;
    var i := 0;
    while s.read < n && i < |results|
      invariant 0 <= i <= |results| && s == SendAll(enc, n, results[..i])
      invariant s.conns != [] && (s.off == 0 || i == |results|)
      decreases |results| - i
    {
      s, i := SendFrame(enc, n, s, results, i);
    }
    if s.read >= n { IdleSender(enc, n, results, i); } else { assert results[..i] == results; }
  }
}
