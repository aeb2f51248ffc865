/** Orders from the ring to the exchange: the sender's writes, short writes and reconnects on one side,
    the receiver's frame checks and sequence state on the other. */
module OrderPath {
  import opened Bytes
  import opened Streams
  import opened Wire

  // ---------- the exchange ----------

  datatype Flag = Ok | BadChecksum | SeqGap
  datatype Ack = Ack(seqNo: nat, flag: Flag)

  // The locals of handle_client: the expected number (modulo 2^64), what was accepted, what was acked.
  datatype Exchange = Exchange(expected: nat, accepted: seq<Order>, acks: seq<Ack>)

  const CONNECTED: Exchange := Exchange(1, [], [])

  // expected_seq - 1 in 64 bits
  function Before(expected: nat): nat { if expected == 0 then U64 - 1 else expected - 1 }

  // One frame.
  function OnFrame(x: Exchange, f: seq<byte>): Exchange
    requires |f| == ORDER
  {
    var o := Decode(f);
    if !ChecksumOk(f) then x.(acks := x.acks + [Ack(o.seqNo, BadChecksum)])
    else if o.seqNo < x.expected then x.(acks := x.acks + [Ack(Before(x.expected), Ok)])
    else
      var gap := if o.seqNo > x.expected then [Ack(Before(x.expected), SeqGap)] else [];
      Exchange((o.seqNo + 1) % U64, x.accepted + [o], x.acks + gap + [Ack(o.seqNo, Ok)])
  }

  predicate AllFrames(fs: seq<seq<byte>>) { forall i :: 0 <= i < |fs| ==> |fs[i]| == ORDER }

  function OnFrames(x: Exchange, fs: seq<seq<byte>>): Exchange
    requires AllFrames(fs)
  {
    if fs == [] then x else OnFrame(OnFrames(x, fs[..|fs| - 1]), fs[|fs| - 1])
  }

  const ANY: byte -> bool := _ => true

  lemma {:induction false} FramesAreOrders(s: seq<byte>)
    ensures AllFrames(Frames(s, ORDER, ANY))
    decreases |s|
  {
    if |s| >= ORDER { FramesAreOrders(s[ORDER..]); }
  }

  // A whole session: the frames of the bytes received, whatever chunks they came in.
  function Session(bytes: seq<byte>): Exchange {
    FramesAreOrders(bytes);
    OnFrames(CONNECTED, Frames(bytes, ORDER, ANY))
  }

  predicate Increasing(os: seq<Order>) {
    forall i, j :: 0 <= i < j < |os| ==> os[i].seqNo < os[j].seqNo
  }

  // No accepted number but the last is the one after which the expected number wraps to zero.
  predicate NoWrap(os: seq<Order>) {
    forall i :: 0 <= i < |os| - 1 ==> os[i].seqNo != U64 - 1
  }

  lemma {:induction false} IncreasingSnoc(os: seq<Order>, o: Order)
    requires os != [] && o.seqNo < U64 && forall i :: 0 <= i < |os| ==> os[i].seqNo < U64
    requires Increasing(os) <==> NoWrap(os)
    requires os[|os| - 1].seqNo == U64 - 1 || os[|os| - 1].seqNo < o.seqNo
    ensures Increasing(os + [o]) <==> NoWrap(os + [o])
  {
    var os', last := os + [o], os[|os| - 1];
    assert os'[|os| - 1] == last && os'[|os|] == o;
    if NoWrap(os') {
      forall i | 0 <= i < |os| - 1 ensures os[i].seqNo != U64 - 1 { assert os'[i] == os[i]; }
      forall i | 0 <= i < |os| ensures os[i].seqNo <= last.seqNo {}
    }
    if Increasing(os') {
      forall i, j | 0 <= i < j < |os| ensures os[i].seqNo < os[j].seqNo { assert os'[i] == os[i] && os'[j] == os[j]; }
      forall i | 0 <= i < |os'| - 1 ensures os'[i].seqNo != U64 - 1 { assert os'[i].seqNo < os'[|os|].seqNo; }
    }
  }

  ghost predicate ExchangeOk(x: Exchange) {
    && (Increasing(x.accepted) <==> NoWrap(x.accepted))
    && (x.accepted != [] ==> x.expected == (x.accepted[|x.accepted| - 1].seqNo + 1) % U64)
    && (forall i :: 0 <= i < |x.accepted| ==> x.accepted[i].seqNo < U64)
  }

  lemma {:induction false} FrameKeepsOk(x: Exchange, f: seq<byte>)
    requires ExchangeOk(x) && |f| == ORDER
    ensures ExchangeOk(OnFrame(x, f))
  {
    SeqNoBound(f);
    if ChecksumOk(f) && Decode(f).seqNo >= x.expected && x.accepted != [] {
      IncreasingSnoc(x.accepted, Decode(f));
    }
  }

  // A frame that passes the checksum and carries the last number there is.
  predicate IsTop(f: seq<byte>)
    requires |f| == ORDER
  {
    ChecksumOk(f) && Decode(f).seqNo == U64 - 1
  }

  ghost predicate HasTop(fs: seq<seq<byte>>)
    requires AllFrames(fs)
  {
    exists i :: 0 <= i < |fs| && IsTop(fs[i])
  }

  // No good frame follows one with the last number.
  ghost predicate TopEnds(fs: seq<seq<byte>>)
    requires AllFrames(fs)
  {
    forall i, j :: 0 <= i < j < |fs| && IsTop(fs[i]) ==> !ChecksumOk(fs[j])
  }

  lemma {:induction false} TopSnoc(fs: seq<seq<byte>>, f: seq<byte>)
    requires AllFrames(fs) && |f| == ORDER
    ensures AllFrames(fs + [f])
    ensures HasTop(fs + [f]) <==> HasTop(fs) || IsTop(f)
    ensures TopEnds(fs + [f]) <==> TopEnds(fs) && (HasTop(fs) ==> !ChecksumOk(f))
  {
    var gs := fs + [f];
    assert gs[|fs|] == f;
    forall i | 0 <= i < |fs| ensures gs[i] == fs[i] {}
    if TopEnds(fs) && (HasTop(fs) ==> !ChecksumOk(f)) {
      forall i, j | 0 <= i < j < |gs| && IsTop(gs[i]) ensures !ChecksumOk(gs[j]) {
        if j < |fs| { assert IsTop(fs[i]); }
      }
    }
    if TopEnds(gs) {
      forall i, j | 0 <= i < j < |fs|
        && IsTop(fs[i]) ensures !ChecksumOk(fs[j]) { assert IsTop(gs[i]) && gs[j] == fs[j]; }
      if HasTop(fs) {
        var i :| 0 <= i < |fs| && IsTop(fs[i]);
        assert IsTop(gs[i]);
      }
    }
  }

  // What the exchange accepted against the frames that came in.
  ghost predicate Tracks(x: Exchange, fs: seq<seq<byte>>)
    requires AllFrames(fs)
  {
    && ExchangeOk(x) && x.expected < U64
    && (NoWrap(x.accepted) <==> TopEnds(fs))
    && (HasTop(fs) <==> exists i :: 0 <= i < |x.accepted| && x.accepted[i].seqNo == U64 - 1)
  }

  lemma {:induction false} AcceptTracks(x: Exchange, fs: seq<seq<byte>>, f: seq<byte>)
    requires AllFrames(fs) && Tracks(x, fs) && |f| == ORDER
    requires ChecksumOk(f) && Decode(f).seqNo >= x.expected
    ensures AllFrames(fs + [f]) && Tracks(OnFrame(x, f), fs + [f])
  {
    TopSnoc(fs, f);
    FrameKeepsOk(x, f);
    var os, o := x.accepted, Decode(f);
    var os' := os + [o];
    assert OnFrame(x, f).accepted == os' && os'[|os|] == o;
    forall i | 0 <= i < |os| ensures os'[i] == os[i] {}
    assert NoWrap(os') <==> forall i :: 0 <= i < |os| ==> os[i].seqNo != U64 - 1;
  }

  lemma {:induction false} TopIsLast(os: seq<Order>)
    requires NoWrap(os) && exists i :: 0 <= i < |os| && os[i].seqNo == U64 - 1
    ensures os[|os| - 1].seqNo == U64 - 1
  {
    var i :| 0 <= i < |os| && os[i].seqNo == U64 - 1;
  }

  lemma {:induction false} RefuseTracks(x: Exchange, fs: seq<seq<byte>>, f: seq<byte>)
    requires AllFrames(fs) && Tracks(x, fs) && |f| == ORDER
    requires !ChecksumOk(f) || Decode(f).seqNo < x.expected
    ensures AllFrames(fs + [f]) && Tracks(OnFrame(x, f), fs + [f])
  {
    TopSnoc(fs, f);
    FrameKeepsOk(x, f);
    if HasTop(fs) && TopEnds(fs) { TopIsLast(x.accepted); }
  }

  lemma {:induction false} FramesTracked(fs: seq<seq<byte>>)
    requires AllFrames(fs)
    ensures Tracks(OnFrames(CONNECTED, fs), fs)
  {
    if fs != [] {
      var init, f := fs[..|fs| - 1], fs[|fs| - 1];
      FramesTracked(init);
      assert init + [f] == fs;
      var x := OnFrames(CONNECTED, init);
      if ChecksumOk(f) && Decode(f).seqNo >= x.expected { AcceptTracks(x, init, f); } else { RefuseTracks(x, init, f); }
    }
  }

  // For any frames at all, good or bad, accepted sequence numbers strictly increase if and only if no
  // frame that passes the checksum follows one with the number 2^64 - 1.
  lemma {:induction false} AcceptedIncreaseIff(fs: seq<seq<byte>>)
    requires AllFrames(fs)
    ensures Increasing(OnFrames(CONNECTED, fs).accepted) <==> TopEnds(fs)
  {
    FramesTracked(fs);
  }

  // And they do fail to: after the last number the expected one is zero again, and the exchange accepts
  // any order it is sent.
  lemma {:induction false} WrapAccepts(o: Order, o': Order)
    requires OrderOk(o) && OrderOk(o') && o.seqNo == U64 - 1
    ensures OnFrames(CONNECTED, [Encode(o), Encode(o')]).accepted == [o, o'] && !Increasing([o, o'])
  {
    RoundTrip(o);
    RoundTrip(o');
    OnTwoFrames(CONNECTED, Encode(o), Encode(o'));
    var x := OnFrame(CONNECTED, Encode(o));
    assert x.accepted == [] + [o] && x.expected == 0;
    assert OnFrame(x, Encode(o')).accepted == x.accepted + [o'] == [o, o'];
    assert [o, o'][0].seqNo >= [o, o'][1].seqNo;
  }

  lemma {:induction false} OnTwoFrames(x: Exchange, f: seq<byte>, f': seq<byte>)
    requires |f| == |f'| == ORDER
    ensures OnFrames(x, [f, f']) == OnFrame(OnFrame(x, f), f')
  {
    var fs := [f, f'];
    assert AllFrames(fs) && AllFrames([f]);
    assert fs[..1] == [f] && [f][..0] == [];
    assert OnFrames(x, [f]) == OnFrame(OnFrames(x, []), f);
  }

  lemma {:induction false} SeqNoBound(f: seq<byte>)
    requires |f| == ORDER
    ensures Decode(f).seqNo < U64
  {
    Widths();
    LeBound(f[16..24]);
  }

  // ---------- the sender ----------

  // An order of the ring, with the time it is stamped with when it is taken up.
  datatype RingOrder = RingOrder(symbol: nat, side: byte, price: nat, qty: nat, sendTs: nat)

  predicate RingOk(ring: seq<RingOrder>) {
    && |ring| < U64 - 1
    && forall i :: 0 <= i < |ring| ==>
                     ring[i].symbol < U16 && ring[i].qty < U32 && ring[i].price < U32 && ring[i].sendTs < U64
  }

  // The wire order for a ring order; quantity zero is a cancel.
  function Message(o: RingOrder, seqNo: nat): Order {
    Order(if o.qty == 0 then MSG_CANCEL else MSG_NEW, o.side, o.symbol, o.qty, o.price, seqNo, o.sendTs)
  }

  // A connection: the ring position it started at, the bytes written to it, and how many whole frames
  // and bytes of the next one they are.
  datatype Connection = Connection(first: nat, whole: nat, part: nat, bytes: seq<byte>)

  // order_sender_thread over TCP: the ring read cursor, how much of the current frame is written, the
  // next sequence number and every connection so far, the last one open.
  datatype Sender = Sender(read: nat, off: nat, nextSeq: nat, conns: seq<Connection>)

  // What send() may do: take some bytes, ask to try again, or fail, upon which the thread reconnects.
  datatype SendResult = Wrote(k: nat) | Again | Failed

  // The frame of ring order i under sequence number k. What the connections carry does not depend on
  // what the frames say, only on their length.
  type Encoder = (nat, nat) -> seq<byte>

  ghost predicate EncoderOk(enc: Encoder) { forall i, k :: |enc(i, k)| == ORDER }

  // More bytes on the open connection.
  function Extend(conns: seq<Connection>, b: seq<byte>): (r: seq<Connection>)
    requires conns != []
    ensures |r| == |conns|
  {
    conns[|conns| - 1 := More(conns[|conns| - 1], b)]
  }

  function More(c: Connection, b: seq<byte>): Connection {
    if c.part + |b| == ORDER then c.(whole := c.whole + 1, part := 0, bytes := c.bytes + b)
    else c.(part := c.part + |b|, bytes := c.bytes + b)
  }

  // One outcome of send() while `n` orders are in the ring.
  function SendStep(enc: Encoder, n: nat, s: Sender, r: SendResult): Sender
    requires s.conns != [] && s.off < ORDER
  {
    if s.read >= n then s
    else
      match r
      case Again => s
      case Failed => Sender(s.read, 0, 1, s.conns + [Connection(s.read, 0, 0, [])])
      case Wrote(k) =>
        if k == 0 || s.off + k > ORDER || |enc(s.read, s.nextSeq)| != ORDER then s
        else
          var conns := Extend(s.conns, enc(s.read, s.nextSeq)[s.off..s.off + k]);
          if s.off + k == ORDER then Sender(s.read + 1, 0, s.nextSeq + 1, conns)
          else Sender(s.read, s.off + k, s.nextSeq, conns)
  }

  const START: Sender := Sender(0, 0, 1, [Connection(0, 0, 0, [])])

  // ---------- frames back to back ----------

  function Join(fs: seq<seq<byte>>): (b: seq<byte>)
    requires AllFrames(fs)
    ensures |b| == ORDER * |fs|
  {
    if fs == [] then [] else Join(fs[..|fs| - 1]) + fs[|fs| - 1]
  }

  lemma {:induction false} JoinSnoc(fs: seq<seq<byte>>, f: seq<byte>)
    requires AllFrames(fs) && |f| == ORDER
    ensures AllFrames(fs + [f]) && Join(fs + [f]) == Join(fs) + f
  {}

  lemma {:induction false} JoinFrames(fs: seq<seq<byte>>)
    requires AllFrames(fs)
    ensures Frames(Join(fs), ORDER, ANY) == fs && Rest(Join(fs), ORDER, ANY) == []
  {
    if fs != [] {
      var init, f := fs[..|fs| - 1], fs[|fs| - 1];
      JoinFrames(init);
      FramesConcat(Join(init), f, ORDER, ANY);
      assert [] + f == f && f[..ORDER] == f && f[ORDER..] == [];
    }
  }

  lemma {:induction false} JoinPrefix(fs: seq<seq<byte>>, n: nat)
    requires AllFrames(fs) && n <= |fs|
    ensures Join(fs[..n]) == Join(fs)[..ORDER * n]
  {
    if n == |fs| {
      assert fs[..n] == fs;
    } else {
      JoinPrefix(fs[..|fs| - 1], n);
      assert fs[..|fs| - 1][..n] == fs[..n];
    }
  }

  lemma {:induction false} WholeThenPart(fs: seq<seq<byte>>, tail: seq<byte>)
    requires AllFrames(fs) && |tail| < ORDER
    ensures Frames(Join(fs) + tail, ORDER, ANY) == fs
  {
    JoinFrames(fs);
    FramesConcat(Join(fs), tail, ORDER, ANY);
    assert [] + tail == tail;
  }

  lemma {:induction false} CutJoin(fs: seq<seq<byte>>, part: seq<byte>, n: nat, d: nat)
    requires AllFrames(fs) && n <= |fs| && ORDER * n <= d <= ORDER * |fs| + |part|
    ensures (Join(fs) + part)[..d] == Join(fs[..n]) + (Join(fs) + part)[ORDER * n..d]
  {
    JoinPrefix(fs, n);
    PrefixCut(Join(fs), part, ORDER * n, d);
  }

  lemma {:induction false} PrefixCut<T>(a: seq<T>, b: seq<T>, k: nat, d: nat)
    requires k <= |a| && k <= d <= |a| + |b|
    ensures (a + b)[..d] == a[..k] + (a + b)[k..d]
  {}

  // ANY prefix of joined frames and a partial one decodes to the frames it holds whole.
  lemma {:induction false} PrefixFrames(fs: seq<seq<byte>>, part: seq<byte>, d: nat)
    requires AllFrames(fs) && |part| < ORDER && d <= ORDER * |fs| + |part|
    ensures d / ORDER <= |fs| && Frames((Join(fs) + part)[..d], ORDER, ANY) == fs[..d / ORDER]
  {
    var n := d / ORDER;
    CutJoin(fs, part, n, d);
    WholeThenPart(fs[..n], (Join(fs) + part)[ORDER * n..d]);
  }

  // Writing the next `k` bytes of `f` behind its first `p`.
  lemma {:induction false} WriteMore(bytes: seq<byte>, fs: seq<seq<byte>>, f: seq<byte>, p: nat, k: nat)
    requires AllFrames(fs) && |f| == ORDER && p + k <= ORDER && bytes == Join(fs) + f[..p]
    ensures bytes + f[p..p + k] == Join(fs) + f[..p + k]
    ensures p + k == ORDER ==> AllFrames(fs + [f]) && bytes + f[p..p + k] == Join(fs + [f])
  {
    assert f[..p] + f[p..p + k] == f[..p + k];
    if p + k == ORDER {
      assert f[..ORDER] == f;
      JoinSnoc(fs, f);
    }
  }

  // ---------- what the connections carry ----------

  // The frames of `m` orders of the ring from position `a`, numbered from 1.
  ghost function Encodings(enc: Encoder, a: nat, m: nat): (fs: seq<seq<byte>>)
    requires EncoderOk(enc)
    ensures AllFrames(fs) && |fs| == m
  {
    seq(m, i requires 0 <= i < m => enc(a + i, i + 1))
  }

  // A connection carries whole frames of consecutive ring orders, then part of the next one.
  ghost predicate ConnOk(enc: Encoder, n: nat, c: Connection)
    requires EncoderOk(enc)
  {
    && c.first + c.whole <= n && c.part < ORDER && (c.part > 0 ==> c.first + c.whole < n)
    && c.bytes == Join(Encodings(enc, c.first, c.whole)) + enc(c.first + c.whole, c.whole + 1)[..c.part]
  }

  // Each connection starts at the first order the one before it did not finish.
  ghost predicate Chained(conns: seq<Connection>) {
    forall j :: 0 < j < |conns| ==> conns[j].first == conns[j - 1].first + conns[j - 1].whole
  }

  ghost predicate ConnsOk(enc: Encoder, n: nat, conns: seq<Connection>)
    requires EncoderOk(enc)
  {
    Chained(conns) && forall j :: 0 <= j < |conns| ==> ConnOk(enc, n, conns[j])
  }

  ghost predicate SenderOk(enc: Encoder, n: nat, s: Sender)
    requires EncoderOk(enc)
  {
    && s.conns != [] && s.conns[0].first == 0 && ConnsOk(enc, n, s.conns) && s.off < ORDER && s.read <= n
    && var last := s.conns[|s.conns| - 1];
       s.read == last.first + last.whole && s.off == last.part && s.nextSeq == last.whole + 1
  }

  lemma {:induction false} WriteToConn(enc: Encoder, n: nat, c: Connection, k: nat)
    requires EncoderOk(enc) && ConnOk(enc, n, c) && c.first + c.whole < n && k > 0 && c.part + k <= ORDER
    ensures ConnOk(enc, n, More(c, enc(c.first + c.whole, c.whole + 1)[c.part..c.part + k]))
  {
    var fs, f := Encodings(enc, c.first, c.whole), enc(c.first + c.whole, c.whole + 1);
    WriteMore(c.bytes, fs, f, c.part, k);
    if c.part + k == ORDER { assert fs + [f] == Encodings(enc, c.first, c.whole + 1); }
  }

  lemma {:induction false} SnocConn(enc: Encoder, n: nat, conns: seq<Connection>, c: Connection)
    requires EncoderOk(enc) && ConnsOk(enc, n, conns) && conns != [] && ConnOk(enc, n, c)
    requires c.first == conns[|conns| - 1].first + conns[|conns| - 1].whole
    ensures ConnsOk(enc, n, conns + [c])
  {}

  lemma {:induction false} ExtendLast(enc: Encoder, n: nat, conns: seq<Connection>, b: seq<byte>)
    requires EncoderOk(enc) && ConnsOk(enc, n, conns) && conns != [] && ConnOk(enc, n, More(conns[|conns| - 1], b))
    ensures ConnsOk(enc, n, Extend(conns, b)) && Extend(conns, b)[0].first == conns[0].first
    ensures Extend(conns, b)[|conns| - 1] == More(conns[|conns| - 1], b)
  {}

  lemma {:induction false} EmptyConn(enc: Encoder, n: nat, a: nat)
    requires EncoderOk(enc) && a <= n
    ensures ConnOk(enc, n, Connection(a, 0, 0, []))
  {}

  // The last connection is sound, and the sender is where it left off.
  lemma {:induction false} OpenConn(enc: Encoder, n: nat, s: Sender)
    requires EncoderOk(enc) && SenderOk(enc, n, s)
    ensures var last := s.conns[|s.conns| - 1];
            && ConnOk(enc, n, last) && s.read == last.first + last.whole && s.off == last.part
            && s.nextSeq == last.whole + 1
  {}

  // What is written next goes to the open connection, behind what it carries.
  lemma {:induction false} WroteLast(enc: Encoder, n: nat, s: Sender, last: Connection, k: nat)
    requires EncoderOk(enc) && ConnOk(enc, n, last) && s.read < n && k > 0 && s.off + k <= ORDER
    requires s.read == last.first + last.whole && s.off == last.part && s.nextSeq == last.whole + 1
    ensures ConnOk(enc, n, More(last, enc(s.read, s.nextSeq)[s.off..s.off + k]))
  {
    WriteToConn(enc, n, last, k);
  }

  // Writing to the open connection keeps all of them in order.
  lemma {:induction false} WroteConns(enc: Encoder, n: nat, s: Sender, k: nat)
    requires EncoderOk(enc) && SenderOk(enc, n, s) && s.read < n && k > 0 && s.off + k <= ORDER
    ensures var last, b := s.conns[|s.conns| - 1], enc(s.read, s.nextSeq)[s.off..s.off + k];
            var conns := Extend(s.conns, b);
            ConnsOk(enc, n, conns) && conns[0].first == 0 && conns[|conns| - 1] == More(last, b)
  {
    OpenConn(enc, n, s);
    WroteLast(enc, n, s, s.conns[|s.conns| - 1], k);
    ExtendLast(enc, n, s.conns, enc(s.read, s.nextSeq)[s.off..s.off + k]);
  }

  // The sender's cursors follow the open connection.
  lemma {:induction false} WroteSender(enc: Encoder, n: nat, s: Sender, last: Connection, k: nat)
    requires EncoderOk(enc) && s.conns != [] && s.read < n && 0 < k && s.off + k <= ORDER
    requires s.read == last.first + last.whole && s.off == last.part && s.nextSeq == last.whole + 1
    requires var b := enc(s.read, s.nextSeq)[s.off..s.off + k];
             var conns := Extend(s.conns, b);
             ConnsOk(enc, n, conns) && conns[0].first == 0 && conns[|conns| - 1] == More(last, b)
    ensures SenderOk(enc, n, SendStep(enc, n, s, Wrote(k)))
  {
    WroteFields(enc, n, s, k);
  }

  lemma {:induction false} WroteKeepsOk(enc: Encoder, n: nat, s: Sender, k: nat)
    requires EncoderOk(enc) && SenderOk(enc, n, s) && s.read < n && k > 0 && s.off + k <= ORDER
    ensures SenderOk(enc, n, SendStep(enc, n, s, Wrote(k)))
  {
    WroteConns(enc, n, s, k);
    WroteSender(enc, n, s, s.conns[|s.conns| - 1], k);
  }

  lemma {:induction false} WroteFields(enc: Encoder, n: nat, s: Sender, k: nat)
    requires EncoderOk(enc) && s.conns != [] && s.read < n && k > 0 && s.off + k <= ORDER
    ensures var t, b := SendStep(enc, n, s, Wrote(k)), enc(s.read, s.nextSeq)[s.off..s.off + k];
            && t.conns == Extend(s.conns, b) && |b| == k
            && t == if s.off + k == ORDER then Sender(s.read + 1, 0, s.nextSeq + 1, t.conns)
                    else Sender(s.read, s.off + k, s.nextSeq, t.conns)
  {}

  // Whatever send() does, every connection keeps to whole frames of consecutive ring orders, and the
  // next connection takes up exactly the order the last one did not finish.
  lemma {:induction false} SendKeepsOk(enc: Encoder, n: nat, s: Sender, r: SendResult)
    requires EncoderOk(enc) && SenderOk(enc, n, s)
    ensures SenderOk(enc, n, SendStep(enc, n, s, r))
  {
    if s.read < n && r.Wrote? && r.k > 0 && s.off + r.k <= ORDER {
      WroteKeepsOk(enc, n, s, r.k);
    } else if s.read < n && r.Failed? {
      EmptyConn(enc, n, s.read);
      SnocConn(enc, n, s.conns, Connection(s.read, 0, 0, []));
    }
  }

  function SendAll(enc: Encoder, n: nat, results: seq<SendResult>): (s: Sender)
    ensures s.conns != [] && s.off < ORDER
  {
    if results == [] then START
    else SendStep(enc, n, SendAll(enc, n, results[..|results| - 1]), results[|results| - 1])
  }

  lemma {:induction false} SendAllOk(enc: Encoder, n: nat, results: seq<SendResult>)
    requires EncoderOk(enc)
    ensures SenderOk(enc, n, SendAll(enc, n, results))
  {
    if results == [] {
      EmptyConn(enc, n, 0);
    } else {
      SendAllOk(enc, n, results[..|results| - 1]);
      SendKeepsOk(enc, n, SendAll(enc, n, results[..|results| - 1]), results[|results| - 1]);
    }
  }

  // ---------- delivery ----------

  // The encoder of a ring.
  function RingEncoder(ring: seq<RingOrder>): Encoder {
    (i: nat, k: nat) => FrameFor(ring, i, k)
  }

  function FrameFor(ring: seq<RingOrder>, i: nat, k: nat): (f: seq<byte>)
    ensures |f| == ORDER
  {
    Encode(if i < |ring| then Message(ring[i], k) else Order(0, 0, 0, 0, 0, k, 0))
  }

  // What the exchange makes of the first n frames of a connection opened at position a.
  function Messages(ring: seq<RingOrder>, a: nat, n: nat): (os: seq<Order>)
    requires a + n <= |ring|
    ensures |os| == n
  {
    if n == 0 then [] else Messages(ring, a, n - 1) + [Message(ring[a + n - 1], n)]
  }

  function OkAcks(n: nat): seq<Ack> {
    if n == 0 then [] else OkAcks(n - 1) + [Ack(n, Ok)]
  }

  lemma {:induction false} AcceptNext(x: Exchange, o: Order)
    requires OrderOk(o) && o.seqNo == x.expected && o.seqNo + 1 < U64
    ensures OnFrame(x, Encode(o)) == Exchange(o.seqNo + 1, x.accepted + [o], x.acks + [Ack(o.seqNo, Ok)])
  {
    RoundTrip(o);
    assert x.acks + [] == x.acks;
  }

  lemma {:induction false} AcceptRingOrder(x: Exchange, ring: seq<RingOrder>, i: nat, n: nat)
    requires RingOk(ring) && i < |ring| && x.expected == n <= |ring|
    ensures OnFrame(x, FrameFor(ring, i, n))
            == Exchange(n + 1, x.accepted + [Message(ring[i], n)], x.acks + [Ack(n, Ok)])
  {
    AcceptNext(x, Message(ring[i], n));
  }

  lemma {:induction false} OnFramesSnoc(x: Exchange, fs: seq<seq<byte>>, f: seq<byte>)
    requires AllFrames(fs) && |f| == ORDER
    ensures AllFrames(fs + [f]) && OnFrames(x, fs + [f]) == OnFrame(OnFrames(x, fs), f)
  {}

  lemma {:induction false} EncodingsSnoc(enc: Encoder, a: nat, n: nat)
    requires EncoderOk(enc) && n > 0
    ensures Encodings(enc, a, n) == Encodings(enc, a, n - 1) + [enc(a + n - 1, n)]
  {}

  // The exchange accepts consecutive numbered frames one and all, with an OK for each.
  lemma {:induction false} AcceptsAll(ring: seq<RingOrder>, enc: Encoder, a: nat, n: nat)
    requires RingOk(ring) && a + n <= |ring| && EncoderOk(enc) && enc == RingEncoder(ring)
    ensures OnFrames(CONNECTED, Encodings(enc, a, n)) == Exchange(n + 1, Messages(ring, a, n), OkAcks(n))
  {
    if n > 0 {
      var fs, f := Encodings(enc, a, n - 1), FrameFor(ring, a + n - 1, n);
      assert Encodings(enc, a, n) == fs + [f] by { EncodingsSnoc(enc, a, n); }
      assert OnFrames(CONNECTED, fs) == Exchange(n, Messages(ring, a, n - 1), OkAcks(n - 1)) by {
        AcceptsAll(ring, enc, a, n - 1);
      }
      AcceptMore(ring, fs, a, n);
    }
  }

  lemma {:induction false} AcceptMore(ring: seq<RingOrder>, fs: seq<seq<byte>>, a: nat, n: nat)
    requires RingOk(ring) && 0 < n && a + n <= |ring| && AllFrames(fs)
    requires OnFrames(CONNECTED, fs) == Exchange(n, Messages(ring, a, n - 1), OkAcks(n - 1))
    ensures var f := FrameFor(ring, a + n - 1, n);
            AllFrames(fs + [f]) && OnFrames(CONNECTED, fs + [f]) == Exchange(n + 1, Messages(ring, a, n), OkAcks(n))
  {
    OnFramesSnoc(CONNECTED, fs, FrameFor(ring, a + n - 1, n));
    AcceptRingOrder(Exchange(n, Messages(ring, a, n - 1), OkAcks(n - 1)), ring, a + n - 1, n);
  }

  // What the exchange makes of any delivered prefix of a connection: exactly the orders whose frames
  // arrived whole, numbered from 1, and only OK acks.
  lemma {:induction false} ConnectionAccepts(ring: seq<RingOrder>, c: Connection, d: nat)
    requires RingOk(ring) && ConnOk(RingEncoder(ring), |ring|, c) && d <= |c.bytes|
    ensures d / ORDER <= c.whole && c.first + c.whole <= |ring|
    ensures Session(c.bytes[..d]) == Exchange(d / ORDER + 1, Messages(ring, c.first, d / ORDER), OkAcks(d / ORDER))
  {
    var enc := RingEncoder(ring);
    var fs := Encodings(enc, c.first, c.whole);
    PrefixFrames(fs, enc(c.first + c.whole, c.whole + 1)[..c.part], d);
    assert fs[..d / ORDER] == Encodings(enc, c.first, d / ORDER);
    AcceptsAll(ring, enc, c.first, d / ORDER);
  }

  ghost predicate Delivered(conns: seq<Connection>, ds: seq<nat>) {
    |ds| == |conns| && forall j :: 0 <= j < |conns| ==> ds[j] <= |conns[j].bytes|
  }

  // All connections one after the other, of each a prefix of the given length delivered.
  ghost function Accepted(conns: seq<Connection>, ds: seq<nat>): seq<Order>
    requires Delivered(conns, ds)
  {
    if conns == [] then []
    else
      var k := |conns| - 1;
      Accepted(conns[..k], ds[..k]) + Session(conns[k].bytes[..ds[k]]).accepted
  }

  function Range(a: nat, n: nat): (r: seq<nat>)
    ensures |r| == n && forall i :: 0 <= i < n ==> r[i] == a + i
  {
    if n == 0 then [] else Range(a, n - 1) + [a + n - 1]
  }

  // The ring positions of the orders whose frames arrived whole.
  function Positions(conns: seq<Connection>, ds: seq<nat>): seq<nat>
    requires |ds| == |conns|
  {
    if conns == [] then []
    else
      var k := |conns| - 1;
      Positions(conns[..k], ds[..k]) + Range(conns[k].first, ds[k] / ORDER)
  }

  // Accepted order i is ring order ps[i], whatever number it went by.
  ghost predicate Matches(ring: seq<RingOrder>, os: seq<Order>, ps: seq<nat>) {
    |os| == |ps| && forall i :: 0 <= i < |os| ==> ps[i] < |ring| && os[i] == Message(ring[ps[i]], os[i].seqNo)
  }

  ghost predicate Ascending(ps: seq<nat>) { forall i, j :: 0 <= i < j < |ps| ==> ps[i] < ps[j] }

  ghost predicate Below(ps: seq<nat>, n: nat) { forall i :: 0 <= i < |ps| ==> ps[i] < n }

  lemma {:induction false} MessagesMatch(ring: seq<RingOrder>, a: nat, n: nat)
    requires a + n <= |ring|
    ensures Matches(ring, Messages(ring, a, n), Range(a, n))
  {
    if n > 0 { MessagesMatch(ring, a, n - 1); }
  }

  lemma {:induction false} MatchesConcat(ring: seq<RingOrder>, os: seq<Order>, ps: seq<nat>, os': seq<Order>,
                                         ps': seq<nat>)
    requires Matches(ring, os, ps) && Matches(ring, os', ps')
    ensures Matches(ring, os + os', ps + ps')
  {}

  lemma {:induction false} AscendingConcat(ps: seq<nat>, bound: nat, a: nat, n: nat)
    requires Ascending(ps) && Below(ps, bound) && bound <= a
    ensures Ascending(ps + Range(a, n)) && Below(ps + Range(a, n), a + n)
  {}

  // Across any reconnects the exchange accepts orders of the ring in ring order, each at most once.
  lemma {:induction false} RingOrderAtMostOnce(ring: seq<RingOrder>, conns: seq<Connection>, ds: seq<nat>)
    requires RingOk(ring) && ConnsOk(RingEncoder(ring), |ring|, conns) && Delivered(conns, ds)
    ensures Matches(ring, Accepted(conns, ds), Positions(conns, ds)) && Ascending(Positions(conns, ds))
    ensures conns != [] ==> Below(Positions(conns, ds), conns[|conns| - 1].first + conns[|conns| - 1].whole)
  {
    if conns != [] {
      var k := |conns| - 1;
      var c, n := conns[k], ds[k] / ORDER;
      RingOrderAtMostOnce(ring, conns[..k], ds[..k]);
      ConnectionAccepts(ring, c, ds[k]);
      MessagesMatch(ring, c.first, n);
      MatchesConcat(ring, Accepted(conns[..k], ds[..k]), Positions(conns[..k], ds[..k]),
                    Messages(ring, c.first, n), Range(c.first, n));
      AscendingConcat(Positions(conns[..k], ds[..k]), if k == 0 then 0 else c.first, c.first, n);
    }
  }

  // The whole order path: for any outcomes of send() and any part of each connection delivered, the
  // exchange accepts ring orders in ring order, each at most once.
  lemma {:induction false} Delivery(ring: seq<RingOrder>, results: seq<SendResult>, ds: seq<nat>)
    requires RingOk(ring) && Delivered(SendAll(RingEncoder(ring), |ring|, results).conns, ds)
    ensures var conns := SendAll(RingEncoder(ring), |ring|, results).conns;
            Matches(ring, Accepted(conns, ds), Positions(conns, ds)) && Ascending(Positions(conns, ds))
  {
    SendAllOk(RingEncoder(ring), |ring|, results);
    RingOrderAtMostOnce(ring, SendAll(RingEncoder(ring), |ring|, results).conns, ds);
  }

  // Within one unbroken connection, fully delivered, the exchange accepts exactly the orders sent, with
  // numbers 1 to n and only OK acks.
  lemma {:induction false} UnbrokenSession(ring: seq<RingOrder>, results: seq<SendResult>)
    requires RingOk(ring) && |SendAll(RingEncoder(ring), |ring|, results).conns| == 1
    ensures var s := SendAll(RingEncoder(ring), |ring|, results);
            s.read <= |ring|
            && Session(s.conns[0].bytes) == Exchange(s.read + 1, Messages(ring, 0, s.read), OkAcks(s.read))
  {
    SendAllOk(RingEncoder(ring), |ring|, results);
    var c := SendAll(RingEncoder(ring), |ring|, results).conns[0];
    ConnectionAccepts(ring, c, |c.bytes|);
    WholeFrames(RingEncoder(ring), |ring|, c);
    assert c.bytes[..|c.bytes|] == c.bytes;
  }

  lemma {:induction false} WholeFrames(enc: Encoder, n: nat, c: Connection)
    requires EncoderOk(enc) && ConnOk(enc, n, c)
    ensures |c.bytes| / ORDER == c.whole
  {
    assert |c.bytes| == ORDER * c.whole + c.part;
  }
}
