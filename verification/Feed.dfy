/** The exchange's packetisers: an ITCH file, itself a run of message blocks, cut into numbered
    MoldUDP64 packets. */
module Feed {
  import opened Bytes
  import opened Mold

  const BUF: nat := 65536

  // The messages bulk_feed gets to send: it stops for good at the first message that fits no packet.
  function Sendable(data: seq<byte>): seq<Msg> {
    if |data| < 2 || 2 + SizeAt(data) > |data| || SizeAt(data) > MAX_MSG then []
    else [data[2..2 + SizeAt(data)]] + Sendable(data[2 + SizeAt(data)..])
  }

  // No message can be cut from the front of `data` before more bytes arrive.
  predicate Stuck(data: seq<byte>) {
    |data| < 2 || 2 + SizeAt(data) > |data| || SizeAt(data) > MAX_MSG
  }

  // Sendable is the longest prefix of the file's messages in which every message fits a packet.
  lemma {:induction false} SendablePrefix(data: seq<byte>)
    ensures Sendable(data) <= Unpack(data)
    ensures forall m :: m in Sendable(data) ==> |m| <= MAX_MSG
    ensures |Sendable(data)| < |Unpack(data)| ==> |Unpack(data)[|Sendable(data)|]| > MAX_MSG
    decreases |data|
  {
    if !Stuck(data) { SendablePrefix(data[2 + SizeAt(data)..]); }
  }

  // So the whole file is sent if and only if every complete message in it fits a packet.
  lemma {:induction false} SendsAllIff(file: seq<byte>)
    ensures Sendable(file) == Unpack(file) <==> forall m :: m in Unpack(file) ==> |m| <= MAX_MSG
  {
    SendablePrefix(file);
    if |Sendable(file)| < |Unpack(file)| {
      assert Unpack(file)[|Sendable(file)|] in Unpack(file);
    }
  }

  // It is not sent whole when the next message fits no packet: that message and all after it stay behind.
  lemma {:induction false} OversizeStops(m: Msg, rest: seq<byte>)
    requires MAX_MSG < |m| < U16
    ensures Sendable(Block(m) + rest) == [] && Unpack(Block(m) + rest) == [m] + Unpack(rest)
  {
    BlockFront(m, rest);
  }

  // A front that is stuck with all bytes read, or with a full buffer, yields nothing more.
  lemma {:induction false} StuckForGood(front: seq<byte>, unread: seq<byte>)
    requires Stuck(front) && (unread == [] || |front| == BUF)
    ensures Sendable(front + unread) == []
  {}

  // How many times bulk_feed sends a packet: not at all, once or twice, by its sequence number.
  function Copies(p: Packet, dropEvery: nat, dupEvery: nat): nat {
    if dropEvery > 0 && p.start % dropEvery == 0 then 0
    else if dupEvery > 0 && p.start % dupEvery == 0 then 2 else 1
  }

  function Repeat(p: Packet, n: nat): seq<Packet> {
    if n == 0 then [] else Repeat(p, n - 1) + [p]
  }

  function TransmitBy(pk: seq<Packet>, copies: Packet -> nat): seq<Packet> {
    if pk == [] then [] else TransmitBy(pk[..|pk| - 1], copies) + Repeat(pk[|pk| - 1], copies(pk[|pk| - 1]))
  }

  // The datagrams bulk_feed puts on the wire for the packets it cuts and caches.
  function Transmit(pk: seq<Packet>, dropEvery: nat, dupEvery: nat): seq<Packet> {
    TransmitBy(pk, p => Copies(p, dropEvery, dupEvery))
  }

  lemma {:induction false} RepeatCount(q: Packet, n: nat, p: Packet)
    ensures multiset(Repeat(q, n))[p] == if p == q then n else 0
  {
    if n > 0 { RepeatCount(q, n - 1, p); }
  }

  predicate NoneTwice(pk: seq<Packet>) { forall i, j :: 0 <= i < j < |pk| ==> pk[i] != pk[j] }

  lemma {:induction false} TransmitByCopies(pk: seq<Packet>, copies: Packet -> nat, p: Packet)
    requires NoneTwice(pk)
    ensures multiset(TransmitBy(pk, copies))[p] == if p in pk then copies(p) else 0
  {
    if pk != [] {
      var init, q := pk[..|pk| - 1], pk[|pk| - 1];
      TransmitByCopies(init, copies, p);
      RepeatCount(q, copies(q), p);
      assert pk == init + [q] && q !in init;
    }
  }

  // Of each packet of the cut the wire carries exactly its copies, and no other packet reaches it.
  lemma {:induction false} TransmitCopies(pk: seq<Packet>, first: nat, dropEvery: nat, dupEvery: nat, p: Packet)
    requires Cut(pk, first)
    ensures multiset(Transmit(pk, dropEvery, dupEvery))[p] == if p in pk then Copies(p, dropEvery, dupEvery) else 0
  {
    forall i, j | 0 <= i < j < |pk| ensures pk[i] != pk[j] { CutOrder(pk, first, i, j); }
    TransmitByCopies(pk, q => Copies(q, dropEvery, dupEvery), p);
  }

  lemma {:induction false} TransmitOnce(pk: seq<Packet>, copies: Packet -> nat)
    requires forall p :: copies(p) == 1
    ensures TransmitBy(pk, copies) == pk
  {
    if pk != [] {
      TransmitOnce(pk[..|pk| - 1], copies);
      assert Repeat(pk[|pk| - 1], 0) == [];
    }
  }

  // With nothing to drop or repeat the wire carries the packets as they are.
  lemma {:induction false} TransmitPlain(pk: seq<Packet>)
    ensures Transmit(pk, 0, 0) == pk
  {
    TransmitOnce(pk, p => Copies(p, 0, 0));
  }

  lemma {:induction false} TransmitConcat(a: seq<Packet>, b: seq<Packet>, copies: Packet -> nat)
    ensures TransmitBy(a + b, copies) == TransmitBy(a, copies) + TransmitBy(b, copies)
  {
    if b == [] {
      assert a + b == a;
    } else {
      var init := b[..|b| - 1];
      assert (a + b)[..|a + b| - 1] == a + init;
      TransmitConcat(a, init, copies);
    }
  }

  // Within the size and count bounds of the format: at most 1452 bytes, a count that is neither
  // the heartbeat's 0 nor the end of session's 0xFFFF.
  predicate InBounds(p: Packet) {
    HEADER + |p.body| <= PACKET_SIZE && 1 <= p.count <= MAX_PAYLOAD / 2 < END_OF_SESSION
  }

  lemma {:induction false} CutExtend(pk: seq<Packet>, first: nat, p: Packet)
    requires Cut(pk, first) && p.start == first + |Contents(pk)| && p.count == |Unpack(p.body)| >= 1
    ensures Cut(pk + [p], first) && Contents(pk + [p]) == Contents(pk) + Unpack(p.body)
  {
    var q := pk + [p];
    assert q[..|pk|] == pk;
    forall i | 0 <= i < |pk| ensures q[..i] == pk[..i] {}
  }

  predicate AllFit(msgs: seq<Msg>) { forall i :: 0 <= i < |msgs| ==> |msgs[i]| <= MAX_MSG }

  // Bytes that are message blocks yield exactly those messages first.
  lemma {:induction false} SendableBlocks(msgs: seq<Msg>, rest: seq<byte>)
    requires AllFit(msgs)
    ensures Sendable(Blocks(msgs) + rest) == msgs + Sendable(rest)
  {
    if msgs == [] {
      assert Blocks(msgs) + rest == rest;
    } else {
      var init, m := msgs[..|msgs| - 1], msgs[|msgs| - 1];
      calc {
        Sendable(Blocks(msgs) + rest);
        { assert Blocks(msgs) + rest == Blocks(init) + (Block(m) + rest); }
        Sendable(Blocks(init) + (Block(m) + rest));
        { SendableBlocks(init, Block(m) + rest); }
        init + Sendable(Block(m) + rest);
        { SendableFront(m, rest); }
        init + ([m] + Sendable(rest));
        { assert msgs == init + [m]; }
        msgs + Sendable(rest);
      }
    }
  }

  lemma {:induction false} SendableFront(m: Msg, rest: seq<byte>)
    requires |m| <= MAX_MSG
    ensures Sendable(Block(m) + rest) == [m] + Sendable(rest)
  {
    BlockFront(m, rest);
    var d := Block(m) + rest;
    assert d[2..2 + |m|] == m;
    assert d[2 + |m|..] == rest;
  }

  // The block at `at`, as it stands in the file.
  lemma {:induction false} BlockAt(w: seq<byte>, at: nat, m: Msg)
    requires at + 2 + |m| <= |w| && |m| == Word16(w, at) && m == w[at + 2..at + 2 + |m|]
    ensures Block(m) == w[at..at + 2 + |m|]
  {}

  lemma {:induction false} BlocksGrow(w: seq<byte>, from: nat, at: nat, msgs: seq<Msg>, m: Msg)
    requires from <= at && at + 2 + |m| <= |w| && w[from..at] == Blocks(msgs) && Block(m) == w[at..at + 2 + |m|]
    ensures w[from..at + 2 + |m|] == Blocks(msgs + [m])
  {}

  lemma {:induction false} BlockPlaced(front: seq<byte>, m: Msg, msgs: seq<Msg>)
    requires |front| >= HEADER && front[HEADER..] == Blocks(msgs)
    ensures (front + Block(m))[HEADER..] == Blocks(msgs + [m])
  {}

  // Copy one message, with its length, behind the blocks already in the packet.
  method AppendBlock(packet: array<byte>, used: nat, m: seq<byte>, ghost msgs: seq<Msg>)
    requires packet.Length == PACKET_SIZE && used + 2 + |m| <= MAX_PAYLOAD
    requires packet[HEADER..HEADER + used] == Blocks(msgs)
    modifies packet
    ensures packet[HEADER..HEADER + used + 2 + |m|] == Blocks(msgs + [m])
  {
    ghost var front := packet[..HEADER + used];
    assert front[HEADER..] == packet[HEADER..HEADER + used];
    CopyInto(packet, HEADER + used, Net16(|m|));
    CopyInto(packet, HEADER + used + 2, m);
    ghost var all := packet[..HEADER + used + 2 + |m|];
    Assoc(front, Net16(|m|), m);
    assert all == front + Block(m);
    BlockPlaced(front, m, msgs);
    assert all[HEADER..] == packet[HEADER..HEADER + used + 2 + |m|];
  }

  // Copy the message at `next`, which is complete and fits.
  method CopyNext(buf: array<byte>, ghost offset: nat, next: nat, size: nat, packet: array<byte>, used: nat,
                  ghost msgs: seq<Msg>, ghost w: seq<byte>) returns (ghost more: seq<Msg>)
    requires buf[..] == w && packet != buf && packet.Length == PACKET_SIZE && AllFit(msgs)
    requires offset <= next && next + 2 + size <= |w| && size == Word16(w, next) && used + 2 + size <= MAX_PAYLOAD
    requires w[offset..next] == Blocks(msgs) == packet[HEADER..HEADER + used]
    modifies packet
    ensures AllFit(more) && |more| == |msgs| + 1
    ensures w[offset..next + 2 + size] == Blocks(more) == packet[HEADER..HEADER + used + 2 + size]
  {
    var m := buf[next + 2..next + 2 + size];
    assert m == w[next + 2..next + 2 + size];
    more := msgs + [m];
    BlockAt(w, next, m);
    BlocksGrow(w, offset, next, msgs, m);
    FitMore(msgs, m);
    AppendBlock(packet, used, m, msgs);
  }

  lemma {:induction false} FitMore(msgs: seq<Msg>, m: Msg)
    requires AllFit(msgs) && |m| <= MAX_MSG
    ensures AllFit(msgs + [m])
  {}

  // With `used` bytes in a packet nothing more goes in: the next message is not complete, or does not fit.
  predicate NoRoomFor(used: nat, rest: seq<byte>) {
    |rest| < 2 || 2 + SizeAt(rest) > |rest| || used + 2 + SizeAt(rest) > MAX_PAYLOAD
  }

  // One packet: messages from buf[offset..n] as long as they are complete and fit.
  method FillPacket(buf: array<byte>, offset: nat, n: nat, packet: array<byte>)
    returns (next: nat, used: nat, count: nat, ghost msgs: seq<Msg>)
    requires offset <= n <= buf.Length && packet.Length == PACKET_SIZE && packet != buf
    modifies packet
    ensures offset <= next <= n && used <= MAX_PAYLOAD && count == |msgs|
    ensures buf[offset..next] == Blocks(msgs) == packet[HEADER..HEADER + used]
    ensures AllFit(msgs) && NoRoomFor(used, buf[next..n])
    ensures count == 0 ==> next == offset && used == 0
  {
    next, used, count, msgs := offset, 0, 0, [];
    ghost var w := buf[..];
    while next + 2 <= n
      invariant offset <= next <= n <= |w| && buf[..] == w && used <= MAX_PAYLOAD && count == |msgs|
      invariant w[offset..next] == Blocks(msgs) == packet[HEADER..HEADER + used]
      invariant AllFit(msgs)
      invariant count == 0 ==> used == 0
    {
      var size := Word16(buf[next..next + 2], 0);
      assert size == Word16(w, next) == SizeAt(buf[next..n]);
      if next + 2 + size > n || used + 2 + size > MAX_PAYLOAD { break; }
      msgs := CopyNext(buf, offset, next, size, packet, used, msgs, w);
      next, used, count := next + 2 + size, used + 2 + size, count + 1;
    }
    assert buf[offset..next] == w[offset..next];
  }

  // The header goes in front of the blocks; the datagram is what sendto is given.
  method Finish(packet: array<byte>, session: seq<byte>, p: Packet) returns (datagram: seq<byte>)
    requires packet.Length == PACKET_SIZE && |session| == 10 && HEADER + |p.body| <= PACKET_SIZE
    requires packet[HEADER..HEADER + |p.body|] == p.body
    modifies packet
    ensures datagram == Encode(session, p)
  {
    CopyInto(packet, 0, session + BeBytes(p.start, 8) + Net16(p.count));
    datagram := packet[..HEADER + |p.body|];
    assert packet[HEADER..HEADER + |p.body|] == p.body;
    assert datagram == packet[..HEADER] + packet[HEADER..HEADER + |p.body|];
  }

  function EncodeAll(session: seq<byte>, pk: seq<Packet>): seq<seq<byte>>
    requires |session| == 10
  {
    seq(|pk|, i requires 0 <= i < |pk| => Encode(session, pk[i]))
  }

  // The packets cut so far, and everything they have to satisfy.
  ghost predicate Good(pk: seq<Packet>) {
    Cut(pk, 1) && forall i :: 0 <= i < |pk| ==> InBounds(pk[i])
  }

  // Messages in a packet come out of it, and the packet is within bounds.
  lemma {:induction false} PacketHolds(start: nat, msgs: seq<Msg>)
    requires msgs != [] && AllFit(msgs) && |Blocks(msgs)| <= MAX_PAYLOAD
    ensures Unpack(Blocks(msgs)) == msgs && InBounds(Packet(start, |msgs|, Blocks(msgs)))
  {
    BlocksRoundTrip(msgs);
    BlocksSize(msgs);
  }

  lemma {:induction false} GoodSnoc(pk: seq<Packet>, p: Packet)
    requires Good(pk) && p.start == 1 + |Contents(pk)| && p.count == |Unpack(p.body)| && InBounds(p)
    ensures Good(pk + [p]) && Contents(pk + [p]) == Contents(pk) + Unpack(p.body)
  {
    CutExtend(pk, 1, p);
  }

  lemma {:induction false} GoodExtend(pk: seq<Packet>, msgs: seq<Msg>)
    requires Good(pk) && msgs != [] && AllFit(msgs) && |Blocks(msgs)| <= MAX_PAYLOAD
    ensures var p := Packet(1 + |Contents(pk)|, |msgs|, Blocks(msgs));
            Good(pk + [p]) && Contents(pk + [p]) == Contents(pk) + msgs
  {
    PacketHolds(1 + |Contents(pk)|, msgs);
    GoodSnoc(pk, Packet(1 + |Contents(pk)|, |msgs|, Blocks(msgs)));
  }

  lemma {:induction false} EncodeAllConcat(session: seq<byte>, a: seq<Packet>, b: seq<Packet>)
    requires |session| == 10
    ensures EncodeAll(session, a + b) == EncodeAll(session, a) + EncodeAll(session, b)
  {}

  lemma {:induction false} BlocksConcat(a: seq<Msg>, b: seq<Msg>)
    ensures Blocks(a + b) == Blocks(a) + Blocks(b)
  {
    if b == [] {
      assert a + b == a;
    } else {
      var init := b[..|b| - 1];
      assert (a + b)[..|a + b| - 1] == a + init;
      BlocksConcat(a, init);
    }
  }

  // The size of a packet's first message.
  ghost function FirstSize(p: Packet): nat { if Unpack(p.body) == [] then 0 else |Unpack(p.body)[0]| }

  // The first message of the next packet would not have fitted into this one.
  ghost predicate FullBefore(p: Packet, next: Packet) { |p.body| + 2 + FirstSize(next) > MAX_PAYLOAD }

  ghost predicate Tight(pk: seq<Packet>) { forall i :: 0 <= i < |pk| - 1 ==> FullBefore(pk[i], pk[i + 1]) }

  // The file is the blocks of what was cut so far, followed by `data`.
  ghost predicate Remains(file: seq<byte>, msgs: seq<Msg>, data: seq<byte>) {
    AllFit(msgs) && Blocks(msgs) + data == file
  }

  lemma {:induction false} RemainsStep(file: seq<byte>, done: seq<Msg>, msgs: seq<Msg>,
                    w: seq<byte>, a: nat, b: nat, n: nat, unread: seq<byte>)
    requires a <= b <= n <= |w| && w[a..b] == Blocks(msgs) && AllFit(msgs)
    requires Remains(file, done, w[a..n] + unread)
    ensures Remains(file, done + msgs, w[b..n] + unread)
  {
    BlocksConcat(done, msgs);
    assert w[a..n] == w[a..b] + w[b..n];
    Assoc(w[a..b], w[b..n], unread);
    Assoc(Blocks(done), w[a..b], w[b..n] + unread);
  }

  // When no more can be cut, exactly the sendable messages were.
  lemma {:induction false} RemainsEnd(file: seq<byte>, msgs: seq<Msg>, data: seq<byte>)
    requires Remains(file, msgs, data) && Sendable(data) == []
    ensures msgs == Sendable(file)
  {
    SendableBlocks(msgs, data);
  }

  lemma {:induction false} TransmitMore(session: seq<byte>, a: seq<Packet>, b: seq<Packet>, dropEvery: nat,
                                        dupEvery: nat)
    requires |session| == 10
    ensures EncodeAll(session, a + b) == EncodeAll(session, a) + EncodeAll(session, b)
    ensures EncodeAll(session, Transmit(a + b, dropEvery, dupEvery))
            == EncodeAll(session, Transmit(a, dropEvery, dupEvery))
              + EncodeAll(session, Transmit(b, dropEvery, dupEvery))
  {
    EncodeAllConcat(session, a, b);
    TransmitConcat(a, b, p => Copies(p, dropEvery, dupEvery));
    EncodeAllConcat(session, Transmit(a, dropEvery, dupEvery), Transmit(b, dropEvery, dupEvery));
  }

  lemma {:induction false} TransmitOne(p: Packet, dropEvery: nat, dupEvery: nat)
    ensures Transmit([p], dropEvery, dupEvery) == Repeat(p, Copies(p, dropEvery, dupEvery))
  {
    var f := (q: Packet) => Copies(q, dropEvery, dupEvery);
    assert TransmitBy([p], f) == TransmitBy([], f) + Repeat(p, f(p));
  }

  // The sendto calls for one datagram: none, one or two.
  method SendTo(session: seq<byte>, p: Packet, datagram: seq<byte>, dropEvery: nat, dupEvery: nat)
    returns (out: seq<seq<byte>>)
    requires |session| == 10 && datagram == Encode(session, p)
    ensures out == EncodeAll(session, Transmit([p], dropEvery, dupEvery))
  {
    out := [];
    TransmitOne(p, dropEvery, dupEvery);
    assert Repeat(p, 0) == [] && Repeat(p, 1) == [p] && Repeat(p, 2) == [p, p];
    if dropEvery == 0 || p.start % dropEvery != 0 {
      out := out + [datagram];
      if dupEvery > 0 && p.start % dupEvery == 0 { out := out + [datagram]; }
    }
  }

  lemma {:induction false} EncodeOne(session: seq<byte>, cut: seq<Packet>, p: Packet)
    requires |session| == 10
    ensures EncodeAll(session, cut + [p]) == EncodeAll(session, cut) + [Encode(session, p)]
  {}

  // The packet begins with the message at the front of `data`.
  ghost predicate Opens(p: Packet, data: seq<byte>) { !NoRoomFor(0, data) && FirstSize(p) == SizeAt(data) }

  lemma {:induction false} FirstOf(data: seq<byte>, len: nat, p: Packet, msgs: seq<Msg>)
    requires len <= |data| && p.body == data[..len] == Blocks(msgs) && msgs != [] && AllFit(msgs)
    requires |p.body| <= MAX_PAYLOAD
    ensures Opens(p, data)
  {
    BlocksRoundTrip(msgs);
  }

  lemma {:induction false} TightNext(pk: seq<Packet>, p: Packet, data: seq<byte>)
    requires Tight(pk) && (pk != [] ==> NoRoomFor(|pk[|pk| - 1].body|, data)) && Opens(p, data)
    ensures Tight(pk + [p])
  {}

  // One packet cut from buf[offset..n]: filled, cached and sent, unless nothing more can be cut.
  method CutOne(buf: array<byte>, offset: nat, n: nat, packet: array<byte>, session: seq<byte>,
                dropEvery: nat, dupEvery: nat, seqNo: nat,
                ghost pk: seq<Packet>, ghost unread: seq<byte>, ghost file: seq<byte>)
    returns (next: nat, cut: Option<Packet>, datagram: seq<byte>, sent: seq<seq<byte>>)
    requires offset <= n <= buf.Length && packet.Length == PACKET_SIZE && packet != buf && |session| == 10
    requires Good(pk) && Remains(file, Contents(pk), buf[offset..n] + unread) && seqNo == 1 + |Contents(pk)|
    modifies packet
    ensures cut.None? ==> Stuck(buf[offset..n])
    ensures cut.Some? ==>
              && offset < next <= n && Good(pk + [cut.value])
                && seqNo + cut.value.count == 1 + |Contents(pk + [cut.value])|
              && Remains(file, Contents(pk + [cut.value]), buf[next..n] + unread)
              && datagram == Encode(session, cut.value)
              && sent == EncodeAll(session, Transmit([cut.value], dropEvery, dupEvery))
              && Opens(cut.value, buf[offset..n]) && NoRoomFor(|cut.value.body|, buf[next..n])
  {
    ghost var w := buf[..];
    assert buf[offset..n] == w[offset..n];
    var end, used, count, msgs := FillPacket(buf, offset, n, packet);
    next, cut, datagram, sent := end, None, [], [];
    if count == 0 { return; }
    var p := Packet(seqNo, count, packet[HEADER..HEADER + used]);
    assert buf[offset..next] == w[offset..next];
    BlocksSize(msgs);
    assert w[offset..n][..next - offset] == w[offset..next];
    FirstOf(w[offset..n], next - offset, p, msgs);
    GoodExtend(pk, msgs);
    RemainsStep(file, Contents(pk), msgs, w, offset, next, n, unread);
    datagram := Finish(packet, session, p);
    sent := SendTo(session, p, datagram, dropEvery, dupEvery);
    cut := Some(p);
    assert buf[next..n] == w[next..n];
  }

  // The middle loop: cut packets from buf[..n] until no complete message that fits is left.
  method CutChunk(buf: array<byte>, n: nat, packet: array<byte>, session: seq<byte>,
                  dropEvery: nat, dupEvery: nat, seq0: nat,
                  ghost pk0: seq<Packet>, ghost unread: seq<byte>, ghost file: seq<byte>)
    returns (offset: nat, seqNo: nat, cut: seq<Packet>, datagrams: seq<seq<byte>>, sent: seq<seq<byte>>)
    requires n <= buf.Length && packet.Length == PACKET_SIZE && packet != buf && |session| == 10
    requires Good(pk0) && Remains(file, Contents(pk0), buf[..n] + unread) && seq0 == 1 + |Contents(pk0)|
    modifies packet
    ensures offset <= n && Good(pk0 + cut) && Stuck(buf[offset..n])
    ensures Remains(file, Contents(pk0 + cut), buf[offset..n] + unread) && seqNo == 1 + |Contents(pk0 + cut)|
    ensures datagrams == EncodeAll(session, cut) && Tight(cut)
    ensures sent == EncodeAll(session, Transmit(cut, dropEvery, dupEvery))
  {
    offset, seqNo, cut, datagrams, sent := 0, seq0, [], [], [];
    assert buf[..n] == buf[0..n] && pk0 + cut == pk0;
    while true
      invariant offset <= n <= buf.Length
      invariant Good(pk0 + cut) && seqNo == 1 + |Contents(pk0 + cut)|
      invariant Remains(file, Contents(pk0 + cut), buf[offset..n] + unread)
      invariant datagrams == EncodeAll(session, cut)
      invariant sent == EncodeAll(session, Transmit(cut, dropEvery, dupEvery))
      invariant Tight(cut) && (cut != [] ==> NoRoomFor(|cut[|cut| - 1].body|, buf[offset..n]))
      decreases n - offset
    {
      var next, p, d, live :=
        CutOne(buf, offset, n, packet, session, dropEvery, dupEvery, seqNo, pk0 + cut, unread, file);
      if p.None? { break; }
      TightNext(cut, p.value, buf[offset..n]);
      Assoc(pk0, cut, [p.value]);
      EncodeOne(session, cut, p.value);
      TransmitMore(session, cut, [p.value], dropEvery, dupEvery);
      cut, datagrams, sent := cut + [p.value], datagrams + [d], sent + live;
      seqNo, offset := seqNo + p.value.count, next;
    }
  }

  // read(): the kernel hands over at least one byte and at most what fits.
  method Read(buf: array<byte>, leftover: nat, file: seq<byte>, pos: nat) returns (n: nat, next: nat)
    requires pos < |file| && leftover < buf.Length
    modifies buf
    ensures leftover < n <= buf.Length && pos < next <= |file|
    ensures buf[..n] + file[next..] == old(buf[..leftover]) + file[pos..]
  {
    var got :| 1 <= got <= |file| - pos && got <= buf.Length - leftover;
    CopyInto(buf, leftover, file[pos..pos + got]);
    n, next := leftover + got, pos + got;
    assert buf[..n] == old(buf[..leftover]) + file[pos..next];
    assert file[pos..] == file[pos..next] + file[next..];
    Assoc(old(buf[..leftover]), file[pos..next], file[next..]);
  }

  // memmove of the tail to the front
  method Shift(buf: array<byte>, offset: nat, n: nat)
    requires offset <= n <= buf.Length
    modifies buf
    ensures buf[..n - offset] == old(buf[offset..n])
  {
    CopyInto(buf, 0, buf[offset..n]);
  }

  // bulk_feed: for every file and every way the kernel may split the reads. `cached` is every
  // datagram handed to the rewinder, `sent` what reaches the wire.
  method BulkFeed(file: seq<byte>, session: seq<byte>, dropEvery: nat, dupEvery: nat)
    returns (pk: seq<Packet>, cached: seq<seq<byte>>, sent: seq<seq<byte>>, lastSeq: nat)
    requires |session| == 10
    ensures Good(pk) && Contents(pk) == Sendable(file)
    ensures cached == EncodeAll(session, pk) && sent == EncodeAll(session, Transmit(pk, dropEvery, dupEvery))
    ensures lastSeq == 1 + |Contents(pk)|
  {
    var buf, packet := new byte[BUF], new byte[PACKET_SIZE];
    var leftover: nat, pos: nat := 0, 0;
    pk, cached, sent, lastSeq := [], [], [], 1;
    assert buf[..0] + file[0..] == file;
    while pos < |file| && leftover < BUF
      invariant pos <= |file| && leftover <= BUF == buf.Length && packet.Length == PACKET_SIZE
      invariant Good(pk) && lastSeq == 1 + |Contents(pk)| && cached == EncodeAll(session, pk)
      invariant sent == EncodeAll(session, Transmit(pk, dropEvery, dupEvery))
      invariant Remains(file, Contents(pk), buf[..leftover] + file[pos..])
      invariant Stuck(buf[..leftover])
      decreases |file| - pos
    {
      var n, next := Read(buf, leftover, file, pos);
      pos := next;
      var offset, seqNo, cut, datagrams, live :=
        CutChunk(buf, n, packet, session, dropEvery, dupEvery, lastSeq, pk, file[pos..], file);
      TransmitMore(session, pk, cut, dropEvery, dupEvery);
      pk, cached, sent, lastSeq := pk + cut, cached + datagrams, sent + live, seqNo;
      leftover := n - offset;
      Shift(buf, offset, n);
    }
    StuckForGood(buf[..leftover], file[pos..]);
    RemainsEnd(file, Contents(pk), buf[..leftover] + file[pos..]);
  }

  // ---------- timestamp_feed ----------

  // The six-byte nanosecond timestamp of an ITCH message.
  function Timestamp(m: Msg): nat
    requires |m| >= 11
  {
    BeNat(m[5..11])
  }

  // The messages long enough to carry a timestamp; the others are skipped.
  function Timed(msgs: seq<Msg>): seq<Msg> {
    if msgs == [] then []
    else
      var rest, m := Timed(msgs[..|msgs| - 1]), msgs[|msgs| - 1];
      if |m| >= 11 then rest + [m] else rest
  }

  predicate AllAt(msgs: seq<Msg>, ts: nat) {
    forall i :: 0 <= i < |msgs| ==> |msgs[i]| >= 11 && Timestamp(msgs[i]) == ts
  }

  predicate SameInstant(msgs: seq<Msg>) {
    forall i :: 0 <= i < |msgs| ==> |msgs[0]| >= 11 && |msgs[i]| >= 11 && Timestamp(msgs[i]) == Timestamp(msgs[0])
  }

  // One timestamp per packet.
  ghost predicate OneInstant(pk: seq<Packet>) {
    forall i :: 0 <= i < |pk| ==> SameInstant(Unpack(pk[i].body))
  }

  // The locals of timestamp_feed: the packets sent, the next sequence number, and the packet under
  // construction (bytes used, messages, timestamp). `wire` is what was sent and cached.
  datatype Builder = Builder(pk: seq<Packet>, wire: seq<seq<byte>>, seqNo: nat, used: nat, count: nat, ts: nat)

  // The packet under construction holds `msgs`, all at one instant; everything before it was sent.
  ghost predicate Building(b: Builder, msgs: seq<Msg>, payload: seq<byte>) {
    && Sent(b.pk, b.seqNo)
    && AllFit(msgs) && AllAt(msgs, b.ts) && b.count == |msgs|
    && |payload| == MAX_PAYLOAD && b.used <= MAX_PAYLOAD && payload[..b.used] == Blocks(msgs)
  }

  ghost predicate Sent(pk: seq<Packet>, seqNo: nat) {
    Good(pk) && OneInstant(pk) && seqNo == 1 + |Contents(pk)|
  }

  // A message at another instant than the packet's, or one that does not fit beside what it holds.
  ghost predicate Parts(p: Packet, m: Msg) {
    && |m| >= 11 && Unpack(p.body) != [] && |Unpack(p.body)[0]| >= 11
    && (Timestamp(Unpack(p.body)[0]) != Timestamp(m) || |p.body| + 2 + |m| > MAX_PAYLOAD)
  }

  ghost predicate PartsAt(pk: seq<Packet>, i: nat)
    requires i + 1 < |pk|
  {
    Unpack(pk[i + 1].body) != [] && Parts(pk[i], Unpack(pk[i + 1].body)[0])
  }

  // No packet ends before it has to.
  ghost predicate Snug(pk: seq<Packet>) { forall i :: 0 <= i < |pk| - 1 ==> PartsAt(pk, i) }

  // The same, with `msgs` in the packet under construction.
  ghost predicate SnugWith(pk: seq<Packet>, msgs: seq<Msg>) {
    Snug(pk) && if msgs == [] then pk == [] else pk != [] ==> Parts(pk[|pk| - 1], msgs[0])
  }

  lemma {:induction false} SnugFlush(pk: seq<Packet>, p: Packet, msgs: seq<Msg>)
    requires SnugWith(pk, msgs) && msgs != [] && Unpack(p.body) == msgs
    ensures Snug(pk + [p])
  {
    var q := pk + [p];
    forall i | 0 <= i < |q| - 1 ensures PartsAt(q, i) {
      if i < |pk| - 1 { assert PartsAt(pk, i); }
    }
  }

  lemma {:induction false} FlushStep(pk: seq<Packet>, seqNo: nat, msgs: seq<Msg>, ts: nat)
    requires Sent(pk, seqNo) && AllFit(msgs) && AllAt(msgs, ts) && msgs != [] && |Blocks(msgs)| <= MAX_PAYLOAD
    ensures var p := Packet(seqNo, |msgs|, Blocks(msgs));
            Sent(pk + [p], seqNo + |msgs|) && Contents(pk + [p]) == Contents(pk) + msgs
  {
    GoodExtend(pk, msgs);
    BlocksRoundTrip(msgs);
    assert SameInstant(msgs);
  }

  lemma {:induction false} EmptyBuilding(pk: seq<Packet>, wire: seq<seq<byte>>, seqNo: nat, ts: nat, payload: seq<byte>)
    requires Sent(pk, seqNo) && |payload| == MAX_PAYLOAD
    ensures Building(Builder(pk, wire, seqNo, 0, 0, ts), [], payload)
  {}

  // flush_packet: send the packet under construction and start an empty one.
  method Flush(packet: array<byte>, session: seq<byte>, b: Builder, ts: nat, ghost msgs: seq<Msg>)
    returns (r: Builder)
    requires packet.Length == PACKET_SIZE && |session| == 10
    requires Building(b, msgs, packet[HEADER..]) && msgs != [] && b.wire == EncodeAll(session, b.pk)
    modifies packet
    ensures Building(r, [], packet[HEADER..]) && r.ts == ts && r.count == 0
    ensures Contents(r.pk) == Contents(b.pk) + msgs && r.wire == EncodeAll(session, r.pk)
    ensures r.pk == b.pk + [Packet(b.seqNo, b.count, Blocks(msgs))]
  {
    assert packet[HEADER..HEADER + b.used] == packet[HEADER..][..b.used];
    var p := Packet(b.seqNo, b.count, packet[HEADER..HEADER + b.used]);
    FlushStep(b.pk, b.seqNo, msgs, b.ts);
    var datagram := Finish(packet, session, p);
    EncodeOne(session, b.pk, p);
    r := Builder(b.pk + [p], b.wire + [datagram], b.seqNo + b.count, 0, 0, ts);
    EmptyBuilding(r.pk, r.wire, r.seqNo, ts, packet[HEADER..]);
  }

  // Whether the packet under construction has to go before a message at `ts` of this size is added.
  predicate MustFlush(b: Builder, ts: nat, size: nat) {
    b.count > 0 && (ts != b.ts || b.used + 2 + size > MAX_PAYLOAD)
  }

  // Copy one message into a packet it fits.
  method Append(packet: array<byte>, b: Builder, m: Msg, ghost msgs: seq<Msg>) returns (r: Builder)
    requires packet.Length == PACKET_SIZE && 11 <= |m| <= MAX_MSG
    requires Building(b, msgs, packet[HEADER..]) && !MustFlush(b, Timestamp(m), |m|)
    modifies packet
    ensures Building(r, msgs + [m], packet[HEADER..]) && r.pk == b.pk && r.wire == b.wire
  {
    assert packet[HEADER..HEADER + b.used] == packet[HEADER..][..b.used];
    AppendBlock(packet, b.used, m, msgs);
    r := b.(used := b.used + 2 + |m|, count := b.count + 1, ts := Timestamp(m));
    assert packet[HEADER..][..r.used] == packet[HEADER..HEADER + r.used];
  }

  // After a flush made for `m`, the packet sent had to end where it did.
  lemma {:induction false} SnugPlace(b: Builder, msgs: seq<Msg>, m: Msg, pk: seq<Packet>)
    requires SnugWith(b.pk, msgs) && msgs != [] && AllFit(msgs) && AllAt(msgs, b.ts) && b.used == |Blocks(msgs)|
    requires |m| >= 11 && MustFlush(b, Timestamp(m), |m|) && pk == b.pk + [Packet(b.seqNo, b.count, Blocks(msgs))]
    ensures SnugWith(pk, [m])
  {
    var p := Packet(b.seqNo, b.count, Blocks(msgs));
    BlocksRoundTrip(msgs);
    SnugFlush(b.pk, p, msgs);
    assert pk[|pk| - 1] == p;
  }

  // One message: flush first when it belongs to another instant or does not fit, then copy it in.
  method Place(packet: array<byte>, session: seq<byte>, b: Builder, m: Msg, ghost msgs: seq<Msg>)
    returns (r: Builder, ghost now: seq<Msg>)
    requires packet.Length == PACKET_SIZE && |session| == 10 && 11 <= |m| <= MAX_MSG
    requires Building(b, msgs, packet[HEADER..]) && b.wire == EncodeAll(session, b.pk) && SnugWith(b.pk, msgs)
    modifies packet
    ensures Building(r, now, packet[HEADER..]) && r.wire == EncodeAll(session, r.pk) && SnugWith(r.pk, now)
    ensures Contents(r.pk) + now == Contents(b.pk) + msgs + [m]
  {
    r, now := b, msgs;
    if MustFlush(b, Timestamp(m), |m|) {
      r := Flush(packet, session, b, Timestamp(m), msgs);
      now := [];
      SnugPlace(b, msgs, m, r.pk);
    }
    Assoc(Contents(r.pk), now, [m]);
    r := Append(packet, r, m, now);
    now := now + [m];
  }

  // `seen` are the messages of file[..pos].
  ghost predicate Walked(file: seq<byte>, pos: nat, seen: seq<Msg>)
    requires pos <= |file|
  {
    file[0..pos] == Blocks(seen) && AllFit(seen)
  }

  lemma {:induction false} UnpackFrom(file: seq<byte>, pos: nat, seen: seq<Msg>)
    requires pos <= |file| && Walked(file, pos, seen)
    ensures Unpack(file) == seen + Unpack(file[pos..])
  {
    assert file == file[0..pos] + file[pos..];
    UnpackBlocks(seen, file[pos..]);
  }

  // The next complete message of the file, after those of file[..pos].
  lemma {:induction false} MessageAt(file: seq<byte>, pos: nat, seen: seq<Msg>, m: Msg)
    requires pos + 2 + |m| <= |file| && |m| == Word16(file, pos) && m == file[pos + 2..pos + 2 + |m|]
    requires Walked(file, pos, seen)
    ensures |seen| < |Unpack(file)| && Unpack(file)[|seen|] == m
  {
    UnpackFrom(file, pos, seen);
    UnpackStep(file, pos);
  }

  lemma {:induction false} WalkStep(file: seq<byte>, pos: nat, size: nat, seen: seq<Msg>, m: Msg)
    requires pos + 2 + size <= |file| && size == Word16(file, pos) && m == file[pos + 2..pos + 2 + size]
    requires Walked(file, pos, seen) && AllFit(Unpack(file))
    ensures Walked(file, pos + 2 + size, seen + [m]) && |m| <= MAX_MSG
  {
    MessageAt(file, pos, seen, m);
    BlockAt(file, pos, m);
    BlocksGrow(file, 0, pos, seen, m);
  }

  lemma {:induction false} WalkEnd(file: seq<byte>, pos: nat, seen: seq<Msg>)
    requires pos <= |file| && Walked(file, pos, seen)
    requires pos + 2 <= |file| ==> pos + 2 + Word16(file, pos) > |file|
    ensures seen == Unpack(file)
  {
    UnpackFrom(file, pos, seen);
    if pos + 2 <= |file| { UnpackStep(file, pos); }
  }

  lemma {:induction false} TimedStep(seen: seq<Msg>, m: Msg)
    ensures Timed(seen + [m]) == if |m| >= 11 then Timed(seen) + [m] else Timed(seen)
  {}

  // A message too short for a timestamp is skipped.
  method TakeTimed(packet: array<byte>, session: seq<byte>, b: Builder, m: Msg, ghost seen: seq<Msg>,
                   ghost msgs: seq<Msg>)
    returns (r: Builder, ghost now: seq<Msg>)
    requires packet.Length == PACKET_SIZE && |session| == 10 && |m| <= MAX_MSG
    requires Building(b, msgs, packet[HEADER..]) && Timed(seen) == Contents(b.pk) + msgs
             && b.wire == EncodeAll(session, b.pk) && SnugWith(b.pk, msgs)
    modifies packet
    ensures Building(r, now, packet[HEADER..]) && Timed(seen + [m]) == Contents(r.pk) + now
            && r.wire == EncodeAll(session, r.pk) && SnugWith(r.pk, now)
  {
    TimedStep(seen, m);
    r, now := b, msgs;
    if |m| >= 11 { r, now := Place(packet, session, b, m, msgs); }
  }

  lemma {:induction false} StartTimed(file: seq<byte>, session: seq<byte>)
    requires |session| == 10
    ensures Sent([], 1) && Walked(file, 0, []) && Timed([]) == Contents([]) + [] && EncodeAll(session, []) == []
  {}

  // The message at `pos`, if the file holds all of it.
  method NextMessage(file: seq<byte>, pos: nat, ghost seen: seq<Msg>) returns (m: Option<Msg>, next: nat)
    requires pos <= |file| && Walked(file, pos, seen) && AllFit(Unpack(file))
    ensures m.None? ==> seen == Unpack(file)
    ensures m.Some? ==> pos < next <= |file| && Walked(file, next, seen + [m.value]) && |m.value| <= MAX_MSG
  {
    m, next := None, pos;
    if pos + 2 <= |file| {
      var size := Word16(file, pos);
      next := pos + 2 + size;
      if next <= |file| {
        m := Some(file[pos + 2..next]);
        WalkStep(file, pos, size, seen, m.value);
        return;
      }
    }
    WalkEnd(file, pos, seen);
  }

  // The loop of timestamp_feed. It copies each message into the packet unchecked, so it relies on
  // every message of the file fitting one.
  method TimestampLoop(file: seq<byte>, session: seq<byte>, packet: array<byte>)
    returns (b: Builder, ghost msgs: seq<Msg>)
    requires |session| == 10 && AllFit(Unpack(file)) && packet.Length == PACKET_SIZE
    modifies packet
    ensures Building(b, msgs, packet[HEADER..]) && Timed(Unpack(file)) == Contents(b.pk) + msgs
    ensures b.wire == EncodeAll(session, b.pk) && SnugWith(b.pk, msgs)
  {
    var pos: nat := 0;
    ghost var seen: seq<Msg> := [];
    b, msgs := Builder([], [], 1, 0, 0, 0), [];
    StartTimed(file, session);
    EmptyBuilding(b.pk, b.wire, b.seqNo, b.ts, packet[HEADER..]);
    while true
      invariant pos <= |file| && Walked(file, pos, seen)
      invariant Timed(seen) == Contents(b.pk) + msgs && b.wire == EncodeAll(session, b.pk)
      invariant Building(b, msgs, packet[HEADER..]) && SnugWith(b.pk, msgs)
      decreases |file| - pos
    {
      var m, next := NextMessage(file, pos, seen);
      if m.None? { break; }
      b, msgs := TakeTimed(packet, session, b, m.value, seen, msgs);
      pos, seen := next, seen + [m.value];
    }
  }

  // timestamp_feed: the loop, then the last packet. `sent` is every datagram sent and cached.
  method TimestampFeed(file: seq<byte>, session: seq<byte>)
    returns (pk: seq<Packet>, sent: seq<seq<byte>>, lastSeq: nat)
    requires |session| == 10 && AllFit(Unpack(file))
    ensures Good(pk) && Contents(pk) == Timed(Unpack(file)) && OneInstant(pk) && Snug(pk)
    ensures sent == EncodeAll(session, pk) && lastSeq == 1 + |Contents(pk)|
  {
    var packet := new byte[PACKET_SIZE];
    var b, msgs := TimestampLoop(file, session, packet);
    if b.count > 0 {
      BlocksRoundTrip(msgs);
      SnugFlush(b.pk, Packet(b.seqNo, b.count, Blocks(msgs)), msgs);
      b := Flush(packet, session, b, b.ts, msgs);
    }
    pk, sent, lastSeq := b.pk, b.wire, b.seqNo;
  }
}
