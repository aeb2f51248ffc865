/** MoldUDP64 downstream packets: a 20-byte header (session, sequence number, message count)
    followed by message blocks, each a two-byte big-endian length and that many bytes. */
module Mold {
  import opened Bytes

  type Msg = seq<byte>

  const HEADER: nat := 20
  // 1500 (MTU) - 28 (IP and UDP headers) - 20 (MoldUDP64 header)
  const PACKET_SIZE: nat := 1452
  const MAX_PAYLOAD: nat := PACKET_SIZE - HEADER
  // The largest message one packet can carry, after its length prefix.
  const MAX_MSG: nat := MAX_PAYLOAD - 2
  const END_OF_SESSION: nat := 0xFFFF

  // A parsed packet: `body` is everything after the header.
  datatype Packet = Packet(start: nat, count: nat, body: seq<byte>)
  {
    function End(): nat { start + count }
  }

  // ---------- message blocks ----------

  function Block(m: Msg): seq<byte> { Net16(|m|) + m }

  function Blocks(msgs: seq<Msg>): seq<byte> {
    if msgs == [] then [] else Blocks(msgs[..|msgs| - 1]) + Block(msgs[|msgs| - 1])
  }

  function SizeAt(data: seq<byte>): nat
    requires |data| >= 2
  {
    Word16(data, 0)
  }

  // The complete messages at the front of `data`.
  function Unpack(data: seq<byte>): seq<Msg> {
    if |data| < 2 || 2 + SizeAt(data) > |data| then []
    else [data[2..2 + SizeAt(data)]] + Unpack(data[2 + SizeAt(data)..])
  }

  lemma {:induction false} BlockFront(m: Msg, rest: seq<byte>)
    requires |m| < U16
    ensures SizeAt(Block(m) + rest) == |m|
    ensures Unpack(Block(m) + rest) == [m] + Unpack(rest)
  {}

  predicate Fit(msgs: seq<Msg>) { forall i :: 0 <= i < |msgs| ==> |msgs[i]| < U16 }

  // Unpacking what was packed gives the messages back, whatever follows them.
  lemma {:induction false} UnpackBlocks(msgs: seq<Msg>, rest: seq<byte>)
    requires Fit(msgs)
    ensures Unpack(Blocks(msgs) + rest) == msgs + Unpack(rest)
  {
    if msgs == [] {
      assert Blocks(msgs) + rest == rest;
    } else {
      var init, m := msgs[..|msgs| - 1], msgs[|msgs| - 1];
      calc {
        Unpack(Blocks(msgs) + rest);
        { assert Blocks(msgs) + rest == Blocks(init) + (Block(m) + rest); }
        Unpack(Blocks(init) + (Block(m) + rest));
        { UnpackBlocks(init, Block(m) + rest); }
        init + Unpack(Block(m) + rest);
        { BlockFront(m, rest); }
        init + ([m] + Unpack(rest));
        { assert msgs == init + [m]; }
        msgs + Unpack(rest);
      }
    }
  }

  lemma {:induction false} BlocksRoundTrip(msgs: seq<Msg>)
    requires Fit(msgs)
    ensures Unpack(Blocks(msgs)) == msgs
  {
    UnpackBlocks(msgs, []);
    assert Blocks(msgs) + [] == Blocks(msgs);
  }

  lemma {:induction false} BlocksSize(msgs: seq<Msg>)
    ensures 2 * |msgs| <= |Blocks(msgs)|
  {
    if msgs != [] { BlocksSize(msgs[..|msgs| - 1]); }
  }

  // The message that starts at `at`, if it is complete.
  lemma {:induction false} UnpackStep(data: seq<byte>, at: nat)
    requires at + 2 <= |data|
    ensures var next := at + 2 + Word16(data, at);
            Unpack(data[at..]) == if next > |data| then [] else [data[at + 2..next]] + Unpack(data[next..])
  {
    var d, next := data[at..], at + 2 + Word16(data, at);
    assert SizeAt(d) == Word16(data, at);
    if next <= |data| {
      assert d[2..2 + SizeAt(d)] == data[at + 2..next];
      assert d[2 + SizeAt(d)..] == data[next..];
    }
  }

  // The dispatcher's unpacking loop over one published packet.
  method UnpackLoop(data: seq<byte>) returns (msgs: seq<Msg>)
    ensures msgs == Unpack(data)
  {
    var offset := 0;
    msgs := [];
    ghost var rest := Unpack(data);
    assert data[0..] == data;
    while offset + 2 <= |data|
      invariant 0 <= offset <= |data|
      invariant Unpack(data) == msgs + rest && rest == Unpack(data[offset..])
      decreases |data| - offset
    {
      UnpackStep(data, offset);
      var size := Word16(data, offset);
      var next := offset + 2 + size;
      if next > |data| { return; }
      var m := data[offset + 2..next];
      Assoc(msgs, [m], Unpack(data[next..]));
      msgs, rest := msgs + [m], Unpack(data[next..]);
      offset := next;
    }
  }

  // ---------- the header ----------

  function Encode(session: seq<byte>, p: Packet): seq<byte>
    requires |session| == 10
  {
    session + BeBytes(p.start, 8) + Net16(p.count) + p.body
  }

  function Parse(payload: seq<byte>): Option<Packet> {
    if |payload| < HEADER then None
    else Some(Packet(BeNat(payload[10..18]), Word16(payload, 18), payload[HEADER..]))
  }

  lemma {:induction false} ParseEncode(session: seq<byte>, p: Packet)
    requires |session| == 10 && p.start < U64 && p.count < U16
    ensures Parse(Encode(session, p)) == Some(p)
  {
    assert Pow256(2) == 65536 && Pow256(4) == 0x1_0000_0000;
    assert Pow256(6) == 256 * Pow256(5) == 65536 * Pow256(4);
    assert Pow256(8) == 256 * Pow256(7) == 65536 * Pow256(6) == U64;
    BeRoundTrip(p.start, 8);
    var e := Encode(session, p);
    assert e[10..18] == BeBytes(p.start, 8);
    assert e[18..20] == Net16(p.count);
    WordNet16(e, 18, p.count);
    assert e[HEADER..] == p.body;
  }

  // And the other way: whatever parses is the encoding of what it parses to, and only too few bytes do not.
  lemma {:induction false} EncodeParse(payload: seq<byte>)
    ensures Parse(payload).None? <==> |payload| < HEADER
    ensures Parse(payload).Some? ==> Encode(payload[..10], Parse(payload).value) == payload
  {
    if |payload| >= HEADER {
      BeInverse(payload[10..18]);
      Net16Inverse(payload, 18);
      assert payload == payload[..10] + payload[10..18] + payload[18..20] + payload[HEADER..];
    }
  }

  // ---------- a session cut into packets ----------

  // All messages of a list of packets, in order.
  function Contents(pk: seq<Packet>): seq<Msg> {
    if pk == [] then [] else Contents(pk[..|pk| - 1]) + Unpack(pk[|pk| - 1].body)
  }

  // `pk` numbers its messages consecutively from `first`; every packet carries its count of messages.
  ghost predicate Cut(pk: seq<Packet>, first: nat) {
    forall i :: 0 <= i < |pk| ==>
                  && pk[i].start == first + |Contents(pk[..i])|
                  && pk[i].count == |Unpack(pk[i].body)| >= 1
  }

  lemma {:induction false} ContentsSplit(pk: seq<Packet>, i: nat)
    requires i <= |pk|
    ensures Contents(pk[..i]) <= Contents(pk)
    ensures i < |pk| ==> Contents(pk[..i + 1]) == Contents(pk[..i]) + Unpack(pk[i].body)
    ensures i < |pk| ==> Contents(pk[..i + 1]) <= Contents(pk)
  {
    if i < |pk| {
      assert pk[..i + 1][..i] == pk[..i];
      var k := |pk| - 1;
      ContentsSplit(pk[..k], i);
      assert pk[..k][..i] == pk[..i];
      if i < k { assert pk[..k][..i + 1] == pk[..i + 1]; } else { assert pk[..i + 1] == pk; }
    } else {
      assert pk[..i] == pk;
    }
  }

  lemma {:induction false} Segment<T>(a: seq<T>, b: seq<T>, c: seq<T>)
    requires a + b <= c
    ensures b == c[|a|..|a| + |b|]
  {}

  // A packet's messages are the ones its sequence numbers name.
  lemma {:induction false} CutMessages(pk: seq<Packet>, first: nat, i: nat)
    requires Cut(pk, first) && i < |pk|
    ensures first <= pk[i].start && pk[i].End() - first <= |Contents(pk)|
    ensures Unpack(pk[i].body) == Contents(pk)[pk[i].start - first..pk[i].End() - first]
  {
    ContentsSplit(pk, i);
    assert pk[i].start - first == |Contents(pk[..i])|;
    Segment(Contents(pk[..i]), Unpack(pk[i].body), Contents(pk));
  }

  // Later packets start after earlier ones end.
  lemma {:induction false} CutOrder(pk: seq<Packet>, first: nat, i: nat, j: nat)
    requires Cut(pk, first) && i < j < |pk|
    ensures pk[i].End() <= pk[j].start
  {
    ContentsSplit(pk[..j], i);
    assert pk[..j][..i] == pk[..i] && pk[..j][..i + 1] == pk[..i + 1];
  }
}
