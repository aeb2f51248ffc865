/** The 36-byte order frame: packed little-endian fields, a checksum over the first 32 bytes, padding. */
module Wire {
  import opened Bytes
  import opened Checksum

  const ORDER: nat := 36
  const COVERED: nat := 32
  const MSG_NEW: byte := 78      // 'N'
  const MSG_CANCEL: byte := 67   // 'C'

  datatype Order = Order(kind: byte, side: byte, symbol: nat, qty: nat, price: nat, seqNo: nat, ts: nat)

  predicate OrderOk(o: Order) {
    o.symbol < U16 && o.qty < U32 && o.price < U32 && o.seqNo < U64 && o.ts < U64
  }

  // The bytes the checksum covers.
  function Body(o: Order): (b: seq<byte>)
    ensures |b| == COVERED
  {
    [o.kind, o.side] + LeBytes(o.symbol, 2) + LeBytes(o.qty, 4) + LeBytes(o.price, 4) + [0, 0, 0, 0]
    + LeBytes(o.seqNo, 8) + LeBytes(o.ts, 8)
  }

  function ChecksumOf(body: seq<byte>): (c: nat)
    ensures c < U16
  {
    ONES - Fold(WordSum(body))
  }

  function Encode(o: Order): (f: seq<byte>)
    ensures |f| == ORDER
  {
    Body(o) + LeBytes(ChecksumOf(Body(o)), 2) + [0, 0]
  }

  function Decode(f: seq<byte>): Order
    requires |f| == ORDER
  {
    Order(f[0], f[1], LeNat(f[2..4]), LeNat(f[4..8]), LeNat(f[8..12]), LeNat(f[16..24]), LeNat(f[24..32]))
  }

  predicate ChecksumOk(f: seq<byte>)
    requires |f| == ORDER
  {
    LeNat(f[32..34]) == ChecksumOf(f[..COVERED])
  }

  lemma {:induction false} Widths()
    ensures Pow256(2) == U16 && Pow256(4) == U32 && Pow256(8) == U64
  {}

  // Where the fields are.
  lemma {:induction false} BodyFields(o: Order)
    ensures Body(o)[0] == o.kind && Body(o)[1] == o.side
    ensures Body(o)[2..4] == LeBytes(o.symbol, 2) && Body(o)[4..8] == LeBytes(o.qty, 4)
            && Body(o)[8..12] == LeBytes(o.price, 4)
    ensures Body(o)[16..24] == LeBytes(o.seqNo, 8) && Body(o)[24..32] == LeBytes(o.ts, 8)
  {}

  lemma {:induction false} FrameFields(o: Order)
    ensures var f, b := Encode(o), Body(o);
            && f[..COVERED] == b && f[32..34] == LeBytes(ChecksumOf(b), 2) && f[0] == b[0] && f[1] == b[1]
            && f[2..4] == b[2..4] && f[4..8] == b[4..8] && f[8..12] == b[8..12]
            && f[16..24] == b[16..24] && f[24..32] == b[24..32]
  {}

  lemma {:induction false} FieldsRoundTrip(o: Order)
    requires OrderOk(o)
    ensures LeNat(LeBytes(o.symbol, 2)) == o.symbol && LeNat(LeBytes(o.qty, 4)) == o.qty
            && LeNat(LeBytes(o.price, 4)) == o.price
    ensures LeNat(LeBytes(o.seqNo, 8)) == o.seqNo && LeNat(LeBytes(o.ts, 8)) == o.ts
  {
    Widths();
    LeRoundTrip(o.symbol, 2);
    LeRoundTrip(o.qty, 4);
    LeRoundTrip(o.price, 4);
    LeRoundTrip(o.seqNo, 8);
    LeRoundTrip(o.ts, 8);
  }

  // Every encoded order passes the check and decodes to itself.
  lemma {:induction false} RoundTrip(o: Order)
    requires OrderOk(o)
    ensures Decode(Encode(o)) == o && ChecksumOk(Encode(o))
  {
    FrameFields(o);
    BodyFields(o);
    FieldsRoundTrip(o);
    Widths();
    LeRoundTrip(ChecksumOf(Body(o)), 2);
  }
}
