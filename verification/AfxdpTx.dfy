/** The order egress frames: an Ethernet/IPv4/UDP template laid out once, patched per send with an
    incremental IP checksum, and a UDP checksum over pseudo-header, header and payload. */
module AfxdpTx {
  import opened Bytes
  import opened Checksum

  const ETH: nat := 14
  const IP: nat := 20
  const UDP: nat := 8
  const HDR: nat := ETH + IP + UDP
  const FRAME: nat := 4096
  const MAX_PAYLOAD: nat := FRAME - HDR

  datatype Config = Config(srcMac: seq<byte>, dstMac: seq<byte>, srcIp: seq<byte>, dstIp: seq<byte>,
                           srcPort: nat, dstPort: nat)

  predicate ConfigOk(c: Config) {
    |c.srcMac| == 6 && |c.dstMac| == 6 && |c.srcIp| == 4 && |c.dstIp| == 4 && c.srcPort < U16 && c.dstPort < U16
  }

  // ---------- the packet format ----------

  function EthHeader(c: Config): (h: seq<byte>)
    requires ConfigOk(c)
    ensures |h| == ETH
  {
    c.dstMac + c.srcMac + [0x08, 0x00]
  }

  // The fields are in network order; the checksum is stored the way the sums read words.
  function IpHeader(c: Config, totLen: nat, check: nat): (h: seq<byte>)
    requires ConfigOk(c)
    ensures |h| == IP
  {
    [0x45, 0] + BeBytes(totLen, 2) + [0, 0, 0, 0, 64, 17] + LeBytes(check, 2) + c.srcIp + c.dstIp
  }

  function UdpHeader(c: Config, len: nat, check: nat): (h: seq<byte>)
    requires ConfigOk(c)
    ensures |h| == UDP
  {
    BeBytes(c.srcPort, 2) + BeBytes(c.dstPort, 2) + BeBytes(len, 2) + LeBytes(check, 2)
  }

  // The header checksum computed from scratch (RFC 791): the complement of the folded sum with the
  // checksum field zero.
  function IpChecksum(c: Config, totLen: nat): nat
    requires ConfigOk(c)
  {
    ONES - Fold(WordSum(IpHeader(c, totLen, 0)))
  }

  // What an RFC 768 receiver sums beside the datagram: addresses, protocol and UDP length.
  function PseudoHeader(c: Config, len: nat): seq<byte>
    requires ConfigOk(c)
  {
    c.srcIp + c.dstIp + [0, 17] + BeBytes(len, 2)
  }

  // The datagram verifies: its words and the pseudo-header's fold to all ones.
  predicate UdpVerifies(c: Config, len: nat, datagram: seq<byte>)
    requires ConfigOk(c)
  {
    Fold(WordSum(PseudoHeader(c, len)) + WordSum(datagram)) == ONES
  }

  // ---------- the incremental update ----------

  // csum_replace2
  function Replace2(csum: nat, oldWord: nat, newWord: nat): nat
    requires csum <= ONES && oldWord <= ONES
  {
    ONES - Fold((ONES - csum) + (ONES - oldWord) + newWord)
  }

  // Replacing word `m` by `n` in a sum `rest + m` gives the checksum of `rest + n`, except in the one
  // case the two zeros of ones-complement differ: nothing left to sum (section 3 of RFC 1624).
  lemma {:induction false} Replace2Iff(rest: nat, m: nat, n: nat)
    requires m <= ONES && n <= ONES
    ensures Replace2(ONES - Fold(rest + m), m, n) == ONES - Fold(rest + n) <==> rest + n > 0
  {
    var f := Fold(rest + m);
    FoldResidue(rest + m);
    FoldEqualIff(f + (ONES - m) + n, rest + n);
    FoldEqualIff(f, rest + m);
    Cancel(f, rest, m, n);
  }

  lemma {:induction false} Cancel(f: nat, rest: nat, m: nat, n: nat)
    requires f % ONES == (rest + m) % ONES && m <= ONES
    ensures (f + (ONES - m) + n) % ONES == (rest + n) % ONES
  {
    var q, k := f / ONES, (rest + m) / ONES;
    assert f == ONES * q + f % ONES && rest + m == ONES * k + f % ONES;
    assert f + (ONES - m) + n + ONES * k == rest + n + ONES * (q + 1);
    Shift(f + (ONES - m) + n, k);
    Shift(rest + n, q + 1);
  }

  // ---------- sums of the headers ----------

  function BeWord(n: nat): (w: nat)
    requires n < U16
    ensures w <= ONES
  {
    n / 256 + 256 * (n % 256)
  }

  lemma {:induction false} BePairSum(n: nat)
    requires n < U16
    ensures WordSum(BeBytes(n, 2)) == BeWord(n)
  {}

  lemma {:induction false} LePairSum(n: nat)
    requires n < U16
    ensures WordSum(LeBytes(n, 2)) == n
  {}

  // The sum of the header words other than length and checksum.
  function FixedSum(c: Config): (s: nat)
    requires ConfigOk(c)
  {
    WordSum([0x45, 0]) + WordSum([0, 0, 0, 0, 64, 17]) + WordSum(c.srcIp) + WordSum(c.dstIp)
  }

  lemma {:induction false} IpHeaderSum(c: Config, totLen: nat, check: nat)
    requires ConfigOk(c) && totLen < U16 && check < U16
    ensures WordSum(IpHeader(c, totLen, check)) == FixedSum(c) + BeWord(totLen) + check
  {
    var a, b, d: seq<byte>, e := [0x45 as byte, 0], BeBytes(totLen, 2), [0, 0, 0, 0, 64, 17], LeBytes(check, 2);
    WordSumConcat(a + b + d + e + c.srcIp, c.dstIp);
    WordSumConcat(a + b + d + e, c.srcIp);
    WordSumConcat(a + b + d, e);
    WordSumConcat(a + b, d);
    WordSumConcat(a, b);
    BePairSum(totLen);
    LePairSum(check);
  }

  lemma {:induction false} FixedSumPositive(c: Config)
    requires ConfigOk(c)
    ensures FixedSum(c) > 0
  {}

  lemma {:induction false} IpChecksumForm(c: Config, totLen: nat)
    requires ConfigOk(c) && totLen < U16
    ensures IpChecksum(c, totLen) == ONES - Fold(FixedSum(c) + BeWord(totLen))
  {
    IpHeaderSum(c, totLen, 0);
  }

  // For every pair of addresses and every payload length, patching the template's checksum gives
  // exactly the checksum computed from scratch.
  lemma {:induction false} PatchIsExact(c: Config, oldTot: nat, newTot: nat)
    requires ConfigOk(c) && oldTot < U16 && newTot < U16
    ensures Replace2(IpChecksum(c, oldTot), BeWord(oldTot), BeWord(newTot)) == IpChecksum(c, newTot)
  {
    IpChecksumForm(c, oldTot);
    IpChecksumForm(c, newTot);
    FixedSumPositive(c);
    Replace2Iff(FixedSum(c), BeWord(oldTot), BeWord(newTot));
  }

  // A header that carries its checksum verifies: the whole header folds to all ones.
  lemma {:induction false} IpHeaderVerifies(c: Config, totLen: nat)
    requires ConfigOk(c) && totLen < U16
    ensures Fold(WordSum(IpHeader(c, totLen, IpChecksum(c, totLen)))) == ONES
  {
    IpHeaderSum(c, totLen, 0);
    IpHeaderSum(c, totLen, IpChecksum(c, totLen));
    FixedSumPositive(c);
    Complement(FixedSum(c) + BeWord(totLen));
  }

  lemma {:induction false} Complement(x: nat)
    requires x > 0
    ensures Fold(x + (ONES - Fold(x))) == ONES
  {
    var f := Fold(x);
    assert Fold(f) == f;
    FoldEqualIff(f, x);
    Cancel(x, 0, f, 0);
    FoldEqualIff(x + (ONES - f), ONES);
  }

  // A checksum of zero, sent as all ones, verifies too.
  lemma {:induction false} OnesForZero(x: nat)
    requires x > 0 && Fold(x) == ONES
    ensures Fold(x + ONES) == ONES
  {
    Shift(x, 1);
    FoldEqualIff(x + ONES, x);
  }

  // ---------- the UDP checksum ----------

  function UdpCheck(c: Config, payload: seq<byte>): (k: nat)
    requires ConfigOk(c)
    ensures 0 < k <= ONES
  {
    SegmentCheck(c, UDP + |payload|, UdpHeader(c, UDP + |payload|, 0) + payload)
  }

  // The checksum of a UDP segment whose checksum field is zero; a computed zero is sent as all ones.
  function SegmentCheck(c: Config, len: nat, segment: seq<byte>): (k: nat)
    requires ConfigOk(c)
    ensures 0 < k <= ONES
  {
    var k := ONES - Fold(WordSum(PseudoHeader(c, len)) + WordSum(segment));
    if k == 0 then ONES else k
  }

  lemma {:induction false} UdpSum(c: Config, len: nat, check: nat, payload: seq<byte>)
    requires ConfigOk(c) && check < U16
    ensures WordSum(UdpHeader(c, len, check) + payload)
            == WordSum(UdpHeader(c, len, 0) + payload) + check
  {
    var a := BeBytes(c.srcPort, 2) + BeBytes(c.dstPort, 2) + BeBytes(len, 2);
    WordSumConcat(a + LeBytes(check, 2), payload);
    WordSumConcat(a + LeBytes(0, 2), payload);
    WordSumConcat(a, LeBytes(check, 2));
    WordSumConcat(a, LeBytes(0, 2));
    LePairSum(check);
    LePairSum(0);
  }

  lemma {:induction false} PseudoPositive(c: Config, len: nat)
    requires ConfigOk(c)
    ensures WordSum(PseudoHeader(c, len)) > 0
  {
    var p: seq<byte> := [0, 17];
    WordSumConcat(c.srcIp + c.dstIp + p, BeBytes(len, 2));
    WordSumConcat(c.srcIp + c.dstIp, p);
    assert p[2..] == [] && WordSum(p) == 256 * 17;
  }

  // The emitted datagram always verifies at the receiver, and its checksum is never the zero that
  // would mean none was computed (RFC 768).
  lemma {:induction false} UdpAlwaysVerifies(c: Config, payload: seq<byte>)
    requires ConfigOk(c)
    ensures var len := UDP + |payload|;
            UdpVerifies(c, len, UdpHeader(c, len, UdpCheck(c, payload)) + payload)
  {
    var len := UDP + |payload|;
    var x := WordSum(PseudoHeader(c, len)) + WordSum(UdpHeader(c, len, 0) + payload);
    PseudoPositive(c, len);
    UdpSum(c, len, UdpCheck(c, payload), payload);
    Complement(x);
    if Fold(x) == ONES { OnesForZero(x); }
  }

  // ---------- the frame in memory ----------

  // The 42 header bytes as the patch code addresses them: total length at 16, IP checksum at 24, UDP
  // length at 38, UDP checksum at 40.
  function Layout(c: Config, tot: seq<byte>, chk: seq<byte>, len: seq<byte>, uchk: seq<byte>): (h: seq<byte>)
    requires ConfigOk(c) && |tot| == |chk| == |len| == |uchk| == 2
    ensures |h| == HDR
  {
    Front(c) + tot + [0, 0, 0, 0, 64, 17] + chk + Middle(c) + len + uchk
  }

  function Front(c: Config): (h: seq<byte>)
    requires ConfigOk(c)
    ensures |h| == 16
  {
    EthHeader(c) + [0x45, 0]
  }

  function Middle(c: Config): (h: seq<byte>)
    requires ConfigOk(c)
    ensures |h| == 12
  {
    c.srcIp + c.dstIp + BeBytes(c.srcPort, 2) + BeBytes(c.dstPort, 2)
  }

  lemma {:induction false} LayoutIsHeaders(c: Config, tot: nat, chk: nat, len: nat, uchk: nat)
    requires ConfigOk(c)
    ensures Layout(c, BeBytes(tot, 2), LeBytes(chk, 2), BeBytes(len, 2), LeBytes(uchk, 2))
            == EthHeader(c) + IpHeader(c, tot, chk) + UdpHeader(c, len, uchk)
  {}

  function Splice(s: seq<byte>, at: nat, src: seq<byte>): (r: seq<byte>)
    requires at + |src| <= |s|
    ensures |r| == |s|
  {
    s[..at] + src + s[at + |src|..]
  }

  // The headers for a payload of n bytes, UDP checksum still zero: what build_template leaves in frame 0.
  function Headers(c: Config, n: nat): (h: seq<byte>)
    requires ConfigOk(c)
    ensures |h| == HDR
  {
    EthHeader(c) + IpHeader(c, IP + UDP + n, IpChecksum(c, IP + UDP + n)) + UdpHeader(c, UDP + n, 0)
  }

  // The frame a send must put on the wire.
  function Datagram(c: Config, payload: seq<byte>): seq<byte>
    requires ConfigOk(c)
  {
    var tot, len := IP + UDP + |payload|, UDP + |payload|;
    EthHeader(c) + IpHeader(c, tot, IpChecksum(c, tot)) + UdpHeader(c, len, UdpCheck(c, payload)) + payload
  }

  // The header patches, on the bytes.
  lemma {:induction false} PatchTot(c: Config, tot: seq<byte>, chk: seq<byte>, len: seq<byte>, uchk: seq<byte>,
                                    tot': seq<byte>)
    requires ConfigOk(c) && |tot| == |chk| == |len| == |uchk| == |tot'| == 2
    ensures Splice(Layout(c, tot, chk, len, uchk), 16, tot') == Layout(c, tot', chk, len, uchk)
  {}

  lemma {:induction false} PatchChk(c: Config, tot: seq<byte>, chk: seq<byte>, len: seq<byte>, uchk: seq<byte>,
                                    chk': seq<byte>)
    requires ConfigOk(c) && |tot| == |chk| == |len| == |uchk| == |chk'| == 2
    ensures Splice(Layout(c, tot, chk, len, uchk), 24, chk') == Layout(c, tot, chk', len, uchk)
  {}

  lemma {:induction false} PatchLen(c: Config, tot: seq<byte>, chk: seq<byte>, len: seq<byte>, uchk: seq<byte>,
                                    len': seq<byte>)
    requires ConfigOk(c) && |tot| == |chk| == |len| == |uchk| == |len'| == 2
    ensures Splice(Layout(c, tot, chk, len, uchk), 38, len') == Layout(c, tot, chk, len', uchk)
  {}

  lemma {:induction false} PatchUchk(c: Config, tot: seq<byte>, chk: seq<byte>, len: seq<byte>, uchk: seq<byte>,
                                     uchk': seq<byte>)
    requires ConfigOk(c) && |tot| == |chk| == |len| == |uchk| == |uchk'| == 2
    ensures Splice(Layout(c, tot, chk, len, uchk), 40, uchk') == Layout(c, tot, chk, len, uchk')
  {}

  // ---------- the code ----------

  // Store header bytes in a frame whose first 42 bytes are `h`.
  method Patch(frame: array<byte>, at: nat, src: seq<byte>, ghost h: seq<byte>)
    requires |h| == HDR <= frame.Length && at + |src| <= HDR && frame[..HDR] == h
    modifies frame
    ensures frame[..HDR] == Splice(h, at, src) && frame[HDR..] == old(frame[HDR..])
  {
    CopyInto(frame, at, src);
    assert h[..at] == old(frame[..at]) && h[at + |src|..] == old(frame[at + |src|..HDR]);
  }

  // ip_checksum over a header whose checksum field is zero
  method IpChecksumOf(header: seq<byte>) returns (k: nat)
    requires |header| == IP
    ensures k == ONES - Fold(WordSum(header))
  {
    var sum := LaneParallelSum(header, 0);
    WordSumBound(header);
    var f := FoldLoop(sum);
    k := ONES - f;
  }

  // build_template
  method BuildTemplate(frame: array<byte>, c: Config, n: nat)
    requires ConfigOk(c) && frame.Length >= HDR && n <= MAX_PAYLOAD
    modifies frame
    ensures frame[..HDR] == Headers(c, n)
  {
    var k := IpChecksumOf(IpHeader(c, IP + UDP + n, 0));
    CopyInto(frame, 0, EthHeader(c) + IpHeader(c, IP + UDP + n, k) + UdpHeader(c, UDP + n, 0));
    assert frame[..HDR] == EthHeader(c) + IpHeader(c, IP + UDP + n, k) + UdpHeader(c, UDP + n, 0);
  }

  // The header patches of afxdp_tx_send: both lengths, and the IP checksum from the old one.
  method PatchLengths(frame: array<byte>, c: Config, tot: seq<byte>, len: seq<byte>,
                      ghost tot0: seq<byte>, ghost chk0: seq<byte>, ghost len0: seq<byte>, ghost u0: seq<byte>)
    returns (check: nat)
    requires ConfigOk(c) && frame.Length == FRAME && |tot| == |len| == |tot0| == |chk0| == |len0| == |u0| == 2
    requires frame[..HDR] == Layout(c, tot0, chk0, len0, u0)
    modifies frame
    ensures check == Replace2(WordAt(chk0, 0), WordAt(tot0, 0), WordAt(tot, 0)) && check <= ONES
    ensures frame[..HDR] == Layout(c, tot, LeBytes(check, 2), len, u0)
  {
    LayoutFields(c, tot0, chk0, len0, u0);
    var oldTot, oldChk := frame[16..18], frame[24..26];
    assert oldTot == frame[..HDR][16..18] && oldChk == frame[..HDR][24..26];
    Patch(frame, 16, tot, Layout(c, tot0, chk0, len0, u0));
    PatchTot(c, tot0, chk0, len0, u0, tot);
    Patch(frame, 38, len, Layout(c, tot, chk0, len0, u0));
    PatchLen(c, tot, chk0, len0, u0, len);
    check := Replace2(WordAt(oldChk, 0), WordAt(oldTot, 0), WordAt(tot, 0));
    Patch(frame, 24, LeBytes(check, 2), Layout(c, tot, chk0, len, u0));
    PatchChk(c, tot, chk0, len, u0, LeBytes(check, 2));
  }

  // Whatever length the template was laid out for, the patched headers are those of `n`.
  method PatchHeaders(frame: array<byte>, c: Config, n: nat, ghost t: nat)
    requires ConfigOk(c) && frame.Length == FRAME && n <= MAX_PAYLOAD && t <= MAX_PAYLOAD
             && frame[..HDR] == Headers(c, t)
    modifies frame
    ensures frame[..HDR] == Headers(c, n)
  {
    ghost var k := IpChecksum(c, IP + UDP + t);
    HeadersLayout(c, t);
    PatchedCheck(c, t, n);
    var check := PatchLengths(frame, c, BeBytes(IP + UDP + n, 2), BeBytes(UDP + n, 2),
                              BeBytes(IP + UDP + t, 2), LeBytes(k, 2), BeBytes(UDP + t, 2), LeBytes(0, 2));
    HeadersLayout(c, n);
  }

  lemma {:induction false} HeadersLayout(c: Config, n: nat)
    requires ConfigOk(c)
    ensures Headers(c, n) == Layout(c, BeBytes(IP + UDP + n, 2), LeBytes(IpChecksum(c, IP + UDP + n), 2),
                                    BeBytes(UDP + n, 2), LeBytes(0, 2))
  {
    LayoutIsHeaders(c, IP + UDP + n, IpChecksum(c, IP + UDP + n), UDP + n, 0);
  }

  // The incremental update as the code makes it, on the bytes in the frame.
  lemma {:induction false} PatchedCheck(c: Config, t: nat, n: nat)
    requires ConfigOk(c) && n <= MAX_PAYLOAD && t <= MAX_PAYLOAD
    ensures WordAt(LeBytes(IpChecksum(c, IP + UDP + t), 2), 0) <= ONES && WordAt(BeBytes(IP + UDP + t, 2), 0) <= ONES
    ensures Replace2(WordAt(LeBytes(IpChecksum(c, IP + UDP + t), 2), 0), WordAt(BeBytes(IP + UDP + t, 2), 0),
                     WordAt(BeBytes(IP + UDP + n, 2), 0)) == IpChecksum(c, IP + UDP + n)
  {
    TemplateWords(IP + UDP + t, IpChecksum(c, IP + UDP + t), IP + UDP + n);
    PatchIsExact(c, IP + UDP + t, IP + UDP + n);
  }

  lemma {:induction false} TemplateWords(t: nat, k: nat, tot: nat)
    requires t < U16 && k < U16 && tot < U16
    ensures WordAt(BeBytes(t, 2), 0) == BeWord(t) && WordAt(BeBytes(tot, 2), 0) == BeWord(tot)
    ensures WordAt(LeBytes(k, 2), 0) == k
  {}

  lemma {:induction false} LayoutFields(c: Config, tot: seq<byte>, chk: seq<byte>, len: seq<byte>, uchk: seq<byte>)
    requires ConfigOk(c) && |tot| == |chk| == |len| == |uchk| == 2
    ensures var h := Layout(c, tot, chk, len, uchk);
            h[16..18] == tot && h[24..26] == chk
  {}

  lemma {:induction false} UdpSegment(c: Config, payload: seq<byte>, f: seq<byte>)
    requires ConfigOk(c) && |f| == HDR + |payload| && f[..HDR] == Headers(c, |payload|) && f[HDR..] == payload
    ensures f[ETH + IP..] == UdpHeader(c, UDP + |payload|, 0) + payload
  {}

  lemma {:induction false} PseudoSum(c: Config, len: nat)
    requires ConfigOk(c) && len < U16
    ensures WordSum(PseudoHeader(c, len)) == WordSum(c.srcIp) + WordSum(c.dstIp) + 17 * 256 + BeWord(len)
    ensures WordSum(PseudoHeader(c, len)) <= 6 * ONES
  {
    var p: seq<byte> := [0, 17];
    WordSumConcat(c.srcIp + c.dstIp + p, BeBytes(len, 2));
    WordSumConcat(c.srcIp + c.dstIp, p);
    WordSumConcat(c.srcIp, c.dstIp);
    assert p[2..] == [];
    BePairSum(len);
    WordSumBound(PseudoHeader(c, len));
  }

  // The sum of at most a frame of bytes on top of a small one, folded.
  method FoldedSum(segment: seq<byte>, seed: nat) returns (f: nat)
    requires |segment| <= FRAME && seed <= 6 * ONES
    ensures f == Fold(seed + WordSum(segment))
  {
    WordSumBound(segment);
    var sum := LaneParallelSum(segment, seed);
    f := FoldLoop(sum);
  }

  // The UDP checksum of afxdp_tx_send, over the bytes in the frame.
  method UdpChecksumOf(c: Config, len: nat, segment: seq<byte>) returns (k: nat)
    requires ConfigOk(c) && len < U16 && |segment| <= FRAME
    ensures k == SegmentCheck(c, len, segment)
  {
    PseudoSum(c, len);
    var f := FoldedSum(segment, WordSum(c.srcIp) + WordSum(c.dstIp) + 17 * 256 + BeWord(len));
    k := ONES - f;
    if k == 0 { k := ONES; }
  }

  // The last store: the UDP checksum.
  method StampUdp(frame: array<byte>, c: Config, n: nat, check: nat)
    requires ConfigOk(c) && frame.Length == FRAME && n <= MAX_PAYLOAD && frame[..HDR] == Headers(c, n)
    modifies frame
    ensures frame[..HDR] == EthHeader(c) + IpHeader(c, IP + UDP + n, IpChecksum(c, IP + UDP + n))
            + UdpHeader(c, UDP + n, check)
    ensures frame[HDR..] == old(frame[HDR..])
  {
    ghost var ip := IpChecksum(c, IP + UDP + n);
    ghost var tot, chk, len := BeBytes(IP + UDP + n, 2), LeBytes(ip, 2), BeBytes(UDP + n, 2);
    LayoutIsHeaders(c, IP + UDP + n, ip, UDP + n, 0);
    Patch(frame, 40, LeBytes(check, 2), Layout(c, tot, chk, len, LeBytes(0, 2)));
    PatchUchk(c, tot, chk, len, LeBytes(0, 2), LeBytes(check, 2));
    LayoutIsHeaders(c, IP + UDP + n, ip, UDP + n, check);
  }

  // Copy the payload behind the patched headers and checksum the datagram.
  method FillPayload(frame: array<byte>, c: Config, payload: seq<byte>)
    requires ConfigOk(c) && frame.Length == FRAME && |payload| <= MAX_PAYLOAD && frame[..HDR] == Headers(c, |payload|)
    modifies frame
    ensures frame[..HDR + |payload|] == Datagram(c, payload)
  {
    var n := |payload|;
    ghost var head := frame[..HDR];
    CopyInto(frame, HDR, payload);
    ghost var f := frame[..HDR + n];
    assert f[..HDR] == head && f[HDR..] == payload && frame[..HDR] == head;
    UdpSegment(c, payload, f);
    assert frame[ETH + IP..HDR + n] == f[ETH + IP..];
    var check := UdpChecksumOf(c, UDP + n, frame[ETH + IP..HDR + n]);
    ghost var tail := frame[HDR..];
    assert tail[..n] == payload;
    StampUdp(frame, c, n, check);
    assert frame[HDR..HDR + n] == frame[HDR..][..n];
    assert frame[..HDR + n] == frame[..HDR] + frame[HDR..HDR + n];
  }

  // afxdp_tx_send up to the descriptor: exactly the frame with checksums computed from scratch. `t` is
  // the length the template was laid out for.
  method FillFrame(frame: array<byte>, template: array<byte>, c: Config, payload: seq<byte>, ghost t: nat)
    returns (ok: bool)
    requires ConfigOk(c) && frame.Length == FRAME && template.Length == FRAME && frame != template
    requires t <= MAX_PAYLOAD && template[..HDR] == Headers(c, t)
    modifies frame
    ensures ok <==> 1 <= |payload| <= MAX_PAYLOAD
    ensures ok ==> frame[..HDR + |payload|] == Datagram(c, payload)
  {
    ok := 1 <= |payload| <= MAX_PAYLOAD;
    if ok {
      CopyInto(frame, 0, template[..HDR]);
      assert frame[..HDR] == template[..HDR];
      PatchHeaders(frame, c, |payload|, t);
      FillPayload(frame, c, payload);
    }
  }
}
