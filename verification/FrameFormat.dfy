/** The frame formats both ways: what the receiver parses is a feed frame and nothing else is, and what the sender
    lays out is read back field by field and parsed to its payload. */
module FrameFormat {
  import opened Bytes
  import opened FrameFilter
  import AfxdpTx

  // ---------- the receiver accepts feed frames only ----------

  predicate TagsOk(tags: seq<Tag>) { forall k :: 0 <= k < |tags| ==> TagOk(tags[k]) }

  // The tags the walk passes over, read back from the frame.
  lemma {:induction false} TagsOf(f: seq<byte>, at: nat, k: nat) returns (tags: seq<Tag>)
    requires 2 <= at <= |f| && Strip(f, Word16(f, at - 2), at, k).Inner?
    ensures TagsOk(tags)
    ensures var i := Strip(f, Word16(f, at - 2), at, k);
            at <= i.at <= |f| && i.tags == k + |tags| && f[at - 2..i.at] == Link(tags, i.proto)
    decreases |f| - at
  {
    var proto := Word16(f, at - 2);
    Net16Inverse(f, at - 2);
    tags := [];
    if IsVlan(proto) {
      var rest := TagsOf(f, at + 4, k + 1);
      var t := Tag(proto, f[at..at + 2]);
      tags := [t] + rest;
      assert tags[1..] == rest;
      var i := Strip(f, proto, at, k);
      assert f[at - 2..i.at] == f[at - 2..at] + f[at..at + 2] + f[at + 2..i.at];
    }
  }

  // The network header in front of the UDP header.
  lemma {:induction false} NetworkOf(f: seq<byte>, proto: nat, at: nat) returns (n: Network)
    requires UdpAt(f, proto, at).Some? && UdpAt(f, proto, at).value <= |f|
    ensures at <= UdpAt(f, proto, at).value
    ensures NetworkOk(n) && EtherType(n) == proto && n.head == f[at..UdpAt(f, proto, at).value]
  {
    var h := f[at..UdpAt(f, proto, at).value];
    n := if proto == 0x0800 then V4(h) else V6(h);
  }

  // The UDP header and payload from `u` on.
  lemma {:induction false} DatagramOf(f: seq<byte>, u: nat)
    requires u + UDP <= |f| && Word16(f, u + 2) == FEED_PORT
    ensures f[u..] == Net16(Word16(f, u)) + Net16(FEED_PORT) + f[u + 4..u + UDP] + f[u + UDP..]
  {
    Net16Inverse(f, u);
    Net16Inverse(f, u + 2);
  }

  lemma {:induction false} SplitAt(f: seq<byte>, a: nat, b: nat, c: nat)
    requires a <= b <= c <= |f|
    ensures f == f[..a] + f[a..b] + (f[b..c] + f[c..])
  {}

  // Whatever the receiver takes for feed payload comes in a frame of the feed: addresses, VLAN tags, an IPv4 or
  // IPv6 header for UDP, and a UDP header to the feed port. With FeedFrameParsed: it parses exactly those.
  lemma {:induction false} ParsedIsFeedFrame(f: seq<byte>)
    returns (macs: seq<byte>, tags: seq<Tag>, n: Network, src: nat, lenAndSum: seq<byte>)
    requires Payload(f).Some?
    ensures |macs| == 12 && TagsOk(tags) && NetworkOk(n) && |lenAndSum| == 4
    ensures f == FeedFrame(macs, tags, n, src, lenAndSum, f[Payload(f).value..])
  {
    var i := InnerOf(f);
    var u := UdpAt(f, i.proto, i.at).value;
    macs, src, lenAndSum := f[..12], Word16(f, u), f[u + 4..u + UDP];
    tags := TagsOf(f, 14, 0);
    n := NetworkOf(f, i.proto, i.at);
    DatagramOf(f, u);
    SplitAt(f, 12, i.at, u);
  }

  // ---------- the sender's frames ----------

  lemma {:induction false} BeIsNet(n: nat)
    requires n < U16
    ensures BeBytes(n, 2) == Net16(n)
  {
    assert BeBytes(n, 2) == BeBytes(n / 256, 1) + [(n % 256) as byte];
    assert BeBytes(n / 256, 1) == BeBytes(n / 256 / 256, 0) + [(n / 256 % 256) as byte];
  }

  lemma {:induction false} Placed(eth: seq<byte>, ip: seq<byte>, udp: seq<byte>, payload: seq<byte>)
    requires |eth| == AfxdpTx.ETH && |ip| == AfxdpTx.IP && |udp| == AfxdpTx.UDP
    ensures var f := eth + ip + udp + payload;
            f[..14] == eth && f[14..34] == ip && f[34..42] == udp && f[42..] == payload
  {}

  lemma {:induction false} Within(f: seq<byte>, i: nat, j: nat, p: nat, q: nat)
    requires i <= j <= |f| && p <= q <= j - i
    ensures f[i + p..i + q] == f[i..j][p..q]
  {
    var a := f[i..j];
    assert |a| == j - i;
    forall k | 0 <= k < q - p ensures f[i + p..i + q][k] == a[p..q][k] { assert a[p + k] == f[i + (p + k)]; }
    assert |f[i + p..i + q]| == |a[p..q]|;
  }

  lemma {:induction false} IpFields(c: AfxdpTx.Config, totLen: nat, check: nat)
    requires AfxdpTx.ConfigOk(c) && totLen < U16
    ensures var h := AfxdpTx.IpHeader(c, totLen, check);
            && h[0] == 0x45 && h[2..4] == Net16(totLen) && h[9] == 17 && h[12..16] == c.srcIp && h[16..20] == c.dstIp
  {
    BeIsNet(totLen);
    SixParts([0x45, 0], BeBytes(totLen, 2), [0, 0, 0, 0, 64, 17], LeBytes(check, 2), c.srcIp, c.dstIp);
  }

  lemma {:induction false} SixParts(a: seq<byte>, b: seq<byte>, c: seq<byte>, d: seq<byte>, e: seq<byte>, g: seq<byte>)
    requires |a| == |b| == |d| == 2 && |c| == 6 && |e| == |g| == 4
    ensures var h := a + b + c + d + e + g;
            h[0] == a[0] && h[2..4] == b && h[9] == c[5] && h[12..16] == e && h[16..20] == g
  {
    var h := a + b + c + d + e + g;
    assert h[2..4] == b;
    assert h[12..16] == e;
    assert h[16..20] == g;
  }

  lemma {:induction false} UdpFields(c: AfxdpTx.Config, len: nat, check: nat)
    requires AfxdpTx.ConfigOk(c) && len < U16
    ensures var h := AfxdpTx.UdpHeader(c, len, check);
            h[0..2] == Net16(c.srcPort) && h[2..4] == Net16(c.dstPort) && h[4..6] == Net16(len)
  {
    BeIsNet(c.srcPort);
    BeIsNet(c.dstPort);
    BeIsNet(len);
    FourParts(BeBytes(c.srcPort, 2), BeBytes(c.dstPort, 2), BeBytes(len, 2), LeBytes(check, 2));
  }

  lemma {:induction false} FourParts(a: seq<byte>, b: seq<byte>, c: seq<byte>, d: seq<byte>)
    requires |a| == |b| == |c| == |d| == 2
    ensures var h := a + b + c + d; h[0..2] == a && h[2..4] == b && h[4..6] == c
  {
    var h := a + b + c + d;
    assert h[0..2] == a;
    assert h[2..4] == b;
    assert h[4..6] == c;
  }

  lemma {:induction false} EthFields(c: AfxdpTx.Config)
    requires AfxdpTx.ConfigOk(c)
    ensures var h := AfxdpTx.EthHeader(c); h[..6] == c.dstMac && h[6..12] == c.srcMac && h[12..14] == Net16(0x0800)
  {
    ThreeParts(c.dstMac, c.srcMac, [0x08, 0x00]);
  }

  lemma {:induction false} ThreeParts(a: seq<byte>, b: seq<byte>, c: seq<byte>)
    requires |a| == |b| == 6 && |c| == 2
    ensures var h := a + b + c; h[..6] == a && h[6..12] == b && h[12..14] == c
  {
    var h := a + b + c;
    assert h[..6] == a;
    assert h[6..12] == b;
    assert h[12..14] == c;
  }

  // A frame as it goes out holds each field where Ethernet, IPv4 and UDP put it.
  lemma {:induction false} HeaderFields(c: AfxdpTx.Config, payload: seq<byte>)
    requires AfxdpTx.ConfigOk(c) && |payload| <= AfxdpTx.MAX_PAYLOAD
    ensures var f := AfxdpTx.Datagram(c, payload);
            && |f| == AfxdpTx.HDR + |payload| && f[AfxdpTx.HDR..] == payload
            && f[..14][..6] == c.dstMac && f[..14][6..12] == c.srcMac && f[12..14] == Net16(0x0800)
            && f[14] == 0x45 && f[16..18] == Net16(AfxdpTx.IP + AfxdpTx.UDP + |payload|) && f[23] == 17
            && f[26..30] == c.srcIp && f[30..34] == c.dstIp
            && f[34..36] == Net16(c.srcPort) && f[36..38] == Net16(c.dstPort)
            && f[38..40] == Net16(AfxdpTx.UDP + |payload|)
  {
    var tot, len := AfxdpTx.IP + AfxdpTx.UDP + |payload|, AfxdpTx.UDP + |payload|;
    var chk, uchk := AfxdpTx.IpChecksum(c, tot), AfxdpTx.UdpCheck(c, payload);
    Laid(AfxdpTx.EthHeader(c), AfxdpTx.IpHeader(c, tot, chk), AfxdpTx.UdpHeader(c, len, uchk), payload);
    IpFields(c, tot, chk);
    UdpFields(c, len, uchk);
    EthFields(c);
  }

  lemma {:induction false} Laid(eth: seq<byte>, ip: seq<byte>, udp: seq<byte>, payload: seq<byte>)
    requires |eth| == AfxdpTx.ETH && |ip| == AfxdpTx.IP && |udp| == AfxdpTx.UDP
    ensures var f := eth + ip + udp + payload;
            && |f| == AfxdpTx.HDR + |payload| && f[42..] == payload && f[..14] == eth && f[12..14] == eth[12..14]
            && f[14] == ip[0] && f[16..18] == ip[2..4] && f[23] == ip[9] && f[26..30] == ip[12..16]
            && f[30..34] == ip[16..20] && f[34..36] == udp[0..2] && f[36..38] == udp[2..4] && f[38..40] == udp[4..6]
  {
    var f := eth + ip + udp + payload;
    Placed(eth, ip, udp, payload);
    Within(f, 0, 14, 12, 14);
    Within(f, 14, 34, 2, 4);
    Within(f, 14, 34, 12, 16);
    Within(f, 14, 34, 16, 20);
    Within(f, 34, 42, 0, 2);
    Within(f, 34, 42, 2, 4);
    Within(f, 34, 42, 4, 6);
  }

  // The receiver takes its payload for feed payload if and only if it goes to the feed port.
  lemma {:induction false} SentIsParsed(c: AfxdpTx.Config, payload: seq<byte>)
    requires AfxdpTx.ConfigOk(c) && |payload| <= AfxdpTx.MAX_PAYLOAD
    ensures Payload(AfxdpTx.Datagram(c, payload)) == if c.dstPort == FEED_PORT then Some(AfxdpTx.HDR) else None
    ensures AfxdpTx.Datagram(c, payload)[AfxdpTx.HDR..] == payload
  {
    var f := AfxdpTx.Datagram(c, payload);
    HeaderFields(c, payload);
    WordNet16(f, 12, 0x0800);
    WordNet16(f, 36, c.dstPort);
    assert InnerOf(f) == Inner(0x0800, 14, 0);
    assert UdpAt(f, 0x0800, 14) == Some(34);
  }
}
