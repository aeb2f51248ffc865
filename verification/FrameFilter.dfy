/** Which Ethernet frames carry the feed: the kernel-side filter and the receiver's own parser. */
module FrameFilter {
  import opened Bytes
  import Mold

  const FEED_PORT: nat := 5000
  const ETH: nat := 14
  const UDP: nat := 8
  const REF: nat := 32             // sizeof(packet_ref), stamped over the start of the frame

  predicate IsVlan(proto: nat) { proto == 0x8100 || proto == 0x88A8 }

  // ---------- what the two agree on ----------

  // The EtherType below all VLAN tags, where it starts and the number of tags.
  datatype Inner = Short | Inner(proto: nat, at: nat, tags: nat)

  function Strip(f: seq<byte>, proto: nat, at: nat, tags: nat): Inner
    decreases |f| - at
  {
    if !IsVlan(proto) then Inner(proto, at, tags)
    else if |f| < at + 4 then Short
    else Strip(f, Word16(f, at + 2), at + 4, tags + 1)
  }

  function InnerOf(f: seq<byte>): Inner {
    if |f| < ETH then Short else Strip(f, Word16(f, 12), ETH, 0)
  }

  // Where the UDP header of a UDP datagram starts.
  function UdpAt(f: seq<byte>, proto: nat, at: nat): Option<nat> {
    if proto == 0x0800 then
      if |f| < at + 20 || f[at + 9] != 17 || f[at] % 16 < 5 then None else Some(at + f[at] as nat % 16 * 4)
    else if proto == 0x86DD then
      if |f| < at + 40 || f[at + 6] != 17 then None else Some(at + 40)
    else None
  }

  // The offset of the feed payload, if the frame carries one.
  function Payload(f: seq<byte>): (r: Option<nat>)
    ensures r.Some? ==> r.value <= |f|
  {
    var i := InnerOf(f);
    if i.Short? then None
    else
      var u := UdpAt(f, i.proto, i.at);
      if u.None? || |f| < u.value + UDP || Word16(f, u.value + 2) != FEED_PORT then None else Some(u.value + UDP)
  }

  lemma {:induction false} StripAt(f: seq<byte>, proto: nat, at: nat, tags: nat)
    ensures var i := Strip(f, proto, at, tags); i.Inner? ==> i.at >= at && i.tags >= tags
    decreases |f| - at
  {
    if IsVlan(proto) && |f| >= at + 4 { StripAt(f, Word16(f, at + 2), at + 4, tags + 1); }
  }

  // The payload lies past the first 42 bytes, so stamping the 32-byte reference over the start of the
  // frame leaves it whole.
  lemma {:induction false} StampKeepsPayload(f: seq<byte>, stamp: seq<byte>)
    requires Payload(f).Some? && |stamp| == REF
    ensures Payload(f).value >= 42 && (stamp + f[REF..])[Payload(f).value..] == f[Payload(f).value..]
  {
    StripAt(f, Word16(f, 12), ETH, 0);
  }

  // ---------- the code ----------

  // The receiver: any number of tags.
  method ExtractFeedPayload(f: seq<byte>) returns (r: Option<nat>)
    ensures r == Payload(f)
  {
    if |f| >= ETH {
      var offset, proto := ETH, Word16(f, 12);
      ghost var tags := 0;
      while IsVlan(proto)
        invariant InnerOf(f) == Strip(f, proto, offset, tags)
        decreases |f| - offset
      {
        if |f| < offset + 4 { return None; }
        proto := Word16(f, offset + 2);
        offset := offset + 4;
        tags := tags + 1;
      }
      if proto == 0x0800 {
        if |f| < offset + 20 { return None; }
        var ihl := f[offset] as nat % 16 * 4;
        if ihl < 20 || |f| < offset + ihl + UDP { return None; }
        if f[offset + 9] != 17 { return None; }
        offset := offset + ihl;
        if Word16(f, offset + 2) != FEED_PORT { return None; }
        return Some(offset + UDP);
      }
      if proto == 0x86DD {
        if |f| < offset + 40 + UDP { return None; }
        if f[offset + 6] != 17 { return None; }
        offset := offset + 40;
        if Word16(f, offset + 2) != FEED_PORT { return None; }
        return Some(offset + UDP);
      }
      return None;
    }
    // The raw-IP fallback needs 20 bytes, so no frame reaches it.
    if |f| >= 20 { assert false; }
    return None;
  }

  // The kernel filter: at most two tags. It passes exactly the frames the receiver parses that have no more.
  method IsUdpFeed(f: seq<byte>) returns (ok: bool)
    ensures ok <==> Payload(f).Some? && InnerOf(f).tags <= 2
  {
    if ETH > |f| { return false; }
    var proto: nat, next: nat := Word16(f, 12), ETH;
    var i := 0;
    while i < 2
      invariant 0 <= i <= 2
      invariant InnerOf(f) == Strip(f, proto, next, i)
    {
      if !IsVlan(proto) { break; }
      if next + 4 > |f| { return false; }
      proto := Word16(f, next + 2);
      next := next + 4;
      i := i + 1;
    }
    if IsVlan(proto) {
      if next + 4 <= |f| { StripAt(f, Word16(f, next + 2), next + 4, 3); }
      return false;
    }
    if proto == 0x0800 {
      if next + 20 > |f| { return false; }
      if f[next + 9] != 17 { return false; }
      var ihl := f[next] as nat % 16 * 4;
      if ihl < 20 { return false; }
      if next + ihl > |f| { return false; }
      if next + ihl + UDP > |f| { return false; }
      return Word16(f, next + ihl + 2) == FEED_PORT;
    }
    if proto == 0x86DD {
      if next + 40 > |f| { return false; }
      if f[next + 6] != 17 { return false; }
      if next + 40 + UDP > |f| { return false; }
      return Word16(f, next + 40 + 2) == FEED_PORT;
    }
    return false;
  }

  // ---------- frames as they are put together ----------

  datatype Tag = Tag(proto: nat, control: seq<byte>)

  // An IPv4 header with its options, or an IPv6 header.
  datatype Network = V4(head: seq<byte>) | V6(head: seq<byte>)

  predicate TagOk(t: Tag) { IsVlan(t.proto) && |t.control| == 2 }

  predicate NetworkOk(n: Network) {
    match n
    case V4(h) => |h| >= 20 && |h| == h[0] as nat % 16 * 4 && h[9] == 17
    case V6(h) => |h| == 40 && h[6] == 17
  }

  function EtherType(n: Network): nat { if n.V4? then 0x0800 else 0x86DD }

  // What follows the addresses: each tag is its EtherType and two control bytes.
  function Link(tags: seq<Tag>, last: nat): seq<byte>
    requires forall k :: 0 <= k < |tags| ==> TagOk(tags[k])
    decreases |tags|
  {
    if tags == [] then Net16(last) else Net16(tags[0].proto) + tags[0].control + Link(tags[1..], last)
  }

  // The walk over the tags ends where they end.
  lemma {:induction false} StripLink(f: seq<byte>, front: seq<byte>, tags: seq<Tag>, n: Network, rest: seq<byte>,
                                     k: nat)
    requires forall j :: 0 <= j < |tags| ==> TagOk(tags[j])
    requires f == front + Link(tags, EtherType(n)) + rest
    ensures |front| + 2 <= |f|
    ensures Strip(f, Word16(f, |front|), |front| + 2, k) == Inner(EtherType(n), |f| - |rest|, k + |tags|)
    decreases |tags|
  {
    if tags == [] {
      assert f[|front|..|front| + 2] == Net16(EtherType(n));
      WordNet16(f, |front|, EtherType(n));
    } else {
      var t := tags[0];
      var front' := front + Net16(t.proto) + t.control;
      assert f == front' + Link(tags[1..], EtherType(n)) + rest;
      StripLink(f, front', tags[1..], n, rest, k + 1);
      assert f[|front|..|front| + 2] == Net16(t.proto);
      WordNet16(f, |front|, t.proto);
    }
  }

  lemma {:induction false} NetworkAt(f: seq<byte>, at: nat, n: Network, tail: seq<byte>)
    requires NetworkOk(n) && at <= |f| && f[at..] == n.head + tail
    ensures UdpAt(f, EtherType(n), at) == Some(at + |n.head|) && f[at + |n.head|..] == tail
  {}

  lemma {:induction false} PortAt(f: seq<byte>, u: nat, src: nat, lenAndSum: seq<byte>, payload: seq<byte>)
    requires u <= |f| && |lenAndSum| == 4 && f[u..] == Net16(src) + Net16(FEED_PORT) + lenAndSum + payload
    ensures |f| >= u + UDP && Word16(f, u + 2) == FEED_PORT && f[u + UDP..] == payload
  {}

  // A UDP frame to the feed port.
  function FeedFrame(macs: seq<byte>, tags: seq<Tag>, n: Network, src: nat, lenAndSum: seq<byte>,
                     payload: seq<byte>): seq<byte>
    requires forall j :: 0 <= j < |tags| ==> TagOk(tags[j])
  {
    macs + Link(tags, EtherType(n)) + (n.head + (Net16(src) + Net16(FEED_PORT) + lenAndSum + payload))
  }

  // Whatever its tags and options, it is parsed to its payload.
  lemma {:induction false} FeedFrameParsed(macs: seq<byte>, tags: seq<Tag>, n: Network, src: nat, lenAndSum: seq<byte>,
                                           payload: seq<byte>)
    requires |macs| == 12 && NetworkOk(n) && |lenAndSum| == 4
    requires forall j :: 0 <= j < |tags| ==> TagOk(tags[j])
    ensures var f := FeedFrame(macs, tags, n, src, lenAndSum, payload);
            && Payload(f).Some? && f[Payload(f).value..] == payload
            && InnerOf(f).tags == |tags|
  {
    var datagram := Net16(src) + Net16(FEED_PORT) + lenAndSum + payload;
    var f := macs + Link(tags, EtherType(n)) + (n.head + datagram);
    StripLink(f, macs, tags, n, n.head + datagram, 0);
    var at := |f| - |n.head + datagram|;
    assert f[at..] == n.head + datagram;
    NetworkAt(f, at, n, datagram);
    PortAt(f, at + |n.head|, src, lenAndSum, payload);
  }

  // The bytes behind the packets of the receiver: a frame around a packet of the feed parses to that
  // packet, and once the reference is stamped over its start the consumer still reads the packet's
  // message blocks where the reference points.
  lemma {:induction false} FrameCarriesPacket(macs: seq<byte>, tags: seq<Tag>, n: Network, src: nat,
                                              lenAndSum: seq<byte>,
                                              session: seq<byte>, p: Mold.Packet, stamp: seq<byte>)
    requires |macs| == 12 && NetworkOk(n) && |lenAndSum| == 4 && |session| == 10 && |stamp| == REF
    requires forall j :: 0 <= j < |tags| ==> TagOk(tags[j])
    requires p.start < U64 && p.count < U16
    ensures var f := FeedFrame(macs, tags, n, src, lenAndSum, Mold.Encode(session, p));
            && Payload(f).Some? && Mold.Parse(f[Payload(f).value..]) == Some(p)
            && Payload(f).value + Mold.HEADER <= |f|
            && (stamp + f[REF..])[Payload(f).value + Mold.HEADER..] == p.body
  {
    var payload := Mold.Encode(session, p);
    var f := FeedFrame(macs, tags, n, src, lenAndSum, payload);
    FeedFrameParsed(macs, tags, n, src, lenAndSum, payload);
    Mold.ParseEncode(session, p);
    StampKeepsPayload(f, stamp);
    BodyAfter(stamp + f[REF..], Payload(f).value, session, p);
  }

  lemma {:induction false} BodyAfter(g: seq<byte>, at: nat, session: seq<byte>, p: Mold.Packet)
    requires |session| == 10 && at <= |g| && g[at..] == Mold.Encode(session, p)
    ensures at + Mold.HEADER <= |g| && g[at + Mold.HEADER..] == p.body
  {
    assert g[at + Mold.HEADER..] == g[at..][Mold.HEADER..];
  }
}
