/** Fixed-size frames cut from a byte stream that arrives in arbitrary chunks: the carry-over loops of
    the order receiver and the order sender, and the observer's loop, which skips a byte whenever the
    next one does not open a frame. */
module Streams {
  import opened Bytes

  // ---------- decoding a whole stream at once ----------

  // The frames of `n` bytes found in `s`, starting at a byte that `opens` one and skipping others.
  function Frames(s: seq<byte>, n: nat, opens: byte -> bool): seq<seq<byte>>
    requires n > 0
    decreases |s|
  {
    if |s| < n then []
    else if !opens(s[0]) then Frames(s[1..], n, opens)
    else [s[..n]] + Frames(s[n..], n, opens)
  }

  // The bytes left over.
  function Rest(s: seq<byte>, n: nat, opens: byte -> bool): (r: seq<byte>)
    requires n > 0
    ensures |r| < n
    decreases |s|
  {
    if |s| < n then s
    else if !opens(s[0]) then Rest(s[1..], n, opens)
    else Rest(s[n..], n, opens)
  }

  // Decoding a stream in two parts, carrying the rest of the first over, is decoding it at once.
  lemma {:induction false} FramesConcat(a: seq<byte>, b: seq<byte>, n: nat, opens: byte -> bool)
    requires n > 0
    ensures Frames(a + b, n, opens) == Frames(a, n, opens) + Frames(Rest(a, n, opens) + b, n, opens)
    ensures Rest(a + b, n, opens) == Rest(Rest(a, n, opens) + b, n, opens)
    decreases |a|
  {
    if |a| >= n {
      if !opens(a[0]) {
        assert (a + b)[1..] == a[1..] + b;
        FramesConcat(a[1..], b, n, opens);
      } else {
        assert (a + b)[..n] == a[..n];
        assert (a + b)[n..] == a[n..] + b;
        FramesConcat(a[n..], b, n, opens);
      }
    }
  }

  // Decoding from `off`: a byte that opens no frame is skipped, and a frame is cut off whole.
  lemma {:induction false} FramesStep(s: seq<byte>, off: nat, n: nat, opens: byte -> bool)
    requires 0 < n && off + n <= |s|
    ensures !opens(s[off]) ==> Frames(s[off..], n, opens) == Frames(s[off + 1..], n, opens)
                               && Rest(s[off..], n, opens) == Rest(s[off + 1..], n, opens)
    ensures opens(s[off]) ==> Frames(s[off..], n, opens) == [s[off..off + n]] + Frames(s[off + n..], n, opens)
                              && Rest(s[off..], n, opens) == Rest(s[off + n..], n, opens)
  {
    var t := s[off..];
    assert t[0] == s[off] && t[1..] == s[off + 1..];
    assert t[..n] == s[off..off + n] && t[n..] == s[off + n..];
  }

  // A frame in front is found whole, and bytes that open none are passed over, whatever follows.
  lemma {:induction false} FrameInFront(f: seq<byte>, s: seq<byte>, n: nat, opens: byte -> bool)
    requires 0 < n == |f| && opens(f[0])
    ensures Frames(f + s, n, opens) == [f] + Frames(s, n, opens) && Rest(f + s, n, opens) == Rest(s, n, opens)
  {
    assert (f + s)[..n] == f && (f + s)[n..] == s;
  }

  lemma {:induction false} JunkSkipped(junk: seq<byte>, s: seq<byte>, n: nat, opens: byte -> bool)
    requires 0 < n && forall i :: 0 <= i < |junk| ==> !opens(junk[i])
    ensures Frames(junk + s, n, opens) == Frames(s, n, opens)
    decreases |junk|
  {
    if junk == [] {
      assert junk + s == s;
    } else {
      assert (junk + s)[1..] == junk[1..] + s;
      JunkSkipped(junk[1..], s, n, opens);
    }
  }

  // ---------- the loops ----------

  // A buffer the loops read into: `bytes[..used]` waits to be decoded.
  class StreamBuffer {
    const bytes: array<byte>
    var used: nat
    ghost var stream: seq<byte>        // everything received since the last clear

    const size: nat                    // bytes per frame
    const opens: byte -> bool

    ghost predicate Valid()
      reads this, bytes
    {
      0 < size && used <= bytes.Length
    }

    // What is buffered is what decoding the whole stream leaves over.
    ghost predicate Synced()
      reads this, bytes
    {
      Valid() && bytes[..used] == Rest(stream, size, opens)
    }

    constructor (capacity: nat, size: nat, opens: byte -> bool)
      requires 0 < size
      ensures Synced() && stream == [] && fresh(bytes) && bytes.Length == capacity
      ensures this.size == size && this.opens == opens
    {
      bytes := new byte[capacity](i => 0);
      this.size, this.opens := size, opens;
      used, stream := 0, [];
    }

    // clear_stream, at a connection's start or end
    method Clear()
      requires Valid()
      modifies this`used, this`stream
      ensures Synced() && stream == []
    {
      used, stream := 0, [];
    }

    // append_bytes: a chunk that does not fit evicts what was buffered, and only its tail is kept.
    method Append(data: seq<byte>)
      requires Valid()
      modifies bytes, this`used
      ensures Valid()
      ensures bytes[..used] ==
              if old(used) + |data| <= bytes.Length then old(bytes[..used]) + data
              else if |data| <= bytes.Length then data
              else data[|data| - bytes.Length..]
    {
      var d := data;
      if used + |d| > bytes.Length {
        used := 0;
        if |d| > bytes.Length { d := d[|d| - bytes.Length..]; }
      }
      CopyInto(bytes, used, d);
      used := used + |d|;
    }

    // The scan of the drain loop: the frames in the buffer and where the rest starts.
    method Scan() returns (frames: seq<seq<byte>>, off: nat)
      requires Valid()
      ensures frames == Frames(bytes[..used], size, opens)
      ensures off <= used < off + size && bytes[off..used] == Rest(bytes[..used], size, opens)
    {
      off, frames := 0, [];
      ghost var s := bytes[..used];
      assert s[0..] == s;
      while used - off >= size
        invariant off <= used
        invariant Frames(s, size, opens) == frames + Frames(s[off..], size, opens)
        invariant Rest(s, size, opens) == Rest(s[off..], size, opens)
      {
        FramesStep(s, off, size, opens);
        if !opens(bytes[off]) {
          off := off + 1;
        } else {
          ArraySlice(bytes, used, off, off + size);
          Assoc(frames, [bytes[off..off + size]], Frames(s[off + size..], size, opens));
          frames := frames + [bytes[off..off + size]];
          off := off + size;
        }
      }
      ArraySlice(bytes, used, off, used);
    }

    // The drain loop: emit every frame in the buffer and move the rest to the front.
    method Drain() returns (frames: seq<seq<byte>>)
      requires Valid()
      modifies bytes, this`used
      ensures Valid() && frames == Frames(old(bytes[..used]), size, opens)
      ensures bytes[..used] == Rest(old(bytes[..used]), size, opens) && used < size
    {
      var off;
      frames, off := Scan();
      var left := bytes[off..used];
      CopyInto(bytes, 0, left);
      used := |left|;
    }

    // One chunk. Without an overflow the frames it yields are exactly those the longer stream has over
    // the shorter one.
    method Feed(data: seq<byte>) returns (frames: seq<seq<byte>>)
      requires Synced() && used + |data| <= bytes.Length
      modifies this, bytes
      ensures Synced() && stream == old(stream) + data
      ensures Frames(stream, size, opens) == Frames(old(stream), size, opens) + frames
    {
      FramesConcat(stream, data, size, opens);
      Append(data);
      frames := Drain();
      stream := stream + data;
    }
  }

  // What a run of chunks yields, whatever the chunking, is what the whole stream holds.
  function Flatten(chunks: seq<seq<byte>>): seq<byte> {
    if chunks == [] then [] else Flatten(chunks[..|chunks| - 1]) + chunks[|chunks| - 1]
  }

  method FeedAll(b: StreamBuffer, chunks: seq<seq<byte>>) returns (frames: seq<seq<byte>>)
    requires b.Synced() && b.stream == []
    requires forall i :: 0 <= i < |chunks| ==>
                           |Rest(Flatten(chunks[..i]), b.size, b.opens)| + |chunks[i]| <= b.bytes.Length
    modifies b, b.bytes
    ensures frames == Frames(Flatten(chunks), b.size, b.opens)
  {
    frames := [];
    assert chunks[..0] == [];
    for k := 0 to |chunks|
      invariant b.Synced() && b.stream == Flatten(chunks[..k])
      invariant frames == Frames(b.stream, b.size, b.opens)
    {
      assert chunks[..k + 1][..k] == chunks[..k];
      var more := b.Feed(chunks[k]);
      frames := frames + more;
    }
    assert chunks[..|chunks|] == chunks;
  }
}
