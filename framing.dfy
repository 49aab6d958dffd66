/** The TCP transport's private framing: a 4-byte big-endian payload length
    followed by the payload. `Parser` splits coalesced and partial packets,
    keeping the bytes of an incomplete frame per session until later calls
    complete it. The length arithmetic of the Go parser is 32-bit unsigned
    and is reproduced here; `SplitFrames` is the same splitter with the
    comparison done without wrap-around. */
module Framing {
  import opened Types

  const Two32: int := 0x1_0000_0000

  // ---------------------------------------------------------------------
  // Big-endian 32-bit integers

  /** `binary.BigEndian.PutUint32`. */
  function BE32(n: int): (b: seq<byte>)
    requires 0 <= n < Two32
    ensures |b| == 4
  {
    [(n / 0x100_0000) as byte, (n / 0x1_0000 % 256) as byte, (n / 256 % 256) as byte, (n % 256) as byte]
  }

  /** `binary.BigEndian.Uint32`. */
  function Decode32(b: seq<byte>): (n: int)
    requires |b| == 4
    ensures 0 <= n < Two32
  {
    b[0] as int * 0x100_0000 + b[1] as int * 0x1_0000 + b[2] as int * 256 + b[3] as int
  }

  lemma DecodeEncode(n: int)
    requires 0 <= n < Two32
    ensures Decode32(BE32(n)) == n
  {
    var b := BE32(n);
    var q := n / 256;
    assert n == q * 256 + n % 256;
    var q2 := q / 256;
    assert q == q2 * 256 + q % 256;
    assert n / 0x1_0000 == q2 by {
      assert n == q2 * 0x1_0000 + (q % 256) * 256 + n % 256;
    }
    var q3 := q2 / 256;
    assert q2 == q3 * 256 + q2 % 256;
    assert n / 0x100_0000 == q3 by {
      assert n == q3 * 0x100_0000 + (q2 % 256) * 0x1_0000 + (q % 256) * 256 + n % 256;
    }
    assert b[0] as int == q3 && b[1] as int == q2 % 256 && b[2] as int == q % 256 && b[3] as int == n % 256;
  }

  lemma EncodeDecode(b: seq<byte>)
    requires |b| == 4
    ensures BE32(Decode32(b)) == b
  {
    var n := Decode32(b);
    DecodedBytes(b);
    var e := BE32(n);
    assert e[0] == b[0] && e[1] == b[1] && e[2] == b[2] && e[3] == b[3];
  }

  /** Each byte of a header can be read back from the value it encodes. */
  lemma DecodedBytes(b: seq<byte>)
    requires |b| == 4
    ensures var n := Decode32(b);
            && n / 0x100_0000 == b[0] as int && n / 0x1_0000 % 256 == b[1] as int
            && n / 256 % 256 == b[2] as int && n % 256 == b[3] as int
  {
    var x0, x1, x2, x3 := b[0] as int, b[1] as int, b[2] as int, b[3] as int;
    var n := Decode32(b);
    DivExact(n, x0 * 0x1_0000 + x1 * 256 + x2, x3, 256);
    DivExact(n, x0 * 256 + x1, x2 * 256 + x3, 0x1_0000);
    DivExact(n / 0x1_0000, x0, x1, 256);
    DivExact(n / 256, x0 * 256 + x1, x2, 256);
    DivExact(n, x0, x1 * 0x1_0000 + x2 * 256 + x3, 0x100_0000);
  }

  lemma DivExact(n: int, q: int, r: int, d: int)
    requires d == 256 || d == 0x1_0000 || d == 0x100_0000
    requires 0 <= r < d && n == q * d + r
    ensures n / d == q && n % d == r
  {
  }

  // ---------------------------------------------------------------------
  // Packer

  /** `Packer`: the payload length as a 32-bit big-endian header (the length
      truncated to 32 bits, as `uint32(len(data))` does), then the payload.
      It never fails. */
  function Packer(data: seq<byte>): (pkg: seq<byte>)
    ensures |pkg| == 4 + |data|
    ensures Decode32(pkg[..4]) == |data| % Two32
    ensures pkg[4..] == data
  {
    DecodeEncode(|data| % Two32);
    var pkg := BE32(|data| % Two32) + data;
    assert pkg[..4] == BE32(|data| % Two32);
    pkg
  }

  /** The packets of `ds`, one after the other. */
  function Joined(ds: seq<seq<byte>>): (b: seq<byte>)
  {
    if ds == [] then [] else Packer(ds[0]) + Joined(ds[1..])
  }

  /** A buffer that does not yet hold a complete frame. */
  predicate Incomplete(b: seq<byte>)
  {
    |b| < 4 || |b| < 4 + Decode32(b[..4])
  }

  // ---------------------------------------------------------------------
  // The splitter as written

  datatype Frames = Frames(frames: seq<seq<byte>>, rest: seq<byte>)

  /** The result of the parser loop: the frames and the retained bytes, or
      the run-time panic of an out-of-range slice. */
  datatype Parsed = Done(f: Frames) | SlicePanic

  /** The loop of `Parser` with its 32-bit arithmetic: the end of the frame
      is `4 + bodyLen` modulo 2^32 and the buffer length is `uint32(len(buf))`.
      A declared length of 2^32-4 or more wraps the end below 4, the
      comparison lets it through, and `buf[4 : 4+bodyLen]` panics. */
  function SplitAsWritten(buf: seq<byte>): (r: Parsed)
    decreases |buf|
  {
    if |buf| < 4 then Done(Frames([], buf))
    else
      var bodyLen := Decode32(buf[..4]);
      var end := (4 + bodyLen) % Two32;
      if |buf| % Two32 < end then Done(Frames([], buf))
      else if end < 4 then SlicePanic
      else
        var tail := SplitAsWritten(buf[end..]);
        if tail.SlicePanic? then SlicePanic
        else Done(Frames([buf[4..end]] + tail.f.frames, tail.f.rest))
  }

  /** The smallest input on which the parser panics: a header declaring
      2^32-1 bytes. The splitter without wrap-around keeps it as an
      incomplete frame. */
  lemma OversizedHeaderPanics()
    ensures SplitAsWritten([255, 255, 255, 255]) == SlicePanic
    ensures SplitFrames([255, 255, 255, 255]) == Frames([], [255, 255, 255, 255])
  {
    var b: seq<byte> := [255, 255, 255, 255];
    assert b[..4] == b;
    assert Decode32(b) == Two32 - 1;
  }

  /** `Parser` with its per-session carry-over buffer. */
  class PkgProto {
    var poolBuf: map<string, seq<byte>>

    constructor ()
      ensures poolBuf == map[]
    {
      poolBuf := map[];
    }

    /** The bytes kept for `sid`, none for a new session. */
    function Pending(sid: string): seq<byte>
      reads this
    {
      if sid in poolBuf then poolBuf[sid] else []
    }

    /** `Parser(sid, bt)`: splits the kept bytes followed by `bt`, returns
        the complete payloads in order and keeps the rest for `sid`. It never
        returns an error; on the slice panic (`crash`) only the creation of
        an empty entry for a new session has happened. */
    method Parser(sid: string, bt: seq<byte>) returns (datas: seq<seq<byte>>, crash: bool)
      modifies this
      ensures var r := SplitAsWritten(old(Pending(sid)) + bt);
              && (crash <==> r.SlicePanic?)
              && (!crash ==> datas == r.f.frames && poolBuf == old(poolBuf)[sid := r.f.rest])
              && (crash ==> poolBuf == old(poolBuf)[sid := old(Pending(sid))])
    {
      var preBuf := Pending(sid);
      if sid !in poolBuf {
        poolBuf := poolBuf[sid := preBuf];
      }
      var buf := preBuf + bt;
      ghost var goal := SplitAsWritten(buf);
      datas := [];
      crash := false;
      while true
        invariant poolBuf == old(poolBuf)[sid := preBuf]
        invariant goal.SlicePanic? <==> SplitAsWritten(buf).SlicePanic?
        invariant SplitAsWritten(buf).Done? ==>
                    goal.f == Frames(datas + SplitAsWritten(buf).f.frames, SplitAsWritten(buf).f.rest)
        decreases |buf|
      {
        if |buf| < 4 {
          break;
        }
        var bodyLen := Decode32(buf[..4]);
        var end := (4 + bodyLen) % Two32;
        if |buf| % Two32 < end {
          break;
        }
        if end < 4 {
          crash := true;
          return;
        }
        AsWrittenNext(buf);
        var tail := SplitAsWritten(buf[end..]);
        if tail.Done? {
          AppendAssoc(datas, [buf[4..end]], tail.f.frames);
        }
        datas := datas + [buf[4..end]];
        buf := buf[end..];
      }
      assert SplitAsWritten(buf) == Done(Frames([], buf));
      assert datas + [] == datas;
      poolBuf := poolBuf[sid := buf];
      assert poolBuf == old(poolBuf)[sid := buf];
    }

    /** `Parser` with the frame end computed without 32-bit wrap-around: a
        frame whose declared end lies beyond the buffer is kept, whatever
        its length. It never panics. */
    method ParserChecked(sid: string, bt: seq<byte>) returns (datas: seq<seq<byte>>)
      modifies this
      ensures var r := SplitFrames(old(Pending(sid)) + bt);
              datas == r.frames && poolBuf == old(poolBuf)[sid := r.rest]
    {
      var buf := Pending(sid) + bt;
      ghost var goal := SplitFrames(buf);
      datas := [];
      while |buf| >= 4 && 4 + Decode32(buf[..4]) <= |buf|
        invariant poolBuf == old(poolBuf)
        invariant goal == Frames(datas + SplitFrames(buf).frames, SplitFrames(buf).rest)
        decreases |buf|
      {
        var end := 4 + Decode32(buf[..4]);
        SplitFramesStep(buf);
        AppendAssoc(datas, [buf[4..end]], SplitFrames(buf[end..]).frames);
        datas := datas + [buf[4..end]];
        buf := buf[end..];
      }
      assert SplitFrames(buf) == Frames([], buf);
      assert datas + [] == datas;
      poolBuf := poolBuf[sid := buf];
    }
  }

  /** One frame taken off by the parser as written. */
  lemma AsWrittenNext(buf: seq<byte>)
    requires |buf| >= 4
    requires var end := (4 + Decode32(buf[..4])) % Two32; |buf| % Two32 >= end >= 4
    ensures var end := (4 + Decode32(buf[..4])) % Two32;
            var tail := SplitAsWritten(buf[end..]);
            && (SplitAsWritten(buf).SlicePanic? <==> tail.SlicePanic?)
            && (tail.Done? ==> SplitAsWritten(buf).f == Frames([buf[4..end]] + tail.f.frames, tail.f.rest))
  {
  }

  lemma AppendAssoc<T>(a: seq<T>, b: seq<T>, c: seq<T>)
    ensures a + (b + c) == (a + b) + c
  {
  }

  // ---------------------------------------------------------------------
  // The splitter without wrap-around

  /** Splits `buf` into complete frames and the incomplete remainder, with
      the frame end compared without 32-bit wrap-around. */
  function SplitFrames(buf: seq<byte>): Frames
    decreases |buf|
  {
    if |buf| < 4 then Frames([], buf)
    else
      var end := 4 + Decode32(buf[..4]);
      if |buf| < end then Frames([], buf)
      else
        var tail := SplitFrames(buf[end..]);
        Frames([buf[4..end]] + tail.frames, tail.rest)
  }

  /** What the splitter keeps is an incomplete frame, and every payload it
      returns fits the 32-bit length header. */
  lemma {:induction false} SplitFramesShape(buf: seq<byte>)
    ensures Incomplete(SplitFrames(buf).rest)
    ensures forall k :: 0 <= k < |SplitFrames(buf).frames| ==> |SplitFrames(buf).frames[k]| < Two32
    decreases |buf|
  {
    if |buf| >= 4 && |buf| >= 4 + Decode32(buf[..4]) {
      var end := 4 + Decode32(buf[..4]);
      SplitFramesShape(buf[end..]);
      var tail := SplitFrames(buf[end..]);
      assert SplitFrames(buf) == Frames([buf[4..end]] + tail.frames, tail.rest);
    }
  }

  /** Lossless: the frames, packed again, followed by the kept bytes give
      back the input. */
  lemma {:induction false} SplitLossless(buf: seq<byte>)
    ensures Joined(SplitFrames(buf).frames) + SplitFrames(buf).rest == buf
    decreases |buf|
  {
    if |buf| >= 4 && |buf| >= 4 + Decode32(buf[..4]) {
      var end := 4 + Decode32(buf[..4]);
      var x, rest := buf[4..end], buf[end..];
      PackerOfHeader(buf, end);
      assert buf == Packer(x) + rest;
      SplitHead(x, rest);
      SplitLossless(rest);
      var t := SplitFrames(rest);
      assert ([x] + t.frames)[1..] == t.frames;
      assert Joined([x] + t.frames) + t.rest == Packer(x) + (Joined(t.frames) + t.rest);
    }
  }

  /** A complete frame at the head of `buf` is the packet of its payload. */
  lemma PackerOfHeader(buf: seq<byte>, end: int)
    requires |buf| >= 4 && end == 4 + Decode32(buf[..4]) <= |buf|
    ensures Packer(buf[4..end]) == buf[..end]
  {
    var f := buf[4..end];
    EncodeDecode(buf[..4]);
    assert |f| % Two32 == |f|;
    assert Packer(f)[..4] == buf[..4];
    assert Packer(f)[4..] == f;
  }

  /** Frames packed one after the other, followed by an incomplete packet,
      split back into exactly those frames and that packet. */
  lemma {:induction false} SplitJoined(ds: seq<seq<byte>>, rest: seq<byte>)
    requires forall k :: 0 <= k < |ds| ==> |ds[k]| < Two32
    requires Incomplete(rest)
    ensures SplitFrames(Joined(ds) + rest) == Frames(ds, rest)
    decreases |ds|
  {
    if ds == [] {
      assert Joined(ds) + rest == rest;
    } else {
      var tail := Joined(ds[1..]) + rest;
      assert Joined(ds) + rest == Packer(ds[0]) + tail;
      SplitHead(ds[0], tail);
      SplitJoined(ds[1..], rest);
      assert [ds[0]] + ds[1..] == ds;
    }
  }

  /** Round trip: one packet splits into its payload, with nothing kept. */
  lemma RoundTrip(d: seq<byte>)
    requires |d| < Two32
    ensures SplitFrames(Packer(d)) == Frames([d], [])
  {
    assert Joined([d]) + [] == Packer(d);
    SplitJoined([d], []);
  }

  /** Coalesced packets split into their payloads, in order. */
  lemma Coalesced(d1: seq<byte>, d2: seq<byte>)
    requires |d1| < Two32 && |d2| < Two32
    ensures SplitFrames(Packer(d1) + Packer(d2)) == Frames([d1, d2], [])
  {
    assert [d1, d2][1..] == [d2] && [d2][1..] == [];
    assert Joined([d2]) == Packer(d2) + [];
    assert Joined([d1, d2]) == Packer(d1) + Packer(d2);
    assert Joined([d1, d2]) + [] == Packer(d1) + Packer(d2);
    SplitJoined([d1, d2], []);
  }

  /** Splitting in two calls, with the bytes kept by the first prepended to
      the second, gives the frames of splitting the whole input at once: a
      partial packet is completed by a later call. */
  lemma {:induction false} SplitChunked(a: seq<byte>, b: seq<byte>)
    ensures ChunkedAgree(a, b)
    decreases |a|
  {
    if |a| >= 4 && |a| >= 4 + Decode32(a[..4]) {
      SplitChunked(a[4 + Decode32(a[..4])..], b);
      ChunkedStep(a, b);
    } else {
      assert SplitFrames(a) == Frames([], a);
      assert [] + SplitFrames(a + b).frames == SplitFrames(a + b).frames;
    }
  }

  /** Splitting `a` then the kept bytes followed by `b`, or `a + b` at once,
      gives the same frames and keeps the same bytes. */
  predicate ChunkedAgree(a: seq<byte>, b: seq<byte>)
  {
    var r1 := SplitFrames(a);
    var r2 := SplitFrames(r1.rest + b);
    SplitFrames(a + b) == Frames(r1.frames + r2.frames, r2.rest)
  }

  lemma ChunkedStep(a: seq<byte>, b: seq<byte>)
    requires |a| >= 4 && |a| >= 4 + Decode32(a[..4])
    requires ChunkedAgree(a[4 + Decode32(a[..4])..], b)
    ensures ChunkedAgree(a, b)
  {
    var end := 4 + Decode32(a[..4]);
    SplitFramesStep(a);
    SplitAt(a, b, end);
    var t1 := SplitFrames(a[end..]);
    ConsAssoc(a[4..end], t1.frames, SplitFrames(t1.rest + b).frames);
  }

  lemma ConsAssoc<T>(x: T, p: seq<T>, q: seq<T>)
    ensures [x] + (p + q) == ([x] + p) + q
  {
  }

  /** When `a` starts with a complete frame, so does `a + b`, and the
      splitter takes it off first. */
  lemma SplitAt(a: seq<byte>, b: seq<byte>, end: int)
    requires |a| >= 4 && end == 4 + Decode32(a[..4]) <= |a|
    ensures SplitFrames(a + b) == Frames([a[4..end]] + SplitFrames(a[end..] + b).frames, SplitFrames(a[end..] + b).rest)
  {
    var x, rest := a[4..end], a[end..];
    PackerOfHeader(a, end);
    assert a + b == Packer(x) + (rest + b);
    SplitHead(x, rest + b);
  }

  /** A packet at the head of a buffer splits off as its payload. */
  lemma SplitHead(f: seq<byte>, tail: seq<byte>)
    requires |f| < Two32
    ensures SplitFrames(Packer(f) + tail) == Frames([f] + SplitFrames(tail).frames, SplitFrames(tail).rest)
  {
    var p := Packer(f);
    var buf := p + tail;
    assert buf[..4] == p[..4];
    assert |f| % Two32 == |f|;
    assert 4 + Decode32(buf[..4]) == |p|;
    assert buf[4..|p|] == f;
    assert buf[|p|..] == tail;
  }

  /** The splitter on a buffer that starts with a complete frame. */
  lemma SplitFramesStep(buf: seq<byte>)
    requires |buf| >= 4 && 4 + Decode32(buf[..4]) <= |buf|
    ensures var end := 4 + Decode32(buf[..4]);
            SplitFrames(buf) == Frames([buf[4..end]] + SplitFrames(buf[end..]).frames, SplitFrames(buf[end..]).rest)
  {
  }

  /** On buffers shorter than 2^32 the parser as written and the splitter
      without wrap-around agree, except where the former panics. */
  lemma {:induction false} AsWrittenAgrees(buf: seq<byte>)
    requires |buf| < Two32
    ensures SplitAsWritten(buf).Done? ==> SplitAsWritten(buf).f == SplitFrames(buf)
    decreases |buf|
  {
    if |buf| >= 4 {
      var e := 4 + Decode32(buf[..4]);
      if e >= Two32 {
        WrappedEndPanics(buf);
      } else if |buf| < e {
        ShortAgrees(buf);
      } else {
        AsWrittenUnfold(buf);
        SplitFramesStep(buf);
        AsWrittenAgrees(buf[e..]);
      }
    }
  }

  /** A declared length whose frame end wraps past 2^32 makes the parser as
      written panic on any buffer shorter than 2^32. */
  lemma WrappedEndPanics(buf: seq<byte>)
    requires 4 <= |buf| < Two32 && 4 + Decode32(buf[..4]) >= Two32
    ensures SplitAsWritten(buf) == SlicePanic
  {
    Wrapped(4 + Decode32(buf[..4]));
    Below(|buf|);
  }

  /** An incomplete frame is kept whole by both splitters. */
  lemma ShortAgrees(buf: seq<byte>)
    requires 4 <= |buf| < 4 + Decode32(buf[..4]) < Two32
    ensures SplitAsWritten(buf) == Done(SplitFrames(buf)) == Done(Frames([], buf))
  {
    Below(4 + Decode32(buf[..4]));
    Below(|buf|);
  }

  /** The parser as written on a buffer starting with a complete frame whose
      end does not wrap. */
  lemma AsWrittenUnfold(buf: seq<byte>)
    requires 4 <= |buf| < Two32 && 4 + Decode32(buf[..4]) <= |buf|
    ensures var e := 4 + Decode32(buf[..4]);
            var t := SplitAsWritten(buf[e..]);
            SplitAsWritten(buf) == if t.SlicePanic? then SlicePanic else Done(Frames([buf[4..e]] + t.f.frames, t.f.rest))
  {
    Below(4 + Decode32(buf[..4]));
    Below(|buf|);
  }

  /** Packets whose payloads stay below 2^32-4 bytes never make the parser
      panic: it returns their payloads and keeps nothing. */
  lemma ParserRoundTrip(ds: seq<seq<byte>>)
    requires forall k :: 0 <= k < |ds| ==> |ds[k]| + 4 < Two32
    requires |Joined(ds)| < Two32
    ensures SplitAsWritten(Joined(ds)) == Done(Frames(ds, []))
  {
    assert Joined(ds) + [] == Joined(ds);
    SplitJoined(ds, []);
    NoPanicBelowLimit(Joined(ds), ds);
    AsWrittenAgrees(Joined(ds));
  }

  /** Whenever the parser as written does not panic on a buffer shorter
      than 2^32, it is lossless and keeps only an incomplete frame. */
  lemma ParserLossless(buf: seq<byte>)
    requires |buf| < Two32 && SplitAsWritten(buf).Done?
    ensures var f := SplitAsWritten(buf).f;
            Joined(f.frames) + f.rest == buf && Incomplete(f.rest)
  {
    AsWrittenAgrees(buf);
    SplitLossless(buf);
    SplitFramesShape(buf);
  }

  lemma {:induction false} NoPanicBelowLimit(buf: seq<byte>, ds: seq<seq<byte>>)
    requires forall k :: 0 <= k < |ds| ==> |ds[k]| + 4 < Two32
    requires buf == Joined(ds) && |buf| < Two32
    ensures SplitAsWritten(buf).Done?
    decreases |ds|
  {
    if ds != [] {
      var tail := Joined(ds[1..]);
      PackedHead(ds[0], tail);
      AsWrittenUnfold(buf);
      NoPanicBelowLimit(tail, ds[1..]);
    }
  }

  /** The header of a packet followed by anything declares the packet's
      payload length. */
  lemma PackedHead(d: seq<byte>, tail: seq<byte>)
    requires |d| < Two32
    ensures var buf := Packer(d) + tail;
            && |buf| >= 4 && 4 + Decode32(buf[..4]) == 4 + |d| <= |buf|
            && buf[4..4 + |d|] == d && buf[4 + |d|..] == tail
  {
    var p := Packer(d);
    var buf := p + tail;
    assert buf[..4] == p[..4];
    Below(|d|);
    assert buf[4..|p|] == p[4..];
    assert buf[|p|..] == tail;
  }

  lemma Wrapped(x: int)
    requires Two32 <= x < 2 * Two32
    ensures x % Two32 == x - Two32
  {
  }

  lemma Below(x: int)
    requires 0 <= x < Two32
    ensures x % Two32 == x
  {
  }

}
