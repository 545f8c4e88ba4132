/** The media frame on the wire: a 16-bit body length, a counter, a presentation time, the cipher text and its tag.
    The streamers write and read it; the daemon reads it on the way through. */
module Framing {
  import opened Bytes

  const TAG_LEN := 16
  const OVERHEAD := 34
  const MAX_PAYLOAD := 65503
  const MIN_BODY := 32

  datatype Frame = Frame(counter: nat, pts: nat, cipher: Bytes, tag: Bytes)

  predicate FrameOk(f: Frame) {
    f.counter < TWO_TO_64 && f.pts < TWO_TO_64 && |f.cipher| <= MAX_PAYLOAD && |f.tag| == TAG_LEN
  }

  /** The wire form, with the length in full. */
  function Wire(f: Frame): Bytes {
    BigEndian(2, MIN_BODY + |f.cipher|) + (BigEndian(8, f.counter) + (BigEndian(8, f.pts) + (f.cipher + f.tag)))
  }

  function WireAll(fs: seq<Frame>): Bytes { if fs == [] then [] else Wire(fs[0]) + WireAll(fs[1..]) }

  /** Where one read ends, and what is left of the stream. */
  datatype Outcome = End | Bad | Got(frame: Frame)

  function BodyLen(s: Bytes): nat
    requires |s| >= 2
  {
    BeValue(s[..2])
  }

  predicate HasFrame(s: Bytes) { |s| >= 2 && BodyLen(s) >= MIN_BODY && |s| >= 2 + BodyLen(s) }

  function FrameAt(s: Bytes): Frame
    requires HasFrame(s)
  {
    var n := BodyLen(s) - MIN_BODY;
    Frame(BeValue(s[2..10]), BeValue(s[10..18]), s[18..18 + n], s[18 + n..18 + n + TAG_LEN])
  }

  /** What the streamer's reader makes of a stream. */
  function StreamerRead(s: Bytes, failing: bool, cap: nat): (Outcome, Bytes) {
    if s == [] && !failing then (End, [])
    else if |s| < 2 then (Bad, [])
    else if BodyLen(s) < MIN_BODY || BodyLen(s) - MIN_BODY > cap || BodyLen(s) - MIN_BODY > MAX_PAYLOAD then
      (Bad, s[2..])
    else if |s| < 2 + BodyLen(s) then (Bad, [])
    else (Got(FrameAt(s)), s[2 + BodyLen(s)..])
  }

  datatype DaemonOutcome =
    | CleanEnd
    | HeaderError
    | ParseError(consumed: Bytes)
    | BodyError(atEnd: bool)
    | Whole(bytes: Bytes, counter: nat, pts: nat)

  /** What the daemon's reader makes of it. */
  function DaemonRead(s: Bytes, failing: bool): (DaemonOutcome, Bytes) {
    if s == [] && !failing then (CleanEnd, [])
    else if |s| < 2 then (HeaderError, [])
    else if BodyLen(s) < MIN_BODY then (ParseError(s[..2]), s[2..])
    else if |s| < 2 + BodyLen(s) then (BodyError(|s| == 2 && !failing), [])
    else (Whole(s[..2 + BodyLen(s)], BeValue(s[2..10]), BeValue(s[10..18])), s[2 + BodyLen(s)..])
  }

  // ---------- round trip ----------

  lemma TwoByteRange(v: nat)
    requires v <= MIN_BODY + MAX_PAYLOAD
    ensures BeValue(BigEndian(2, v)) == v
  {
    assert Pow256(1) == 256 && Pow256(2) == 65536;
    BeRoundTrip(2, v);
  }

  lemma EightByteRange(v: nat)
    requires v < TWO_TO_64
    ensures BeValue(BigEndian(8, v)) == v
  {
    Pow256Eight(8);
    BeRoundTrip(8, v);
  }

  /** A written frame is read back whole, whatever follows it: the length never wraps, up to the largest payload. */
  lemma WireReadsBack(f: Frame, tail: Bytes)
    requires FrameOk(f)
    ensures HasFrame(Wire(f) + tail) && FrameAt(Wire(f) + tail) == f && 2 + BodyLen(Wire(f) + tail) == |Wire(f)|
  {
    hide BeValue, BigEndian;
    var s := Wire(f) + tail;
    TwoByteRange(MIN_BODY + |f.cipher|);
    EightByteRange(f.counter);
    EightByteRange(f.pts);
    assert s[..2] == BigEndian(2, MIN_BODY + |f.cipher|);
    assert s[2..10] == BigEndian(8, f.counter);
    assert s[10..18] == BigEndian(8, f.pts);
    assert s[18..18 + |f.cipher|] == f.cipher;
    assert s[18 + |f.cipher|..18 + |f.cipher| + TAG_LEN] == f.tag;
  }

  /** Only a written frame reads as one. */
  lemma ReadIsWire(s: Bytes)
    requires HasFrame(s)
    ensures FrameOk(FrameAt(s)) && Wire(FrameAt(s)) == s[..2 + BodyLen(s)]
  {
    hide BeValue, BigEndian, Pow256;
    var n := BodyLen(s) - MIN_BODY;
    BeUnique(s[..2]);
    BeUnique(s[2..10]);
    BeUnique(s[10..18]);
    Pow256Eight(8);
    Pow256Two();
    BeBound(s[..2]);
    BeBound(s[2..10]);
    BeBound(s[10..18]);
    assert s[..18 + n + TAG_LEN] == s[..2] + (s[2..10] + (s[10..18] + (s[18..18 + n] + s[18 + n..18 + n + TAG_LEN])));
  }

  lemma Pow256Two()
    ensures Pow256(2) == 65536
  {
    assert Pow256(1) == 256;
  }

  lemma BeBound(s: Bytes)
    ensures BeValue(s) < Pow256(|s|)
  {
  }

  /** The frames a reader gets from a stream until it stops, and whether it stopped at a clean end. */
  function ReadAll(s: Bytes, failing: bool): (seq<Frame>, bool)
    decreases |s|
  {
    match StreamerRead(s, failing, MAX_PAYLOAD)
    case (End, _) => ([], true)
    case (Bad, _) => ([], false)
    case (Got(f), rest) => var (fs, clean) := ReadAll(rest, failing); ([f] + fs, clean)
  }

  /** A stream of written frames reads as just those frames. */
  lemma {:induction false} StreamReadsBack(fs: seq<Frame>)
    requires forall f | f in fs :: FrameOk(f)
    ensures ReadAll(WireAll(fs), false) == (fs, true)
  {
    if fs != [] {
      hide Wire, FrameAt, BodyLen, HasFrame, StreamerRead;
      var s, rest := WireAll(fs), WireAll(fs[1..]);
      WireReadsBack(fs[0], rest);
      FoundFrame(s, false);
      assert s[|Wire(fs[0])|..] == rest;
      assert StreamerRead(s, false, MAX_PAYLOAD) == (Got(fs[0]), rest);
      StreamReadsBack(fs[1..]);
      assert [fs[0]] + fs[1..] == fs;
    }
  }

  lemma FoundFrame(s: Bytes, failing: bool)
    requires HasFrame(s)
    ensures StreamerRead(s, failing, MAX_PAYLOAD) == (Got(FrameAt(s)), s[2 + BodyLen(s)..])
    ensures DaemonRead(s, failing) ==
            (Whole(s[..2 + BodyLen(s)], FrameAt(s).counter, FrameAt(s).pts), s[2 + BodyLen(s)..])
  {
    ReadIsWire(s);
  }

  /** Both readers find the same frames, with the same counter and time, and stop at the same places. */
  lemma ReadersAgree(s: Bytes, failing: bool)
    ensures var (a, x) := StreamerRead(s, failing, MAX_PAYLOAD);
            var (b, y) := DaemonRead(s, failing);
            && (a.End? <==> b.CleanEnd?)
            && (a.Got? <==> b.Whole?)
            && (a.Got? ==> FrameOk(a.frame) && b == Whole(Wire(a.frame), a.frame.counter, a.frame.pts) && x == y)
            && (!a.Got? ==> x == y)
  {
    hide Wire;
    if |s| >= 2 {
      Pow256Two();
      BeBound(s[..2]);
      if HasFrame(s) { ReadIsWire(s); FoundFrame(s, failing); }
    }
  }

  /** Where the readers stop, byte for byte: at a clean end only when nothing follows, and otherwise for the first
      reason that applies. */
  lemma StopsAre(s: Bytes, failing: bool, cap: nat)
    ensures var out, known := StreamerRead(s, failing, cap).0, |s| >= 2;
            && (out.End? <==> |s| == 0 && !failing)
            && (out.Got? <==> known && 32 <= BodyLen(s) <= |s| - 2 && BodyLen(s) - 32 <= cap)
    ensures var (out, rest) := DaemonRead(s, failing);
            && (out.CleanEnd? <==> |s| == 0 && !failing)
            && (out.HeaderError? <==> |s| == 1 || (|s| == 0 && failing))
            && (out.ParseError? <==> |s| >= 2 && BodyLen(s) < 32)
            && (out.ParseError? ==> out.consumed == s[..2] && rest == s[2..])
            && (out.BodyError? <==> |s| >= 2 && BodyLen(s) >= 32 && BodyLen(s) > |s| - 2)
            && (out.BodyError? ==> (out.atEnd <==> |s| == 2 && !failing))
            && (out.Whole? <==> |s| >= 2 && 32 <= BodyLen(s) <= |s| - 2)
  {
    hide BeValue;
    if |s| >= 2 {
      Pow256Two();
      BeBound(s[..2]);
    }
  }

  /** The frames read are the front of the stream, and what follows them is no frame; the end is clean exactly when
      nothing follows and the stream does not end in an error. */
  lemma {:induction false} ReadAllIs(s: Bytes, failing: bool) returns (t: Bytes)
    ensures var (fs, clean) := ReadAll(s, failing);
            && s == WireAll(fs) + t && !HasFrame(t)
            && (forall f | f in fs :: FrameOk(f))
            && (clean <==> t == [] && !failing)
    decreases |s|
  {
    hide Wire, FrameAt;
    if HasFrame(s) {
      FoundFrame(s, failing);
      ReadIsWire(s);
      var f, rest := FrameAt(s), s[2 + BodyLen(s)..];
      t := ReadAllIs(rest, failing);
      var (fs, clean) := ReadAll(rest, failing);
      assert ([f] + fs)[1..] == fs;
      assert s == Wire(f) + (WireAll(fs) + t) == (Wire(f) + WireAll(fs)) + t;
    } else {
      StopsAre(s, failing, MAX_PAYLOAD);
      t := s;
      assert s == [] + s;
    }
  }

  // ---------- the pass-through copy ----------

  /** What is copied out of a stream: whole frames, and after a parse error everything. */
  function Copied(s: Bytes, failing: bool): Bytes
    decreases |s|
  {
    match DaemonRead(s, failing)
    case (ParseError(c), rest) => c + rest
    case (Whole(b, _, _), rest) => b + Copied(rest, failing)
    case _ => []
  }

  /** Not even a header, or a good header with too little behind it. */
  predicate TruncatedFrame(t: Bytes) { |t| < 2 || (BodyLen(t) >= MIN_BODY && |t| < 2 + BodyLen(t)) }

  /** Every byte is copied in order except, at most, one truncated frame at the end. */
  lemma {:induction false} CopyLosesOnlyTail(s: Bytes, failing: bool)
    ensures exists t :: s == Copied(s, failing) + t && TruncatedFrame(t)
    decreases |s|
  {
    hide DaemonRead, TruncatedFrame;
    DaemonPieces(s, failing);
    var (out, rest) := DaemonRead(s, failing);
    match out
    case ParseError(c) =>
      assert s == Copied(s, failing) + [] && TruncatedFrame([]) by { NothingTruncated(); }
    case Whole(b, _, _) =>
      CopyLosesOnlyTail(rest, failing);
      var t :| rest == Copied(rest, failing) + t && TruncatedFrame(t);
      assert Copied(s, failing) == b + Copied(rest, failing);
      assert s == b + (Copied(rest, failing) + t) == (b + Copied(rest, failing)) + t;
    case _ =>
      assert s == Copied(s, failing) + s;
  }

  /** A truncated frame is no frame, and not one with too small a length. */
  lemma TruncatedIff(t: Bytes)
    ensures TruncatedFrame(t) <==> !HasFrame(t) && (|t| >= 2 ==> 32 <= BeValue(t[..2]))
  {
  }

  lemma NothingTruncated()
    ensures TruncatedFrame([])
  {
  }

  /** The daemon's reader takes the stream apart without losing bytes, or finds a truncated frame. */
  lemma DaemonPieces(s: Bytes, failing: bool)
    ensures var (out, rest) := DaemonRead(s, failing);
            && (out.ParseError? ==> s == out.consumed + rest)
            && (out.Whole? ==> s == out.bytes + rest && |rest| < |s|)
            && (!out.ParseError? && !out.Whole? ==> TruncatedFrame(s))
  {
    hide BodyLen;
  }
}

/** The writer and the readers themselves, over streams that deliver their bytes in pieces of any size. */
module FrameIo {
  import opened Bytes
  import opened Framing

  /** A stream to read: what is still to come, and whether it ends in an error. */
  class Source {
    var rest: Bytes
    const failing: bool

    constructor (data: Bytes, failing: bool)
      ensures rest == data && this.failing == failing
    {
      rest, this.failing := data, failing;
    }

    /** Some bytes, at least one if there are any. */
    method Read(max: nat) returns (piece: Bytes)
      requires max > 0
      modifies this`rest
      ensures piece + rest == old(rest) && |piece| <= max && (piece == [] <==> old(rest) == [])
    {
      if rest == [] {
        return [];
      }
      var k :| 1 <= k <= max && k <= |rest|;
      piece, rest := rest[..k], rest[k..];
    }
  }

  /** Reads until n bytes are there or the stream is over. The count is -1 for an error or an end in between. */
  method ReadExact(src: Source, n: nat) returns (got: int, buf: Bytes)
    modifies src`rest
    ensures |old(src.rest)| >= n ==> got == n && buf == old(src.rest)[..n] && src.rest == old(src.rest)[n..]
    ensures |old(src.rest)| < n ==> src.rest == [] && got == if old(src.rest) == [] && !src.failing then 0 else -1
  {
    buf := [];
    while |buf| < n
      invariant buf + src.rest == old(src.rest) && |buf| <= n
      decreases n - |buf|
    {
      ghost var before := buf;
      var piece := src.Read(n - |buf|);
      assert before + (piece + src.rest) == before + piece + src.rest;
      if piece == [] {
        got := if |buf| == 0 && !src.failing then 0 else -1;
        return;
      }
      buf := buf + piece;
    }
    got := n;
  }

  /** The value in eight bytes from position at on, most significant first. */
  method WriteBe(out: array<Byte>, at: nat, n: nat, value: nat)
    requires at + n <= out.Length
    modifies out
    ensures out[..] == old(out[..])[..at] + BigEndian(n, value) + old(out[..])[at + n..]
  {
    var v := value;
    var i := n;
    while i > 0
      invariant 0 <= i <= n
      invariant BigEndian(n, value) == BigEndian(i, v) + out[..][at + i..at + n]
      invariant out[..][..at + i] == old(out[..])[..at + i] && out[..][at + n..] == old(out[..])[at + n..]
    {
      i := i - 1;
      ghost var was := out[..];
      out[at + i] := v % 256;
      assert out[..] == was[at + i := v % 256];
      assert out[..][at + i..at + n] == [v % 256] + was[at + i + 1..at + n];
      assert BigEndian(i + 1, v) == BigEndian(i, v / 256) + [v % 256];
      v := v / 256;
    }
    assert out[..] == out[..][..at] + out[..][at..at + n] + out[..][at + n..];
  }

  method CopyIn(out: array<Byte>, at: nat, data: Bytes)
    requires at + |data| <= out.Length
    modifies out
    ensures out[..] == old(out[..])[..at] + data + old(out[..])[at + |data|..]
  {
    for i := 0 to |data|
      invariant out[..][at..at + i] == data[..i]
      invariant out[..][..at] == old(out[..])[..at] && out[..][at + i..] == old(out[..])[at + i..]
    {
      ghost var was := out[..];
      out[at + i] := data[i];
      assert out[..] == was[at + i := data[i]];
      assert out[..][at..at + i + 1] == was[at..at + i] + [data[i]];
    }
    assert out[..] == out[..][..at] + out[..][at..at + |data|] + out[..][at + |data|..];
  }

  /** Writes a frame at the start of the buffer. Nothing is written for a payload that is too long or a buffer that
      is too small. */
  method EncodeFrame(f: Frame, out: array<Byte>) returns (total: nat)
    requires |f.tag| == TAG_LEN
    modifies out
    ensures total == if |f.cipher| > MAX_PAYLOAD || out.Length < OVERHEAD + |f.cipher| then 0 else OVERHEAD + |f.cipher|
    ensures total == 0 ==> out[..] == old(out[..])
    ensures total > 0 ==> out[..] == Wire(f) + old(out[..])[total..]
  {
    hide BigEndian;
    if |f.cipher| > MAX_PAYLOAD {
      return 0;
    }
    total := OVERHEAD + |f.cipher|;
    if out.Length < total {
      return 0;
    }
    ghost var was := out[..];
    var bodyLen := (8 + 8 + |f.cipher| + TAG_LEN) % 65536;
    var n := |f.cipher|;
    WriteBe(out, 0, 2, bodyLen);
    WriteBe(out, 2, 8, f.counter);
    WriteBe(out, 10, 8, f.pts);
    CopyIn(out, 18, f.cipher);
    CopyIn(out, 18 + n, f.tag);
    Assembled(was, out[..], f, BigEndian(2, bodyLen));
  }

  /** The five pieces one after the other are the wire form. */
  lemma Assembled(was: Bytes, now: Bytes, f: Frame, head: Bytes)
    requires |f.tag| == TAG_LEN && |was| >= OVERHEAD + |f.cipher| && head == BigEndian(2, MIN_BODY + |f.cipher|)
    requires var n := |f.cipher|;
             var s1 := was[..0] + head + was[2..];
             var s2 := s1[..2] + BigEndian(8, f.counter) + s1[10..];
             var s3 := s2[..10] + BigEndian(8, f.pts) + s2[18..];
             var s4 := s3[..18] + f.cipher + s3[18 + n..];
             now == s4[..18 + n] + f.tag + s4[18 + n + TAG_LEN..]
    ensures now == Wire(f) + was[OVERHEAD + |f.cipher|..]
  {
    hide BigEndian;
    var n := |f.cipher|;
    var s1 := was[..0] + head + was[2..];
    var c, p := BigEndian(8, f.counter), BigEndian(8, f.pts);
    var s2 := s1[..2] + c + s1[10..];
    assert s1[..2] == head && s1[10..] == was[10..];
    var s3 := s2[..10] + p + s2[18..];
    assert s2[..10] == head + c && s2[18..] == was[18..];
    var s4 := s3[..18] + f.cipher + s3[18 + n..];
    assert s3[..18] == head + c + p && s3[18 + n..] == was[18 + n..];
    assert s4[..18 + n] == head + c + p + f.cipher && s4[18 + n + TAG_LEN..] == was[18 + n + TAG_LEN..];
    assert head + c + p + f.cipher + f.tag == Wire(f);
  }

  /** The streamer's reader. */
  method ReadFrame(src: Source, cap: nat) returns (out: Outcome)
    modifies src`rest
    ensures (out, src.rest) == StreamerRead(old(src.rest), src.failing, cap)
  {
    hide BeValue;
    ghost var s := src.rest;
    var r, hdr := ReadExact(src, 2);
    if r <= 0 {
      return if r == 0 then End else Bad;
    }
    var bodyLen := BeValue(hdr);
    if bodyLen < MIN_BODY {
      return Bad;
    }
    var n := bodyLen - MIN_BODY;
    if n > cap || n > MAX_PAYLOAD {
      return Bad;
    }
    var meta, cipher, tag: Bytes;
    r, meta := ReadExact(src, 16);
    if r != 16 {
      return Bad;
    }
    assert src.rest == s[18..];
    cipher := [];
    if n > 0 {
      r, cipher := ReadExact(src, n);
      if r != n {
        return Bad;
      }
    }
    assert src.rest == s[18 + n..] && cipher == s[18..18 + n];
    r, tag := ReadExact(src, TAG_LEN);
    if r != TAG_LEN {
      return Bad;
    }
    assert meta[..8] == s[2..10] && meta[8..] == s[10..18] && tag == s[18 + n..18 + n + TAG_LEN];
    out := Got(Frame(BeValue(meta[..8]), BeValue(meta[8..]), cipher, tag));
  }

  /** The daemon's reader; it keeps the frame's bytes as they came. */
  method ReadWhole(src: Source) returns (out: DaemonOutcome)
    modifies src`rest
    ensures (out, src.rest) == DaemonRead(old(src.rest), src.failing)
  {
    hide BeValue;
    ghost var s := src.rest;
    var r, hdr := ReadExact(src, 2);
    if r <= 0 {
      return if r == 0 then CleanEnd else HeaderError;
    }
    var bodyLen := BeValue(hdr);
    if bodyLen < MIN_BODY {
      return ParseError(hdr);
    }
    var body: Bytes;
    r, body := ReadExact(src, bodyLen);
    if r != bodyLen {
      return BodyError(r == 0);
    }
    var buf := hdr + body;
    assert buf == s[..2 + bodyLen] && buf[2..10] == s[2..10] && buf[10..18] == s[10..18];
    out := Whole(buf, BeValue(buf[2..10]), BeValue(buf[10..18]));
  }

  /** A stream to write to, with room for so many bytes before writing fails. */
  class Sink {
    var written: Bytes
    var room: nat

    constructor (room: nat)
      ensures written == [] && this.room == room
    {
      written, this.room := [], room;
    }

    /** A write that fails has written as much as there was room for. */
    method Write(data: Bytes) returns (n: nat, ok: bool)
      modifies this`written, this`room
      ensures ok == (|data| <= old(room)) && n == (if ok then |data| else old(room))
      ensures written == old(written) + data[..n] && room == old(room) - n
    {
      ok := |data| <= room;
      n := if ok then |data| else room;
      written, room := written + data[..n], room - n;
    }
  }

  datatype CopyEnd = Closed | ReadFailed | WriteFailed

  /** Copies frames on as they come, and after a parse error whatever else comes. The count is the number of bytes
      written; they are the first bytes to be copied, and all of them unless a write fails. */
  method CopyFrames(dst: Sink, src: Source) returns (total: nat, end: CopyEnd)
    modifies dst`written, dst`room, src`rest
    ensures total <= |Copied(old(src.rest), src.failing)|
    ensures dst.written == old(dst.written) + Copied(old(src.rest), src.failing)[..total]
    ensures end == WriteFailed <==> |Copied(old(src.rest), src.failing)| > old(dst.room)
    ensures end != WriteFailed ==> total == |Copied(old(src.rest), src.failing)|
    ensures end == WriteFailed ==> total == old(dst.room)
  {
    hide DaemonRead, Copied;
    ghost var all := Copied(src.rest, src.failing);
    total := 0;
    assert all[..0] == [] && all[0..] == all;
    while true
      invariant total <= |all| && all[total..] == Copied(src.rest, src.failing)
      invariant dst.written == old(dst.written) + all[..total] && dst.room == old(dst.room) - total
      decreases |src.rest|
    {
      CopiedStep(src.rest, src.failing);
      var out := ReadWhole(src);
      match out {
        case ParseError(consumed) =>
          var n, ok := CopyRest(dst, src, consumed, all, total, old(dst.written));
          return total + n, if !ok then WriteFailed else if src.failing then ReadFailed else Closed;
        case Whole(bytes, _, _) =>
          var n, ok := WriteOn(dst, bytes, all, total, old(dst.written));
          total := total + n;
          if !ok {
            return total, WriteFailed;
          }
        case CleanEnd =>
          return total, Closed;
        case BodyError(atEnd) =>
          return total, if atEnd then Closed else ReadFailed;
        case HeaderError =>
          return total, ReadFailed;
      }
    }
  }

  /** After a parse error: the bytes already read, and then everything still to come. */
  method CopyRest(dst: Sink, src: Source, consumed: Bytes, ghost all: Bytes, ghost total: nat, ghost was: Bytes)
    returns (n: nat, ok: bool)
    requires total <= |all| && all[total..] == consumed + src.rest && dst.written == was + all[..total]
    modifies dst`written, dst`room
    ensures ok == (|all| - total <= old(dst.room)) && n == (if ok then |all| - total else old(dst.room))
    ensures total + n <= |all| && dst.written == was + all[..total + n]
  {
    n, ok := WriteOn(dst, consumed, all, total, was);
    if !ok {
      return;
    }
    var m: nat;
    m, ok := WriteOn(dst, src.rest, all, total + n, was);
    n := n + m;
  }

  lemma CopiedStep(s: Bytes, failing: bool)
    ensures var (out, rest) := DaemonRead(s, failing);
            Copied(s, failing) == (match out
                                   case ParseError(c) => c + rest
                                   case Whole(b, _, _) => b + Copied(rest, failing)
                                   case _ => [])
    ensures DaemonRead(s, failing).0.Whole? ==> |DaemonRead(s, failing).1| < |s|
  {
    hide BodyLen;
  }

  /** Writes the next bytes of a whole of which so many are written. */
  method WriteOn(dst: Sink, data: Bytes, ghost all: Bytes, ghost total: nat, ghost was: Bytes)
    returns (n: nat, ok: bool)
    requires total <= |all| && data <= all[total..] && dst.written == was + all[..total]
    modifies dst`written, dst`room
    ensures ok == (|data| <= old(dst.room)) && n == (if ok then |data| else old(dst.room))
    ensures total + n <= |all| && dst.written == was + all[..total + n] && dst.room == old(dst.room) - n
    ensures ok ==> all[total..][|data|..] == all[total + n..]
  {
    n, ok := dst.Write(data);
    assert data[..n] == all[total..total + n];
    assert all[..total + n] == all[..total] + all[total..total + n];
  }
}
