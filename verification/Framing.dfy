// NetWork/tcpconnection.cpp: length-prefixed framing over a 1024-byte buffer.
module Framing {
  type Byte = b: int | 0 <= b < 256

  const HEAD_SIZE := 8
  const BUFFER_SIZE := 1024

  type Frame = f: seq<Byte> | |f| >= HEAD_SIZE witness [0, 0, 0, 0, 0, 0, 0, 0]

  /** STR_PackHead.Len: the body length, little-endian in the first two bytes of a header. */
  function BodyLength(s: seq<Byte>): (n: nat)
    requires |s| >= HEAD_SIZE
    ensures n < 0x1_0000
  {
    var low: int, high: int := s[0], s[1];
    low + 256 * high
  }

  function FrameSize(s: seq<Byte>): nat
    requires |s| >= HEAD_SIZE
  {
    HEAD_SIZE + BodyLength(s)
  }

  predicate HasFrame(s: seq<Byte>) {
    |s| >= HEAD_SIZE && |s| >= FrameSize(s)
  }

  // ----- Parsing a whole stream at once -----

  function Frames(s: seq<Byte>): seq<Frame>
    decreases |s|
  {
    if HasFrame(s) then [s[..FrameSize(s)]] + Frames(s[FrameSize(s)..]) else []
  }

  function Rest(s: seq<Byte>): (r: seq<Byte>)
    ensures !HasFrame(r)
    decreases |s|
  {
    if HasFrame(s) then Rest(s[FrameSize(s)..]) else s
  }

  function Flatten(parts: seq<seq<Byte>>): seq<Byte> {
    if parts == [] then [] else parts[0] + Flatten(parts[1..])
  }

  lemma SlicesOfSlice(a: array<Byte>, from: nat, mid: nat, end: nat)
    requires from <= mid <= end <= a.Length
    ensures a[from..mid] == a[from..end][..mid - from] && a[mid..end] == a[from..end][mid - from..]
  {
  }

  lemma NextFrame(handled: seq<Frame>, s: seq<Byte>, frames: seq<Frame>, kept: seq<Byte>)
    requires HasFrame(s) && frames == handled + Frames(s) && kept == Rest(s)
    ensures var n := FrameSize(s);
            frames == handled + [s[..n]] + Frames(s[n..]) && kept == Rest(s[n..])
  {
  }

  /** Nothing is lost, repeated or reordered. */
  lemma {:induction false} ParseKeepsBytes(s: seq<Byte>)
    ensures Flatten(Frames(s)) + Rest(s) == s
    decreases |s|
  {
    if HasFrame(s) {
      var tail := s[FrameSize(s)..];
      ParseKeepsBytes(tail);
      assert Frames(s)[1..] == Frames(tail);
      assert s == s[..FrameSize(s)] + tail;
    }
  }

  /** Frames sent back to back come out as they were sent. */
  lemma {:induction false} ParseOfFrames(frames: seq<Frame>)
    requires forall f :: f in frames ==> |f| == FrameSize(f)
    ensures Frames(Flatten(frames)) == frames && Rest(Flatten(frames)) == []
  {
    if frames != [] {
      var f, s := frames[0], Flatten(frames);
      assert s[..|f|] == f && s[|f|..] == Flatten(frames[1..]);
      assert BodyLength(s) == BodyLength(f);
      ParseOfFrames(frames[1..]);
    }
  }

  /** Parsing can stop anywhere and resume with what was left over. */
  lemma {:induction false} ParseResumes(s: seq<Byte>, more: seq<Byte>)
    ensures Frames(s + more) == Frames(s) + Frames(Rest(s) + more)
    ensures Rest(s + more) == Rest(Rest(s) + more)
    decreases |s|
  {
    if HasFrame(s) {
      var n := FrameSize(s);
      assert BodyLength(s + more) == BodyLength(s);
      assert (s + more)[..n] == s[..n] && (s + more)[n..] == s[n..] + more;
      ParseResumes(s[n..], more);
    }
  }

  /** What arrives chunk by chunk: the frames cut so far and the bytes kept. */
  function Incremental(kept: seq<Byte>, chunks: seq<seq<Byte>>): (seq<Frame>, seq<Byte>)
    decreases |chunks|
  {
    if chunks == [] then ([], kept)
    else
      var s := kept + chunks[0];
      var (frames, rest) := Incremental(Rest(s), chunks[1..]);
      (Frames(s) + frames, rest)
  }

  /** Any way of cutting a stream gives the frames and remainder of the whole stream. */
  lemma {:induction false} ChunkingIsIrrelevant(kept: seq<Byte>, chunks: seq<seq<Byte>>)
    requires !HasFrame(kept)
    ensures Incremental(kept, chunks) == (Frames(kept + Flatten(chunks)), Rest(kept + Flatten(chunks)))
    decreases |chunks|
  {
    if chunks == [] {
      assert kept + Flatten(chunks) == kept;
    } else {
      var s := kept + chunks[0];
      ChunkingIsIrrelevant(Rest(s), chunks[1..]);
      ParseResumes(s, Flatten(chunks[1..]));
      assert kept + Flatten(chunks) == s + Flatten(chunks[1..]);
    }
  }

  // ----- Room for the next read -----

  /** Every complete header met while parsing s announces at most `limit` bytes. */
  predicate HeadersWithin(s: seq<Byte>, limit: nat)
    decreases |s|
  {
    |s| < HEAD_SIZE
    || (BodyLength(s) <= limit && (HasFrame(s) ==> HeadersWithin(s[FrameSize(s)..], limit)))
  }

  lemma {:induction false} HeadersWithinPrefix(s: seq<Byte>, more: seq<Byte>, limit: nat)
    requires HeadersWithin(s + more, limit)
    ensures HeadersWithin(s, limit)
    decreases |s|
  {
    if |s| >= HEAD_SIZE {
      assert BodyLength(s + more) == BodyLength(s);
      if HasFrame(s) {
        assert (s + more)[FrameSize(s)..] == s[FrameSize(s)..] + more;
        HeadersWithinPrefix(s[FrameSize(s)..], more, limit);
      }
    }
  }

  lemma RoomLeft(s: seq<Byte>, more: seq<Byte>)
    requires HeadersWithin(s + more, 1016)
    ensures |Rest(s)| < BUFFER_SIZE
  {
    HeadersWithinPrefix(s, more, 1016);
    RestIsShort(s, 1016);
  }

  lemma {:induction false} RestIsShort(s: seq<Byte>, limit: nat)
    requires HeadersWithin(s, limit)
    ensures |Rest(s)| < HEAD_SIZE + limit || |Rest(s)| < HEAD_SIZE
    decreases |s|
  {
    if HasFrame(s) {
      RestIsShort(s[FrameSize(s)..], limit);
    }
  }

  /** With bodies of at most 512 bytes, at most 519 bytes wait in the buffer. */
  lemma RestIsAtMost519(s: seq<Byte>)
    requires HeadersWithin(s, 512)
    ensures |Rest(s)| <= 519
  {
    RestIsShort(s, 512);
  }

  lemma BufferCanFill(limit: nat) returns (s: seq<Byte>)
    requires limit > 1016
    ensures HeadersWithin(s, limit) && |Rest(s)| == BUFFER_SIZE
  {
    s := [249, 3] + seq(1022, _ => 0);
    assert BodyLength(s) == 1017;
  }

  /** The next read always has room exactly when bodies are limited to 1016 bytes or less. */
  lemma RoomExactlyWhen(limit: nat)
    ensures (forall s :: HeadersWithin(s, limit) ==> |Rest(s)| < BUFFER_SIZE) <==> limit <= 1016
  {
    if limit <= 1016 {
      forall s | HeadersWithin(s, limit)
        ensures |Rest(s)| < BUFFER_SIZE
      {
        RestIsShort(s, limit);
      }
    } else {
      var s := BufferCanFill(limit);
      assert HeadersWithin(s, limit) && !(|Rest(s)| < BUFFER_SIZE);
    }
  }

  // ----- Where a frame goes -----

  datatype LoginStatus = NotLoginUser | LoginUser | LoginRole

  const FLAG_PLAYER_LOGIN_USER_ID := 100
  const FLAG_PLAYER_REGISTER_USER_ID := 102
  const FLAG_PLAYER_LOGIN_ROLE := 101
  const FLAG_PLAYER_REGISTER_ROLE := 103
  const FLAG_USER_DELETE_ROLE := 119

  datatype Route = Ignored | ParsedAsLogin | Queued

  function JudgePlayerLogin(status: LoginStatus, flag: Byte): Route {
    match status
    case NotLoginUser =>
      if flag == FLAG_PLAYER_LOGIN_USER_ID || flag == FLAG_PLAYER_REGISTER_USER_ID then ParsedAsLogin else Ignored
    case LoginUser =>
      if flag in {FLAG_PLAYER_LOGIN_ROLE, FLAG_PLAYER_REGISTER_ROLE, FLAG_USER_DELETE_ROLE} then ParsedAsLogin
      else Ignored
    case LoginRole => Queued
  }

  /** A frame that was cut, and what JudgePlayerLogin said about it. */
  datatype Delivery = Delivery(frame: Frame, route: Route)

  /** The flag, cut to the one byte that JudgePlayerLogin takes. */
  function FlagByte(frame: Frame): Byte {
    frame[6]
  }

  /** The frames that reach the server queue. */
  function QueuedFrames(deliveries: seq<Delivery>): seq<Frame> {
    if deliveries == [] then []
    else
      var n := |deliveries| - 1;
      QueuedFrames(deliveries[..n]) + if deliveries[n].route == Queued then [deliveries[n].frame] else []
  }

  class Connection {
    const buf: array<Byte>
    var dataPos: nat
    var handled: seq<Frame>          // the frames cut so far
    var dispatched: seq<Delivery>    // and where each of them went
    ghost var received: seq<Byte>
    /** The login status once the given frames have been handled, whatever the handlers do. */
    const statusAfter: seq<Frame> -> LoginStatus

    function Routed(frames: seq<Frame>): seq<Delivery> {
      if frames == [] then []
      else
        var n := |frames| - 1;
        Routed(frames[..n]) + [Delivery(frames[n], JudgePlayerLogin(statusAfter(frames[..n]), FlagByte(frames[n])))]
    }

    /** Every frame goes one way, in order: to the queue exactly when a role is logged in by then, and to the login
        handlers exactly when its flag is one of those that the status so far allows. */
    lemma {:induction false} RoutedExactlyWhen(frames: seq<Frame>, k: nat)
      requires k < |frames|
      ensures |Routed(frames)| == |frames|
      ensures var status, flag := statusAfter(frames[..k]), frames[k][6];
              && Routed(frames)[k].frame == frames[k]
              && (Routed(frames)[k].route == Queued <==> status == LoginRole)
              && (Routed(frames)[k].route == ParsedAsLogin <==>
                    (status == NotLoginUser && flag in {100, 102}) || (status == LoginUser && flag in {101, 103, 119}))
      decreases |frames|
    {
      var n := |frames| - 1;
      if k < n {
        RoutedExactlyWhen(frames[..n], k);
        assert frames[..n][..k] == frames[..k];
      } else if n > 0 {
        RoutedExactlyWhen(frames[..n], 0);
      }
    }

    /** When a role is logged in after n frames, and not before, the queue gets exactly the frames after those, in
        their order, and none when no role ever is. */
    lemma {:induction false} QueuedFromLogin(frames: seq<Frame>, n: nat)
      requires n <= |frames| && forall k :: 0 <= k < |frames| ==> (statusAfter(frames[..k]) == LoginRole <==> n <= k)
      ensures QueuedFrames(Routed(frames)) == frames[n..]
      decreases |frames|
    {
      if frames == [] {
        assert Routed(frames) == [];
      } else {
        var last := |frames| - 1;
        var routed := Routed(frames);
        RoutedExactlyWhen(frames, last);
        assert routed[..last] == Routed(frames[..last]);
        forall k | 0 <= k < last
          ensures frames[..last][..k] == frames[..k]
        {
        }
        if n <= last {
          QueuedFromLogin(frames[..last], n);
          assert frames[n..] == frames[..last][n..] + [frames[last]];
        } else {
          QueuedFromLogin(frames[..last], last);
        }
      }
    }

    ghost predicate Valid()
      reads this, buf
    {
      && buf.Length == BUFFER_SIZE && dataPos <= BUFFER_SIZE
      && buf[..dataPos] == Rest(received)
      && handled == Frames(received) && dispatched == Routed(handled)
    }

    constructor (statusAfter: seq<Frame> -> LoginStatus)
      ensures Valid() && received == [] && dispatched == [] && fresh(buf)
      ensures this.statusAfter == statusAfter
    {
      buf := new Byte[BUFFER_SIZE];
      dataPos, handled, dispatched, received := 0, [], [], [];
      this.statusAfter := statusAfter;
    }

    /** The length field that `memcpy(&head, m_buf + pos, 8)` sees. Past dataPos it reads stale bytes,
        past the end of the buffer any bytes at all. */
    method PeekBodyLength(pos: nat) returns (length: nat)
      requires buf.Length == BUFFER_SIZE && pos < dataPos <= BUFFER_SIZE
      ensures pos + HEAD_SIZE <= dataPos ==> HEAD_SIZE + length == FrameSize(buf[pos..dataPos])
    {
      if pos + HEAD_SIZE <= BUFFER_SIZE {
        var low: int, high: int := buf[pos], buf[pos + 1];
        length := low + 256 * high;
      } else {
        length := *;
      }
    }

    /** Hands on one frame: m_pack, then the server queue or the login handlers. */
    method Deliver(frame: Frame)
      requires dispatched == Routed(handled)
      modifies this`handled, this`dispatched
      ensures handled == old(handled) + [frame] && dispatched == Routed(handled)
    {
      var route := JudgePlayerLogin(statusAfter(handled), FlagByte(frame));
      dispatched := dispatched + [Delivery(frame, route)];
      assert (handled + [frame])[..|handled|] == handled;
      handled := handled + [frame];
    }

    /** Moves the unparsed bytes to the front; the rest of the buffer becomes zero. */
    method KeepFrom(currentPos: nat)
      requires buf.Length == BUFFER_SIZE && currentPos <= dataPos <= BUFFER_SIZE
      modifies this`dataPos, buf
      ensures dataPos == old(dataPos) - currentPos
      ensures buf[..dataPos] == old(buf[currentPos..dataPos])
    {
      var buff := new Byte[BUFFER_SIZE](_ => 0);
      forall k | 0 <= k < dataPos - currentPos {
        buff[k] := buf[currentPos + k];
      }
      forall k | 0 <= k < BUFFER_SIZE {
        buf[k] := buff[k];
      }
      dataPos := dataPos - currentPos;
    }

    /** Handing on the frames behind `pos` will complete `frames` and leave `kept`. */
    ghost predicate Parsing(pos: nat, frames: seq<Frame>, kept: seq<Byte>)
      reads this, buf
    {
      && buf.Length == BUFFER_SIZE && pos <= dataPos <= BUFFER_SIZE
      && handled + Frames(buf[pos..dataPos]) == frames && Rest(buf[pos..dataPos]) == kept
      && dispatched == Routed(handled)
    }

    /** Copies one frame out of the buffer and hands it on. */
    method DeliverAt(pos: nat, size: nat, ghost frames: seq<Frame>, ghost kept: seq<Byte>)
      requires Parsing(pos, frames, kept)
      requires HEAD_SIZE <= size <= dataPos - pos && size == FrameSize(buf[pos..dataPos])
      modifies this`handled, this`dispatched
      ensures Parsing(pos + size, frames, kept)
    {
      ghost var s, rest := buf[pos..dataPos], buf[pos + size..dataPos];
      var frame := buf[pos..pos + size];
      NextFrame(handled, s, frames, kept);
      SlicesOfSlice(buf, pos, pos + size, dataPos);
      assert frame == s[..FrameSize(s)] && rest == s[FrameSize(s)..];
      Deliver(frame);
      assert buf[pos + size..dataPos] == rest;
    }

    /** The last frame ends where the data ends. */
    method DeliverLast(pos: nat, ghost frames: seq<Frame>, ghost kept: seq<Byte>)
      requires Parsing(pos, frames, kept)
      requires dataPos - pos >= HEAD_SIZE && dataPos - pos == FrameSize(buf[pos..dataPos])
      modifies this`dataPos, this`handled, this`dispatched
      ensures dataPos == 0 && kept == [] && handled == frames && dispatched == Routed(handled)
    {
      DeliverAt(pos, dataPos - pos, frames, kept);
      dataPos := 0;
    }

    /** All frames are handed on, and the rest is at the front of the buffer. */
    ghost predicate Parsed(frames: seq<Frame>, kept: seq<Byte>)
      reads this, buf
    {
      && buf.Length == BUFFER_SIZE && dataPos <= BUFFER_SIZE && buf[..dataPos] == kept
      && handled == frames && dispatched == Routed(handled)
    }

    /** One round of the parsing loop: more says whether there are bytes left to parse. */
    method ParseNext(pos: nat, ghost frames: seq<Frame>, ghost kept: seq<Byte>) returns (next: nat, more: bool)
      requires Parsing(pos, frames, kept) && pos < dataPos
      modifies this`dataPos, this`handled, this`dispatched, buf
      ensures more ==> Parsing(next, frames, kept) && dataPos == old(dataPos) && pos < next < dataPos
      ensures !more ==> Parsed(frames, kept)
    {
      var length := PeekBodyLength(pos);
      var size := HEAD_SIZE + length;
      if pos + size == dataPos {
        DeliverLast(pos, frames, kept);
        return pos, false;
      }
      if pos + size < dataPos {
        DeliverAt(pos, size, frames, kept);
        return pos + size, true;
      }
      KeepFrom(pos);
      return pos, false;
    }

    /** The parsing loop of CallBack_Read_Some over the bytes in the buffer. */
    method ParseBuffer(ghost frames: seq<Frame>, ghost kept: seq<Byte>)
      requires Parsing(0, frames, kept)
      modifies this`dataPos, this`handled, this`dispatched, buf
      ensures Parsed(frames, kept)
    {
      var currentPos: nat := 0;
      while currentPos < dataPos
        invariant Parsing(currentPos, frames, kept)
        invariant currentPos == 0 || HEAD_SIZE <= dataPos
        invariant currentPos < dataPos || dataPos == 0
        decreases dataPos - currentPos
      {
        if dataPos < HEAD_SIZE {
          break;
        }
        var more;
        currentPos, more := ParseNext(currentPos, frames, kept);
        if !more {
          return;
        }
      }
    }

    /** ReadSome and its callback: the chunk lands behind the kept bytes, then the buffer is parsed. */
    method ReadSome(chunk: seq<Byte>)
      requires Valid() && |chunk| <= BUFFER_SIZE - dataPos
      modifies this, buf
      ensures Valid() && received == old(received) + chunk
    {
      ParseResumes(received, chunk);
      ghost var all := Rest(received) + chunk;
      forall k | 0 <= k < |chunk| {
        buf[dataPos + k] := chunk[k];
      }
      dataPos := dataPos + |chunk|;
      received := received + chunk;
      assert buf[0..dataPos] == all;
      ParseBuffer(Frames(received), Rest(received));
    }

    /** Any stream, read in any pieces the socket chooses to deliver; every callback asks for the next. */
    method ReadStream(stream: seq<Byte>)
      requires Valid() && HeadersWithin(received + stream, 1016)
      modifies this, buf
      ensures Valid() && received == old(received) + stream
      decreases |stream|
    {
      if stream != [] {
        RoomLeft(received, stream);
        var size: nat :| 0 < size <= BUFFER_SIZE - dataPos && size <= |stream|;
        assert received + stream == received + stream[..size] + stream[size..];
        ReadSome(stream[..size]);
        ReadStream(stream[size..]);
      }
    }
  }
}
