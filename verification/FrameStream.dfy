/**
 The bounded newline framing that carries helper frames to the controller
 (activityTraceFrameStream). Bytes arrive in arbitrary chunks; every complete
 line is handed to a channel as one frame, and any bound that is exceeded
 makes the stream invalid for good.

 The specification never mentions chunks: `Segments`, `Tail` and `Acceptable`
 speak of the whole byte stream. `RunIsChunkFree` says what any sequence of
 Write calls amounts to in those terms.
 */
module FrameStream {
  import opened Prelude
  import FrameChannel

  const NEWLINE: Byte := 10

  const ACTIVITY_TRACE_FRAME_LIMIT := 8192
  const ACTIVITY_TRACE_TRANSPORT_LIMIT := 16384
  const OPERATION_TRANSPORT_LIMIT := 65536
  const OPERATION_WINDOW_LIMIT := 128

  datatype Limits = Limits(frameLimit: nat, transportLimit: nat, frameCountLimit: nat)

  // ---------------------------------------------------------------------
  // The whole-stream reference
  // ---------------------------------------------------------------------

  /** The newline-terminated segments of a byte stream, terminators removed. */
  function Segments(s: Bytes): (segments: seq<Bytes>)
    decreases |s|
  {
    var i := IndexOf(s, NEWLINE);
    if i == |s| then [] else [s[..i]] + Segments(s[i + 1..])
  }

  /** What follows the last newline. */
  function Tail(s: Bytes): (tail: Bytes)
    decreases |s|
    ensures NEWLINE !in tail
  {
    var i := IndexOf(s, NEWLINE);
    if i == |s| then s else Tail(s[i + 1..])
  }

  predicate GoodFrame(limits: Limits, frame: Bytes) { 1 <= |frame| <= limits.frameLimit }

  predicate GoodFrames(limits: Limits, frames: seq<Bytes>)
  {
    forall k :: 0 <= k < |frames| ==> GoodFrame(limits, frames[k])
  }

  /** The verdict on a whole stream: total size, every segment, how many, the partial tail. */
  predicate Acceptable(limits: Limits, stream: Bytes)
  {
    && |stream| <= limits.transportLimit
    && GoodFrames(limits, Segments(stream))
    && |Segments(stream)| <= limits.frameCountLimit
    && |Tail(stream)| <= limits.frameLimit
  }

  /** The first line and what comes after it. */
  lemma SegmentsOfLine(line: Bytes, rest: Bytes)
    requires NEWLINE !in line
    ensures Segments(line + [NEWLINE] + rest) == [line] + Segments(rest)
    ensures Tail(line + [NEWLINE] + rest) == Tail(rest)
  {
    var s := line + [NEWLINE] + rest;
    IndexOfPrepend(line, NEWLINE, rest);
    assert s[..|line|] == line && s[|line| + 1..] == rest;
  }

  lemma {:induction false} SegmentsAppend(s: Bytes, t: Bytes)
    ensures Segments(s + t) == Segments(s) + Segments(Tail(s) + t)
    ensures Tail(s + t) == Tail(Tail(s) + t)
    decreases |s|
  {
    var i := IndexOf(s, NEWLINE);
    if i < |s| {
      hide Segments, Tail;
      var line, rest := s[..i], s[i + 1..];
      assert s == line + [NEWLINE] + rest && s + t == line + [NEWLINE] + (rest + t);
      SegmentsOfLine(line, rest);
      SegmentsOfLine(line, rest + t);
      SegmentsAppend(rest, t);
      Associate([line], Segments(rest), Segments(Tail(rest) + t));
    } else {
      SegmentsOfPlain(s);
    }
  }

  lemma SegmentsOfPlain(s: Bytes)
    requires NEWLINE !in s
    ensures Segments(s) == [] && Tail(s) == s
  {
  }

  lemma GoodFramesAppend(limits: Limits, front: seq<Bytes>, back: seq<Bytes>)
    ensures GoodFrames(limits, front + back) <==> GoodFrames(limits, front) && GoodFrames(limits, back)
  {
    if GoodFrames(limits, front + back) {
      forall k | 0 <= k < |front| ensures GoodFrame(limits, front[k]) { assert (front + back)[k] == front[k]; }
      forall k | 0 <= k < |back| ensures GoodFrame(limits, back[k]) { assert (front + back)[|front| + k] == back[k]; }
    }
  }

  /** The longest run of good lines at the front, and no more of them than there is room for. */
  function GoodRun(limits: Limits, frames: seq<Bytes>, room: nat): (run: seq<Bytes>)
    decreases |frames|
  {
    if frames == [] || room == 0 || !GoodFrame(limits, frames[0]) then []
    else [frames[0]] + GoodRun(limits, frames[1..], room - 1)
  }

  /** It is a prefix of good lines, and what stops it is a bad line or want of room. */
  lemma {:induction false} GoodRunIsLongest(limits: Limits, frames: seq<Bytes>, room: nat)
    ensures var run := GoodRun(limits, frames, room);
            && run <= frames && |run| <= room && GoodFrames(limits, run)
            && (|run| < |frames| && |run| < room ==> !GoodFrame(limits, frames[|run|]))
    decreases |frames|
  {
    if frames != [] && room > 0 && GoodFrame(limits, frames[0]) {
      GoodRunIsLongest(limits, frames[1..], room - 1);
      assert frames == [frames[0]] + frames[1..];
    }
  }

  lemma GoodRunIsAllIff(limits: Limits, frames: seq<Bytes>, room: nat)
    ensures GoodRun(limits, frames, room) == frames <==> GoodFrames(limits, frames) && |frames| <= room
  {
    GoodRunIsLongest(limits, frames, room);
    hide GoodRun;
    var run := GoodRun(limits, frames, room);
    if |run| == |frames| { assert run == frames; }
  }

  lemma GoodRunNext(limits: Limits, frame: Bytes, rest: seq<Bytes>, room: nat)
    ensures GoodRun(limits, [frame] + rest, room)
         == if GoodFrame(limits, frame) && room > 0 then [frame] + GoodRun(limits, rest, room - 1) else []
  {
    assert ([frame] + rest)[1..] == rest;
  }

  /** Good lines followed by others: the run goes on into them. */
  lemma {:induction false} GoodRunGoesOn(limits: Limits, front: seq<Bytes>, back: seq<Bytes>, room: nat)
    requires GoodFrames(limits, front) && |front| <= room
    ensures GoodRun(limits, front + back, room) == front + GoodRun(limits, back, room - |front|)
    decreases |front|
  {
    if front == [] {
      assert front + back == back;
    } else {
      hide GoodRun;
      var frame, rest := front[0], front[1..];
      assert front == [frame] + rest;
      Associate([frame], rest, back);
      GoodFramesAppend(limits, [frame], rest);
      assert GoodFrame(limits, frame);
      hide GoodFrames, GoodFrame;
      GoodRunNext(limits, frame, rest + back, room);
      GoodRunGoesOn(limits, rest, back, room - 1);
      Associate([frame], rest, GoodRun(limits, back, room - |front|));
    }
  }

  /** A run that has stopped does not resume. */
  lemma {:induction false} GoodRunStops(limits: Limits, front: seq<Bytes>, back: seq<Bytes>, room: nat)
    requires GoodRun(limits, front, room) != front
    ensures GoodRun(limits, front + back, room) == GoodRun(limits, front, room)
    decreases |front|
  {
    if room > 0 && GoodFrame(limits, front[0]) {
      assert (front + back)[1..] == front[1..] + back;
      GoodRunStops(limits, front[1..], back, room - 1);
    }
  }

  /** The first segment of `s + t` when `s` holds no newline extends `s`. */
  lemma LongTailStaysLong(limits: Limits, s: Bytes, t: Bytes)
    requires NEWLINE !in s && |s| > limits.frameLimit
    ensures !GoodFrames(limits, Segments(s + t)) || |Tail(s + t)| > limits.frameLimit
  {
    forall k | 0 <= k < |s| ensures (s + t)[k] != NEWLINE { assert (s + t)[k] == s[k]; }
    var i := IndexOf(s + t, NEWLINE);
    if i < |s + t| {
      assert Segments(s + t)[0] == (s + t)[..i];
    }
  }

  /** Once a stream is unacceptable, no continuation makes it acceptable again. */
  lemma UnacceptableForever(limits: Limits, s: Bytes, t: Bytes)
    requires !Acceptable(limits, s)
    ensures !Acceptable(limits, s + t)
  {
    SegmentsAppend(s, t);
    if |Tail(s)| > limits.frameLimit {
      LongTailStaysLong(limits, Tail(s), t);
    }
    if !GoodFrames(limits, Segments(s)) {
      var k :| 0 <= k < |Segments(s)| && !GoodFrame(limits, Segments(s)[k]);
      assert Segments(s + t)[k] == Segments(s)[k];
    }
    if Acceptable(limits, s + t) {
      forall k | 0 <= k < |Segments(Tail(s) + t)|
        ensures GoodFrame(limits, Segments(Tail(s) + t)[k])
      {
        assert Segments(s + t)[|Segments(s)| + k] == Segments(Tail(s) + t)[k];
      }
    }
  }

  // ---------------------------------------------------------------------
  // The verdict in single bytes
  // ---------------------------------------------------------------------

  function Joined(lines: seq<Bytes>): Bytes { if lines == [] then [] else lines[0] + [10] + Joined(lines[1..]) }

  /** The segments and the tail put back together, each segment with its newline, are the stream; none of
      them holds a newline, so no other lines would do. */
  lemma {:induction false} SegmentsRejoin(s: Bytes)
    ensures Joined(Segments(s)) + Tail(s) == s
    ensures forall line :: line in Segments(s) ==> 10 !in line
    decreases |s|
  {
    var i := IndexOf(s, NEWLINE);
    if i < |s| {
      hide Segments, Tail;
      var line, rest := s[..i], s[i + 1..];
      assert s == line + [NEWLINE] + rest;
      SegmentsOfLine(line, rest);
      SegmentsRejoin(rest);
      assert ([line] + Segments(rest))[1..] == Segments(rest);
      Associate(line + [10], Joined(Segments(rest)), Tail(rest));
    } else {
      SegmentsOfPlain(s);
    }
  }

  lemma {:induction false} LinesAreUnique(a: seq<Bytes>, tailA: Bytes, b: seq<Bytes>, tailB: Bytes)
    requires Joined(a) + tailA == Joined(b) + tailB
    requires 10 !in tailA && 10 !in tailB
    requires (forall line :: line in a ==> 10 !in line) && forall line :: line in b ==> 10 !in line
    ensures a == b && tailA == tailB
  {
    assert [] + tailA == tailA && [] + tailB == tailB;
    if a != [] { HoldsNewline(a, tailA); }
    if b != [] { HoldsNewline(b, tailB); }
    if a != [] && b != [] {
      FirstLine(a, tailA);
      FirstLine(b, tailB);
      LinesAreUnique(a[1..], tailA, b[1..], tailB);
    }
  }

  lemma HoldsNewline(lines: seq<Bytes>, tail: Bytes)
    requires lines != []
    ensures 10 in Joined(lines) + tail
  {
    assert (Joined(lines) + tail)[|lines[0]|] == 10;
  }

  lemma FirstLine(a: seq<Bytes>, tail: Bytes)
    requires a != [] && 10 !in a[0]
    ensures var s := Joined(a) + tail;
            var i := IndexOf(s, 10);
            i < |s| && a[0] == s[..i] && Joined(a[1..]) + tail == s[i + 1..]
  {
    var rest := Joined(a[1..]) + tail;
    assert Joined(a) + tail == a[0] + [10] + rest;
    IndexOfPrepend(a[0], 10, rest);
  }

  function NewlinesIn(s: Bytes): set<int> { set i | 0 <= i < |s| && s[i] == 10 }

  predicate NoEmptyLine(s: Bytes) { forall i :: 0 <= i < |s| && s[i] == 10 ==> i > 0 && s[i - 1] != 10 }

  predicate NewlineWithin(s: Bytes, i: int, width: nat) { 0 <= i && i + width <= |s| ==> 10 in s[i..i + width] }

  /** Among any `width` bytes in a row there is a newline. */
  ghost predicate NoLongLine(s: Bytes, width: nat) { forall i :: NewlineWithin(s, i, width) }

  /** What one more byte does to the lines. */
  lemma ByteAppended(s: Bytes, b: Byte)
    ensures Segments(s + [b]) == if b == 10 then Segments(s) + [Tail(s)] else Segments(s)
    ensures Tail(s + [b]) == if b == 10 then [] else Tail(s) + [b]
  {
    SegmentsAppend(s, [b]);
    if b == 10 {
      SegmentsOfLine(Tail(s), []);
      SegmentsOfPlain([]);
      assert Tail(s) + [b] == Tail(s) + [NEWLINE] + [];
    } else {
      SegmentsOfPlain(Tail(s) + [b]);
    }
    hide Segments, Tail;
    assert Segments(s) + [] == Segments(s);
  }

  lemma NewlineAppended(s: Bytes, b: Byte)
    ensures NewlinesIn(s + [b]) == NewlinesIn(s) + (if b == 10 then {|s|} else {})
    ensures |s| !in NewlinesIn(s)
    ensures |NewlinesIn(s + [b])| == |NewlinesIn(s)| + if b == 10 then 1 else 0
  {
    assert forall i :: 0 <= i < |s| ==> (s + [b])[i] == s[i];
    assert NewlinesIn(s + [b]) == NewlinesIn(s) + (if b == 10 then {|s|} else {});
  }

  lemma {:induction false} SegmentsAreCounted(s: Bytes)
    ensures |Segments(s)| == |NewlinesIn(s)|
    decreases |s|
  {
    if s == [] {
      SegmentsOfPlain(s);
      assert NewlinesIn(s) == {};
    } else {
      hide Segments, NewlinesIn;
      var front, b := s[..|s| - 1], s[|s| - 1];
      assert s == front + [b];
      SegmentsAreCounted(front);
      ByteAppended(front, b);
      NewlineAppended(front, b);
    }
  }

  lemma {:induction false} JoinedEnds(lines: seq<Bytes>)
    ensures |Joined(lines)| == 0 <==> lines == []
    ensures lines != [] ==> Joined(lines)[|Joined(lines)| - 1] == 10
  {
    if lines != [] { JoinedEnds(lines[1..]); }
  }

  /** The tail is what stands behind the last newline. */
  lemma TailIsLast(s: Bytes)
    ensures var n := |s| - |Tail(s)|;
            0 <= n && s[n..] == Tail(s) && (n > 0 ==> s[n - 1] == 10)
  {
    SegmentsRejoin(s);
    JoinedEnds(Segments(s));
    var front, tail := Joined(Segments(s)), Tail(s);
    hide *;
    assert s == front + tail;
    assert |front| > 0 ==> s[|front| - 1] == front[|front| - 1];
  }

  lemma TailIsEmpty(s: Bytes)
    ensures |Tail(s)| == 0 <==> s == [] || s[|s| - 1] == 10
  {
    TailIsLast(s);
    hide Tail;
    if |Tail(s)| > 0 { assert s[|s| - 1] == Tail(s)[|Tail(s)| - 1]; }
  }

  lemma TailLength(s: Bytes, width: nat)
    ensures |Tail(s)| >= width <==> |s| >= width && !NewlineWithin(s, |s| - width, width)
  {
    TailIsLast(s);
    hide Tail;
    var tail := Tail(s);
    var n := |s| - |tail|;
    if |s| >= width {
      var start := |s| - width;
      if |tail| >= width {
        assert s[start..] == tail[start - n..];
        assert s[start..start + width] == s[start..];
      } else {
        assert s[start..start + width][n - 1 - start] == s[n - 1];
      }
    }
  }

  lemma LongLineAppended(s: Bytes, b: Byte, width: nat)
    ensures NoLongLine(s + [b], width + 1) <==>
            NoLongLine(s, width + 1) && (b == 10 || NewlineWithin(s, |s| - width, width))
  {
    var more, last, wide := s + [b], |s| - width, width + 1;
    forall i | i != last ensures NewlineWithin(more, i, wide) == NewlineWithin(s, i, wide) {
      if 0 <= i && i + wide <= |s| { assert more[i..i + wide] == s[i..i + wide]; }
    }
    if last >= 0 { assert more[last..last + wide] == s[last..last + width] + [b]; }
    assert NewlineWithin(more, last, wide) <==> b == 10 || NewlineWithin(s, last, width);
    ShortOfWidth(s, last, wide);
    hide NewlineWithin;
    if NoLongLine(more, wide) {
      forall i ensures NewlineWithin(s, i, wide) { assert NewlineWithin(more, i, wide); }
    }
  }

  lemma ShortOfWidth(s: Bytes, i: int, width: nat)
    requires i + width > |s|
    ensures NewlineWithin(s, i, width)
  {
  }

  lemma EmptyLineAppended(s: Bytes, b: Byte)
    ensures NoEmptyLine(s + [b]) <==> NoEmptyLine(s) && (b == 10 ==> s != [] && s[|s| - 1] != 10)
  {
    var more := s + [b];
    assert forall i :: 0 <= i < |s| ==> more[i] == s[i];
    assert more[|s|] == b;
    if NoEmptyLine(more) {
      forall i | 0 <= i < |s| && s[i] == 10 ensures i > 0 && s[i - 1] != 10 { assert more[i] == 10; }
    }
  }

  lemma {:induction false} GoodLinesByBytes(limits: Limits, s: Bytes)
    ensures GoodFrames(limits, Segments(s)) && |Tail(s)| <= limits.frameLimit <==>
            NoEmptyLine(s) && NoLongLine(s, limits.frameLimit + 1)
    decreases |s|
  {
    if s == [] {
      SegmentsOfPlain(s);
    } else {
      hide Segments, Tail, NoEmptyLine, NoLongLine, GoodFrames;
      var front, b := s[..|s| - 1], s[|s| - 1];
      assert s == front + [b];
      GoodLinesByBytes(limits, front);
      ByteAppended(front, b);
      GoodFramesAppend(limits, Segments(front), [Tail(front)]);
      GoodFramesOne(limits, Tail(front));
      EmptyLineAppended(front, b);
      LongLineAppended(front, b, limits.frameLimit);
      TailIsEmpty(front);
      TailLength(front, limits.frameLimit);
    }
  }

  lemma GoodFramesOne(limits: Limits, frame: Bytes)
    ensures GoodFrames(limits, [frame]) <==> 1 <= |frame| <= limits.frameLimit
  {
    if GoodFrames(limits, [frame]) { assert GoodFrame(limits, [frame][0]); }
  }

  /** The verdict said of single bytes: the stream is within the transport bound, has no more newlines
      than frames are allowed, none of them first or behind another, and one in every stretch longer
      than a frame may be. */
  lemma AcceptableByBytes(limits: Limits, s: Bytes)
    ensures Acceptable(limits, s) <==>
            && |s| <= limits.transportLimit
            && |NewlinesIn(s)| <= limits.frameCountLimit
            && NoEmptyLine(s)
            && NoLongLine(s, limits.frameLimit + 1)
  {
    hide NoEmptyLine, NoLongLine, Segments, Tail, GoodFrames, NewlinesIn;
    SegmentsAreCounted(s);
    GoodLinesByBytes(limits, s);
  }

  // ---------------------------------------------------------------------
  // One Write call, on values
  // ---------------------------------------------------------------------

  datatype StreamState = StreamState(
    pending: Bytes, total: nat, frameCount: nat, sent: seq<Bytes>, invalid: bool)

  const Fresh := StreamState([], 0, 0, [], false)

  /** The line ending at the newline at `i` is cut off the front of `pending`. */
  function Cut(limits: Limits, st: StreamState, i: nat): StreamState
    requires i < |st.pending|
  {
    if i == 0 || i > limits.frameLimit then st.(invalid := true)
    else
      var counted := st.(pending := st.pending[i + 1..], frameCount := st.frameCount + 1);
      if counted.frameCount > limits.frameCountLimit then counted.(invalid := true)
      else counted.(sent := st.sent + [st.pending[..i]])
  }

  /** The loop of Write: line by line until none is left or the stream is invalid. */
  function Drain(limits: Limits, st: StreamState): StreamState
    decreases |st.pending|
  {
    var i := IndexOf(st.pending, NEWLINE);
    if i == |st.pending| then
      if |st.pending| > limits.frameLimit then st.(invalid := true) else st
    else
      var next := Cut(limits, st, i);
      if next.invalid || st.invalid then next else Drain(limits, next)
  }

  function WriteStep(limits: Limits, st: StreamState, chunk: Bytes): StreamState
  {
    if st.invalid then st
    else
      var counted := st.(total := st.total + |chunk|);
      if counted.total > limits.transportLimit then counted.(invalid := true)
      else Drain(limits, counted.(pending := st.pending + chunk))
  }

  /** Any number of Write calls on a fresh stream. */
  function Run(limits: Limits, chunks: seq<Bytes>): StreamState
  {
    if chunks == [] then Fresh
    else WriteStep(limits, Run(limits, chunks[..|chunks| - 1]), chunks[|chunks| - 1])
  }

  /** What a stream state must be, given every byte that was ever written to it. */
  ghost predicate Tracks(limits: Limits, st: StreamState, received: Bytes)
  {
    && (st.invalid <==> !Acceptable(limits, received))
    && st.sent <= Segments(received)
    && (!st.invalid ==>
      && st.sent == Segments(received)
      && st.pending == Tail(received)
      && st.total == |received|
      && st.frameCount == |st.sent|)
  }

  /** The loop of Write sends the good run of what is pending. It fails exactly when that is not
      all of it or the partial line left over is already too long. */
  ghost predicate DrainsGoodRun(limits: Limits, st: StreamState, after: StreamState)
    requires st.frameCount <= limits.frameCountLimit
  {
    var segments := Segments(st.pending);
    var good := GoodRun(limits, segments, limits.frameCountLimit - st.frameCount);
    && after.sent == st.sent + good
    && (after.invalid <==> good != segments || |Tail(st.pending)| > limits.frameLimit)
    && (!after.invalid ==>
          after == st.(pending := Tail(st.pending), frameCount := st.frameCount + |good|, sent := after.sent))
  }

  lemma DrainOfPlain(limits: Limits, st: StreamState)
    requires !st.invalid && st.frameCount <= limits.frameCountLimit && NEWLINE !in st.pending
    ensures DrainsGoodRun(limits, st, Drain(limits, st))
  {
    SegmentsOfPlain(st.pending);
    hide Segments, Tail;
  }

  lemma DrainOfRest(limits: Limits, st: StreamState)
    requires !st.invalid && NEWLINE !in st.pending
    ensures Drain(limits, st) == if |st.pending| > limits.frameLimit then st.(invalid := true) else st
  {
  }

  lemma DrainOfLine(limits: Limits, st: StreamState)
    requires !st.invalid && IndexOf(st.pending, NEWLINE) < |st.pending|
    ensures var next := Cut(limits, st, IndexOf(st.pending, NEWLINE));
            Drain(limits, st) == if next.invalid then next else Drain(limits, next)
  {
    hide Cut;
  }

  lemma {:induction false} DrainSendsGoodRun(limits: Limits, st: StreamState)
    requires !st.invalid && st.frameCount <= limits.frameCountLimit
    ensures DrainsGoodRun(limits, st, Drain(limits, st))
    decreases |st.pending|
  {
    hide Segments, Tail, GoodRun, Drain;
    var i := IndexOf(st.pending, NEWLINE);
    if i == |st.pending| {
      DrainOfPlain(limits, st);
    } else {
      var line, rest, room := st.pending[..i], st.pending[i + 1..], limits.frameCountLimit - st.frameCount;
      assert st.pending == line + [NEWLINE] + rest;
      SegmentsOfLine(line, rest);
      DrainOfLine(limits, st);
      GoodRunNext(limits, line, Segments(rest), room);
      assert Cut(limits, st, i).invalid <==> !(GoodFrame(limits, line) && room > 0);
      if GoodFrame(limits, line) && room > 0 {
        DrainSendsGoodRun(limits, Cut(limits, st, i));
        var good := GoodRun(limits, Segments(rest), room - 1);
        Associate(st.sent, [line], good);
        assert ([line] + good)[1..] == good && ([line] + Segments(rest))[1..] == Segments(rest);
      } else {
        assert |[line] + Segments(rest)| > 0 && st.sent + [] == st.sent;
      }
    }
  }

  lemma WriteTracks(limits: Limits, st: StreamState, received: Bytes, chunk: Bytes)
    requires Tracks(limits, st, received)
    ensures Tracks(limits, WriteStep(limits, st, chunk), received + chunk)
  {
    hide Segments, Tail, Drain, GoodRun;
    SegmentsAppend(received, chunk);
    if st.invalid {
      UnacceptableForever(limits, received, chunk);
    } else if st.total + |chunk| <= limits.transportLimit {
      var segments := Segments(Tail(received) + chunk);
      DrainSendsGoodRun(limits, st.(total := st.total + |chunk|, pending := st.pending + chunk));
      GoodRunIsLongest(limits, segments, limits.frameCountLimit - st.frameCount);
      GoodRunIsAllIff(limits, segments, limits.frameCountLimit - st.frameCount);
      GoodFramesAppend(limits, Segments(received), segments);
    }
  }

  lemma {:induction false} DrainOnlyGrows(limits: Limits, st: StreamState)
    requires !st.invalid
    ensures st.sent <= Drain(limits, st).sent
    decreases |st.pending|
  {
    var i := IndexOf(st.pending, NEWLINE);
    if i < |st.pending| {
      DrainOfLine(limits, st);
      if !Cut(limits, st, i).invalid { DrainOnlyGrows(limits, Cut(limits, st, i)); }
    }
  }

  /** A frame once handed over is never taken back: the channel only ever gains frames. */
  lemma SentOnlyGrows(limits: Limits, st: StreamState, chunk: Bytes)
    ensures st.sent <= WriteStep(limits, st, chunk).sent
  {
    if !st.invalid && st.total + |chunk| <= limits.transportLimit {
      DrainOnlyGrows(limits, st.(total := st.total + |chunk|, pending := st.pending + chunk));
    }
  }

  lemma {:induction false} FlattenSnoc<T>(parts: seq<seq<T>>)
    requires parts != []
    ensures Flatten(parts) == Flatten(parts[..|parts| - 1]) + parts[|parts| - 1]
  {
    if |parts| > 1 {
      FlattenSnoc(parts[1..]);
      assert parts[1..][..|parts| - 2] == parts[..|parts| - 1][1..];
    }
  }

  /** Framing does not depend on chunking. However the bytes were split into Write calls, the
      stream is invalid exactly when the whole byte string breaks a bound; a valid stream has
      sent exactly the segments and holds exactly the tail; an invalid one has sent a prefix. */
  lemma {:induction false} RunIsChunkFree(limits: Limits, chunks: seq<Bytes>)
    ensures Tracks(limits, Run(limits, chunks), Flatten(chunks))
  {
    if chunks == [] {
      SegmentsOfPlain([]);
    } else {
      RunIsChunkFree(limits, chunks[..|chunks| - 1]);
      FlattenSnoc(chunks);
      WriteTracks(limits, Run(limits, chunks[..|chunks| - 1]), Flatten(chunks[..|chunks| - 1]), chunks[|chunks| - 1]);
    }
  }

  /** The same bytes in two splits give one verdict, and the same frames when it is favourable. */
  lemma SplitsAgree(limits: Limits, left: seq<Bytes>, right: seq<Bytes>)
    requires Flatten(left) == Flatten(right)
    ensures Run(limits, left).invalid == Run(limits, right).invalid
    ensures !Run(limits, left).invalid ==> Run(limits, left) == Run(limits, right)
  {
    RunIsChunkFree(limits, left);
    RunIsChunkFree(limits, right);
  }

  // ---------------------------------------------------------------------
  // The frames of an invalid stream
  // ---------------------------------------------------------------------

  /** What was written up to the first call that crosses the transport bound. */
  function Heard(limits: Limits, chunks: seq<Bytes>): (heard: Bytes)
    ensures |heard| <= limits.transportLimit
    decreases |chunks|
  {
    if |Flatten(chunks)| <= limits.transportLimit then Flatten(chunks)
    else if chunks == [] then [] else Heard(limits, chunks[..|chunks| - 1])
  }

  lemma {:induction false} HeardIsPrefix(limits: Limits, chunks: seq<Bytes>)
    ensures Heard(limits, chunks) <= Flatten(chunks)
    decreases |chunks|
  {
    if |Flatten(chunks)| > limits.transportLimit {
      FlattenSnoc(chunks);
      HeardIsPrefix(limits, chunks[..|chunks| - 1]);
    }
  }

  /** No bytes can add to the frames of a stream that has failed within its transport bound. */
  lemma UnacceptableSendsNoMore(limits: Limits, s: Bytes, t: Bytes)
    requires !Acceptable(limits, s) && |s| <= limits.transportLimit
    ensures GoodRun(limits, Segments(s + t), limits.frameCountLimit) == GoodRun(limits, Segments(s), limits.frameCountLimit)
  {
    SegmentsAppend(s, t);
    var room, next := limits.frameCountLimit, Segments(Tail(s) + t);
    GoodRunIsAllIff(limits, Segments(s), room);
    if GoodRun(limits, Segments(s), room) != Segments(s) {
      GoodRunStops(limits, Segments(s), next, room);
    } else {
      GoodRunGoesOn(limits, Segments(s), next, room);
      if next != [] { FirstSegmentExtends(Tail(s), t); }
    }
  }

  lemma FirstSegmentExtends(s: Bytes, t: Bytes)
    requires NEWLINE !in s && Segments(s + t) != []
    ensures |Segments(s + t)[0]| >= |s|
  {
    var i := IndexOf(s + t, NEWLINE);
    assert forall k :: 0 <= k < |s| ==> (s + t)[k] == s[k];
  }

  lemma WriteWithinBound(limits: Limits, st: StreamState, before: Bytes, chunk: Bytes)
    requires Tracks(limits, st, before) && |before + chunk| <= limits.transportLimit
    requires st.sent == GoodRun(limits, Segments(before), limits.frameCountLimit)
    ensures WriteStep(limits, st, chunk).sent == GoodRun(limits, Segments(before + chunk), limits.frameCountLimit)
  {
    hide Segments, Tail, GoodRun, Drain;
    if st.invalid {
      UnacceptableSendsNoMore(limits, before, chunk);
    } else {
      SegmentsAppend(before, chunk);
      DrainSendsGoodRun(limits, st.(total := st.total + |chunk|, pending := st.pending + chunk));
      GoodRunGoesOn(limits, Segments(before), Segments(Tail(before) + chunk), limits.frameCountLimit);
    }
  }

  lemma WriteBeyondBound(limits: Limits, st: StreamState, before: Bytes, chunk: Bytes)
    requires Tracks(limits, st, before) && |before + chunk| > limits.transportLimit
    ensures WriteStep(limits, st, chunk).sent == st.sent
  {
    hide Segments, Tail, Drain;
  }

  /** The frames sent, valid or not: the good run of the bytes written before the transport bound
      was crossed. Within the bound the split leaves no trace. */
  lemma {:induction false} SentIsGoodRunOfHeard(limits: Limits, chunks: seq<Bytes>)
    ensures Run(limits, chunks).sent == GoodRun(limits, Segments(Heard(limits, chunks)), limits.frameCountLimit)
  {
    if chunks == [] {
      SegmentsOfPlain([]);
    } else {
      hide Segments, GoodRun, WriteStep, Tracks;
      var front, chunk := chunks[..|chunks| - 1], chunks[|chunks| - 1];
      SentIsGoodRunOfHeard(limits, front);
      RunIsChunkFree(limits, front);
      FlattenSnoc(chunks);
      if |Flatten(chunks)| <= limits.transportLimit {
        WriteWithinBound(limits, Run(limits, front), Flatten(front), chunk);
      } else {
        WriteBeyondBound(limits, Run(limits, front), Flatten(front), chunk);
      }
    }
  }

  /** However `s` is split, the same frames are sent. */
  ghost predicate SplitsSendTheSame(limits: Limits, s: Bytes)
  {
    forall left: seq<Bytes>, right: seq<Bytes> :: Flatten(left) == s && Flatten(right) == s ==> Run(limits, left).sent == Run(limits, right).sent
  }

  /** The frames sent depend on the split for exactly the streams that break the transport bound and
      begin with a good line that ends within it. */
  lemma SplitsSendTheSameIff(limits: Limits, s: Bytes)
    ensures SplitsSendTheSame(limits, s) <==>
            || |s| <= limits.transportLimit
            || GoodRun(limits, Segments(s[..limits.transportLimit]), limits.frameCountLimit) == []
  {
    hide Segments, GoodRun, Run, Heard;
    if |s| <= limits.transportLimit {
      forall left: seq<Bytes>, right: seq<Bytes> | Flatten(left) == s && Flatten(right) == s
        ensures Run(limits, left).sent == Run(limits, right).sent
      {
        SentWithinBound(limits, left);
        SentWithinBound(limits, right);
      }
    } else if GoodRun(limits, Segments(s[..limits.transportLimit]), limits.frameCountLimit) == [] {
      forall left: seq<Bytes>, right: seq<Bytes> | Flatten(left) == s && Flatten(right) == s
        ensures Run(limits, left).sent == Run(limits, right).sent
      {
        SentBeyondBound(limits, left);
        SentBeyondBound(limits, right);
      }
    } else {
      FramesBeforeInvalidationDependOnSplit(limits, s);
    }
  }

  lemma SentWithinBound(limits: Limits, chunks: seq<Bytes>)
    requires |Flatten(chunks)| <= limits.transportLimit
    ensures Run(limits, chunks).sent == GoodRun(limits, Segments(Flatten(chunks)), limits.frameCountLimit)
  {
    SentIsGoodRunOfHeard(limits, chunks);
  }

  /** Beyond the bound, the frames are among those of the longest prefix within it. */
  lemma SentBeyondBound(limits: Limits, chunks: seq<Bytes>)
    requires |Flatten(chunks)| > limits.transportLimit
    ensures Run(limits, chunks).sent <=
            GoodRun(limits, Segments(Flatten(chunks)[..limits.transportLimit]), limits.frameCountLimit)
  {
    hide Segments, GoodRun, Run, Heard;
    SentIsGoodRunOfHeard(limits, chunks);
    HeardIsPrefix(limits, chunks);
    var heard, whole := Heard(limits, chunks), Flatten(chunks)[..limits.transportLimit];
    var more := whole[|heard|..];
    assert whole == heard + more;
    SegmentsAppend(heard, more);
    GoodRunGrows(limits, Segments(heard), Segments(Tail(heard) + more), limits.frameCountLimit);
  }

  lemma GoodRunGrows(limits: Limits, front: seq<Bytes>, back: seq<Bytes>, room: nat)
    ensures GoodRun(limits, front, room) <= GoodRun(limits, front + back, room)
  {
    GoodRunIsLongest(limits, front, room);
    if GoodRun(limits, front, room) == front {
      GoodRunGoesOn(limits, front, back, room);
    } else {
      GoodRunStops(limits, front, back, room);
    }
  }

  /** Such a stream sends nothing when it is written whole, and its good lines when the first call
      ends at the bound. */
  lemma FramesBeforeInvalidationDependOnSplit(limits: Limits, s: Bytes)
    requires |s| > limits.transportLimit
    requires GoodRun(limits, Segments(s[..limits.transportLimit]), limits.frameCountLimit) != []
    ensures var head, rest := s[..limits.transportLimit], s[limits.transportLimit..];
            && Flatten([s]) == s == Flatten([head, rest])
            && Run(limits, [s]).sent == []
            && Run(limits, [head, rest]).sent == GoodRun(limits, Segments(head), limits.frameCountLimit) != []
  {
    var head, rest := s[..limits.transportLimit], s[limits.transportLimit..];
    hide Segments, GoodRun, Run;
    FlattenOne(s);
    FlattenOne(head);
    FlattenSnoc([head, rest]);
    assert [head, rest][..1] == [head] && [s][..0] == [];
    SegmentsOfPlain([]);
    GoodRunIsLongest(limits, [], limits.frameCountLimit);
    SentIsGoodRunOfHeard(limits, [s]);
    SentIsGoodRunOfHeard(limits, [head, rest]);
  }

  lemma FlattenOne<T>(part: seq<T>)
    ensures Flatten([part]) == part
  {
    assert [part][1..] == [];
  }

  // ---------------------------------------------------------------------
  // The stream object
  // ---------------------------------------------------------------------

  class ActivityTraceFrameStream {
    const limits: Limits
    const requireConsumed: bool
    const minimumFrames: nat
    var pending: Bytes
    var total: nat
    var frameCount: nat
    var consumed: nat
    var invalid: bool
    var sent: seq<Bytes>    // every frame handed to the channel, in order; sent[consumed..] is still queued
    var errorQueued: bool   // the error event of the invalidation is queued behind them
    ghost var received: Bytes  // every byte ever written

    ghost predicate Valid()
      reads this
    {
      Tracks(limits, State(), received) && consumed <= |sent| && (errorQueued ==> invalid)
    }

    function State(): StreamState
      reads this
    {
      StreamState(pending, total, frameCount, sent, invalid)
    }

    constructor NewActivityTrace()
      ensures Valid() && received == [] && consumed == 0 && State() == Fresh && !errorQueued
      ensures limits == Limits(8192, 16384, 2)
      ensures !requireConsumed
    {
      limits := Limits(ACTIVITY_TRACE_FRAME_LIMIT, ACTIVITY_TRACE_TRANSPORT_LIMIT, 2);
      requireConsumed, minimumFrames := false, 0;
      pending, total, frameCount, consumed, invalid, sent := [], 0, 0, 0, false, [];
      errorQueued, received := false, [];
    }

    constructor NewOperationNotification()
      ensures Valid() && received == [] && consumed == 0 && State() == Fresh && !errorQueued
      ensures limits == Limits(8192, 65536, 130)
      ensures requireConsumed && minimumFrames == 2
    {
      limits := Limits(ACTIVITY_TRACE_FRAME_LIMIT, OPERATION_TRANSPORT_LIMIT, OPERATION_WINDOW_LIMIT + 2);
      requireConsumed, minimumFrames := true, 2;
      pending, total, frameCount, consumed, invalid, sent := [], 0, 0, 0, false, [];
      errorQueued, received := false, [];
    }

    /** Write always claims the whole chunk; its effect is one WriteStep. A call that invalidates the
        stream queues an error event if the channel has a free slot for it then, which is up to the reader. */
    method Write(value: Bytes, slotFree: bool) returns (n: nat)
      requires Valid()
      modifies this
      ensures Valid() && n == |value| && consumed == old(consumed)
      ensures received == old(received) + value
      ensures State() == WriteStep(limits, old(State()), value)
      ensures errorQueued == (old(errorQueued) || (invalid && !old(invalid) && slotFree))
    {
      hide Drain, Tracks;
      WriteTracks(limits, State(), received, value);
      ghost var target := WriteStep(limits, State(), value);
      received := received + value;
      n := |value|;
      if !invalid {
        total := total + |value|;
        if total > limits.transportLimit {
          invalid := true;
        } else {
          pending := pending + value;
          CutFrames();
        }
        errorQueued := invalid && slotFree;
      }
      assert State() == target;
      SentOnlyGrows(limits, old(State()), value);
    }

    /** The loop of Write. */
    method CutFrames()
      requires !invalid
      modifies `pending, `frameCount, `sent, `invalid
      ensures State() == Drain(limits, old(State()))
    {
      hide Drain;
      ghost var target := Drain(limits, State());
      while true
        invariant !invalid && total == old(total)
        invariant Drain(limits, State()) == target
        decreases |pending|
      {
        var newline := IndexOf(pending, NEWLINE);
        if newline == |pending| {
          DrainOfRest(limits, State());
          if |pending| > limits.frameLimit { invalid := true; }
          return;
        }
        DrainOfLine(limits, State());
        if newline == 0 || newline > limits.frameLimit {
          invalid := true;
          return;
        }
        var frame := pending[..newline];
        pending := pending[newline + 1..];
        frameCount := frameCount + 1;
        if frameCount > limits.frameCountLimit {
          invalid := true;
          return;
        }
        sent := sent + [frame];
      }
    }

    /** One receive: the oldest frame not yet consumed, after the last of them the error event, or
        nothing when the wait ends without either. */
    method Next() returns (event: Option<FrameChannel.Event>)
      requires Valid()
      modifies `consumed, `errorQueued
      ensures Valid() && received == old(received)
      ensures event == if old(consumed) < |sent| then Some(FrameChannel.FrameEvent(sent[old(consumed)]))
                       else if old(errorQueued) then Some(FrameChannel.TransportError) else None
      ensures consumed == old(consumed) + (if old(consumed) < |sent| then 1 else 0)
      ensures errorQueued == (old(errorQueued) && old(consumed) < |sent|)
    {
      if consumed < |sent| {
        event := Some(FrameChannel.FrameEvent(sent[consumed]));
        consumed := consumed + 1;
      } else if errorQueued {
        event := Some(FrameChannel.TransportError);
        errorQueued := false;
      } else {
        event := None;
      }
    }

    /** Completeness, said of the bytes: acceptable, no partial line left, and the right number of
        frames — all of them consumed where that is required. */
    method Complete() returns (ok: bool)
      requires Valid()
      ensures ok <==>
              && Acceptable(limits, received)
              && Tail(received) == []
              && (if requireConsumed then minimumFrames <= |Segments(received)| == consumed
                  else |Segments(received)| == limits.frameCountLimit)
    {
      if requireConsumed {
        ok := !invalid && frameCount >= minimumFrames && frameCount == consumed && |pending| == 0;
      } else {
        ok := !invalid && frameCount == limits.frameCountLimit && |pending| == 0;
      }
    }
  }
}
