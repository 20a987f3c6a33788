/**
 The session over its real transport. The helper's frames are lines of bytes; the
 process's output is fed to the frame stream in pieces of any size; the stream's
 Write cuts frames and sends them on its channel while the controller receives
 there. This module composes the two parties (TraceSession), the framing
 (FrameStream) and the mutex and channel (FrameChannel) into one machine and
 shows that the controller sees exactly the frames the two-party protocol gives it.
 */
module TraceTransport {
  import opened Prelude
  import opened TraceHelper
  import opened TraceSession
  import opened FrameSize
  import FrameChannel
  import FrameStream

  /** The frames as text, both ways. */
  datatype Codec = Codec(encode: Frame -> Bytes, decode: Bytes -> Option<Frame>)

  /** The texts of these frames have no newline, are as long as their keys and values, and decode. Of a
      final frame the text has the digest of its transcript only, which must stand for that transcript. */
  ghost predicate Writes(codec: Codec, frames: seq<Frame>)
  {
    forall i :: 0 <= i < |frames| ==> WritesFrame(codec, frames[i])
  }

  ghost predicate WritesFrame(codec: Codec, frame: Frame)
  {
    var text := codec.encode(frame);
    FrameStream.NEWLINE !in text && |text| == FrameLength(frame) && codec.decode(text) == Some(frame)
  }

  const FRAME_COUNT_LIMIT: nat := FrameStream.OPERATION_WINDOW_LIMIT + 2

  /** The bounds of newOperationNotificationFrameStream. */
  const LIMITS := FrameStream.Limits(
    FrameStream.ACTIVITY_TRACE_FRAME_LIMIT, FrameStream.OPERATION_TRANSPORT_LIMIT, FRAME_COUNT_LIMIT)

  function Encoded(codec: Codec, frames: seq<Frame>): (texts: seq<Bytes>)
    ensures |texts| == |frames|
  {
    seq(|frames|, i requires 0 <= i < |frames| => codec.encode(frames[i]))
  }

  /** Everything the helper has written to its standard output. */
  function Output(codec: Codec, frames: seq<Frame>): Bytes
  {
    if frames == [] then []
    else Output(codec, frames[..|frames| - 1]) + (codec.encode(frames[|frames| - 1]) + [FrameStream.NEWLINE])
  }

  /** Such texts exist for any frames a session may emit. */
  lemma SomeCodecWrites(frames: seq<Frame>)
    requires |frames| <= FRAME_COUNT_LIMIT && forall i :: 0 <= i < |frames| ==> SmallFrame(frames[i])
    ensures exists codec :: Writes(codec, frames)
  {
    hide SmallFrame, FrameLength;
    var encode: Frame -> Bytes :=
      frame => seq(FrameLength(frame), k => if k == 0 && frame in frames then 100 + IndexOf(frames, frame) else 0);
    var decode: Bytes -> Option<Frame> :=
      text => if text != [] && 100 <= text[0] < 100 + |frames| then Some(frames[text[0] - 100]) else None;
    var codec := Codec(encode, decode);
    forall i | 0 <= i < |frames| ensures WritesFrame(codec, frames[i]) {
      FrameLengthAtMost(frames[i]);
    }
    assert Writes(codec, frames);
  }

  // ---------------------------------------------------------------------
  // The helper's output fits the stream
  // ---------------------------------------------------------------------

  /** Frames as a helper emits them: of one session, small, and `final` only at the end. */
  ghost predicate HelperFrames(digest: string, frames: seq<Frame>)
  {
    && |frames| <= FRAME_COUNT_LIMIT
    && forall i :: 0 <= i < |frames| ==>
         frames[i].session == digest && SmallFrame(frames[i]) && (frames[i].FinalFrame? ==> i == |frames| - 1)
  }

  lemma SoundReport(h: State)
    requires Inv(h) && !h.Failed()
    ensures SmallReport(ReportOf(h))
  {
    hide FramesInOrder, TallyPhases, TallyKinds, TallyMatched, TallyBytes;
  }

  lemma FramesOfInv(h: State)
    requires Inv(h)
    ensures HelperFrames(h.session, h.emitted)
  {
    hide CountersAreTallies, CountersBalance, ReportOf, SmallReport;
    if !h.Failed() { SoundReport(h); }
    assert FramesInOrder(h);
    assert h.window.sequence <= MAX_WINDOWS;
    forall i | 0 <= i < |h.emitted|
      ensures h.emitted[i].session == h.session && SmallFrame(h.emitted[i])
              && (h.emitted[i].FinalFrame? ==> i == |h.emitted| - 1)
    {
      if 1 <= i <= h.window.sequence { assert h.emitted[i].AckFrame?; }
    }
  }

  lemma FramesOfFailedStart(digest: string, tree: Tree, cleanClose: bool)
    requires !tree.Watched?
    ensures HelperFrames(digest, Begin(digest, tree, cleanClose).emitted)
  {
  }

  /** A helper as any session has it: a run from `ready`, or one that could not watch the tree. */
  ghost predicate Sound(digest: string, h: State)
  {
    h.session == digest && HelperFrames(digest, h.emitted) && (!h.health.finished ==> Inv(h))
  }

  lemma StepKeepsSound(digest: string, h: State, input: Input)
    requires Sound(digest, h) && Step(h, input).Some?
    ensures Sound(digest, Step(h, input).value)
  {
    hide Step, TraceHelper.Inv, HelperFrames;
    StepNeedsUnfinished(h, input);
    InvStep(h, input);
    StepKeepsSession(h, input);
    FramesOfInv(Step(h, input).value);
  }

  lemma BeginIsSound(digest: string, tree: Tree, cleanClose: bool)
    ensures Sound(digest, Begin(digest, tree, cleanClose))
  {
    hide Begin, TraceHelper.Inv, HelperFrames;
    BeginAnswers(digest, tree, cleanClose);
    if tree.Watched? { FramesOfInv(Begin(digest, tree, cleanClose)); } else { FramesOfFailedStart(digest, tree, cleanClose); }
  }

  lemma ApplyKeepsSound(digest: string, s: Session, event: Event)
    requires Apply(digest, s, event).Some? && (s.helper.Some? ==> Sound(digest, s.helper.value))
    ensures var next := Apply(digest, s, event).value; next.helper.Some? ==> Sound(digest, next.helper.value)
  {
    hide Step, InputOf, Begin, Sound, Sendable, AckDecodes, DecodeTerminal, EndsCleanly;
    match event
    case HelperStarts(tree, cleanClose) => BeginIsSound(digest, tree, cleanClose);
    case HelperNotified(n) => StepKeepsSound(digest, s.helper.value, Notify(n));
    case HelperReadFails => StepKeepsSound(digest, s.helper.value, BrokenRead);
    case HelperTakesLine(pending, cleanClose) => StepKeepsSound(digest, s.helper.value, InputOf(s.pipe[0], pending, cleanClose));
    case HelperReachesEnd => StepKeepsSound(digest, s.helper.value, EndOfInput);
    case _ =>
  }

  function Emitted(s: Session): seq<Frame> { if s.helper.Some? then s.helper.value.emitted else [] }

  lemma {:induction false} EmittedIsSound(digest: string, events: seq<Event>, s: Session)
    requires Play(digest, events) == Some(s)
    ensures HelperFrames(digest, Emitted(s)) && (s.helper.Some? ==> Sound(digest, s.helper.value))
  {
    hide Apply, TraceHelper.Inv, SmallFrame;
    if events != [] {
      var before := Play(digest, events[..|events| - 1]).value;
      EmittedIsSound(digest, events[..|events| - 1], before);
      ApplyKeepsSound(digest, before, events[|events| - 1]);
    }
  }

  lemma {:induction false} OutputSegments(codec: Codec, frames: seq<Frame>)
    requires Writes(codec, frames)
    ensures FrameStream.Segments(Output(codec, frames)) == Encoded(codec, frames)
    ensures FrameStream.Tail(Output(codec, frames)) == []
  {
    hide FrameStream.Segments, FrameStream.Tail, FrameLength;
    FrameStream.SegmentsOfPlain([]);
    if frames != [] {
      var front, line := frames[..|frames| - 1], codec.encode(frames[|frames| - 1]);
      assert WritesFrame(codec, frames[|frames| - 1]);
      OutputSegments(codec, front);
      FrameStream.SegmentsAppend(Output(codec, front), line + [FrameStream.NEWLINE]);
      FrameStream.SegmentsOfLine(line, []);
      assert line + [FrameStream.NEWLINE] + [] == [] + (line + [FrameStream.NEWLINE]);
      assert [line] + [] == [line];
      assert Encoded(codec, frames) == Encoded(codec, front) + [line];
    }
  }

  lemma {:induction false} ShortFramesOutput(codec: Codec, frames: seq<Frame>)
    requires Writes(codec, frames)
    requires forall i :: 0 <= i < |frames| ==> SmallFrame(frames[i]) && !frames[i].FinalFrame?
    ensures |Output(codec, frames)| <= |frames| * (SHORT_FRAME + 1)
  {
    hide SmallFrame, FrameLength;
    if frames != [] {
      FrameLengthAtMost(frames[|frames| - 1]);
      assert WritesFrame(codec, frames[|frames| - 1]);
      ShortFramesOutput(codec, frames[..|frames| - 1]);
    }
  }

  lemma LongestOutput(codec: Codec, digest: string, frames: seq<Frame>)
    requires Writes(codec, frames) && HelperFrames(digest, frames)
    ensures |Output(codec, frames)| <= LIMITS.transportLimit
  {
    hide SmallFrame, FrameLength;
    if frames != [] {
      FrameLengthAtMost(frames[|frames| - 1]);
      assert WritesFrame(codec, frames[|frames| - 1]);
      ShortFramesOutput(codec, frames[..|frames| - 1]);
    }
  }

  /** Whatever a helper writes keeps every bound of the stream. */
  lemma OutputIsAcceptable(codec: Codec, digest: string, frames: seq<Frame>)
    requires Writes(codec, frames) && HelperFrames(digest, frames)
    ensures FrameStream.Acceptable(LIMITS, Output(codec, frames))
  {
    hide SmallFrame, FrameLength, Output, FrameStream.Segments, FrameStream.Tail;
    OutputSegments(codec, frames);
    LongestOutput(codec, digest, frames);
    forall i | 0 <= i < |frames| ensures FrameStream.GoodFrame(LIMITS, codec.encode(frames[i])) {
      FrameLengthAtMost(frames[i]);
      assert WritesFrame(codec, frames[i]);
    }
  }

  /** So in any session, however the output is split into Write calls, the stream ends valid, has sent
      the helper's frames one by one and has nothing left over. */
  lemma OutputSurvivesAnySplit(codec: Codec, digest: string, events: seq<Event>, s: Session, chunks: seq<Bytes>)
    requires Writes(codec, Emitted(s)) && Play(digest, events) == Some(s)
    requires Flatten(chunks) == Output(codec, Emitted(s))
    ensures var st := FrameStream.Run(LIMITS, chunks);
            && !st.invalid && st.pending == []
            && st.sent == Encoded(codec, Emitted(s)) && st.frameCount == |Emitted(s)|
  {
    hide Play, SmallFrame, FrameLength, Output, FrameStream.Segments, FrameStream.Tail, FrameStream.Acceptable, FrameStream.Run;
    EmittedIsSound(digest, events, s);
    OutputIsAcceptable(codec, digest, Emitted(s));
    OutputSegments(codec, Emitted(s));
    FrameStream.RunIsChunkFree(LIMITS, chunks);
  }

  // ---------------------------------------------------------------------
  // The machine
  // ---------------------------------------------------------------------

  /** The frames one Write call tries to send, and whether it then finds the stream broken: the frame
      count apart, which is checked as each of them is cut. `before` is what was written so far. */
  function Incoming(limits: FrameStream.Limits, before: Bytes, chunk: Bytes): (seq<Bytes>, bool)
  {
    var pending := FrameStream.Tail(before) + chunk;
    var segments := FrameStream.Segments(pending);
    var good := FrameStream.GoodRun(limits, segments, |segments|);
    if |before| + |chunk| > limits.transportLimit then ([], true)
    else (good, good != segments || |FrameStream.Tail(pending)| > limits.frameLimit)
  }

  /** The two parties, how many bytes of the helper's output were fed to the stream, and the stream's
      mutex and channel. */
  datatype Link = Link(session: Session, fed: nat, channel: FrameChannel.State)

  const Unused := Link(Opened, 0, FrameChannel.Start)

  datatype Move =
    | PartyMoves(event: Event)                 // anything a party does but receive a frame
    | OutputArrives(size: nat)                 // Write is called with the next bytes of the output
    | WriterMoves(step: FrameChannel.Step)     // Write cuts a frame, sends one, or returns
    | ReaderTakes                              // `next` receives an event
    | ReaderCounts                             // `next` counts the frame and returns it

  predicate Awaits(c: Controller) { c.AwaitReady? || c.AwaitAck? || c.AwaitFinal? }

  function Arrive(codec: Codec, l: Link, size: nat): Option<Link>
  {
    var output := Output(codec, Emitted(l.session));
    if l.fed + size > |output| then None
    else
      var incoming := Incoming(LIMITS, output[..l.fed], output[l.fed..l.fed + size]);
      match FrameChannel.Apply(FRAME_COUNT_LIMIT, l.channel, FrameChannel.BeginWrite(incoming.0, incoming.1))
      case None => None
      case Some(channel) => Some(l.(fed := l.fed + size, channel := channel))
  }

  /** The controller gets a text and acts on the frame it decodes to. */
  function Deliver(codec: Codec, digest: string, s: Session, text: Bytes): Option<Session>
  {
    match codec.decode(text)
    case None => Some(Abort(s.(consumed := s.consumed + 1)))
    case Some(frame) => if s.helper.None? then None else Receive(digest, s, frame)
  }

  function Advance(codec: Codec, digest: string, l: Link, move: Move): Option<Link>
  {
    match move
    case PartyMoves(event) =>
      // A wait that has received its event no longer times out.
      if event.ControllerReceives? || (event.ControllerGivesUp? && l.channel.reader.Received?) then None
      else (match Apply(digest, l.session, event) case None => None case Some(s) => Some(l.(session := s)))
    case OutputArrives(size) => Arrive(codec, l, size)
    case WriterMoves(step) =>
      if !step.Cut? && !step.Send? && !step.EndWrite? then None
      else (match FrameChannel.Apply(FRAME_COUNT_LIMIT, l.channel, step) case None => None case Some(c) => Some(l.(channel := c)))
    case ReaderTakes =>
      if !Awaits(l.session.controller) || l.channel.reader != FrameChannel.Waiting || l.channel.queue == [] then None
      else
        var received := l.(channel := FrameChannel.Apply(FRAME_COUNT_LIMIT, l.channel, FrameChannel.Receive).value);
        Some(if l.channel.queue[0].FrameEvent? then received else received.(session := Abort(l.session)))
    case ReaderCounts =>
      match FrameChannel.Apply(FRAME_COUNT_LIMIT, l.channel, FrameChannel.Count)
      case None => None
      case Some(c) =>
        match Deliver(codec, digest, l.session, l.channel.reader.frame)
        case None => None
        case Some(s) => Some(l.(session := s, channel := c))
  }

  function Follow(codec: Codec, digest: string, moves: seq<Move>): Option<Link>
  {
    if moves == [] then Some(Unused)
    else
      match Follow(codec, digest, moves[..|moves| - 1])
      case None => None
      case Some(l) => Advance(codec, digest, l, moves[|moves| - 1])
  }

  // ---------------------------------------------------------------------
  // What one Write call brings in
  // ---------------------------------------------------------------------

  lemma {:induction false} GoodRunOfRoom(limits: FrameStream.Limits, frames: seq<Bytes>, room: nat)
    ensures var all := FrameStream.GoodRun(limits, frames, |frames|);
            FrameStream.GoodRun(limits, frames, room) == all[..Min(room, |all|)]
    decreases |frames|
  {
    if frames != [] && room > 0 { GoodRunOfRoom(limits, frames[1..], room - 1); }
  }

  /** `Incoming` is what WriteStep does: as many of the frames are sent as the count allows, and the
      stream ends invalid exactly when it is broken or they were too many. */
  lemma IncomingIsWriteStep(limits: FrameStream.Limits, st: FrameStream.StreamState, before: Bytes, chunk: Bytes)
    requires FrameStream.Tracks(limits, st, before) && !st.invalid
    ensures st.frameCount <= limits.frameCountLimit
    ensures var incoming, after := Incoming(limits, before, chunk), FrameStream.WriteStep(limits, st, chunk);
            var room := limits.frameCountLimit - st.frameCount;
            && after.sent == st.sent + incoming.0[..Min(room, |incoming.0|)]
            && (after.invalid <==> incoming.1 || |incoming.0| > room)
  {
    hide FrameStream.Segments, FrameStream.Tail, FrameStream.Drain, FrameStream.GoodRun, FrameStream.GoodFrames;
    if st.total + |chunk| <= limits.transportLimit {
      var fed := st.(total := st.total + |chunk|, pending := st.pending + chunk);
      var segments, room := FrameStream.Segments(fed.pending), limits.frameCountLimit - st.frameCount;
      FrameStream.DrainSendsGoodRun(limits, fed);
      GoodRunOfRoom(limits, segments, room);
      FrameStream.GoodRunIsLongest(limits, segments, |segments|);
    }
  }

  lemma PrefixIsAcceptable(limits: FrameStream.Limits, s: Bytes, k: nat)
    requires FrameStream.Acceptable(limits, s) && k <= |s|
    ensures FrameStream.Acceptable(limits, s[..k])
    ensures FrameStream.Segments(s[..k]) <= FrameStream.Segments(s)
  {
    hide FrameStream.Acceptable, FrameStream.Segments;
    assert s == s[..k] + s[k..];
    FrameStream.SegmentsAppend(s[..k], s[k..]);
    if !FrameStream.Acceptable(limits, s[..k]) { FrameStream.UnacceptableForever(limits, s[..k], s[k..]); }
  }

  lemma AcceptableIncoming(limits: FrameStream.Limits, before: Bytes, chunk: Bytes)
    requires FrameStream.Acceptable(limits, before + chunk)
    ensures var incoming := Incoming(limits, before, chunk);
            !incoming.1 && FrameStream.Segments(before) + incoming.0 == FrameStream.Segments(before + chunk)
  {
    hide FrameStream.Segments, FrameStream.Tail, FrameStream.GoodRun;
    var segments := FrameStream.Segments(FrameStream.Tail(before) + chunk);
    FrameStream.SegmentsAppend(before, chunk);
    FrameStream.GoodFramesAppend(limits, FrameStream.Segments(before), segments);
    FrameStream.GoodRunIsAllIff(limits, segments, |segments|);
  }

  // ---------------------------------------------------------------------
  // What every run of the machine keeps
  // ---------------------------------------------------------------------

  /** The lines Write holds but has not cut off yet, and whether it will find the stream broken. */
  function Uncut(w: FrameChannel.Writer): seq<Bytes> { if w.Idle? then [] else w.rest }

  predicate Broken(w: FrameChannel.Writer) { !w.Idle? && w.bad }

  ghost predicate Possible(digest: string, s: Session) { exists events :: Play(digest, events) == Some(s) }

  /** The channel has been given the lines of what was fed, and has given the controller the frames the
      session says it has consumed. */
  ghost predicate Carries(codec: Codec, s: Session, fed: nat, c: FrameChannel.State)
  {
    var output := Output(codec, Emitted(s));
    && !c.invalid && !Broken(c.writer)
    && fed <= |output|
    && c.cut + Uncut(c.writer) == FrameStream.Segments(output[..fed])
    && c.consumed == s.consumed
    && (c.reader.Received? ==> Awaits(s.controller))
  }

  ghost predicate LinkInv(codec: Codec, digest: string, l: Link)
  {
    && Possible(digest, l.session)
    && FrameChannel.Reachable(FRAME_COUNT_LIMIT, l.channel)
    && Carries(codec, l.session, l.fed, l.channel)
  }

  lemma PossibleNext(digest: string, s: Session, event: Event)
    requires Possible(digest, s) && Apply(digest, s, event).Some?
    ensures Possible(digest, Apply(digest, s, event).value)
  {
    hide Play, Apply;
    var events :| Play(digest, events) == Some(s);
    var next := PlayNext(digest, events, s, event);
    assert Play(digest, events + [event]) == Some(next);
  }

  lemma ReachableNext(limit: nat, c: FrameChannel.State, step: FrameChannel.Step)
    requires FrameChannel.Reachable(limit, c) && FrameChannel.Apply(limit, c, step).Some?
    ensures FrameChannel.Reachable(limit, FrameChannel.Apply(limit, c, step).value)
  {
    hide FrameChannel.Run, FrameChannel.Apply;
    var steps :| FrameChannel.Run(limit, steps) == Some(c);
    var more, next := FrameChannel.Extend(limit, steps, c, step);
  }

  lemma ReachableInv(limit: nat, c: FrameChannel.State)
    requires FrameChannel.Reachable(limit, c)
    ensures FrameChannel.Inv(limit, c)
  {
    var steps :| FrameChannel.Run(limit, steps) == Some(c);
    hide FrameChannel.Run, FrameChannel.Inv;
    FrameChannel.InvAlways(limit, steps);
  }

  /** What any possible session's output is like for the stream. */
  lemma PossibleOutput(codec: Codec, digest: string, s: Session)
    requires Writes(codec, Emitted(s)) && Possible(digest, s)
    ensures FrameStream.Acceptable(LIMITS, Output(codec, Emitted(s)))
    ensures FrameStream.Segments(Output(codec, Emitted(s))) == Encoded(codec, Emitted(s))
    ensures FrameStream.Tail(Output(codec, Emitted(s))) == []
    ensures |Emitted(s)| <= FRAME_COUNT_LIMIT
  {
    hide Play, Writes, FrameStream.Acceptable, FrameStream.Segments, FrameStream.Tail, Output;
    var events :| Play(digest, events) == Some(s);
    EmittedIsSound(digest, events, s);
    OutputIsAcceptable(codec, digest, Emitted(s));
    OutputSegments(codec, Emitted(s));
  }

  /** A helper only ever appends to its output. */
  lemma StepAppends(st: State, input: Input)
    requires Step(st, input).Some?
    ensures st.emitted <= Step(st, input).value.emitted
  {
    hide Step;
    if input.ControlLine? || input.EndOfInput? { CommandIsAnswered(st, input); } else { NoiseIsSilent(st, input); }
  }

  lemma PartyAppends(digest: string, s: Session, event: Event)
    requires Apply(digest, s, event).Some? && !event.ControllerReceives?
    ensures var next := Apply(digest, s, event).value;
            && Emitted(s) <= Emitted(next) && next.consumed == s.consumed
            && (Awaits(s.controller) && !event.ControllerGivesUp? ==> Awaits(next.controller))
  {
    hide Step, InputOf, Begin, Sendable;
    match event
    case HelperNotified(n) => StepAppends(s.helper.value, Notify(n));
    case HelperReadFails => StepAppends(s.helper.value, BrokenRead);
    case HelperTakesLine(pending, cleanClose) => StepAppends(s.helper.value, InputOf(s.pipe[0], pending, cleanClose));
    case HelperReachesEnd => StepAppends(s.helper.value, EndOfInput);
    case _ =>
  }

  lemma {:induction false} OutputGrows(codec: Codec, front: seq<Frame>, frames: seq<Frame>)
    requires front <= frames
    ensures Output(codec, front) <= Output(codec, frames)
    decreases |frames|
  {
    if |front| < |frames| { OutputGrows(codec, front, frames[..|frames| - 1]); } else { assert front == frames; }
  }

  lemma PartyKeeps(codec: Codec, digest: string, l: Link, event: Event)
    requires LinkInv(codec, digest, l) && Advance(codec, digest, l, PartyMoves(event)).Some?
    ensures LinkInv(codec, digest, Advance(codec, digest, l, PartyMoves(event)).value)
  {
    hide Apply, Output, FrameStream.Segments, FrameChannel.Reachable, Possible;
    var s, next := l.session, Apply(digest, l.session, event).value;
    PossibleNext(digest, s, event);
    PartyAppends(digest, s, event);
    OutputGrows(codec, Emitted(s), Emitted(next));
    assert Output(codec, Emitted(next))[..l.fed] == Output(codec, Emitted(s))[..l.fed];
  }

  lemma ArriveKeeps(codec: Codec, digest: string, l: Link, size: nat)
    requires Writes(codec, Emitted(l.session)) && LinkInv(codec, digest, l) && Arrive(codec, l, size).Some?
    ensures LinkInv(codec, digest, Arrive(codec, l, size).value)
  {
    hide Writes, Output, FrameStream.Segments, FrameStream.Tail, FrameStream.Acceptable, FrameChannel.Reachable, Possible, Incoming;
    var output := Output(codec, Emitted(l.session));
    var before, chunk := output[..l.fed], output[l.fed..l.fed + size];
    PossibleOutput(codec, digest, l.session);
    assert before + chunk == output[..l.fed + size];
    PrefixIsAcceptable(LIMITS, output, l.fed + size);
    AcceptableIncoming(LIMITS, before, chunk);
    var incoming := Incoming(LIMITS, before, chunk);
    ReachableNext(FRAME_COUNT_LIMIT, l.channel, FrameChannel.BeginWrite(incoming.0, incoming.1));
    assert l.channel.cut + Uncut(l.channel.writer) == l.channel.cut;
  }

  /** There are never more lines than frames, and never too many of them. */
  lemma CutIsBounded(codec: Codec, digest: string, l: Link)
    requires Writes(codec, Emitted(l.session)) && LinkInv(codec, digest, l)
    ensures l.channel.cut + Uncut(l.channel.writer) <= Encoded(codec, Emitted(l.session))
    ensures |l.channel.cut| + |Uncut(l.channel.writer)| <= FRAME_COUNT_LIMIT
  {
    hide Writes, Output, FrameStream.Segments, FrameStream.Tail, FrameStream.Acceptable, FrameChannel.Reachable, Possible;
    PossibleOutput(codec, digest, l.session);
    PrefixIsAcceptable(LIMITS, Output(codec, Emitted(l.session)), l.fed);
  }

  lemma WriterKeeps(codec: Codec, digest: string, l: Link, step: FrameChannel.Step)
    requires Writes(codec, Emitted(l.session)) && LinkInv(codec, digest, l) && Advance(codec, digest, l, WriterMoves(step)).Some?
    ensures LinkInv(codec, digest, Advance(codec, digest, l, WriterMoves(step)).value)
  {
    hide Writes, Output, FrameStream.Segments, FrameChannel.Reachable, Possible, FrameChannel.Frames;
    CutIsBounded(codec, digest, l);
    ReachableInv(FRAME_COUNT_LIMIT, l.channel);
    ReachableNext(FRAME_COUNT_LIMIT, l.channel, step);
    if step.Cut? {
      assert l.channel.writer.rest == [l.channel.writer.rest[0]] + l.channel.writer.rest[1..];
      Associate(l.channel.cut, [l.channel.writer.rest[0]], l.channel.writer.rest[1..]);
    }
  }

  lemma TakeKeeps(codec: Codec, digest: string, l: Link)
    requires LinkInv(codec, digest, l) && Advance(codec, digest, l, ReaderTakes).Some?
    ensures LinkInv(codec, digest, Advance(codec, digest, l, ReaderTakes).value)
  {
    hide Output, FrameStream.Segments, FrameChannel.Reachable, Possible, FrameChannel.Frames;
    ReachableInv(FRAME_COUNT_LIMIT, l.channel);
    ReachableNext(FRAME_COUNT_LIMIT, l.channel, FrameChannel.Receive);
  }

  /** The text in the reader's hand is that of the next frame the helper emitted. */
  lemma HeldIsNext(codec: Codec, digest: string, l: Link)
    requires Writes(codec, Emitted(l.session)) && LinkInv(codec, digest, l) && l.channel.reader.Received?
    ensures NextFrame(l.session).Some? && codec.decode(l.channel.reader.frame) == NextFrame(l.session)
  {
    CutIsBounded(codec, digest, l);
    ReachableInv(FRAME_COUNT_LIMIT, l.channel);
    PossibleOutput(codec, digest, l.session);
    hide Output, FrameStream.Segments, FrameChannel.Reachable, Possible, FrameChannel.Frames, FrameLength, FrameStream.Acceptable;
    var c := l.channel;
    assert c.cut[|c.delivered|] == c.reader.frame;
    assert (c.cut + Uncut(c.writer))[c.consumed] == c.reader.frame;
    assert WritesFrame(codec, Emitted(l.session)[c.consumed]);
  }

  lemma CountKeeps(codec: Codec, digest: string, l: Link)
    requires Writes(codec, Emitted(l.session)) && LinkInv(codec, digest, l) && Advance(codec, digest, l, ReaderCounts).Some?
    ensures LinkInv(codec, digest, Advance(codec, digest, l, ReaderCounts).value)
    ensures Apply(digest, l.session, ControllerReceives) == Some(Advance(codec, digest, l, ReaderCounts).value.session)
  {
    hide Writes, Output, FrameStream.Segments, FrameChannel.Reachable, Possible, AckDecodes, DecodeTerminal, EndsCleanly;
    HeldIsNext(codec, digest, l);
    PossibleNext(digest, l.session, ControllerReceives);
    ReachableNext(FRAME_COUNT_LIMIT, l.channel, FrameChannel.Count);
  }

  lemma LinkInvStep(codec: Codec, digest: string, l: Link, move: Move)
    requires Writes(codec, Emitted(l.session)) && LinkInv(codec, digest, l) && Advance(codec, digest, l, move).Some?
    ensures LinkInv(codec, digest, Advance(codec, digest, l, move).value)
  {
    hide LinkInv, Writes;
    match move
    case PartyMoves(event) => PartyKeeps(codec, digest, l, event);
    case OutputArrives(size) => ArriveKeeps(codec, digest, l, size);
    case WriterMoves(step) => WriterKeeps(codec, digest, l, step);
    case ReaderTakes => TakeKeeps(codec, digest, l);
    case ReaderCounts => CountKeeps(codec, digest, l);
  }

  lemma UnusedIsInv(codec: Codec, digest: string)
    ensures LinkInv(codec, digest, Unused)
  {
    assert Play(digest, []) == Some(Opened);
    assert FrameChannel.Run(FRAME_COUNT_LIMIT, []) == Some(FrameChannel.Start);
    FrameStream.SegmentsOfPlain([]);
  }

  lemma AdvanceAppends(codec: Codec, digest: string, l: Link, move: Move)
    requires Advance(codec, digest, l, move).Some?
    ensures Emitted(l.session) <= Emitted(Advance(codec, digest, l, move).value.session)
  {
    hide Apply, AckDecodes, DecodeTerminal, EndsCleanly;
    if move.PartyMoves? { PartyAppends(digest, l.session, move.event); }
  }

  lemma {:induction false} LinkInvAlways(codec: Codec, digest: string, moves: seq<Move>, l: Link)
    requires Writes(codec, Emitted(l.session)) && Follow(codec, digest, moves) == Some(l)
    ensures LinkInv(codec, digest, l)
  {
    hide LinkInv, Advance;
    if moves == [] {
      UnusedIsInv(codec, digest);
    } else {
      var before := Follow(codec, digest, moves[..|moves| - 1]).value;
      AdvanceAppends(codec, digest, before, moves[|moves| - 1]);
      LinkInvAlways(codec, digest, moves[..|moves| - 1], before);
      LinkInvStep(codec, digest, before, moves[|moves| - 1]);
    }
  }

  // ---------------------------------------------------------------------
  // What the parties get from it
  // ---------------------------------------------------------------------

  /** The transport refines the two-party protocol. In every interleaving of the parties, of Write calls
      with pieces of any size and of the reader, the session is one the protocol alone can reach, and
      the texts the controller was given are those of the first frames the helper emitted, in order. */
  lemma LinkRefinesSession(codec: Codec, digest: string, moves: seq<Move>, l: Link)
    requires Writes(codec, Emitted(l.session)) && Follow(codec, digest, moves) == Some(l)
    ensures Possible(digest, l.session)
    ensures l.session.consumed <= |Emitted(l.session)|
    ensures l.channel.delivered == Encoded(codec, Emitted(l.session))[..l.session.consumed]
  {
    LinkInvAlways(codec, digest, moves, l);
    CutIsBounded(codec, digest, l);
    ReachableInv(FRAME_COUNT_LIMIT, l.channel);
    hide *;
    DeliveredIsPrefix(codec, digest, l);
  }

  lemma DeliveredIsPrefix(codec: Codec, digest: string, l: Link)
    requires LinkInv(codec, digest, l) && FrameChannel.Inv(FRAME_COUNT_LIMIT, l.channel)
    requires l.channel.cut + Uncut(l.channel.writer) <= Encoded(codec, Emitted(l.session))
    ensures Possible(digest, l.session) && l.session.consumed <= |Emitted(l.session)|
    ensures l.channel.delivered == Encoded(codec, Emitted(l.session))[..l.session.consumed]
  {
    hide Output, FrameStream.Segments, FrameChannel.Reachable, Possible, FrameChannel.Frames;
    var c := l.channel;
    assert c.delivered <= c.cut <= c.cut + Uncut(c.writer);
  }

  /** At most two frames are ever outstanding on the channel, aborted sessions included; it takes six to
      lock it up. So neither side ever waits for the other. */
  lemma TransportNeverLocks(codec: Codec, digest: string, moves: seq<Move>, l: Link)
    requires Writes(codec, Emitted(l.session)) && Follow(codec, digest, moves) == Some(l)
    ensures 0 <= FrameChannel.Outstanding(l.channel) <= 2
    ensures !FrameChannel.CircularWait(l.channel) && !FrameChannel.Stuck(FRAME_COUNT_LIMIT, l.channel)
  {
    hide Follow, FrameChannel.Stuck, FrameChannel.CircularWait;
    LinkInvAlways(codec, digest, moves, l);
    OutstandingIsShort(codec, digest, l);
    FrameChannel.CircularWaitIsSixOutstanding(FRAME_COUNT_LIMIT, l.channel);
  }

  lemma PossibleIsInv(digest: string, s: Session)
    requires Possible(digest, s)
    ensures SessionInv(digest, s)
  {
    hide SessionInv;
    var events :| Play(digest, events) == Some(s);
    SessionInvAlways(digest, events, s);
  }

  lemma OutstandingIsShort(codec: Codec, digest: string, l: Link)
    requires Writes(codec, Emitted(l.session)) && LinkInv(codec, digest, l)
    ensures 0 <= FrameChannel.Outstanding(l.channel) <= 2 && !l.channel.invalid
  {
    hide Writes, Output, FrameStream.Segments, FrameChannel.Reachable, Possible, FrameChannel.Frames, SessionInv;
    CutIsBounded(codec, digest, l);
    ReachableInv(FRAME_COUNT_LIMIT, l.channel);
    PossibleIsInv(digest, l.session);
    FlightIsShort(digest, l.session);
  }

  /** Once the process is gone, all its output fed and Write back, complete() says what the protocol says:
      every frame the helper emitted has been consumed, and there were at least two. */
  lemma CompleteIffAllConsumed(codec: Codec, digest: string, moves: seq<Move>, l: Link)
    requires Writes(codec, Emitted(l.session)) && Follow(codec, digest, moves) == Some(l)
    requires l.fed == |Output(codec, Emitted(l.session))| && l.channel.writer.Idle?
    ensures Completes(codec, l) <==> l.session.consumed == |Emitted(l.session)| >= 2
  {
    hide Follow;
    LinkInvAlways(codec, digest, moves, l);
    AllCut(codec, digest, l);
  }

  /** complete() of a stream whose frames must all be consumed. */
  predicate Completes(codec: Codec, l: Link)
    requires l.fed <= |Output(codec, Emitted(l.session))|
  {
    && !l.channel.invalid && l.channel.frameCount >= 2 && l.channel.frameCount == l.channel.consumed
    && FrameStream.Tail(Output(codec, Emitted(l.session))[..l.fed]) == []
  }

  lemma AllCut(codec: Codec, digest: string, l: Link)
    requires Writes(codec, Emitted(l.session)) && LinkInv(codec, digest, l)
    requires l.fed == |Output(codec, Emitted(l.session))| && l.channel.writer.Idle?
    ensures !l.channel.invalid && l.channel.frameCount == |Emitted(l.session)| && l.channel.consumed == l.session.consumed
    ensures FrameStream.Tail(Output(codec, Emitted(l.session))[..l.fed]) == []
  {
    hide Writes, Output, FrameStream.Segments, FrameStream.Tail, FrameStream.Acceptable, FrameChannel.Reachable, Possible,
         FrameChannel.Frames;
    PossibleOutput(codec, digest, l.session);
    ReachableInv(FRAME_COUNT_LIMIT, l.channel);
    var output := Output(codec, Emitted(l.session));
    assert output[..l.fed] == output;
  }

  /** A session the controller has completed passes that check as well, so the byte, line and frame
      bounds of the stream never fail a session that the protocol would complete. */
  lemma CompletedSessionsComplete(codec: Codec, digest: string, moves: seq<Move>, l: Link)
    requires Writes(codec, Emitted(l.session)) && Follow(codec, digest, moves) == Some(l)
    requires l.fed == |Output(codec, Emitted(l.session))| && l.channel.writer.Idle?
    requires l.session.controller.Completed?
    ensures Completes(codec, l)
  {
    hide Follow, Writes, Possible, Output, Completes, SessionInv;
    LinkRefinesSession(codec, digest, moves, l);
    PossibleIsInv(digest, l.session);
    CompletedConsumedAll(digest, l.session);
    CompleteIffAllConsumed(codec, digest, moves, l);
  }

  lemma CompletedConsumedAll(digest: string, s: Session)
    requires SessionInv(digest, s) && s.controller.Completed?
    ensures s.consumed == |Emitted(s)| >= 2
  {
    hide DecodeTerminal, Synced, CountersAreTallies, CountersBalance;
    var h := s.helper.value;
    assert Inv(h) && FramesInOrder(h);
  }

  /** The bounds in numbers. */
  lemma LimitsAre()
    ensures LIMITS == FrameStream.Limits(8192, 65536, 130) && FRAME_COUNT_LIMIT == 130
  {
  }

  // ---------------------------------------------------------------------
  // Every frame gets through
  // ---------------------------------------------------------------------

  function WriterWork(w: FrameChannel.Writer): nat
  {
    match w case Idle => 0 case Cutting(rest, _) => 2 * |rest| + 1 case Sending(_, rest, _) => 2 * |rest| + 2
  }

  function ReaderWork(r: FrameChannel.Reader): nat { if r.Waiting? then 1 else 0 }

  function Unfed(codec: Codec, l: Link): int { |Output(codec, Emitted(l.session))| - l.fed }

  /** A move of the transport alone, not yet the one that returns the frame. */
  ghost predicate Carrying(codec: Codec, digest: string, l: Link, move: Move, next: Link)
  {
    && !move.PartyMoves? && !move.ReaderCounts?
    && Advance(codec, digest, l, move) == Some(next) && next.session == l.session
    && Unfed(codec, next) <= Unfed(codec, l)
    && (Unfed(codec, next) == Unfed(codec, l) ==>
          && WriterWork(next.channel.writer) <= WriterWork(l.channel.writer)
          && (WriterWork(next.channel.writer) == WriterWork(l.channel.writer) ==>
                ReaderWork(next.channel.reader) < ReaderWork(l.channel.reader)))
  }

  lemma WriterCanStep(limit: nat, c: FrameChannel.State) returns (step: FrameChannel.Step, next: FrameChannel.State)
    requires |c.queue| <= FrameChannel.CHANNEL_SLOTS && !c.writer.Idle? && !FrameChannel.WriterWaits(c)
    ensures step.Cut? || step.Send? || step.EndWrite?
    ensures FrameChannel.Apply(limit, c, step) == Some(next) && WriterWork(next.writer) < WriterWork(c.writer)
  {
    step := if c.writer.Sending? then FrameChannel.Send else if c.writer.rest == [] then FrameChannel.EndWrite else FrameChannel.Cut;
    next := FrameChannel.Apply(limit, c, step).value;
  }

  lemma WriterGoesOn(codec: Codec, digest: string, l: Link) returns (move: Move, next: Link)
    requires Writes(codec, Emitted(l.session)) && LinkInv(codec, digest, l) && !l.channel.writer.Idle?
    ensures Carrying(codec, digest, l, move, next)
  {
    hide *;
    WriterIsFree(codec, digest, l);
    var step, channel := WriterCanStep(FRAME_COUNT_LIMIT, l.channel);
    move, next := WriterMoves(step), l.(channel := channel);
    WriterMoveCarries(codec, digest, l, step, channel);
  }

  lemma WriterIsFree(codec: Codec, digest: string, l: Link)
    requires Writes(codec, Emitted(l.session)) && LinkInv(codec, digest, l)
    ensures |l.channel.queue| <= FrameChannel.CHANNEL_SLOTS && !FrameChannel.WriterWaits(l.channel)
  {
    OutstandingIsShort(codec, digest, l);
    ReachableInvOf(codec, digest, l);
    hide Writes, Output, FrameChannel.Reachable, Possible, FrameStream.Segments, FrameChannel.Stuck, FrameChannel.Frames;
    FrameChannel.CircularWaitIsSixOutstanding(FRAME_COUNT_LIMIT, l.channel);
  }

  lemma WriterMoveCarries(codec: Codec, digest: string, l: Link, step: FrameChannel.Step, channel: FrameChannel.State)
    requires step.Cut? || step.Send? || step.EndWrite?
    requires FrameChannel.Apply(FRAME_COUNT_LIMIT, l.channel, step) == Some(channel)
    requires WriterWork(channel.writer) < WriterWork(l.channel.writer)
    ensures Carrying(codec, digest, l, WriterMoves(step), l.(channel := channel))
  {
    hide Output, FrameChannel.Apply, WriterWork;
  }

  lemma ReachableInvOf(codec: Codec, digest: string, l: Link)
    requires LinkInv(codec, digest, l)
    ensures FrameChannel.Inv(FRAME_COUNT_LIMIT, l.channel)
  {
    hide Output, FrameChannel.Inv, Possible, FrameStream.Segments;
    ReachableInv(FRAME_COUNT_LIMIT, l.channel);
  }

  lemma ReaderGoesOn(codec: Codec, digest: string, l: Link) returns (move: Move, next: Link)
    requires LinkInv(codec, digest, l) && Awaits(l.session.controller)
    requires l.channel.reader.Waiting? && l.channel.queue != []
    ensures Carrying(codec, digest, l, move, next)
  {
    ReachableInvOf(codec, digest, l);
    hide Output, FrameChannel.Frames, Possible, FrameStream.Segments, FrameChannel.Reachable;
    move := ReaderTakes;
    next := Advance(codec, digest, l, move).value;
  }

  lemma OutputGoesOn(codec: Codec, digest: string, l: Link) returns (move: Move, next: Link)
    requires Writes(codec, Emitted(l.session)) && LinkInv(codec, digest, l) && NextFrame(l.session).Some?
    requires l.channel.writer.Idle? && l.channel.reader.Waiting? && l.channel.queue == []
    ensures Carrying(codec, digest, l, move, next)
  {
    ReachableInvOf(codec, digest, l);
    if l.fed == |Output(codec, Emitted(l.session))| { AllCut(codec, digest, l); }
    hide Writes, Output, Possible, FrameStream.Segments, FrameChannel.Reachable, Incoming;
    assert Unfed(codec, l) > 0;
    move := OutputArrives(Unfed(codec, l));
    next := Advance(codec, digest, l, move).value;
  }

  lemma TransportGoesOn(codec: Codec, digest: string, l: Link) returns (move: Move, next: Link)
    requires Writes(codec, Emitted(l.session)) && LinkInv(codec, digest, l)
    requires Awaits(l.session.controller) && NextFrame(l.session).Some?
    requires !(l.channel.writer.Idle? && l.channel.reader.Received?)
    ensures Carrying(codec, digest, l, move, next)
  {
    hide Writes, LinkInv, Carrying;
    if !l.channel.writer.Idle? {
      move, next := WriterGoesOn(codec, digest, l);
    } else if l.channel.queue != [] {
      move, next := ReaderGoesOn(codec, digest, l);
    } else {
      move, next := OutputGoesOn(codec, digest, l);
    }
  }

  /** The frame in hand can be returned, and is the protocol's step of receiving it. */
  lemma HeldIsReturned(codec: Codec, digest: string, l: Link) returns (next: Link)
    requires Writes(codec, Emitted(l.session)) && LinkInv(codec, digest, l)
    requires l.channel.writer.Idle? && l.channel.reader.Received?
    ensures Advance(codec, digest, l, ReaderCounts) == Some(next)
    ensures Apply(digest, l.session, ControllerReceives) == Some(next.session)
  {
    HeldIsNext(codec, digest, l);
    HeldIsAwaited(codec, digest, l);
    hide LinkInv, Writes, AckDecodes, DecodeTerminal, EndsCleanly;
    next := Advance(codec, digest, l, ReaderCounts).value;
  }

  lemma HeldIsAwaited(codec: Codec, digest: string, l: Link)
    requires LinkInv(codec, digest, l) && l.channel.reader.Received?
    ensures Awaits(l.session.controller)
  {
    hide Output, Possible, FrameStream.Segments, FrameChannel.Reachable;
  }

  lemma FollowNext(codec: Codec, digest: string, moves: seq<Move>, l: Link, move: Move)
    requires Follow(codec, digest, moves) == Some(l)
    ensures Follow(codec, digest, moves + [move]) == Advance(codec, digest, l, move)
  {
    hide Advance;
    assert (moves + [move])[..|moves|] == moves;
  }

  /** Whatever the machine has been through: if the controller waits and the helper has emitted a frame it
      has not got, moves of the transport alone get it there, and the controller then does what the
      protocol does on receiving it. */
  lemma {:induction false} FrameGetsThrough(codec: Codec, digest: string, moves: seq<Move>, l: Link)
    returns (more: seq<Move>, last: Link)
    requires Writes(codec, Emitted(l.session)) && Follow(codec, digest, moves) == Some(l)
    requires Awaits(l.session.controller) && NextFrame(l.session).Some?
    ensures Follow(codec, digest, moves + more) == Some(last)
    ensures Apply(digest, l.session, ControllerReceives) == Some(last.session)
    ensures forall move :: move in more ==> !move.PartyMoves?
    decreases Unfed(codec, l), WriterWork(l.channel.writer), ReaderWork(l.channel.reader)
  {
    LinkInvAlways(codec, digest, moves, l);
    FedWithin(codec, digest, l);
    hide Writes, LinkInv, Follow, Advance, Apply, Unfed;
    if l.channel.writer.Idle? && l.channel.reader.Received? {
      last := HeldIsReturned(codec, digest, l);
      more := [ReaderCounts];
      FollowNext(codec, digest, moves, l, ReaderCounts);
    } else {
      var move, next := TransportGoesOn(codec, digest, l);
      FollowNext(codec, digest, moves, l, move);
      LinkInvAlways(codec, digest, moves + [move], next);
      FedWithin(codec, digest, next);
      var rest;
      rest, last := FrameGetsThrough(codec, digest, moves + [move], next);
      more := [move] + rest;
      Associate(moves, [move], rest);
    }
  }

  lemma FedWithin(codec: Codec, digest: string, l: Link)
    requires LinkInv(codec, digest, l)
    ensures Unfed(codec, l) >= 0
  {
    hide Output, Possible, FrameStream.Segments, FrameChannel.Reachable;
  }
}
