/**
 Who can wait for whom around the frame stream. Write holds the mutex while it
 sends frames on a four-slot channel; `next` first receives an event and only
 then takes the mutex to count it. The model is a state machine over the
 single steps of one writer and one reader, in every interleaving.
 */
module FrameChannel {
  import opened Prelude

  const CHANNEL_SLOTS := 4

  datatype Event = FrameEvent(frame: Bytes) | TransportError

  /** Where the writer is. Everything but Idle is inside the critical section. `bad` says that the
      call will end by invalidating the stream (an empty or oversized line, a broken bound). */
  datatype Writer =
    | Idle
    | Cutting(rest: seq<Bytes>, bad: bool)
    | Sending(frame: Bytes, rest: seq<Bytes>, bad: bool)

  /** Where the reader is: waiting on the channel, or holding an event it has not counted yet. */
  datatype Reader = Waiting | Received(frame: Bytes)

  datatype State = State(
    writer: Writer,
    reader: Reader,
    queue: seq<Event>,
    frameCount: nat,
    consumed: nat,
    invalid: bool,
    cut: seq<Bytes>,        // frames Write has cut off so far, in order
    delivered: seq<Bytes>)  // frames `next` has returned so far, in order

  const Start := State(Idle, Waiting, [], 0, 0, false, [], [])

  datatype Step =
    | BeginWrite(frames: seq<Bytes>, bad: bool)
    | Cut
    | Send
    | EndWrite
    | Receive
    | Count

  /** invalidateLocked: the error event is dropped when the channel has no free slot. */
  function Invalidate(s: State): State
  {
    s.(invalid := true,
       queue := if |s.queue| < CHANNEL_SLOTS then s.queue + [TransportError] else s.queue)
  }

  /** The successor by one step, or None when that step cannot be taken now. */
  function Apply(limit: nat, s: State, step: Step): Option<State>
  {
    match step
    case BeginWrite(frames, bad) =>
      if s.writer != Idle then None
      else if s.invalid then Some(s)
      else Some(s.(writer := Cutting(frames, bad)))
    case Cut =>
      if !s.writer.Cutting? || s.writer.rest == [] then None
      else if s.frameCount + 1 > limit then
        Some(Invalidate(s.(frameCount := s.frameCount + 1, writer := Idle)))
      else
        Some(s.(frameCount := s.frameCount + 1,
                cut := s.cut + [s.writer.rest[0]],
                writer := Sending(s.writer.rest[0], s.writer.rest[1..], s.writer.bad)))
    case Send =>
      if !s.writer.Sending? || |s.queue| == CHANNEL_SLOTS then None
      else Some(s.(queue := s.queue + [FrameEvent(s.writer.frame)],
                   writer := Cutting(s.writer.rest, s.writer.bad)))
    case EndWrite =>
      if !s.writer.Cutting? || s.writer.rest != [] then None
      else if s.writer.bad then Some(Invalidate(s.(writer := Idle)))
      else Some(s.(writer := Idle))
    case Receive =>
      if s.reader != Waiting || s.queue == [] then None
      else if s.queue[0].FrameEvent? then
        Some(s.(reader := Received(s.queue[0].frame), queue := s.queue[1..]))
      else
        Some(s.(queue := s.queue[1..]))
    case Count =>
      if !s.reader.Received? || s.writer != Idle then None
      else Some(s.(consumed := s.consumed + 1,
                   delivered := s.delivered + [s.reader.frame],
                   reader := Waiting))
  }

  function Run(limit: nat, steps: seq<Step>): Option<State>
  {
    if steps == [] then Some(Start)
    else
      match Run(limit, steps[..|steps| - 1])
      case None => None
      case Some(s) => Apply(limit, s, steps[|steps| - 1])
  }

  ghost predicate Reachable(limit: nat, s: State)
  {
    exists steps :: Run(limit, steps) == Some(s)
  }

  // ---------------------------------------------------------------------
  // What every reachable state keeps
  // ---------------------------------------------------------------------

  function Frames(queue: seq<Event>): seq<Bytes>
  {
    if queue == [] then []
    else if queue[0].FrameEvent? then [queue[0].frame] + Frames(queue[1..])
    else Frames(queue[1..])
  }

  function Held(s: State): seq<Bytes>
  {
    if s.reader.Received? then [s.reader.frame] else []
  }

  function InSend(s: State): seq<Bytes>
  {
    if s.writer.Sending? then [s.writer.frame] else []
  }

  ghost predicate Inv(limit: nat, s: State)
  {
    && |s.queue| <= CHANNEL_SLOTS
    && (forall k :: 0 <= k < |s.queue| && s.queue[k].TransportError? ==> s.invalid && k == |s.queue| - 1)
    && s.delivered + Held(s) + Frames(s.queue) + InSend(s) == s.cut
    && s.consumed == |s.delivered|
    && |s.cut| <= limit
    && |s.cut| <= s.frameCount <= |s.cut| + 1
    && (!s.invalid ==> s.frameCount == |s.cut|)
    && (s.writer != Idle ==> !s.invalid)
  }

  lemma {:induction false} FramesAppend(queue: seq<Event>, event: Event)
    ensures Frames(queue + [event]) == Frames(queue) + (if event.FrameEvent? then [event.frame] else [])
  {
    if queue == [] {
      assert queue + [event] == [event];
    } else {
      FramesAppend(queue[1..], event);
      assert (queue + [event])[1..] == queue[1..] + [event];
    }
  }

  lemma {:induction false} FramesOfPlainQueue(queue: seq<Event>)
    requires forall k :: 0 <= k < |queue| ==> queue[k].FrameEvent?
    ensures |Frames(queue)| == |queue|
  {
    if queue != [] { FramesOfPlainQueue(queue[1..]); }
  }

  lemma InvCut(limit: nat, s: State)
    requires Inv(limit, s) && Apply(limit, s, Cut).Some?
    ensures Inv(limit, Apply(limit, s, Cut).value)
  {
    FramesAppend(s.queue, TransportError);
    hide Frames;
  }

  lemma InvSend(limit: nat, s: State)
    requires Inv(limit, s) && Apply(limit, s, Send).Some?
    ensures Inv(limit, Apply(limit, s, Send).value)
  {
    FramesAppend(s.queue, FrameEvent(s.writer.frame));
    hide Frames;
  }

  lemma InvEndWrite(limit: nat, s: State)
    requires Inv(limit, s) && Apply(limit, s, EndWrite).Some?
    ensures Inv(limit, Apply(limit, s, EndWrite).value)
  {
    FramesAppend(s.queue, TransportError);
    hide Frames;
  }

  lemma InvReceive(limit: nat, s: State)
    requires Inv(limit, s) && Apply(limit, s, Receive).Some?
    ensures Inv(limit, Apply(limit, s, Receive).value)
  {
    var s' := Apply(limit, s, Receive).value;
    assert Frames(s.queue) == (if s.queue[0].FrameEvent? then [s.queue[0].frame] else []) + Frames(s.queue[1..]);
    hide Frames;
    assert s'.delivered + Held(s') + Frames(s'.queue) + InSend(s') == s.cut;
  }

  lemma InvStep(limit: nat, s: State, step: Step)
    requires Inv(limit, s) && Apply(limit, s, step).Some?
    ensures Inv(limit, Apply(limit, s, step).value)
  {
    hide Frames;
    match step
    case BeginWrite(_, _) =>
    case Cut => InvCut(limit, s);
    case EndWrite => InvEndWrite(limit, s);
    case Send => InvSend(limit, s);
    case Receive => InvReceive(limit, s);
    case Count =>
  }

  lemma {:induction false} InvAlways(limit: nat, steps: seq<Step>)
    requires Run(limit, steps).Some?
    ensures Inv(limit, Run(limit, steps).value)
  {
    if steps != [] {
      var before := steps[..|steps| - 1];
      InvAlways(limit, before);
      InvStep(limit, Run(limit, before).value, steps[|steps| - 1]);
    }
  }

  /** Delivery is first-in first-out: what `next` has returned is a prefix of what Write cut off,
      and no more is ever consumed than was counted in. */
  lemma DeliveryIsFifo(limit: nat, s: State)
    requires Reachable(limit, s)
    ensures s.delivered <= s.cut
    ensures s.consumed == |s.delivered| <= s.frameCount
  {
    var steps :| Run(limit, steps) == Some(s);
    InvAlways(limit, steps);
  }

  // ---------------------------------------------------------------------
  // Blocking
  // ---------------------------------------------------------------------

  /** The writer, inside the critical section, waits for a free slot. */
  predicate WriterWaits(s: State) { s.writer.Sending? && |s.queue| == CHANNEL_SLOTS }

  /** The reader, holding an event, waits for the mutex. */
  predicate ReaderWaits(s: State) { s.reader.Received? && s.writer != Idle }

  /** Each side waits for the other. */
  predicate CircularWait(s: State) { WriterWaits(s) && ReaderWaits(s) }

  function Outstanding(s: State): int { s.frameCount - s.consumed }

  predicate WorkLeft(s: State) { s.writer != Idle || s.reader.Received? || s.queue != [] }

  /** There is work left, and neither side can take any step of its own. */
  predicate Stuck(limit: nat, s: State)
  {
    && WorkLeft(s)
    && Apply(limit, s, Cut).None?
    && Apply(limit, s, Send).None?
    && Apply(limit, s, EndWrite).None?
    && Apply(limit, s, Receive).None?
    && Apply(limit, s, Count).None?
  }

  /** A reachable state is stuck exactly when it is a circular wait, and it is one exactly when a
      valid stream has six frames outstanding: four queued, one in the reader's hand, one being
      sent. With at most four outstanding the writer does not even wait. */
  lemma CircularWaitIsSixOutstanding(limit: nat, s: State)
    requires Reachable(limit, s)
    ensures Stuck(limit, s) <==> CircularWait(s)
    ensures CircularWait(s) <==> !s.invalid && Outstanding(s) == CHANNEL_SLOTS + 2
    ensures !s.invalid ==> Outstanding(s) <= CHANNEL_SLOTS + 2
    ensures Outstanding(s) <= CHANNEL_SLOTS ==> !WriterWaits(s)
  {
    var steps :| Run(limit, steps) == Some(s);
    InvAlways(limit, steps);
    if !s.invalid { FramesOfPlainQueue(s.queue); }
  }

  lemma Extend(limit: nat, steps: seq<Step>, s: State, step: Step) returns (more: seq<Step>, s': State)
    requires Run(limit, steps) == Some(s) && Apply(limit, s, step).Some?
    ensures more == steps + [step] && Run(limit, more) == Some(s') && Some(s') == Apply(limit, s, step)
  {
    more := steps + [step];
    assert more[..|more| - 1] == steps;
    s' := Apply(limit, s, step).value;
  }

  lemma CutAndSend(limit: nat, steps: seq<Step>, s: State) returns (more: seq<Step>, s': State)
    requires Run(limit, steps) == Some(s)
    requires s.writer.Cutting? && s.writer.rest != [] && s.frameCount < limit && |s.queue| < CHANNEL_SLOTS
    ensures Run(limit, more) == Some(s')
    ensures s'.writer == Cutting(s.writer.rest[1..], s.writer.bad) && s'.frameCount == s.frameCount + 1
    ensures s'.queue == s.queue + [FrameEvent(s.writer.rest[0])]
    ensures s'.reader == s.reader && s'.consumed == s.consumed && s'.invalid == s.invalid
  {
    more, s' := Extend(limit, steps, s, Cut);
    more, s' := Extend(limit, more, s', Send);
  }

  /** One Write of six frames, with the reader picking up the first in between, ends in a circular wait. */
  lemma SixFramesInOneWriteCanLock(limit: nat, f: Bytes)
    requires limit >= CHANNEL_SLOTS + 2
    ensures exists s :: Reachable(limit, s) && CircularWait(s)
  {
    assert Run(limit, []) == Some(Start);
    var steps, s := Extend(limit, [], Start, BeginWrite([f, f, f, f, f, f], false));
    steps, s := CutAndSend(limit, steps, s);
    steps, s := Extend(limit, steps, s, Receive);
    steps, s := CutAndSend(limit, steps, s);
    steps, s := CutAndSend(limit, steps, s);
    steps, s := CutAndSend(limit, steps, s);
    steps, s := CutAndSend(limit, steps, s);
    steps, s := Extend(limit, steps, s, Cut);
    assert Reachable(limit, s) && CircularWait(s);
  }

  /** A stream can lock up exactly when its frame-count limit lets six frames in. The two-frame
      activity stream therefore never does; the operation stream (130 frames) relies on its peer
      never having six frames in flight. */
  lemma LockableIffSixFramesFit(limit: nat)
    ensures (exists s :: Reachable(limit, s) && CircularWait(s)) <==> limit >= 6
  {
    if limit >= CHANNEL_SLOTS + 2 {
      SixFramesInOneWriteCanLock(limit, [65]);
    } else {
      forall s | Reachable(limit, s) ensures !CircularWait(s) {
        CircularWaitIsSixOutstanding(limit, s);
        var steps :| Run(limit, steps) == Some(s);
        InvAlways(limit, steps);
      }
    }
  }
}
