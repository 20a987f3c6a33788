/**
 The two-party protocol around the activity trace: the controller sends `start`,
 a `phase` command per dispatch and finally `stop`; the helper answers `ready`,
 one acknowledgement per window and one terminal frame. The model interleaves
 the steps of both sides in every order, with a pipe of command lines one way
 and a stream of frames the other. Timeouts and lost processes are the
 controller giving up at any moment.
 */
module TraceSession {
  import opened Prelude
  import opened WriteScope
  import opened TraceHelper
  import opened SampleRules
  import opened ControlInput
  import opened ControlSize


  datatype Command = PhaseCommand(name: string, rules: seq<Rule>) | StopCommand

  /** The length of a command as JSON. */
  function CommandSize(command: Command): nat
  {
    match command
    case PhaseCommand(name, rules) => PhaseCommandSize(name, rules)
    case StopCommand => STOP_COMMAND_SIZE
  }

  datatype Controller =
    | AwaitReady
    | Idle
    | AwaitAck(name: string, rules: seq<Rule>)
    | AwaitFinal
    | Completed(result: Decoded)
    | Aborted

  /** `sequence` is operationWindowSequence; `inForce` lists the phase calls that succeeded. */
  datatype Session = Session(
    controller: Controller, sequence: nat, inForce: seq<(string, seq<Rule>)>,
    helper: Option<State>, pipe: seq<Command>, stdinClosed: bool, consumed: nat)

  const Opened := Session(AwaitReady, 0, [], None, [], false, 0)

  datatype Event =
    | HelperStarts(tree: Tree, cleanClose: bool)
    | HelperNotified(notification: Notification)
    | HelperReadFails
    | HelperTakesLine(pending: bool, cleanClose: bool)
    | HelperReachesEnd
    | ControllerReceives
    | ControllerSetsPhase(name: string, rules: seq<Rule>)
    | ControllerFinishes
    | ControllerGivesUp

  /** What the helper makes of a command line: over-long input ends the session before it is parsed. */
  function InputOf(command: Command, pending: bool, cleanClose: bool): Input
  {
    if CommandSize(command) + 1 > MAX_INPUT then EndOfInput
    else
      match command
      case PhaseCommand(name, rules) => ControlLine(PhaseControl(name, RuleList(OnWire(rules))), pending, cleanClose)
      case StopCommand => ControlLine(StopControl, pending, cleanClose)
  }

  /** The checks of setOperationNotificationPhase before it writes. */
  predicate Sendable(name: string, rules: seq<Rule>, sequence: nat)
  {
    && |rules| <= RULE_LIMIT
    && sequence < MAX_WINDOWS
    && ParsePhase(name).Some?
    && (forall rule :: rule in rules ==> ControllerAcceptsRule(rule))
    && CommandSize(PhaseCommand(name, rules)) <= CONTROL_LIMIT
  }

  /** decodeOperationNotificationPhaseAck. */
  predicate AckDecodes(frame: Frame, digest: string, name: string, ruleCount: nat, expected: nat)
  {
    && frame.AckFrame?
    && frame.session == digest
    && ParsePhase(name) == Some(frame.phase)
    && frame.ruleCount == ruleCount <= RULE_LIMIT
    && frame.windowSequence == expected && 1 <= expected <= MAX_WINDOWS
  }

  function Abort(s: Session): Session { s.(controller := Aborted, stdinClosed := true) }

  /** The frame the controller's stream delivers next, if one is waiting. */
  function NextFrame(s: Session): Option<Frame>
  {
    if s.helper.Some? && s.consumed < |s.helper.value.emitted| then Some(s.helper.value.emitted[s.consumed]) else None
  }

  /** What `finish` requires besides a decodable frame: the matching exit code and nothing left over. */
  predicate EndsCleanly(st: State, result: Decoded, consumed: nat)
  {
    && st.health.finished
    && ExitCode(st) == (if result.failure == NoFailure then 0 else 1)
    && consumed == |st.emitted|
  }

  function Receive(digest: string, s: Session, frame: Frame): Option<Session>
    requires s.helper.Some?
  {
    var taken := s.(consumed := s.consumed + 1);
    match s.controller
    case AwaitReady => Some(if frame == ReadyFrame(digest) then taken.(controller := Idle) else Abort(taken))
    case AwaitAck(name, rules) =>
      Some(if AckDecodes(frame, digest, name, |rules|, s.sequence + 1)
           then taken.(controller := Idle, sequence := s.sequence + 1, inForce := s.inForce + [(name, rules)])
           else Abort(taken))
    case AwaitFinal =>
      var decoded := DecodeTerminal(frame, digest);
      Some(if decoded.Some? && EndsCleanly(s.helper.value, decoded.value, taken.consumed)
           then taken.(controller := Completed(decoded.value))
           else Abort(taken))
    case Idle => None
    case Completed(_) => None
    case Aborted => None
  }

  function HelperStep(s: Session, input: Input): Option<Session>
  {
    if s.helper.None? then None
    else match Step(s.helper.value, input) case None => None case Some(next) => Some(s.(helper := Some(next)))
  }

  function Apply(digest: string, s: Session, event: Event): Option<Session>
  {
    match event
    case HelperStarts(tree, cleanClose) =>
      if s.helper.Some? then None else Some(s.(helper := Some(Begin(digest, tree, cleanClose))))
    case HelperNotified(n) => HelperStep(s, Notify(n))
    case HelperReadFails => HelperStep(s, BrokenRead)
    case HelperTakesLine(pending, cleanClose) =>
      if s.pipe == [] then None
      else HelperStep(s.(pipe := s.pipe[1..]), InputOf(s.pipe[0], pending, cleanClose))
    case HelperReachesEnd => if s.pipe == [] && s.stdinClosed then HelperStep(s, EndOfInput) else None
    case ControllerReceives => if NextFrame(s) == None then None else Receive(digest, s, NextFrame(s).value)
    case ControllerSetsPhase(name, rules) =>
      if s.controller != Idle then None
      else if !Sendable(name, rules, s.sequence) then Some(Abort(s))
      else Some(s.(controller := AwaitAck(name, rules), pipe := s.pipe + [PhaseCommand(name, rules)]))
    case ControllerFinishes =>
      if s.controller != Idle then None
      else if CommandSize(StopCommand) > SHORT_CONTROL_LIMIT then Some(Abort(s))
      else Some(s.(controller := AwaitFinal, pipe := s.pipe + [StopCommand], stdinClosed := true))
    case ControllerGivesUp => if s.controller.Completed? then None else Some(Abort(s))
  }

  function Play(digest: string, events: seq<Event>): Option<Session>
  {
    if events == [] then Some(Opened)
    else
      match Play(digest, events[..|events| - 1])
      case None => None
      case Some(s) => Apply(digest, s, events[|events| - 1])
  }

  /** What a phase call has to be for the controller to send it. */
  lemma SendableMeans(name: string, rules: seq<Rule>, sequence: nat)
    ensures Sendable(name, rules, sequence) <==>
            && |rules| <= 256 && sequence < 128
            && name in ["setup", "build", "run", "exercise", "cleanup"]
            && (forall i :: 0 <= i < |rules| ==> rules[i].base == "/outputs" || ValidObserved(rules[i].base))
            && PhaseCommandSize(name, rules) <= 524288
  {
    hide PhaseCommandSize, ValidObserved;
    assert (forall rule :: rule in rules ==> ControllerAcceptsRule(rule)) <==>
           forall i :: 0 <= i < |rules| ==> rules[i].base == "/outputs" || ValidObserved(rules[i].base) by {
      forall i | 0 <= i < |rules| ensures rules[i] in rules { }
    }
  }

  /** The acknowledgement the controller waits for: the one of its own command. */
  lemma AckMeans(frame: Frame, digest: string, phase: Phase, name: string, rules: seq<Rule>, sequence: nat)
    requires ParsePhase(name) == Some(phase) && |rules| <= 256 && sequence < 128
    ensures AckDecodes(frame, digest, name, |rules|, sequence + 1) <==> frame == AckFrame(digest, phase, |rules|, sequence + 1)
  {
    hide ParsePhase;
  }

  // ---------------------------------------------------------------------
  // The helper, as the controller sees it
  // ---------------------------------------------------------------------

  predicate NoBackslash(rules: seq<Rule>) { forall rule :: rule in rules ==> '\\' !in rule.base }

  /** Will the helper take this command? */
  predicate Deliverable(name: string, rules: seq<Rule>)
  {
    CommandSize(PhaseCommand(name, rules)) + 1 <= MAX_INPUT && NoBackslash(rules)
  }

  /** Rules survive the wire exactly when no base has a backslash. */
  lemma WireRoundTrip(rules: seq<Rule>)
    requires forall rule :: rule in rules ==> ControllerAcceptsRule(rule)
    ensures DecodeRuleList(OnWire(rules)) == if NoBackslash(rules) then Some(rules) else None
  {
    hide ControllerAcceptsRule, HelperValidBase;
    WireDecodes(rules);
    forall rule | rule in rules ensures HelperValidBase(rule.base) <==> '\\' !in rule.base { SentRuleIsTakenIff(rule); }
  }

  predicate Silent(st: State, next: State)
  {
    && next.emitted == st.emitted && next.window == st.window && next.session == st.session
    && next.health.finished == st.health.finished
  }

  lemma LatchIsSilent(st: State, reason: Failure)
    ensures Silent(st, Latch(st, reason))
  {
  }

  lemma CountIsSilent(st: State, kind: Kind, phase: Phase, matched: bool, lineLength: nat)
    ensures Silent(st, CountNotification(st, kind, phase, matched, lineLength))
  {
    hide Latch, Counted, Judged, Written;
    var counted := Counted(st.tally, kind, phase);
    LatchIsSilent(st.(tally := counted), NotificationOverflow);
    LatchIsSilent(st.(tally := Judged(counted, matched)), NotificationOverflow);
  }

  /** Notifications never produce a frame and never open a window. */
  lemma NoiseIsSilent(st: State, input: Input)
    requires Step(st, input).Some? && (input.Notify? || input.BrokenRead?)
    ensures Silent(st, Step(st, input).value) && !st.health.finished
  {
    hide Latch, CountNotification, ObservedPath, HelperMatches, Silent;
    LatchIsSilent(st, NotificationGap);
    LatchIsSilent(st, NotificationOverflow);
    LatchIsSilent(st, NewDirectoryGap);
    if input.Notify? && KindOf(input.notification.mask).Some? && ObservedPath(st, input.notification).Some? {
      ObservedPathHasPhase(st, input.notification);
      CountIsSilent(st, KindOf(input.notification.mask).value, st.window.phase.value,
                    HelperMatches(st.window.rules, ObservedPath(st, input.notification).value), input.notification.lineLength);
    }
  }

  /** `next` differs from `st` by one more frame and by nothing the controller could notice otherwise. */
  predicate Answers(st: State, next: State)
  {
    |next.emitted| == |st.emitted| + 1 && next.emitted[..|st.emitted|] == st.emitted && next.session == st.session
  }

  predicate IsRefusal(st: State, next: State)
  {
    && next.health.finished && next.Failed()
    && next.emitted == st.emitted + [FailedFrame(st.session, next.health.failure)]
    && next.window == st.window && next.session == st.session
  }

  lemma RefusalFails(st: State)
    requires !st.health.finished
    ensures IsRefusal(st, Refuse(st)) && Answers(st, Refuse(st))
  {
  }

  lemma CheckPendingIsSilent(st: State, pending: bool)
    requires !st.health.finished
    ensures var next := CheckPending(st, pending);
            next.emitted == st.emitted && next.window == st.window && next.session == st.session && !next.health.finished
  {
  }

  lemma EmitFailedAnswers(st: State)
    requires !st.health.finished
    ensures var next := EmitFailed(st); Answers(st, next) && next.health.finished && next.window == st.window
  {
  }

  lemma EmitFinalAnswers(st: State, ok: bool, cleanClose: bool)
    requires !st.health.finished
    ensures var next := EmitFinal(st, ok, cleanClose);
            && Answers(st, next) && next.health.finished && next.window == st.window
            && next.emitted[|st.emitted|].FinalFrame?
  {
    hide ReportOf;
  }

  lemma OpenWindowAnswers(st: State, phase: Phase, rules: seq<Rule>)
    ensures var next := OpenWindow(st, phase, rules);
            && Answers(st, next) && next.health == st.health
            && next.window == Window(Some(phase), rules, st.window.sequence + 1, st.window.declared + |rules|)
            && next.emitted == st.emitted + [AckFrame(st.session, phase, |rules|, st.window.sequence + 1)]
  {
  }

  /** What the helper does with a well-formed `phase` line, by whether its rules decode. */
  lemma ObeyedPhase(st: State, name: string, wire: WireRules, pending: bool, cleanClose: bool)
    requires !st.health.finished && ParsePhase(name).Some? && st.window.sequence < MAX_WINDOWS
    ensures var next := Obey(st, PhaseControl(name, wire), pending, cleanClose);
            if DecodeRules(wire).Some? then
              var rules := DecodeRules(wire).value;
              && !next.health.finished
              && next.window == Window(ParsePhase(name), rules, st.window.sequence + 1, st.window.declared + |rules|)
              && next.emitted == st.emitted + [AckFrame(st.session, ParsePhase(name).value, |rules|, st.window.sequence + 1)]
            else IsRefusal(st, next)
  {
    hide ParsePhase, DecodeRules, Refuse, CheckPending, OpenWindow, IsRefusal, Answers;
    RefusalFails(st);
    CheckPendingIsSilent(st, pending);
    if DecodeRules(wire).Some? {
      OpenWindowAnswers(CheckPending(st, pending), ParsePhase(name).value, DecodeRules(wire).value);
    }
  }

  lemma ControlIsAnswered(st: State, control: Control, pending: bool, cleanClose: bool)
    requires !st.health.finished
    ensures var next := Obey(st, control, pending, cleanClose);
            Answers(st, next) && (control.StopControl? ==> next.health.finished && next.window == st.window)
  {
    RefusalFails(st);
    CheckPendingIsSilent(st, pending);
    var checked := CheckPending(st, pending);
    EmitFailedAnswers(checked);
    EmitFinalAnswers(checked, true, cleanClose);
    if control.PhaseControl? && ParsePhase(control.phase).Some? && DecodeRules(control.rules).Some? {
      OpenWindowAnswers(checked, ParsePhase(control.phase).value, DecodeRules(control.rules).value);
    }
    hide ParsePhase, DecodeRules, Refuse, CheckPending, OpenWindow, EmitFailed, EmitFinal, IsRefusal;
  }

  /** Every command, and the end of input, is answered by exactly one frame. */
  lemma CommandIsAnswered(st: State, input: Input)
    requires Step(st, input).Some? && (input.ControlLine? || input.EndOfInput?)
    ensures Answers(st, Step(st, input).value)
  {
    RefusalFails(st);
    if input.ControlLine? { ControlIsAnswered(st, input.control, input.pending, input.cleanClose); }
    hide Obey, Refuse, Answers;
  }

  /** The helper takes a command the controller was willing to send, and acknowledges exactly what
      was sent, if and only if the line fits its input and no base has a backslash. Otherwise it
      fails the session. */
  lemma PhaseIsTakenIff(digest: string, st: State, name: string, rules: seq<Rule>, pending: bool, cleanClose: bool)
    requires !st.health.finished && Sendable(name, rules, st.window.sequence)
    ensures var next := Step(st, InputOf(PhaseCommand(name, rules), pending, cleanClose)).value;
            if Deliverable(name, rules) then
              && !next.health.finished
              && next.window == Window(ParsePhase(name), rules, st.window.sequence + 1, st.window.declared + |rules|)
              && next.emitted == st.emitted + [AckFrame(st.session, ParsePhase(name).value, |rules|, st.window.sequence + 1)]
            else IsRefusal(st, next)
  {
    hide CommandSize;
    WireRoundTrip(rules);
    RefusalFails(st);
    ObeyedPhase(st, name, RuleList(OnWire(rules)), pending, cleanClose);
    assert DecodeRules(RuleList(OnWire(rules))) == if NoBackslash(rules) then Some(rules) else None;
    hide ParsePhase, DecodeRules, DecodeRuleList, OnWire, ControllerAcceptsRule, Obey, Refuse, IsRefusal, NoBackslash;
    var input := InputOf(PhaseCommand(name, rules), pending, cleanClose);
    if CommandSize(PhaseCommand(name, rules)) + 1 > MAX_INPUT {
      assert Step(st, input) == Some(Refuse(st));
    } else {
      assert Step(st, input) == Some(Obey(st, PhaseControl(name, RuleList(OnWire(rules))), pending, cleanClose));
    }
  }

  // ---------------------------------------------------------------------
  // What every interleaving keeps
  // ---------------------------------------------------------------------

  /** How many rules the successful phase calls declared in all. */
  function Total(calls: seq<(string, seq<Rule>)>): nat
  {
    if calls == [] then 0 else Total(calls[..|calls| - 1]) + |calls[|calls| - 1].1|
  }

  /** The helper's window is the one the given calls opened: as many windows as calls, as many
      rules as they declared, and the last call's phase and rules in force. */
  ghost predicate Synced(w: Window, calls: seq<(string, seq<Rule>)>)
  {
    && w.sequence == |calls|
    && w.declared == Total(calls)
    && (calls != [] ==> w.phase == ParsePhase(calls[|calls| - 1].0) && w.rules == calls[|calls| - 1].1)
  }

  ghost predicate AgreeReady(s: Session, h: State)
  {
    && s.pipe == [] && !s.stdinClosed && s.inForce == [] && s.consumed == 0 && |h.emitted| == 1
    && if h.health.finished then h.emitted[0].FinalFrame?
       else Inv(h) && h.window == Window(None, [], 0, 0)
  }

  ghost predicate AgreeIdle(s: Session, h: State)
  {
    Inv(h) && s.pipe == [] && !s.stdinClosed && !h.health.finished && s.consumed == |h.emitted| && Synced(h.window, s.inForce)
  }

  /** The command is still in the pipe; or its acknowledgement is on the way; or the refusal is. */
  ghost predicate AgreeAck(digest: string, s: Session, h: State, name: string, rules: seq<Rule>)
  {
    && Inv(h) && !s.stdinClosed && Sendable(name, rules, s.sequence)
    && if s.pipe != [] then
         s.pipe == [PhaseCommand(name, rules)] && s.consumed == |h.emitted| && !h.health.finished && Synced(h.window, s.inForce)
       else
         && s.consumed + 1 == |h.emitted|
         && (!h.health.finished <==> Deliverable(name, rules))
         && if h.health.finished then h.emitted[s.consumed].FailedFrame?
            else
              && Synced(h.window, s.inForce + [(name, rules)])
              && h.emitted[s.consumed] == AckFrame(h.session, ParsePhase(name).value, |rules|, s.sequence + 1)
  }

  ghost predicate AgreeFinal(s: Session, h: State)
  {
    && Inv(h) && s.stdinClosed && Synced(h.window, s.inForce)
    && if s.pipe != [] then s.pipe == [StopCommand] && s.consumed == |h.emitted| && !h.health.finished
       else s.consumed + 1 == |h.emitted| && h.health.finished
  }

  ghost predicate AgreeCompleted(s: Session, h: State, result: Decoded)
  {
    && Inv(h) && h.health.finished && s.consumed == |h.emitted| > 0 && Synced(h.window, s.inForce)
    && DecodeTerminal(h.emitted[|h.emitted| - 1], h.session) == Some(result)
  }

  ghost predicate Agree(digest: string, s: Session, h: State)
  {
    match s.controller
    case AwaitReady => AgreeReady(s, h)
    case Idle => AgreeIdle(s, h)
    case AwaitAck(name, rules) => AgreeAck(digest, s, h, name, rules)
    case AwaitFinal => AgreeFinal(s, h)
    case Completed(result) => AgreeCompleted(s, h, result)
    case Aborted => true
  }

  /** Frames waiting, commands waiting, and one more while the helper can still produce an answer
      to the end of its input: never more than two in all. */
  ghost predicate Sparse(s: Session, h: State)
  {
    s.consumed <= |h.emitted| && |s.pipe| <= 1 && |h.emitted| - s.consumed + |s.pipe| + (if h.health.finished then 0 else 1) <= 2
  }

  ghost predicate SessionInv(digest: string, s: Session)
  {
    && s.sequence == |s.inForce|
    && match s.helper
       case None => s.controller in {AwaitReady, Aborted} && s.pipe == [] && s.inForce == [] && s.consumed == 0
                    && (s.controller == AwaitReady ==> !s.stdinClosed)
       case Some(h) => h.session == digest && Sparse(s, h) && Agree(digest, s, h)
  }

  /** A helper that cannot watch the tree ends at once; otherwise it says `ready`. */
  lemma BeginAnswers(digest: string, tree: Tree, cleanClose: bool)
    ensures var h := Begin(digest, tree, cleanClose);
            && h.session == digest && |h.emitted| == 1 && h.window == Window(None, [], 0, 0)
            && (h.health.finished <==> !tree.Watched?)
            && (!tree.Watched? ==> h.emitted[0].FinalFrame?)
            && (tree.Watched? ==> Inv(h))
  {
    if tree.Watched? {
      InvBegin(digest, tree.watches);
      BeginWatching(digest, tree.watches);
    } else {
      BeginRefuses(digest, tree, cleanClose);
    }
    hide TraceHelper.Inv, Begin;
  }

  lemma BeginWatching(digest: string, watches: map<int, RawName>)
    ensures var h := Begin(digest, Watched(watches), true);
            h.session == digest && |h.emitted| == 1 && h.window == Window(None, [], 0, 0) && !h.health.finished
  {
  }

  lemma BeginRefuses(digest: string, tree: Tree, cleanClose: bool)
    requires !tree.Watched?
    ensures var h := Begin(digest, tree, cleanClose);
            && h.session == digest && |h.emitted| == 1 && h.window == Window(None, [], 0, 0)
            && h.health.finished && h.emitted[0].FinalFrame?
  {
    hide EmitFinal;
    var st := Initial(digest);
    var gone := if tree.TreeGap? then st.(health := st.health.(gap := true)) else st.(health := st.health.(overflow := true));
    EmitFinalAnswers(gone, false, cleanClose);
    assert Begin(digest, tree, cleanClose) == EmitFinal(gone, false, cleanClose);
    assert gone.emitted == [] && gone.window == Window(None, [], 0, 0) && gone.session == digest;
  }

  lemma SessionInvStart(digest: string, s: Session, tree: Tree, cleanClose: bool)
    requires SessionInv(digest, s) && s.helper.None?
    ensures SessionInv(digest, Apply(digest, s, HelperStarts(tree, cleanClose)).value)
  {
    BeginAnswers(digest, tree, cleanClose);
    hide TraceHelper.Inv, Synced, Begin;
  }

  lemma SilenceKeepsSessionInv(digest: string, s: Session, next: State)
    requires SessionInv(digest, s) && s.helper.Some? && !s.helper.value.health.finished
    requires Silent(s.helper.value, next) && (Inv(s.helper.value) ==> Inv(next))
    ensures SessionInv(digest, s.(helper := Some(next)))
  {
    hide TraceHelper.Inv, Synced, Sendable, Deliverable, DecodeTerminal;
  }

  lemma SessionInvNoise(digest: string, s: Session, input: Input)
    requires SessionInv(digest, s) && HelperStep(s, input).Some? && (input.Notify? || input.BrokenRead?)
    ensures SessionInv(digest, HelperStep(s, input).value)
  {
    hide SessionInv, TraceHelper.Inv, Silent, Step;
    var h := s.helper.value;
    NoiseIsSilent(h, input);
    if Inv(h) { InvStep(h, input); }
    SilenceKeepsSessionInv(digest, s, Step(h, input).value);
  }

  lemma StepNeedsUnfinished(st: State, input: Input)
    requires Step(st, input).Some?
    ensures !st.health.finished
  {
  }

  lemma SessionInvEnd(digest: string, s: Session)
    requires SessionInv(digest, s) && s.pipe == [] && s.stdinClosed && HelperStep(s, EndOfInput).Some?
    ensures SessionInv(digest, HelperStep(s, EndOfInput).value)
  {
    var h := s.helper.value;
    StepNeedsUnfinished(h, EndOfInput);
    CommandIsAnswered(h, EndOfInput);
    RefusalFails(h);
    hide TraceHelper.Inv, Synced, Sendable, Deliverable, DecodeTerminal, Refuse;
  }

  lemma SyncedNext(w: Window, calls: seq<(string, seq<Rule>)>, name: string, rules: seq<Rule>)
    requires Synced(w, calls)
    ensures Synced(Window(ParsePhase(name), rules, w.sequence + 1, w.declared + |rules|), calls + [(name, rules)])
  {
    hide ParsePhase;
    var longer := calls + [(name, rules)];
    assert longer[..|longer| - 1] == calls;
  }

  lemma SessionInvAckLine(digest: string, s: Session, pending: bool, cleanClose: bool)
    requires SessionInv(digest, s) && s.pipe != [] && s.controller.AwaitAck?
    requires Apply(digest, s, HelperTakesLine(pending, cleanClose)).Some?
    ensures SessionInv(digest, Apply(digest, s, HelperTakesLine(pending, cleanClose)).value)
  {
    hide TraceHelper.Inv, Sendable, Deliverable, Step, InputOf, ParsePhase, Total, Receive;
    var h := s.helper.value;
    var name, rules := s.controller.name, s.controller.rules;
    var input := InputOf(PhaseCommand(name, rules), pending, cleanClose);
    StepNeedsUnfinished(h, input);
    InputIsCommand(PhaseCommand(name, rules), pending, cleanClose);
    PhaseIsTakenIff(digest, h, name, rules, pending, cleanClose);
    SyncedNext(h.window, s.inForce, name, rules);
    hide Synced;
    InvStep(h, input);
    CommandIsAnswered(h, input);
  }

  lemma InputIsCommand(command: Command, pending: bool, cleanClose: bool)
    ensures var input := InputOf(command, pending, cleanClose); input.ControlLine? || input.EndOfInput?
  {
  }

  lemma SessionInvStopLine(digest: string, s: Session, pending: bool, cleanClose: bool)
    requires SessionInv(digest, s) && s.pipe != [] && s.controller == AwaitFinal
    requires Apply(digest, s, HelperTakesLine(pending, cleanClose)).Some?
    ensures SessionInv(digest, Apply(digest, s, HelperTakesLine(pending, cleanClose)).value)
  {
    var h := s.helper.value;
    var input := InputOf(StopCommand, pending, cleanClose);
    StepNeedsUnfinished(h, input);
    StopEnds(digest, h, pending, cleanClose);
    InvStep(h, input);
    CommandIsAnswered(h, input);
    hide TraceHelper.Inv, Synced, Step, InputOf;
  }

  lemma StopEnds(digest: string, st: State, pending: bool, cleanClose: bool)
    requires Step(st, InputOf(StopCommand, pending, cleanClose)).Some?
    ensures var next := Step(st, InputOf(StopCommand, pending, cleanClose)).value;
            next.health.finished && next.window == st.window
  {
    RefusalFails(st);
    ControlIsAnswered(st, StopControl, pending, cleanClose);
    hide Obey, Refuse;
  }

  lemma SessionInvAbortedLine(digest: string, s: Session, pending: bool, cleanClose: bool)
    requires SessionInv(digest, s) && s.pipe != [] && s.controller == Aborted
    requires Apply(digest, s, HelperTakesLine(pending, cleanClose)).Some?
    ensures SessionInv(digest, Apply(digest, s, HelperTakesLine(pending, cleanClose)).value)
  {
    hide Step, InputOf, CommandSize;
    var h := s.helper.value;
    var input := InputOf(s.pipe[0], pending, cleanClose);
    StepNeedsUnfinished(h, input);
    InputIsCommand(s.pipe[0], pending, cleanClose);
    CommandIsAnswered(h, input);
  }

  lemma SessionInvReceiveReady(digest: string, s: Session)
    requires SessionInv(digest, s) && NextFrame(s).Some? && s.controller == AwaitReady
    ensures SessionInv(digest, Receive(digest, s, NextFrame(s).value).value)
  {
    hide TallyBytes, TallyKinds, TallyMatched, TallyPhases;
    var h := s.helper.value;
    if !h.health.finished { assert FramesInOrder(h); }
  }

  lemma SessionInvReceiveAck(digest: string, s: Session)
    requires SessionInv(digest, s) && NextFrame(s).Some? && s.controller.AwaitAck?
    ensures SessionInv(digest, Receive(digest, s, NextFrame(s).value).value)
  {
    hide Deliverable, ParsePhase, TraceHelper.Inv, Sendable;
  }

  lemma SessionInvReceiveFinal(digest: string, s: Session)
    requires SessionInv(digest, s) && NextFrame(s).Some? && s.controller == AwaitFinal
    ensures SessionInv(digest, Receive(digest, s, NextFrame(s).value).value)
  {
    hide DecodeTerminal, TraceHelper.Inv, Synced;
  }

  lemma SessionInvReceive(digest: string, s: Session)
    requires SessionInv(digest, s) && NextFrame(s).Some? && Apply(digest, s, ControllerReceives).Some?
    ensures SessionInv(digest, Apply(digest, s, ControllerReceives).value)
  {
    hide SessionInv;
    match s.controller
    case AwaitReady => SessionInvReceiveReady(digest, s);
    case AwaitAck(_, _) => SessionInvReceiveAck(digest, s);
    case AwaitFinal => SessionInvReceiveFinal(digest, s);
    case _ =>
  }

  lemma SessionInvStep(digest: string, s: Session, event: Event)
    requires SessionInv(digest, s) && Apply(digest, s, event).Some?
    ensures SessionInv(digest, Apply(digest, s, event).value)
  {
    hide Step, InputOf, TraceHelper.Inv, Synced, Deliverable, DecodeTerminal, Begin;
    match event
    case HelperStarts(tree, cleanClose) => SessionInvStart(digest, s, tree, cleanClose);
    case HelperNotified(n) => SessionInvNoise(digest, s, Notify(n));
    case HelperReadFails => SessionInvNoise(digest, s, BrokenRead);
    case HelperTakesLine(pending, cleanClose) =>
      match s.controller {
        case AwaitAck(_, _) => SessionInvAckLine(digest, s, pending, cleanClose);
        case AwaitFinal => SessionInvStopLine(digest, s, pending, cleanClose);
        case Aborted => SessionInvAbortedLine(digest, s, pending, cleanClose);
        case Completed(_) => StepNeedsUnfinished(s.helper.value, InputOf(s.pipe[0], pending, cleanClose));
        case AwaitReady =>
        case Idle =>
      }
    case HelperReachesEnd => SessionInvEnd(digest, s);
    case ControllerReceives => SessionInvReceive(digest, s);
    case ControllerSetsPhase(name, rules) =>
    case ControllerFinishes =>
    case ControllerGivesUp =>
  }

  lemma OpenedIsInv(digest: string)
    ensures SessionInv(digest, Opened)
  {
  }

  lemma {:induction false} SessionInvAlways(digest: string, events: seq<Event>, s: Session)
    requires Play(digest, events) == Some(s)
    ensures SessionInv(digest, s)
  {
    hide SessionInv, Apply;
    if events == [] {
      OpenedIsInv(digest);
    } else {
      var before := Play(digest, events[..|events| - 1]).value;
      SessionInvAlways(digest, events[..|events| - 1], before);
      SessionInvStep(digest, before, events[|events| - 1]);
    }
  }

  // ---------------------------------------------------------------------
  // What follows for the two parties
  // ---------------------------------------------------------------------

  /** Whenever the controller is between calls, every phase call it saw succeed is in force at the
      helper: same number of windows, same number of rules declared in all, and the last call's phase
      and rules are the ones notifications are judged by. */
  lemma SuccessfulPhaseIsInForce(digest: string, events: seq<Event>, s: Session)
    requires Play(digest, events) == Some(s) && s.controller == Idle
    ensures s.helper.Some? && !s.helper.value.health.finished
    ensures var w := s.helper.value.window;
            && w.sequence == s.sequence == |s.inForce|
            && w.declared == Total(s.inForce)
            && (s.inForce != [] ==>
                  w.phase == ParsePhase(s.inForce[|s.inForce| - 1].0) && w.rules == s.inForce[|s.inForce| - 1].1)
  {
    SessionInvAlways(digest, events, s);
    hide Play, TraceHelper.Inv, Total, ParsePhase;
  }

  /** Once the helper has obeyed a phase command there is an answer for the controller, and the call
      succeeds if and only if the command was strictly shorter than the controller's own limit and
      none of its rules has a backslash. The controller checks neither. */
  lemma PhaseCallSucceedsIff(digest: string, events: seq<Event>, s: Session)
    requires Play(digest, events) == Some(s) && s.controller.AwaitAck? && s.pipe == []
    ensures NextFrame(s).Some?
    ensures var command := PhaseCommand(s.controller.name, s.controller.rules);
            Apply(digest, s, ControllerReceives).value.controller == Idle <==>
            CommandSize(command) < 524288 && NoBackslash(s.controller.rules)
  {
    hide CommandSize, Play, TraceHelper.Inv, Synced, ParsePhase, ControllerAcceptsRule;
    SessionInvAlways(digest, events, s);
  }

  /** The first phase call of a session, up to the helper having read the command. */
  function FirstCall(name: string, rules: seq<Rule>): (events: seq<Event>)
    ensures |events| == 4
  {
    [HelperStarts(Watched(map[]), true), ControllerReceives, ControllerSetsPhase(name, rules), HelperTakesLine(false, true)]
  }

  /** A command of exactly the limit is sent and then refused: the newline the controller adds after
      its check is the byte too many. A plan can get there: these eighty-six patterns compile to rules
      that make such a command, in the first call of an undisturbed session. */
  lemma CommandOfExactlyTheLimitIsRefused(digest: string) returns (patterns: seq<string>, rules: seq<Rule>, s: Session)
    ensures patterns == Patterns(86, 1009) && CompiledFrom(rules, patterns)
    ensures CommandSize(PhaseCommand("run", rules)) == CONTROL_LIMIT && NoBackslash(rules)
    ensures Play(digest, FirstCall("run", rules)) == Some(s)
    ensures s.controller == AwaitAck("run", rules) && NextFrame(s).Some? && NextFrame(s).value.FailedFrame?
  {
    hide *;
    patterns, rules := LimitRules();
    LimitIsSendable(rules, patterns);
    s := SendableAtTheLimitIsRefused(digest, "run", rules);
  }

  lemma LimitRules() returns (patterns: seq<string>, rules: seq<Rule>)
    ensures patterns == Patterns(86, 1009) && CompiledFrom(rules, patterns)
    ensures PhaseCommandSize("run", rules) == CONTROL_LIMIT && |rules| <= RULE_LIMIT
  {
    hide Patterns, Rules, CompiledFrom, PhaseCommandSize;
    SampleIsCompiled(86, 1009);
    EightySixRulesReachTheLimit();
    patterns, rules := Patterns(86, 1009), Rules(86, 1009);
  }

  lemma LimitIsSendable(rules: seq<Rule>, patterns: seq<string>)
    requires CompiledFrom(rules, patterns) && |rules| <= RULE_LIMIT && PhaseCommandSize("run", rules) == CONTROL_LIMIT
    ensures Sendable("run", rules, 0) && NoBackslash(rules) && CommandSize(PhaseCommand("run", rules)) == CONTROL_LIMIT
  {
    hide PhaseCommandSize, ControllerAcceptsRule, ValidPattern, RulesOf, Elements;
    CompiledRulesTravel(patterns, rules);
  }

  /** Any sendable command of that length is refused, as the first of a session. */
  lemma SendableAtTheLimitIsRefused(digest: string, name: string, rules: seq<Rule>) returns (s: Session)
    requires Sendable(name, rules, 0) && CommandSize(PhaseCommand(name, rules)) == CONTROL_LIMIT
    ensures Play(digest, FirstCall(name, rules)) == Some(s)
    ensures s.controller == AwaitAck(name, rules) && NextFrame(s).Some? && NextFrame(s).value.FailedFrame?
  {
    hide CommandSize, Sendable, Begin, TraceHelper.Inv, Refuse, Play;
    var events := FirstCall(name, rules);
    var h := Begin(digest, Watched(map[]), true);
    BeginWatching(digest, map[]);
    BeginSaysReady(digest, map[]);
    PlayNothing(digest);
    RefusalFails(h);
    s := PlayNext(digest, [], Opened, events[0]);
    assert [] + [events[0]] == events[..1];
    s := PlayNext(digest, events[..1], s, events[1]);
    assert events[..1] + [events[1]] == events[..2];
    s := PlayNext(digest, events[..2], s, events[2]);
    assert s == Session(AwaitAck(name, rules), 0, [], Some(h), [PhaseCommand(name, rules)], false, 1);
    hide Receive;
    assert InputOf(s.pipe[0], false, true) == EndOfInput;
    assert Step(h, InputOf(s.pipe[0], false, true)) == Some(Refuse(h));
    hide InputOf, Step;
    assert events[..2] + [events[2]] == events[..3];
    s := PlayNext(digest, events[..3], s, events[3]);
    assert events[..3] + [events[3]] == events;
  }

  lemma BeginSaysReady(digest: string, watches: map<int, RawName>)
    ensures Begin(digest, Watched(watches), true).emitted == [ReadyFrame(digest)]
  {
  }

  lemma PlayNothing(digest: string)
    ensures Play(digest, []) == Some(Opened)
  {
  }

  lemma PlayNext(digest: string, events: seq<Event>, s: Session, event: Event) returns (next: Session)
    requires Play(digest, events) == Some(s) && Apply(digest, s, event).Some?
    ensures Play(digest, events + [event]) == Some(next) == Apply(digest, s, event)
  {
    hide Apply;
    assert (events + [event])[..|events|] == events;
    next := Apply(digest, s, event).value;
  }

  /** Once the helper has obeyed `stop` there is a terminal frame. `finish` succeeds exactly when that
      frame decodes, its checks of the exit code and of leftover output add nothing; and it decodes
      exactly when a failure was latched, or the watch closed cleanly and the successful phase calls
      declared at most 4096 rules in all. */
  lemma FinishSucceedsIff(digest: string, events: seq<Event>, s: Session)
    requires Play(digest, events) == Some(s) && s.controller == AwaitFinal && s.pipe == []
    ensures NextFrame(s).Some?
    ensures var h, next := s.helper.value, Apply(digest, s, ControllerReceives).value;
            && (next.controller.Completed? <==> DecodeTerminal(NextFrame(s).value, digest).Some?)
            && (next.controller.Completed? <==> h.Failed() || (!h.health.gap && Total(s.inForce) <= NOTIFICATION_LIMIT))
  {
    hide CommandSize, Play, TraceHelper.Inv, Total, DecodeTerminal, ExitCode, Sendable, Deliverable;
    SessionInvAlways(digest, events, s);
    TerminalFrameOf(s.helper.value);
  }

  /** The report `finish` returns is the helper's own, and its window and rule counts are those of the
      phase calls that succeeded. */
  lemma ReportMatchesCalls(digest: string, events: seq<Event>, s: Session)
    requires Play(digest, events) == Some(s) && s.controller.Completed?
    ensures s.helper.Some?
    ensures var h, result := s.helper.value, s.controller.result;
            if h.Failed() then result == Decoded(h.health.failure, None)
            else result == Decoded(NoFailure, Some(ReportOf(h))) && CountersAreTallies(h.tally)
    ensures s.controller.result.report.Some? ==>
              var report := s.controller.result.report.value;
              report.windows == |s.inForce| && report.declared == Total(s.inForce) <= NOTIFICATION_LIMIT
  {
    hide Play, SessionInv, TraceHelper.Inv, Total, DecodeTerminal, CountersAreTallies, ReportOf;
    SessionInvAlways(digest, events, s);
    CompletedAgrees(digest, s);
    TerminalFrameOf(s.helper.value);
    InvTallies(s.helper.value);
    hide AgreeCompleted;
    ReportRepeatsWindow(s.helper.value);
  }

  lemma CompletedAgrees(digest: string, s: Session)
    requires SessionInv(digest, s) && s.controller.Completed?
    ensures s.helper.Some? && s.helper.value.session == digest && AgreeCompleted(s, s.helper.value, s.controller.result)
    ensures var w := s.helper.value.window; w.sequence == |s.inForce| && w.declared == Total(s.inForce)
    ensures var h := s.helper.value;
            h.emitted != [] && DecodeTerminal(h.emitted[|h.emitted| - 1], h.session) == Some(s.controller.result)
    ensures Inv(s.helper.value) && s.helper.value.health.finished
  {
    hide TraceHelper.Inv, DecodeTerminal, Total;
  }

  lemma InvTallies(h: State)
    requires Inv(h)
    ensures !h.Failed() ==> CountersAreTallies(h.tally)
  {
    hide CountersAreTallies, FramesInOrder;
  }

  lemma ReportRepeatsWindow(h: State)
    ensures ReportOf(h).windows == h.window.sequence && ReportOf(h).declared == h.window.declared
  {
  }

  /** At most one command and at most two frames are ever under way, aborted sessions included. */
  lemma FlightIsShort(digest: string, s: Session)
    requires SessionInv(digest, s)
    ensures s.helper.Some? ==> 0 <= |s.helper.value.emitted| - s.consumed <= 2
    ensures |s.pipe| <= 1 && (s.helper.None? ==> s.pipe == [])
  {
    hide Agree;
  }
}
