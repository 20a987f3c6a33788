/**
 The activity-trace helper: the Python script that runs inside the sandbox,
 watches the output tree and answers the controller. It is a step machine over
 two inputs, kernel notifications and control lines, and writes frames.

 `State` and the functions on it are the specification; module TraceHelperScript
 holds the script's own shape, global variables updated in place.
 */
module TraceHelper {
  import opened Prelude
  import opened Paths
  import opened WriteScope
  import opened SampleRules

  const MAX_EVENTS := 4096
  const MAX_RAW := 0x10_0000
  const MAX_WINDOWS := 128

  datatype Phase = Setup | Build | Run | Exercise | Cleanup

  datatype Failure = NoFailure | NotificationOverflow | NewDirectoryGap | NotificationGap

  datatype Kind = Create | Delete | Write | Rename | Metadata

  datatype PhaseCounts = PhaseCounts(setup: nat, build: nat, run: nat, exercise: nat, cleanup: nat, unknown: nat) {
    function Sum(): nat { setup + build + run + exercise + cleanup + unknown }

    function Bump(phase: Phase): PhaseCounts
    {
      match phase
      case Setup => this.(setup := setup + 1)
      case Build => this.(build := build + 1)
      case Run => this.(run := run + 1)
      case Exercise => this.(exercise := exercise + 1)
      case Cleanup => this.(cleanup := cleanup + 1)
    }
  }

  datatype KindCounts = KindCounts(create: nat, delete: nat, write: nat, rename: nat, metadata: nat) {
    function Sum(): nat { create + delete + write + rename + metadata }

    function Bump(kind: Kind): KindCounts
    {
      match kind
      case Create => this.(create := create + 1)
      case Delete => this.(delete := delete + 1)
      case Write => this.(write := write + 1)
      case Rename => this.(rename := rename + 1)
      case Metadata => this.(metadata := metadata + 1)
    }
  }

  predicate IsRenameHint(kind: Kind) { kind == Rename || kind == Create || kind == Delete }

  // ---------------------------------------------------------------------
  // Inputs
  // ---------------------------------------------------------------------

  /** Bytes from the kernel: either the UTF-8 encoding of a text, or not decodable. */
  datatype RawName = Text(text: string) | Undecodable(length: nat)

  function RawLength(name: RawName): nat
  {
    match name case Text(text) => ByteLength(text) case Undecodable(length) => length
  }

  /** The inotify mask, bit by bit; `unknown` is any bit the helper does not know. */
  datatype Mask = Mask(
    queueOverflow: bool, unknown: bool, deleteSelf: bool, moveSelf: bool, ignored: bool, isDirectory: bool,
    movedFrom: bool, movedTo: bool, create: bool, delete: bool, attributes: bool, modified: bool, closeWrite: bool)

  /** One notification; `lineLength` is the length of the transcript line it would produce. */
  datatype Notification = Notification(wd: int, mask: Mask, name: RawName, lineLength: nat)

  function KindOf(mask: Mask): Option<Kind>
  {
    if mask.movedFrom || mask.movedTo then Some(Rename)
    else if mask.create then Some(Create)
    else if mask.delete then Some(Delete)
    else if mask.attributes then Some(Metadata)
    else if mask.modified || mask.closeWrite then Some(Write)
    else None
  }

  /** A rule as JSON delivers it. */
  datatype WireRule = BadRule | WireRule(kind: string, base: string)

  datatype WireRules = NotAList | RuleList(rules: seq<WireRule>)

  /** A control line: not an object carrying the session token, one of the two commands, or neither. */
  datatype Control = Unauthenticated | PhaseControl(phase: string, rules: WireRules) | StopControl | OtherControl

  function ParsePhase(name: string): Option<Phase>
  {
    if name == "setup" then Some(Setup)
    else if name == "build" then Some(Build)
    else if name == "run" then Some(Phase.Run)
    else if name == "exercise" then Some(Exercise)
    else if name == "cleanup" then Some(Cleanup)
    else None
  }

  function ParseKind(name: string): Option<RuleKind>
  {
    if name == "exact" then Some(RuleKind.Exact)
    else if name == "child" then Some(RuleKind.Child)
    else if name == "tree" then Some(RuleKind.Tree)
    else None
  }

  function DecodeRule(rule: WireRule): Option<Rule>
  {
    if rule.BadRule? || ParseKind(rule.kind).None? || !HelperValidBase(rule.base) then None
    else Some(Rule(ParseKind(rule.kind).value, rule.base))
  }

  function DecodeRuleList(rules: seq<WireRule>): (decoded: Option<seq<Rule>>)
    ensures decoded.Some? ==> |decoded.value| == |rules|
  {
    if rules == [] then Some([])
    else
      var first, rest := DecodeRule(rules[0]), DecodeRuleList(rules[1..]);
      if first.None? || rest.None? then None else Some([first.value] + rest.value)
  }

  function DecodeRules(rules: WireRules): (decoded: Option<seq<Rule>>)
    ensures decoded.Some? ==> |decoded.value| <= RULE_LIMIT
  {
    if rules.NotAList? || |rules.rules| > RULE_LIMIT then None else DecodeRuleList(rules.rules)
  }

  /** A rule list as the controller puts it on the wire. */
  function OnWire(rules: seq<Rule>): (wire: seq<WireRule>)
    ensures |wire| == |rules|
  {
    seq(|rules|, i requires 0 <= i < |rules| => WireRule.WireRule(rules[i].kind.Name(), rules[i].base))
  }

  predicate ValidBases(rules: seq<Rule>) { forall rule :: rule in rules ==> HelperValidBase(rule.base) }

  /** The helper reads back the list it was sent, unless it refuses one of the bases. */
  lemma {:induction false} WireDecodes(rules: seq<Rule>)
    ensures DecodeRuleList(OnWire(rules)) == if ValidBases(rules) then Some(rules) else None
  {
    hide HelperValidBase;
    if rules != [] {
      var first, rest := rules[0], rules[1..];
      assert rules == [first] + rest && OnWire(rules)[1..] == OnWire(rest);
      assert forall rule :: rule in rules <==> rule == first || rule in rest;
      assert DecodeRule(OnWire(rules)[0]) == if HelperValidBase(first.base) then Some(first) else None;
      WireDecodes(rest);
    }
  }

  // ---------------------------------------------------------------------
  // Outputs
  // ---------------------------------------------------------------------

  /** A line of the canonical transcript, whose digest the final frame carries. */
  datatype Line = Line(sequence: nat, kind: Kind, phase: Phase, matched: bool, length: nat)

  datatype Report = Report(
    notifications: nat, renameHints: nat, changeHints: nat, phases: PhaseCounts,
    overflow: bool, gap: bool, transcript: seq<Line>, rawBytes: nat,
    windows: nat, declared: nat, compared: nat, allowed: nat, undeclared: nat, kinds: KindCounts, nonconforming: bool)

  datatype Frame =
    | ReadyFrame(session: string)
    | AckFrame(session: string, phase: Phase, ruleCount: nat, windowSequence: nat)
    | FailedFrame(session: string, failure: Failure)
    | FinalFrame(session: string, ok: bool, report: Report)

  predicate Terminal(frame: Frame) { frame.FailedFrame? || frame.FinalFrame? }

  /** What has been counted. */
  datatype Tally = Tally(
    count: nat, renameHints: nat, changeHints: nat, allowed: nat, undeclared: nat, rawBytes: nat,
    phases: PhaseCounts, kinds: KindCounts, transcript: seq<Line>)

  /** The rules in force, how many windows were opened and how many rules they declared in all. */
  datatype Window = Window(phase: Option<Phase>, rules: seq<Rule>, sequence: nat, declared: nat)

  datatype Health = Health(failure: Failure, overflow: bool, gap: bool, watching: bool, finished: bool)

  datatype State = State(
    session: string, tally: Tally, window: Window, health: Health, watches: map<int, RawName>, emitted: seq<Frame>)
  {
    predicate Failed() { health.failure != NoFailure }
  }

  // ---------------------------------------------------------------------
  // The script's procedures
  // ---------------------------------------------------------------------

  function StopWatching(st: State): State
  {
    if st.health.watching then st.(health := st.health.(watching := false), watches := map[]) else st
  }

  function Latch(st: State, reason: Failure): State
  {
    if st.Failed() then st
    else StopWatching(st.(health := st.health.(failure := reason,
                                               overflow := reason == NotificationOverflow,
                                               gap := reason != NotificationOverflow)))
  }

  function EmitFailed(st: State): State
  {
    if st.health.finished then st
    else
      var stopped := StopWatching(st.(health := st.health.(finished := true)));
      stopped.(emitted := st.emitted + [FailedFrame(st.session, st.health.failure)])
  }

  function ReportOf(st: State): Report
  {
    var t := st.tally;
    Report(Min(t.count, MAX_EVENTS), t.renameHints, t.changeHints, t.phases, st.health.overflow, st.health.gap,
           t.transcript, t.rawBytes, st.window.sequence, st.window.declared, t.count, t.allowed, t.undeclared,
           t.kinds, t.undeclared > 0)
  }

  /** final(ok); `cleanClose` is whether closing the inotify descriptor succeeds. */
  function EmitFinal(st: State, ok: bool, cleanClose: bool): State
  {
    if st.health.finished then st
    else
      var unclean := st.health.watching && !cleanClose;
      var stopped := StopWatching(st.(health := st.health.(finished := true, gap := st.health.gap || unclean)));
      stopped.(emitted := st.emitted
        + [FinalFrame(st.session, ok && !stopped.health.overflow && !stopped.health.gap, ReportOf(stopped))])
  }

  /** The path a notification speaks of, when everything about it is in order. */
  function ObservedPath(st: State, n: Notification): Option<string>
  {
    if n.wd !in st.watches || st.window.phase == None || n.name.Undecodable? || st.watches[n.wd].Undecodable? then None
    else if n.name.text == "" || '/' in n.name.text || !HelperValidText(n.name.text) then None
    else
      var path := st.watches[n.wd].text + "/" + n.name.text;
      if RawLength(st.watches[n.wd]) + 1 + RawLength(n.name) > PATH_LIMIT || !HelperValidBase(path) then None else Some(path)
  }

  /** The notification is counted under its phase and kind. */
  function Counted(t: Tally, kind: Kind, phase: Phase): Tally
  {
    var hinted := if IsRenameHint(kind) then t.(renameHints := t.renameHints + 1) else t.(changeHints := t.changeHints + 1);
    hinted.(count := t.count + 1, phases := t.phases.Bump(phase), kinds := t.kinds.Bump(kind))
  }

  /** Then it is judged against the rules in force. */
  function Judged(t: Tally, matched: bool): Tally
  {
    if matched then t.(allowed := t.allowed + 1) else t.(undeclared := t.undeclared + 1)
  }

  /** And finally written to the transcript. */
  function Written(t: Tally, line: Line): Tally
  {
    t.(rawBytes := t.rawBytes + line.length, transcript := t.transcript + [line])
  }

  /** The counting half of record(), for a notification found in order. */
  function CountNotification(st: State, kind: Kind, phase: Phase, matched: bool, lineLength: nat): State
  {
    var counted := Counted(st.tally, kind, phase);
    if counted.count > MAX_EVENTS then Latch(st.(tally := counted), NotificationOverflow)
    else
      var judged := Judged(counted, matched);
      if judged.rawBytes + lineLength > MAX_RAW then Latch(st.(tally := judged), NotificationOverflow)
      else st.(tally := Written(judged, Line(counted.count, kind, phase, matched, lineLength)))
  }

  function Record(st: State, n: Notification): State
  {
    if n.mask.queueOverflow then Latch(st, NotificationOverflow)
    else if n.mask.unknown || n.wd !in st.watches || n.mask.deleteSelf || n.mask.moveSelf || n.mask.ignored then
      Latch(st, NotificationGap)
    else if ObservedPath(st, n) == None then Latch(st, NotificationGap)
    else if n.mask.isDirectory && (n.mask.create || n.mask.movedTo) then Latch(st, NewDirectoryGap)
    else if KindOf(n.mask) == None then Latch(st, NotificationGap)
    else
      CountNotification(st, KindOf(n.mask).value, st.window.phase.value,
                        HelperMatches(st.window.rules, ObservedPath(st, n).value), n.lineLength)
  }

  function Refuse(st: State): State { EmitFailed(Latch(st, NotificationGap)) }

  /** Notifications still queued when a control line is obeyed make the window boundary unreliable. */
  function CheckPending(st: State, pending: bool): State
  {
    if !st.Failed() && st.health.watching && pending then Latch(st, NotificationGap) else st
  }

  function OpenWindow(st: State, phase: Phase, rules: seq<Rule>): State
  {
    var next := st.window.sequence + 1;
    st.(window := Window(Some(phase), rules, next, st.window.declared + |rules|),
        emitted := st.emitted + [AckFrame(st.session, phase, |rules|, next)])
  }

  /** One control line. `pending` is whether notifications are still waiting in the kernel queue. */
  function Obey(st: State, control: Control, pending: bool, cleanClose: bool): State
  {
    match control
    case Unauthenticated => Refuse(st)
    case OtherControl => Refuse(st)
    case StopControl =>
      var checked := CheckPending(st, pending);
      if checked.Failed() then EmitFailed(checked) else EmitFinal(checked, true, cleanClose)
    case PhaseControl(name, wire) =>
      if ParsePhase(name).None? || DecodeRules(wire).None? || st.window.sequence >= MAX_WINDOWS then Refuse(st)
      else OpenWindow(CheckPending(st, pending), ParsePhase(name).value, DecodeRules(wire).value)
  }

  datatype Input =
    | Notify(notification: Notification)
    | BrokenRead                                                   // the read failed or its records did not parse
    | ControlLine(control: Control, pending: bool, cleanClose: bool)
    | EndOfInput                                                   // end of file, or more input than MAX_INPUT

  function Step(st: State, input: Input): Option<State>
  {
    if st.health.finished then None
    else
      match input
      case Notify(n) => if st.health.watching then Some(Record(st, n)) else None
      case BrokenRead => if st.health.watching then Some(Latch(st, NotificationGap)) else None
      case ControlLine(control, pending, cleanClose) => Some(Obey(st, control, pending, cleanClose))
      case EndOfInput => Some(Refuse(st))
  }

  datatype Tree = Watched(watches: map<int, RawName>) | TreeGap | TreeOverflow

  /** Nothing counted yet. */
  function Zero(): Tally { Tally(0, 0, 0, 0, 0, 0, PhaseCounts(0, 0, 0, 0, 0, 0), KindCounts(0, 0, 0, 0, 0), []) }

  /** The globals before any watch is installed, with the inotify descriptor open. */
  function Initial(session: string): State
  {
    State(session, Zero(), Window(None, [], 0, 0), Health(NoFailure, false, false, true, false), map[], [])
  }

  /** Installing the watches, then either `ready` or an immediate unsuccessful final frame. */
  function Begin(session: string, tree: Tree, cleanClose: bool): State
  {
    var st := Initial(session);
    match tree
    case Watched(watches) => st.(watches := watches, emitted := [ReadyFrame(session)])
    case TreeGap => EmitFinal(st.(health := st.health.(gap := true)), false, cleanClose)
    case TreeOverflow => EmitFinal(st.(health := st.health.(overflow := true)), false, cleanClose)
  }

  /** A run from the moment `ready` was written. */
  function RunHelper(session: string, watches: map<int, RawName>, inputs: seq<Input>): Option<State>
  {
    if inputs == [] then Some(Begin(session, Watched(watches), true))
    else
      match RunHelper(session, watches, inputs[..|inputs| - 1])
      case None => None
      case Some(before) => Step(before, inputs[|inputs| - 1])
  }

  function ExitCode(st: State): int
  {
    if st.health.finished && !st.Failed() && !st.health.gap && !st.health.overflow then 0 else 1
  }

  // ---------------------------------------------------------------------
  // What every run keeps
  // ---------------------------------------------------------------------

  function TallyPhases(lines: seq<Line>): PhaseCounts
  {
    if lines == [] then PhaseCounts(0, 0, 0, 0, 0, 0) else TallyPhases(lines[..|lines| - 1]).Bump(lines[|lines| - 1].phase)
  }

  function TallyKinds(lines: seq<Line>): KindCounts
  {
    if lines == [] then KindCounts(0, 0, 0, 0, 0) else TallyKinds(lines[..|lines| - 1]).Bump(lines[|lines| - 1].kind)
  }

  function TallyMatched(lines: seq<Line>, matched: bool): nat
  {
    if lines == [] then 0
    else TallyMatched(lines[..|lines| - 1], matched) + (if lines[|lines| - 1].matched == matched then 1 else 0)
  }

  function TallyBytes(lines: seq<Line>): nat
  {
    if lines == [] then 0 else TallyBytes(lines[..|lines| - 1]) + lines[|lines| - 1].length
  }

  /** As long as nothing has failed, every counter is a tally of the canonical transcript. */
  ghost predicate CountersAreTallies(t: Tally)
  {
    && t.count == |t.transcript| <= MAX_EVENTS
    && t.phases == TallyPhases(t.transcript)
    && t.kinds == TallyKinds(t.transcript)
    && t.allowed == TallyMatched(t.transcript, true)
    && t.undeclared == TallyMatched(t.transcript, false)
    && t.rawBytes == TallyBytes(t.transcript) <= MAX_RAW
  }

  /** The sums that hold at all times, failed or not. */
  ghost predicate CountersBalance(t: Tally)
  {
    && t.phases.Sum() == t.count && t.phases.unknown == 0
    && t.kinds.Sum() == t.count
    && t.renameHints == t.kinds.rename + t.kinds.create + t.kinds.delete
    && t.changeHints == t.kinds.write + t.kinds.metadata
    && t.allowed + t.undeclared <= t.count <= MAX_EVENTS + 1
  }

  ghost predicate FlagsAgree(h: Health)
  {
    && h.overflow == (h.failure == NotificationOverflow)
    && (!h.finished ==> (h.watching <==> h.failure == NoFailure) && (h.gap <==> h.failure != NoFailure && !h.overflow))
    && (h.failure != NoFailure ==> !h.watching && h.gap == !h.overflow)
  }

  /** Ready first, then one acknowledgement per window in order, then at most one terminal frame,
      which is `final` exactly when no failure was latched. */
  ghost predicate FramesInOrder(st: State)
  {
    var k := st.window.sequence;
    && |st.emitted| == 1 + k + (if st.health.finished then 1 else 0)
    && st.emitted[0] == ReadyFrame(st.session)
    && (forall i :: 1 <= i <= k ==>
          && st.emitted[i].AckFrame? && st.emitted[i].session == st.session
          && st.emitted[i].windowSequence == i && st.emitted[i].ruleCount <= RULE_LIMIT)
    && (k > 0 ==> st.window.phase.Some? && st.emitted[k] == AckFrame(st.session, st.window.phase.value, |st.window.rules|, k))
    && (st.health.finished ==>
      st.emitted[1 + k] == if st.Failed() then FailedFrame(st.session, st.health.failure)
                           else FinalFrame(st.session, !st.health.gap, ReportOf(st)))
  }

  ghost predicate WindowBounded(w: Window)
  {
    w.sequence <= MAX_WINDOWS && w.declared <= RULE_LIMIT * w.sequence
  }

  ghost predicate Inv(st: State)
  {
    && (!st.Failed() ==> CountersAreTallies(st.tally) && st.tally.allowed + st.tally.undeclared == st.tally.count)
    && CountersBalance(st.tally)
    && WindowBounded(st.window)
    && FlagsAgree(st.health)
    && FramesInOrder(st)
  }

  lemma TallyNext(lines: seq<Line>, line: Line)
    ensures TallyPhases(lines + [line]) == TallyPhases(lines).Bump(line.phase)
    ensures TallyKinds(lines + [line]) == TallyKinds(lines).Bump(line.kind)
    ensures TallyMatched(lines + [line], true) == TallyMatched(lines, true) + (if line.matched then 1 else 0)
    ensures TallyMatched(lines + [line], false) == TallyMatched(lines, false) + (if line.matched then 0 else 1)
    ensures TallyBytes(lines + [line]) == TallyBytes(lines) + line.length
  {
    assert (lines + [line])[..|lines|] == lines;
  }

  /** Latching needs only the sums to balance; after it the transcript no longer has to match. */
  lemma InvLatch(st: State, reason: Failure)
    requires !st.health.finished && reason != NoFailure
    requires CountersBalance(st.tally) && WindowBounded(st.window) && FlagsAgree(st.health) && FramesInOrder(st)
    ensures Inv(Latch(st, reason)) && Latch(st, reason).Failed()
    ensures Latch(st, reason).health.finished == false && Latch(st, reason).window == st.window
  {
    hide CountersBalance, WindowBounded, CountersAreTallies;
  }

  lemma InvEmitFailed(st: State)
    requires Inv(st) && !st.health.finished && st.Failed()
    ensures Inv(EmitFailed(st))
  {
    hide CountersBalance, WindowBounded, CountersAreTallies;
  }

  lemma InvEmitFinal(st: State, cleanClose: bool)
    requires Inv(st) && !st.health.finished && !st.Failed()
    ensures Inv(EmitFinal(st, true, cleanClose))
  {
    hide CountersBalance, WindowBounded, CountersAreTallies;
  }

  lemma InvRefuse(st: State)
    requires Inv(st) && !st.health.finished
    ensures Inv(Refuse(st))
  {
    hide EmitFailed, Latch, CountersBalance, WindowBounded, CountersAreTallies;
    InvLatch(st, NotificationGap);
    InvEmitFailed(Latch(st, NotificationGap));
  }

  lemma CountedBalances(t: Tally, kind: Kind, phase: Phase)
    requires CountersBalance(t) && t.count <= MAX_EVENTS
    ensures CountersBalance(Counted(t, kind, phase))
  {
  }

  lemma JudgedBalances(t: Tally, matched: bool)
    requires CountersBalance(t) && t.allowed + t.undeclared + 1 == t.count
    ensures CountersBalance(Judged(t, matched))
  {
  }

  lemma WrittenIsTally(t: Tally, kind: Kind, phase: Phase, matched: bool, length: nat)
    requires CountersAreTallies(t) && t.count < MAX_EVENTS && t.rawBytes + length <= MAX_RAW
    ensures CountersAreTallies(Written(Judged(Counted(t, kind, phase), matched), Line(t.count + 1, kind, phase, matched, length)))
  {
    hide TallyPhases, TallyKinds, TallyMatched, TallyBytes;
    TallyNext(t.transcript, Line(t.count + 1, kind, phase, matched, length));
  }

  /** The counters can be replaced by any balanced counters, with a latch or as a full tally. */
  lemma InvWithTally(st: State, t: Tally)
    requires Inv(st) && !st.health.finished && CountersBalance(t)
    ensures Inv(Latch(st.(tally := t), NotificationOverflow))
    ensures CountersAreTallies(t) && t.allowed + t.undeclared == t.count ==> Inv(st.(tally := t))
  {
    hide CountersBalance, CountersAreTallies, WindowBounded, FlagsAgree;
    assert FramesInOrder(st.(tally := t));
    InvLatch(st.(tally := t), NotificationOverflow);
  }

  lemma CountedFacts(t: Tally, kind: Kind, phase: Phase, matched: bool)
    ensures var counted := Counted(t, kind, phase);
            var judged := Judged(counted, matched);
            && counted.count == judged.count == t.count + 1
            && counted.allowed == t.allowed && counted.undeclared == t.undeclared && judged.rawBytes == t.rawBytes
            && judged.allowed + judged.undeclared == t.allowed + t.undeclared + 1
  {
    hide PhaseCounts.Bump, KindCounts.Bump;
  }

  lemma InvMeansTallies(st: State)
    requires Inv(st) && !st.Failed()
    ensures CountersAreTallies(st.tally) && st.tally.count <= MAX_EVENTS && CountersBalance(st.tally)
    ensures st.tally.allowed + st.tally.undeclared == st.tally.count
  {
    hide CountersBalance, WindowBounded, FlagsAgree, FramesInOrder, TallyPhases, TallyKinds, TallyMatched, TallyBytes;
  }

  lemma InvCount(st: State, kind: Kind, phase: Phase, matched: bool, lineLength: nat)
    requires Inv(st) && !st.health.finished && !st.Failed()
    ensures Inv(CountNotification(st, kind, phase, matched, lineLength))
  {
    hide Inv, Latch, CountersBalance, CountersAreTallies, Counted, Judged, Written;
    var counted := Counted(st.tally, kind, phase);
    var judged := Judged(counted, matched);
    InvMeansTallies(st);
    CountedFacts(st.tally, kind, phase, matched);
    CountedBalances(st.tally, kind, phase);
    JudgedBalances(counted, matched);
    InvWithTally(st, counted);
    InvWithTally(st, judged);
    var line := Line(counted.count, kind, phase, matched, lineLength);
    WrittenKeepsSums(judged, line);
    if counted.count <= MAX_EVENTS && judged.rawBytes + lineLength <= MAX_RAW {
      WrittenIsTally(st.tally, kind, phase, matched, lineLength);
      InvWithTally(st, Written(judged, line));
    }
  }

  lemma WrittenKeepsSums(t: Tally, line: Line)
    ensures CountersBalance(t) ==> CountersBalance(Written(t, line))
    ensures Written(t, line).allowed == t.allowed && Written(t, line).undeclared == t.undeclared && Written(t, line).count == t.count
  {
  }

  lemma InvRecord(st: State, n: Notification)
    requires Inv(st) && !st.health.finished && st.health.watching
    ensures Inv(Record(st, n))
  {
    hide HelperMatches, ObservedPath, CountNotification, CountersBalance, CountersAreTallies, WindowBounded, FramesInOrder;
    assert !st.Failed();
    hide FlagsAgree;
    InvLatch(st, NotificationOverflow);
    InvLatch(st, NotificationGap);
    InvLatch(st, NewDirectoryGap);
    ObservedPathHasPhase(st, n);
    hide Inv, Latch;
    if ObservedPath(st, n).Some? && KindOf(n.mask).Some? {
      InvCount(st, KindOf(n.mask).value, st.window.phase.value,
               HelperMatches(st.window.rules, ObservedPath(st, n).value), n.lineLength);
    }
  }

  lemma ObservedPathHasPhase(st: State, n: Notification)
    ensures ObservedPath(st, n).Some? ==> st.window.phase.Some?
  {
  }

  lemma InvCheckPending(st: State, pending: bool)
    requires Inv(st) && !st.health.finished
    ensures var checked := CheckPending(st, pending);
            Inv(checked) && !checked.health.finished && checked.window == st.window
  {
    InvLatch(st, NotificationGap);
    hide Inv, Latch;
  }

  lemma InvOpenWindow(st: State, phase: Phase, rules: seq<Rule>)
    requires Inv(st) && !st.health.finished && st.window.sequence < MAX_WINDOWS && |rules| <= RULE_LIMIT
    ensures Inv(OpenWindow(st, phase, rules))
  {
    hide CountersBalance, CountersAreTallies;
  }

  lemma InvObey(st: State, control: Control, pending: bool, cleanClose: bool)
    requires Inv(st) && !st.health.finished
    ensures Inv(Obey(st, control, pending, cleanClose))
  {
    hide Inv, CheckPending, EmitFailed, EmitFinal, Refuse, OpenWindow, ParsePhase, DecodeRules;
    InvRefuse(st);
    InvCheckPending(st, pending);
    var checked := CheckPending(st, pending);
    match control
    case Unauthenticated =>
    case OtherControl =>
    case StopControl =>
      if checked.Failed() { InvEmitFailed(checked); } else { InvEmitFinal(checked, cleanClose); }
    case PhaseControl(name, wire) =>
      if ParsePhase(name).Some? && DecodeRules(wire).Some? && st.window.sequence < MAX_WINDOWS {
        InvOpenWindow(checked, ParsePhase(name).value, DecodeRules(wire).value);
      }
  }

  lemma InvStep(st: State, input: Input)
    requires Inv(st) && Step(st, input).Some?
    ensures Inv(Step(st, input).value)
  {
    hide Record, Obey, Inv, Refuse, Latch;
    match input
    case Notify(n) => InvRecord(st, n);
    case BrokenRead => BrokenReadKeeps(st);
    case ControlLine(control, pending, cleanClose) => InvObey(st, control, pending, cleanClose);
    case EndOfInput => InvRefuse(st);
  }

  lemma BrokenReadKeeps(st: State)
    requires Inv(st) && !st.health.finished
    ensures Inv(Latch(st, NotificationGap))
  {
    InvLatch(st, NotificationGap);
  }

  lemma InvBegin(session: string, watches: map<int, RawName>)
    ensures Inv(Begin(session, Watched(watches), true))
    ensures Begin(session, Watched(watches), true).session == session
  {
    hide *;
    BeginParts(session, watches);
    InvOfFresh(Begin(session, Watched(watches), true));
  }

  lemma InvOfFresh(st: State)
    requires st.tally == Zero() && st.window == Window(None, [], 0, 0)
    requires st.health == Health(NoFailure, false, false, true, false) && st.emitted == [ReadyFrame(st.session)]
    ensures Inv(st)
  {
    hide CountersBalance, CountersAreTallies, Zero, ReportOf;
    ZeroBalances();
    ZeroTallies();
    assert FlagsAgree(st.health);
    assert FramesInOrder(st);
    assert WindowBounded(st.window);
    hide FlagsAgree, FramesInOrder, WindowBounded;
  }

  lemma BeginParts(session: string, watches: map<int, RawName>)
    ensures var st := Begin(session, Watched(watches), true);
            && st.session == session && st.tally == Zero() && st.window == Window(None, [], 0, 0)
            && st.health == Health(NoFailure, false, false, true, false) && st.emitted == [ReadyFrame(session)]
  {
  }

  lemma ZeroBalances()
    ensures CountersBalance(Zero())
  {
  }

  lemma ZeroTallies()
    ensures CountersAreTallies(Zero()) && Zero().allowed + Zero().undeclared == Zero().count
  {
  }

  lemma StepKeepsSession(st: State, input: Input)
    requires Step(st, input).Some?
    ensures Step(st, input).value.session == st.session
  {
    hide ObservedPath, HelperMatches, DecodeRules, ParsePhase, KindOf, Counted, Judged, Written, ReportOf;
  }

  /** Every run of a helper that got as far as `ready` keeps the invariant. */
  lemma {:induction false} InvRun(session: string, watches: map<int, RawName>, inputs: seq<Input>, st: State)
    requires RunHelper(session, watches, inputs) == Some(st)
    ensures Inv(st) && st.session == session
  {
    hide Inv, Step, Begin;
    if inputs == [] {
      InvBegin(session, watches);
    } else {
      var before := RunHelper(session, watches, inputs[..|inputs| - 1]).value;
      InvRun(session, watches, inputs[..|inputs| - 1], before);
      InvStep(before, inputs[|inputs| - 1]);
      StepKeepsSession(before, inputs[|inputs| - 1]);
    }
  }

  /** At most one terminal frame is ever written, nothing follows it, and it is not `final` once a
      failure has been latched. */
  lemma OneTerminalFrameLast(session: string, watches: map<int, RawName>, inputs: seq<Input>, st: State)
    requires RunHelper(session, watches, inputs) == Some(st)
    ensures forall k :: 0 <= k < |st.emitted| && Terminal(st.emitted[k]) ==> k == |st.emitted| - 1 && st.health.finished
    ensures st.Failed() ==> forall k :: 0 <= k < |st.emitted| ==> !st.emitted[k].FinalFrame?
    ensures st.emitted != [] && (st.health.finished <==> Terminal(st.emitted[|st.emitted| - 1]))
  {
    hide RunHelper, CountersBalance, CountersAreTallies;
    InvRun(session, watches, inputs, st);
    var k := st.window.sequence;
    assert FramesInOrder(st);
    assert forall i :: 0 <= i <= k ==> !Terminal(st.emitted[i]);
  }

  // ---------------------------------------------------------------------
  // What is counted, said of the transcript and the notification
  // ---------------------------------------------------------------------

  /** Where the transcript has a line of this phase, of this kind, judged so. */
  ghost function PlacesOfPhase(lines: seq<Line>, phase: Phase): set<int> { set i | 0 <= i < |lines| && lines[i].phase == phase }

  ghost function PlacesOfKind(lines: seq<Line>, kind: Kind): set<int> { set i | 0 <= i < |lines| && lines[i].kind == kind }

  ghost function PlacesJudged(lines: seq<Line>, matched: bool): set<int> { set i | 0 <= i < |lines| && lines[i].matched == matched }

  ghost predicate CountsPhases(c: PhaseCounts, lines: seq<Line>)
  {
    && c.setup == |PlacesOfPhase(lines, Setup)|
    && c.build == |PlacesOfPhase(lines, Build)|
    && c.run == |PlacesOfPhase(lines, Phase.Run)|
    && c.exercise == |PlacesOfPhase(lines, Exercise)|
    && c.cleanup == |PlacesOfPhase(lines, Cleanup)|
    && c.unknown == 0
  }

  ghost predicate CountsKinds(c: KindCounts, lines: seq<Line>)
  {
    && c.create == |PlacesOfKind(lines, Create)|
    && c.delete == |PlacesOfKind(lines, Delete)|
    && c.write == |PlacesOfKind(lines, Write)|
    && c.rename == |PlacesOfKind(lines, Rename)|
    && c.metadata == |PlacesOfKind(lines, Metadata)|
  }

  lemma PhasePlacesNext(lines: seq<Line>, phase: Phase)
    requires lines != []
    ensures |PlacesOfPhase(lines, phase)|
         == |PlacesOfPhase(lines[..|lines| - 1], phase)| + (if lines[|lines| - 1].phase == phase then 1 else 0)
  {
    var n := |lines| - 1;
    var front := PlacesOfPhase(lines[..n], phase);
    if lines[n].phase == phase { assert PlacesOfPhase(lines, phase) == front + {n}; } else { assert PlacesOfPhase(lines, phase) == front; }
  }

  lemma KindPlacesNext(lines: seq<Line>, kind: Kind)
    requires lines != []
    ensures |PlacesOfKind(lines, kind)|
         == |PlacesOfKind(lines[..|lines| - 1], kind)| + (if lines[|lines| - 1].kind == kind then 1 else 0)
  {
    var n := |lines| - 1;
    var front := PlacesOfKind(lines[..n], kind);
    if lines[n].kind == kind { assert PlacesOfKind(lines, kind) == front + {n}; } else { assert PlacesOfKind(lines, kind) == front; }
  }

  lemma JudgedPlacesNext(lines: seq<Line>, matched: bool)
    requires lines != []
    ensures |PlacesJudged(lines, matched)|
         == |PlacesJudged(lines[..|lines| - 1], matched)| + (if lines[|lines| - 1].matched == matched then 1 else 0)
  {
    var n := |lines| - 1;
    var front := PlacesJudged(lines[..n], matched);
    if lines[n].matched == matched { assert PlacesJudged(lines, matched) == front + {n}; } else { assert PlacesJudged(lines, matched) == front; }
  }

  lemma {:induction false} PhaseTallyCounts(lines: seq<Line>)
    ensures CountsPhases(TallyPhases(lines), lines)
  {
    if lines != [] {
      hide PlacesOfPhase;
      PhaseTallyCounts(lines[..|lines| - 1]);
      forall phase
        ensures |PlacesOfPhase(lines, phase)|
             == |PlacesOfPhase(lines[..|lines| - 1], phase)| + (if lines[|lines| - 1].phase == phase then 1 else 0)
      {
        PhasePlacesNext(lines, phase);
      }
    }
  }

  lemma {:induction false} KindTallyCounts(lines: seq<Line>)
    ensures CountsKinds(TallyKinds(lines), lines)
  {
    if lines != [] {
      hide PlacesOfKind;
      KindTallyCounts(lines[..|lines| - 1]);
      forall kind
        ensures |PlacesOfKind(lines, kind)|
             == |PlacesOfKind(lines[..|lines| - 1], kind)| + (if lines[|lines| - 1].kind == kind then 1 else 0)
      {
        KindPlacesNext(lines, kind);
      }
    }
  }

  lemma {:induction false} MatchTallyCounts(lines: seq<Line>, matched: bool)
    ensures TallyMatched(lines, matched) == |PlacesJudged(lines, matched)|
  {
    if lines != [] {
      MatchTallyCounts(lines[..|lines| - 1], matched);
      JudgedPlacesNext(lines, matched);
    }
  }

  /** While nothing has failed, every counter of any run is the number of lines of the transcript that
      it stands for: by phase, by kind, by judgement. */
  lemma CountersCountLines(session: string, watches: map<int, RawName>, inputs: seq<Input>, st: State)
    requires RunHelper(session, watches, inputs) == Some(st) && !st.Failed()
    ensures var t := st.tally;
            && t.count == |t.transcript| <= 4096
            && CountsPhases(t.phases, t.transcript) && CountsKinds(t.kinds, t.transcript)
            && t.allowed == |PlacesJudged(t.transcript, true)| && t.undeclared == |PlacesJudged(t.transcript, false)|
            && t.renameHints == t.kinds.create + t.kinds.delete + t.kinds.rename
            && t.changeHints == t.kinds.write + t.kinds.metadata
  {
    hide RunHelper, CountsPhases, CountsKinds, TallyPhases, TallyKinds, TallyMatched, TallyBytes, PlacesJudged, FramesInOrder;
    InvRun(session, watches, inputs, st);
    PhaseTallyCounts(st.tally.transcript);
    KindTallyCounts(st.tally.transcript);
    MatchTallyCounts(st.tally.transcript, true);
    MatchTallyCounts(st.tally.transcript, false);
  }

  /** A line says what kind of change the mask bits stand for: a move first, then a creation, a
      deletion, changed attributes, and only then a write. */
  ghost predicate KindByBits(kind: Kind, m: Mask)
  {
    var moved := m.movedFrom || m.movedTo;
    && (kind == Rename <==> moved)
    && (kind == Create <==> !moved && m.create)
    && (kind == Delete <==> !moved && !m.create && m.delete)
    && (kind == Metadata <==> !moved && !m.create && !m.delete && m.attributes)
    && (kind == Write <==> !moved && !m.create && !m.delete && !m.attributes && (m.modified || m.closeWrite))
  }

  predicate SomeChange(m: Mask)
  {
    m.movedFrom || m.movedTo || m.create || m.delete || m.attributes || m.modified || m.closeWrite
  }

  lemma KindIsByBits(m: Mask)
    ensures KindOf(m).Some? <==> SomeChange(m)
    ensures KindOf(m).Some? ==> KindByBits(KindOf(m).value, m)
  {
  }

  /** Where a notification of a watched directory happened. */
  function PlaceOf(st: State, n: Notification): string
    requires n.wd in st.watches && st.watches[n.wd].Text? && n.name.Text?
  {
    st.watches[n.wd].text + "/" + n.name.text
  }

  /** A notification with nothing wrong about it: known bits, of a watched directory that is still
      there, in a phase, naming a printable file of that directory below the outputs. */
  predicate InOrder(st: State, n: Notification)
  {
    && !n.mask.unknown && !n.mask.deleteSelf && !n.mask.moveSelf && !n.mask.ignored && SomeChange(n.mask)
    && st.window.phase.Some?
    && n.wd in st.watches && st.watches[n.wd].Text? && n.name.Text?
    && n.name.text != "" && '/' !in n.name.text
    && var path := PlaceOf(st, n);
       && ByteLength(path) <= 1024 && Printable(path) && '\\' !in path && IsCleanAbsolute(path)
       && (path == "/outputs" || HasPrefix(path, "/outputs/"))
  }

  predicate MakesDirectory(m: Mask) { m.isDirectory && (m.create || m.movedTo) }

  lemma ObservedIffInOrder(st: State, n: Notification)
    requires !n.mask.unknown && !n.mask.deleteSelf && !n.mask.moveSelf && !n.mask.ignored && SomeChange(n.mask)
    ensures ObservedPath(st, n).Some? <==> InOrder(st, n)
    ensures ObservedPath(st, n).Some? ==> ObservedPath(st, n) == Some(PlaceOf(st, n))
  {
    hide IsCleanAbsolute, ByteLength;
    if n.wd in st.watches && st.watches[n.wd].Text? && n.name.Text? {
      var directory, name := st.watches[n.wd].text, n.name.text;
      ByteLengthAppend(directory + "/", name);
      ByteLengthAppend(directory, "/");
      ByteLengthAppend("/", name);
      SlashIsOneByte();
      assert forall c :: c in name ==> c in directory + "/" + name;
      OutputsPrefix();
    }
  }

  lemma SlashIsOneByte()
    ensures ByteLength("/") == 1
  {
    assert "/"[1..] == "";
  }

  lemma OutputsPrefix()
    ensures CONTAINER_OUTPUTS + "/" == "/outputs/"
  {
  }

  ghost predicate IsLineOf(line: Line, sequence: nat, st: State, n: Notification)
    requires InOrder(st, n)
  {
    && line.sequence == sequence && line.length == n.lineLength
    && line.phase == st.window.phase.value && KindByBits(line.kind, n.mask)
    && (line.matched <==> exists rule :: rule in st.window.rules && RuleMatches(rule, PlaceOf(st, n)))
  }

  /** What becomes of one notification of a helper that watches. A full kernel queue, a full transcript
      or one of more than 1048576 bytes is an overflow; a new directory, and whatever is out of order,
      are gaps of their own; everything else is one more line of the transcript, of the kind the mask
      says, under the phase in force, judged by the rules in force. */
  lemma RecordMeans(st: State, n: Notification)
    requires Inv(st) && !st.Failed() && !st.health.finished
    ensures var next, full := Record(st, n), st.tally.count == 4096 || st.tally.rawBytes + n.lineLength > 1048576;
            var good := InOrder(st, n) && !MakesDirectory(n.mask);
            && (next.health.failure == NotificationOverflow <==> n.mask.queueOverflow || (good && full))
            && (next.health.failure == NewDirectoryGap <==> !n.mask.queueOverflow && InOrder(st, n) && MakesDirectory(n.mask))
            && (next.health.failure == NotificationGap <==> !n.mask.queueOverflow && !InOrder(st, n))
    ensures var next, lines := Record(st, n), st.tally.transcript;
            !next.Failed() ==>
              && InOrder(st, n) && next == st.(tally := next.tally)
              && |next.tally.transcript| == |lines| + 1 && next.tally.transcript[..|lines|] == lines
              && IsLineOf(next.tally.transcript[|lines|], |lines| + 1, st, n)
  {
    hide ObservedPath, KindOf, HelperMatches, TallyPhases, TallyKinds, TallyMatched, TallyBytes, InOrder, RuleMatches, KindByBits,
         FramesInOrder, PhaseCounts.Bump, KindCounts.Bump, CountersBalance;
    KindIsByBits(n.mask);
    if SomeChange(n.mask) && !n.mask.unknown && !n.mask.deleteSelf && !n.mask.moveSelf && !n.mask.ignored {
      ObservedIffInOrder(st, n);
    }
    NotInOrder(st, n);
    ObservedPathHasPhase(st, n);
    if ObservedPath(st, n).Some? { HelperMatchesIsExists(st.window.rules, ObservedPath(st, n).value); }
  }

  lemma NotInOrder(st: State, n: Notification)
    ensures n.mask.unknown || n.mask.deleteSelf || n.mask.moveSelf || n.mask.ignored || n.wd !in st.watches || !SomeChange(n.mask)
            ==> !InOrder(st, n)
    ensures MakesDirectory(n.mask) ==> SomeChange(n.mask)
  {
    hide IsCleanAbsolute;
  }

  /** The kinds of a rule by their names on the wire. */
  lemma RuleKindsByName(kind: RuleKind, name: string)
    ensures ParseKind(name) == Some(kind) <==>
            name == (match kind case Exact => "exact" case Child => "child" case Tree => "tree")
    ensures kind.Name() == (match kind case Exact => "exact" case Child => "child" case Tree => "tree")
  {
    assert "exact"[0] == 'e' && "child"[0] == 'c' && "tree"[0] == 't';
  }

  /** The first failure is the one that counts; it ends the watch and says which flag the report carries. */
  lemma FirstFailure(st: State, reason: Failure)
    requires reason != NoFailure
    ensures st.Failed() ==> Latch(st, reason) == st
    ensures !st.Failed() ==>
              var next := Latch(st, reason);
              && next.health.failure == reason
              && (next.health.overflow <==> reason == NotificationOverflow) && (next.health.gap <==> reason != NotificationOverflow)
              && !next.health.watching && (st.health.watching ==> next.watches == map[])
              && next.tally == st.tally && next.window == st.window && next.emitted == st.emitted && next.session == st.session
              && next.health.finished == st.health.finished
  {
  }

  /** The failure on record after a control line, if the line itself gave no cause for one. */
  function FailureAfter(st: State, pending: bool): Failure
  {
    if st.Failed() then st.health.failure else if pending then NotificationGap else NoFailure
  }

  predicate GoodPhaseLine(st: State, control: Control)
  {
    && control.PhaseControl? && ParsePhase(control.phase).Some? && st.window.sequence < 128
    && control.rules.RuleList? && |control.rules.rules| <= 256 && DecodeRuleList(control.rules.rules).Some?
  }

  /** What becomes of a control line. A good phase line opens a window and is acknowledged even after a
      failure; stop ends the session with the failure on record or with a final frame; every other line
      ends it with a failure. Notifications still pending make a line fail that would have succeeded. */
  lemma ObeyMeans(st: State, control: Control, pending: bool, cleanClose: bool)
    requires Inv(st) && !st.health.finished
    ensures var next := Obey(st, control, pending, cleanClose);
            if GoodPhaseLine(st, control) then
              var rules := DecodeRuleList(control.rules.rules).value;
              && !next.health.finished && next.health.failure == FailureAfter(st, pending)
              && next.window == Window(ParsePhase(control.phase), rules, st.window.sequence + 1, st.window.declared + |rules|)
              && next.emitted == st.emitted
                   + [AckFrame(st.session, ParsePhase(control.phase).value, |rules|, st.window.sequence + 1)]
            else
              && next.health.finished && !next.health.watching && next.window == st.window
              && next.health.failure == (if control.StopControl? then FailureAfter(st, pending) else FailureAfter(st, true))
              && next.emitted == st.emitted
                   + [if next.health.failure == NoFailure then FinalFrame(st.session, cleanClose, ReportOf(next))
                      else FailedFrame(st.session, next.health.failure)]
  {
    hide CountersAreTallies, CountersBalance, FramesInOrder, WindowBounded, ParsePhase, DecodeRuleList;
    FirstFailure(st, NotificationGap);
  }

  lemma PendingLinesOnly(st: State, pending: bool)
    requires Inv(st) && !st.health.finished
    ensures CheckPending(st, pending).health.failure == FailureAfter(st, pending)
    ensures CheckPending(st, pending).tally == st.tally
  {
    hide CountersAreTallies, CountersBalance, FramesInOrder, WindowBounded;
  }

  /** What a final frame reports of any run that did not fail: the whole transcript and, number by number,
      how many of its lines there are, of each phase, of each kind and on either side of the rules; the
      windows it acknowledged and the rules they declared. */
  lemma FinalFrameReports(session: string, watches: map<int, RawName>, inputs: seq<Input>, st: State)
    requires RunHelper(session, watches, inputs) == Some(st) && st.health.finished && !st.Failed()
    ensures |st.emitted| >= 2
    ensures var r := ReportOf(st);
            && st.emitted[|st.emitted| - 1] == FinalFrame(session, !st.health.gap, r)
            && r.transcript == st.tally.transcript && r.notifications == r.compared == |r.transcript| <= 4096
            && CountsPhases(r.phases, r.transcript) && CountsKinds(r.kinds, r.transcript)
            && r.allowed == |PlacesJudged(r.transcript, true)| && r.undeclared == |PlacesJudged(r.transcript, false)|
            && r.renameHints == r.kinds.create + r.kinds.delete + r.kinds.rename
            && r.changeHints == r.kinds.write + r.kinds.metadata
            && (r.nonconforming <==> exists line :: line in r.transcript && !line.matched)
            && r.windows == |st.emitted| - 2 && r.declared == st.window.declared
            && r.rawBytes == TallyBytes(r.transcript) && !r.overflow && r.gap == st.health.gap
  {
    hide RunHelper, CountsPhases, CountsKinds, TallyPhases, TallyKinds, TallyMatched, TallyBytes, PlacesJudged, CountersBalance;
    CountersCountLines(session, watches, inputs, st);
    InvRun(session, watches, inputs, st);
    SomeUnmatched(st.tally.transcript);
  }

  lemma SomeUnmatched(lines: seq<Line>)
    ensures |PlacesJudged(lines, false)| > 0 <==> exists line :: line in lines && !line.matched
  {
    var places := PlacesJudged(lines, false);
    if line :| line in lines && !line.matched {
      var i :| 0 <= i < |lines| && lines[i] == line;
      assert i in places;
    }
    if |places| > 0 {
      var i :| i in places;
      assert lines[i] in lines;
    }
  }

  // ---------------------------------------------------------------------
  // The controller's decoder
  // ---------------------------------------------------------------------

  const NOTIFICATION_LIMIT := 4096

  datatype Decoded = Decoded(failure: Failure, report: Option<Report>)

  predicate WithinLimit(n: int) { 0 <= n <= NOTIFICATION_LIMIT }

  /** validOperationNotificationResult. */
  predicate ValidOperationResult(r: Report)
  {
    && WithinLimit(r.windows) && WithinLimit(r.declared) && WithinLimit(r.compared)
    && WithinLimit(r.allowed) && WithinLimit(r.undeclared)
    && WithinLimit(r.kinds.create) && WithinLimit(r.kinds.delete) && WithinLimit(r.kinds.write)
    && WithinLimit(r.kinds.rename) && WithinLimit(r.kinds.metadata)
    && r.windows <= MAX_WINDOWS
    && r.declared <= r.windows * RULE_LIMIT
    && r.compared == r.notifications
    && r.allowed + r.undeclared == r.notifications
    && r.kinds.create + r.kinds.delete + r.kinds.write + r.kinds.rename + r.kinds.metadata == r.notifications
    && r.kinds.create + r.kinds.delete + r.kinds.rename == r.renameHints
    && r.kinds.write + r.kinds.metadata == r.changeHints
    && (r.nonconforming <==> r.undeclared > 0)
  }

  /** decodeActivityTraceFinalFrame, for the Python adapter. */
  function DecodeTerminal(frame: Frame, session: string): Option<Decoded>
  {
    if frame.FailedFrame? then
      if frame.session == session && frame.failure != NoFailure then Some(Decoded(frame.failure, None)) else None
    else if frame.FinalFrame? then
      var r := frame.report;
      if && WithinLimit(r.phases.setup) && WithinLimit(r.phases.build) && WithinLimit(r.phases.run)
         && WithinLimit(r.phases.exercise) && WithinLimit(r.phases.cleanup) && WithinLimit(r.phases.unknown)
         && frame.session == session
         && WithinLimit(r.notifications) && WithinLimit(r.renameHints) && WithinLimit(r.changeHints)
         && r.renameHints + r.changeHints == r.notifications
         && r.phases.Sum() == r.notifications
         && 0 <= r.rawBytes <= MAX_RAW
         && frame.ok && !r.overflow && !r.gap
         && ValidOperationResult(r)
      then Some(Decoded(NoFailure, Some(r))) else None
    else None
  }

  /** A report whose numbers agree: every way of adding the notifications up gives the same number, at
      most 4096, and the windows and rules are within their bounds. */
  predicate Consistent(r: Report)
  {
    var p, k := r.phases, r.kinds;
    && r.compared == r.notifications <= 4096
    && p.setup + p.build + p.run + p.exercise + p.cleanup + p.unknown == r.notifications
    && k.create + k.delete + k.rename == r.renameHints && k.write + k.metadata == r.changeHints
    && r.renameHints + r.changeHints == r.notifications
    && r.allowed + r.undeclared == r.notifications && (r.nonconforming <==> r.undeclared > 0)
    && r.windows <= 128 && r.declared <= 4096 && r.declared <= r.windows * 256
    && r.rawBytes <= 1048576 && !r.overflow && !r.gap
  }

  /** What the decoder accepts of any frame, whoever wrote it: a failure that has a name, or a final frame
      that says it is in order and carries a consistent report; of the session in either case. */
  lemma DecodedIff(frame: Frame, session: string)
    ensures DecodeTerminal(frame, session).Some? <==>
            && frame.session == session
            && (|| (frame.FailedFrame? && frame.failure != NoFailure)
                || (frame.FinalFrame? && frame.ok && Consistent(frame.report)))
    ensures frame.FailedFrame? && DecodeTerminal(frame, session).Some? ==>
              DecodeTerminal(frame, session) == Some(Decoded(frame.failure, None))
    ensures frame.FinalFrame? && DecodeTerminal(frame, session).Some? ==>
              DecodeTerminal(frame, session) == Some(Decoded(NoFailure, Some(frame.report)))
  {
  }

  /** What the controller makes of the last frame of a finished helper. */
  lemma TerminalFrameOf(st: State)
    requires Inv(st) && st.health.finished
    ensures st.emitted != []
    ensures var decoded := DecodeTerminal(st.emitted[|st.emitted| - 1], st.session);
            && (st.Failed() ==> decoded == Some(Decoded(st.health.failure, None)))
            && (!st.Failed() ==> (decoded.Some? <==> !st.health.gap && st.window.declared <= NOTIFICATION_LIMIT))
            && (!st.Failed() && decoded.Some? ==> decoded == Some(Decoded(NoFailure, Some(ReportOf(st)))))
            && (decoded.Some? ==> ExitCode(st) == if decoded.value.failure == NoFailure then 0 else 1)
  {
    assert !st.Failed() ==> st.tally.count <= MAX_EVENTS && st.tally.rawBytes <= MAX_RAW;
    hide TallyPhases, TallyKinds, TallyMatched, TallyBytes;
  }

  /** What the controller makes of the last frame of any finished run. A `failed` frame always
      decodes to the failure that was latched. A `final` frame decodes exactly when the watch closed
      cleanly and at most 4096 rules were declared in total, although the helper itself allows 128
      windows of 256. Then its counts are tallies of the transcript whose digest it carries; and
      whenever a frame decodes, the exit code is the one the controller requires with it. */
  lemma TerminalFrameDecodes(session: string, watches: map<int, RawName>, inputs: seq<Input>, st: State)
    requires RunHelper(session, watches, inputs) == Some(st) && st.health.finished
    ensures st.emitted != []
    ensures var decoded := DecodeTerminal(st.emitted[|st.emitted| - 1], session);
            && (st.Failed() ==> decoded == Some(Decoded(st.health.failure, None)))
            && (!st.Failed() ==> (decoded.Some? <==> !st.health.gap && st.window.declared <= NOTIFICATION_LIMIT))
            && (!st.Failed() && decoded.Some? ==> decoded == Some(Decoded(NoFailure, Some(ReportOf(st)))))
            && (decoded.Some? ==> ExitCode(st) == if decoded.value.failure == NoFailure then 0 else 1)
    ensures !st.Failed() ==> CountersAreTallies(st.tally)
  {
    InvRun(session, watches, inputs, st);
    TerminalFrameOf(st);
    hide RunHelper, DecodeTerminal, TallyPhases, TallyKinds, TallyMatched, TallyBytes;
  }

  // ---------------------------------------------------------------------
  // A session the decoder turns away
  // ---------------------------------------------------------------------

  /** A full list of rules as the controller would compile it, all of them different. */
  function FullList(): seq<WireRule> { OnWire(Rules(RULE_LIMIT, RULE_LIMIT)) }

  /** Opening `n` windows with a full list of rules each. */
  function FullWindows(n: nat): seq<Input>
  {
    seq(n, i => ControlLine(PhaseControl("run", RuleList(FullList())), false, true))
  }

  lemma {:induction false} FullWindowsRun(session: string, n: nat) returns (st: State)
    requires n <= MAX_WINDOWS
    ensures RunHelper(session, map[], FullWindows(n)) == Some(st)
    ensures !st.health.finished && !st.Failed()
    ensures st.window.sequence == n && st.window.declared == n * RULE_LIMIT
  {
    hide DecodeRuleList, FullList;
    if n == 0 {
      st := Begin(session, Watched(map[]), true);
    } else {
      var before := FullWindowsRun(session, n - 1);
      var input := FullWindows(n)[n - 1];
      assert FullWindows(n)[..n - 1] == FullWindows(n - 1);
      FullListDecodes();
      assert |FullWindows(n)| == n;
      assert DecodeRules(RuleList(FullList())).Some?;
      hide DecodeRules, FullWindows;
      assert RunHelper(session, map[], FullWindows(n)) == Step(before, input);
      hide RunHelper;
      st := Step(before, input).value;
    }
  }

  lemma FullListDecodes()
    ensures CompiledFrom(Rules(RULE_LIMIT, RULE_LIMIT), Patterns(RULE_LIMIT, RULE_LIMIT))
    ensures |FullList()| == RULE_LIMIT && DecodeRuleList(FullList()) == Some(Rules(RULE_LIMIT, RULE_LIMIT))
  {
    hide Rules, Patterns, RulesOf, Elements, ValidPattern, DecodeRuleList, OnWire, HelperValidBase;
    SampleIsCompiled(RULE_LIMIT, RULE_LIMIT);
    CompiledRulesTravel(Patterns(RULE_LIMIT, RULE_LIMIT), Rules(RULE_LIMIT, RULE_LIMIT));
    WireDecodes(Rules(RULE_LIMIT, RULE_LIMIT));
  }

  /** Seventeen windows of the 256 different rules that as many patterns compile to are well within the
      helper's own bounds; the session ends without any failure and with a clean close, and the
      controller still cannot decode its final frame. */
  lemma SeventeenFullWindowsAreNotDecoded(session: string)
    ensures CompiledFrom(Rules(RULE_LIMIT, RULE_LIMIT), Patterns(RULE_LIMIT, RULE_LIMIT))
    ensures exists st ::
              && RunHelper(session, map[], FullWindows(17) + [ControlLine(StopControl, false, true)]) == Some(st)
              && st.health.finished && !st.Failed() && !st.health.gap
              && st.emitted != [] && DecodeTerminal(st.emitted[|st.emitted| - 1], session) == None
  {
    hide DecodeTerminal, FullWindows, RunHelper, Step, Inv;
    FullListDecodes();
    hide CompiledFrom, DecodeRuleList, FullList;
    var before := FullWindowsRun(session, 17);
    var stop := ControlLine(StopControl, false, true);
    var inputs := FullWindows(17) + [stop];
    InvRun(session, map[], FullWindows(17), before);
    HealthyStop(before);
    var st := Step(before, stop).value;
    RunNext(session, map[], FullWindows(17), stop, before);
    TerminalFrameDecodes(session, map[], inputs, st);
  }

  lemma RunNext(session: string, watches: map<int, RawName>, inputs: seq<Input>, input: Input, before: State)
    requires RunHelper(session, watches, inputs) == Some(before)
    ensures RunHelper(session, watches, inputs + [input]) == Step(before, input)
  {
    hide Step;
    assert (inputs + [input])[..|inputs|] == inputs;
  }

  /** Stopping a healthy helper with nothing pending ends it without a failure or a gap. */
  lemma HealthyStop(before: State)
    requires Inv(before) && !before.health.finished && !before.Failed()
    ensures Step(before, ControlLine(StopControl, false, true)).Some?
    ensures var st := Step(before, ControlLine(StopControl, false, true)).value;
            st.health.finished && !st.Failed() && !st.health.gap && st.window == before.window
  {
    hide CountersBalance, CountersAreTallies, FramesInOrder, WindowBounded, ReportOf;
  }
}
