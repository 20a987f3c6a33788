/**
 The activity-trace helper in the script's own shape: global variables that the
 procedures update in place, a read loop that stops at the first failure and a
 control loop that stops once a terminal frame is out. Every procedure is proved
 against its specification in TraceHelper, and the object remembers which inputs
 it has consumed, so whatever is proved there of every run holds of it.
 */
module TraceHelperScript {
  import opened Prelude
  import opened Paths
  import opened WriteScope
  import opened TraceHelper
  import opened ControlInput
  import FrameStream

  /** A control line with what the helper finds out while obeying it. */
  datatype Received = Received(control: Control, pending: bool, cleanClose: bool)

  function Notifies(batch: seq<Notification>): (inputs: seq<Input>)
    ensures |inputs| == |batch|
  {
    seq(|batch|, i requires 0 <= i < |batch| => Notify(batch[i]))
  }

  lemma NotifiesNext(batch: seq<Notification>, taken: nat)
    requires taken < |batch|
    ensures Notifies(batch[..taken + 1]) == Notifies(batch[..taken]) + [Notify(batch[taken])]
  {
  }

  function Commands(lines: seq<Received>): (inputs: seq<Input>)
    ensures |inputs| == |lines|
  {
    seq(|lines|, i requires 0 <= i < |lines| => ControlLine(lines[i].control, lines[i].pending, lines[i].cleanClose))
  }

  class Helper {
    const session: string
    ghost const tree: map<int, RawName>
    ghost var heard: seq<Input>

    var phase: Option<Phase>
    var rules: seq<Rule>
    var windows: nat
    var declared: nat
    var counts: PhaseCounts
    var categories: KindCounts
    var count: nat
    var renameCount: nat
    var changeCount: nat
    var rawBytes: nat
    var allowed: nat
    var undeclared: nat
    var raw: seq<Line>
    var failure: Failure
    var overflow: bool
    var gap: bool
    var watching: bool
    var finished: bool
    var watches: map<int, RawName>
    var emitted: seq<Frame>
    var control: Bytes

    ghost function Counters(): Tally
      reads `count, `renameCount, `changeCount, `allowed, `undeclared, `rawBytes, `counts, `categories, `raw
    {
      Tally(count, renameCount, changeCount, allowed, undeclared, rawBytes, counts, categories, raw)
    }

    ghost function CurrentWindow(): Window
      reads `phase, `rules, `windows, `declared
    {
      Window(phase, rules, windows, declared)
    }

    ghost function Flags(): Health
      reads `failure, `overflow, `gap, `watching, `finished
    {
      Health(failure, overflow, gap, watching, finished)
    }

    ghost function State(): State
      reads this
    {
      TraceHelper.State(session, Counters(), CurrentWindow(), Flags(), watches, emitted)
    }

    /** The object is where a run over the inputs heard so far ends. */
    ghost predicate Valid()
      reads this
    {
      RunHelper(session, tree, heard) == Some(State())
    }

    constructor (session: string, watched: map<int, RawName>)
      ensures Valid() && heard == [] && control == [] && this.session == session && tree == watched
    {
      this.session, tree, heard := session, watched, [];
      phase, rules, windows, declared := None, [], 0, 0;
      counts, categories := PhaseCounts(0, 0, 0, 0, 0, 0), KindCounts(0, 0, 0, 0, 0);
      count, renameCount, changeCount, rawBytes, allowed, undeclared, raw := 0, 0, 0, 0, 0, 0, [];
      failure, overflow, gap, watching, finished := NoFailure, false, false, true, false;
      watches, emitted, control := watched, [ReadyFrame(session)], [];
    }

    method StopWatching(closes: bool) returns (clean: bool)
      modifies `watching, `watches
      ensures State() == TraceHelper.StopWatching(old(State()))
      ensures clean == (old(watching) ==> closes)
    {
      hide Counters, CurrentWindow;
      if !watching { return true; }
      watching := false;
      clean := closes;
      watches := map[];
    }

    method Latch(reason: Failure)
      modifies `failure, `overflow, `gap, `watching, `watches
      ensures State() == TraceHelper.Latch(old(State()), reason)
    {
      hide Counters, CurrentWindow;
      if failure != NoFailure { return; }
      failure := reason;
      overflow := reason == NotificationOverflow;
      gap := !overflow;
      var _ := StopWatching(true);
    }

    method Failed()
      modifies `finished, `watching, `watches, `emitted
      ensures State() == EmitFailed(old(State()))
    {
      hide Counters, CurrentWindow;
      if finished { return; }
      finished := true;
      var _ := StopWatching(true);
      emitted := emitted + [FailedFrame(session, failure)];
    }

    method Summary() returns (report: Report)
      ensures report == ReportOf(State())
    {
      return Report(
        Min(count, MAX_EVENTS), renameCount, changeCount, counts, overflow, gap, raw, rawBytes,
        windows, declared, count, allowed, undeclared, categories, undeclared > 0);
    }

    /** Stop watching, and note it when that goes wrong. */
    method CloseWatch(closes: bool)
      modifies `gap, `watching, `watches
      ensures var st := old(State());
              State() == TraceHelper.StopWatching(
                st.(health := st.health.(gap := st.health.gap || (st.health.watching && !closes))))
    {
      hide Counters, CurrentWindow;
      var clean := StopWatching(closes);
      if !clean { gap := true; }
    }

    method Final(ok: bool, closes: bool)
      modifies `finished, `gap, `watching, `watches, `emitted
      ensures State() == EmitFinal(old(State()), ok, closes)
    {
      hide Counters, CurrentWindow, ReportOf;
      if finished { return; }
      finished := true;
      CloseWatch(closes);
      var report := Summary();
      emitted := emitted + [FinalFrame(session, ok && !overflow && !gap, report)];
    }

    method Record(n: Notification)
      modifies `counts, `categories, `count, `renameCount, `changeCount, `rawBytes, `allowed, `undeclared, `raw,
               `failure, `overflow, `gap, `watching, `watches
      ensures State() == TraceHelper.Record(old(State()), n)
    {
      hide HelperMatches, HelperValidBase, HelperValidText, CountNotification;
      if n.mask.queueOverflow { Latch(NotificationOverflow); return; }
      if n.mask.unknown { Latch(NotificationGap); return; }
      if n.wd !in watches { Latch(NotificationGap); return; }
      if n.mask.deleteSelf || n.mask.moveSelf || n.mask.ignored { Latch(NotificationGap); return; }
      if phase == None || n.name == Text("") || (n.name.Text? && '/' in n.name.text) { Latch(NotificationGap); return; }
      if n.name.Undecodable? || !HelperValidText(n.name.text) { Latch(NotificationGap); return; }
      var directory := watches[n.wd];
      if RawLength(directory) + 1 + RawLength(n.name) > PATH_LIMIT { Latch(NotificationGap); return; }
      if directory.Undecodable? { Latch(NotificationGap); return; }
      var path := directory.text + "/" + n.name.text;
      if !HelperValidBase(path) { Latch(NotificationGap); return; }
      assert ObservedPath(State(), n) == Some(path);
      if n.mask.isDirectory && (n.mask.create || n.mask.movedTo) { Latch(NewDirectoryGap); return; }
      var kind := KindOf(n.mask);
      if kind == None { Latch(NotificationGap); return; }
      var matched := Matches(path);
      Count(kind.value, matched, n.lineLength);
    }

    /** matches: the rules in turn, until one takes the path. */
    method Matches(path: string) returns (matched: bool)
      ensures matched == HelperMatches(rules, path)
    {
      hide RuleMatches;
      assert rules[0..] == rules;
      for i := 0 to |rules|
        invariant HelperMatches(rules, path) == HelperMatches(rules[i..], path)
      {
        assert rules[i..][0] == rules[i] && rules[i..][1..] == rules[i + 1..];
        if RuleMatches(rules[i], path) { return true; }
      }
      return false;
    }

    /** The counting half of record. */
    method Count(kind: Kind, matched: bool, lineLength: nat)
      requires phase.Some?
      modifies `counts, `categories, `count, `renameCount, `changeCount, `rawBytes, `allowed, `undeclared, `raw,
               `failure, `overflow, `gap, `watching, `watches
      ensures State() == CountNotification(old(State()), kind, phase.value, matched, lineLength)
    {
      hide Counted, Judged, Written, TraceHelper.Latch, CurrentWindow, Flags;
      CountKind(kind);
      if count > MAX_EVENTS { Latch(NotificationOverflow); return; }
      Judge(matched);
      if rawBytes + lineLength > MAX_RAW { Latch(NotificationOverflow); return; }
      WriteLine(Line(count, kind, phase.value, matched, lineLength));
    }

    method CountKind(kind: Kind)
      requires phase.Some?
      modifies `counts, `categories, `count, `renameCount, `changeCount
      ensures Counters() == Counted(old(Counters()), kind, phase.value)
    {
      hide PhaseCounts.Bump, KindCounts.Bump;
      count := count + 1;
      counts := counts.Bump(phase.value);
      categories := categories.Bump(kind);
      if kind in {Rename, Create, Delete} {
        renameCount := renameCount + 1;
      } else {
        changeCount := changeCount + 1;
      }
    }

    method Judge(matched: bool)
      modifies `allowed, `undeclared
      ensures Counters() == Judged(old(Counters()), matched)
    {
      if matched { allowed := allowed + 1; } else { undeclared := undeclared + 1; }
    }

    method WriteLine(line: Line)
      modifies `raw, `rawBytes
      ensures Counters() == Written(old(Counters()), line)
    {
      raw := raw + [line];
      rawBytes := rawBytes + line.length;
    }

    /** One read of the notification descriptor. Records are taken in order until one latches a
        failure; a read that failed, or left a partial record, is a failure of its own. */
    method ReadNotifications(batch: seq<Notification>, torn: bool) returns (taken: nat, broke: bool)
      requires Valid() && watching && !finished
      modifies this
      ensures Valid() && !finished
      ensures taken <= |batch| && (taken < |batch| ==> failure != NoFailure)
      ensures (broke ==> torn && taken == |batch|) && (torn ==> failure != NoFailure)
      ensures heard == old(heard) + Notifies(batch[..taken]) + (if broke then [BrokenRead] else [])
    {
      hide RunHelper, TraceHelper.Record, CountersBalance, CountersAreTallies, WindowBounded, FramesInOrder, Counters, CurrentWindow,
           Notifies;
      taken, broke := 0, false;
      assert Notifies(batch[..0]) == [];
      InvRun(session, tree, heard, State());
      while failure == NoFailure && taken < |batch|
        invariant taken <= |batch| && !finished && Valid()
        invariant failure == NoFailure ==> watching
        invariant heard == old(heard) + Notifies(batch[..taken])
      {
        RunNext(session, tree, heard, Notify(batch[taken]), State());
        Record(batch[taken]);
        NotifiesNext(batch, taken);
        heard, taken := heard + [Notify(batch[taken])], taken + 1;
        InvRun(session, tree, heard, State());
      }
      if failure == NoFailure && torn {
        RunNext(session, tree, heard, BrokenRead, State());
        Latch(NotificationGap);
        heard, broke := heard + [BrokenRead], true;
      }
    }

    /** decode_rules: the first bad rule rejects the list. */
    method DecodeRules(wire: WireRules) returns (decoded: Option<seq<Rule>>)
      ensures decoded == TraceHelper.DecodeRules(wire)
    {
      hide DecodeRule, Prepend;
      if wire.NotAList? || |wire.rules| > RULE_LIMIT { return None; }
      var result := [];
      assert wire.rules[0..] == wire.rules;
      PrependNothing(DecodeRuleList(wire.rules));
      for i := 0 to |wire.rules|
        invariant |result| == i
        invariant DecodeRuleList(wire.rules) == Prepend(result, DecodeRuleList(wire.rules[i..]))
      {
        var rule := DecodeRule(wire.rules[i]);
        assert wire.rules[i..][1..] == wire.rules[i + 1..];
        if rule == None { PrependNone(result); return None; }
        PrependNext(result, rule.value, DecodeRuleList(wire.rules[i + 1..]));
        result := result + [rule.value];
      }
      assert wire.rules[|wire.rules|..] == [];
      PrependAll(result);
      return Some(result);
    }

    method Refuse()
      modifies `failure, `overflow, `gap, `finished, `watching, `watches, `emitted
      ensures State() == TraceHelper.Refuse(old(State()))
    {
      Latch(NotificationGap);
      hide TraceHelper.Latch;
      Failed();
    }

    method CheckPending(pending: bool)
      modifies `failure, `overflow, `gap, `watching, `watches
      ensures State() == TraceHelper.CheckPending(old(State()), pending)
    {
      hide TraceHelper.Latch;
      if failure == NoFailure && watching && pending { Latch(NotificationGap); }
    }

    method OpenWindow(phaseName: Phase, decoded: seq<Rule>)
      modifies `phase, `rules, `windows, `declared, `emitted
      ensures State() == TraceHelper.OpenWindow(old(State()), phaseName, decoded)
    {
      hide Counters, Flags;
      phase, rules := Some(phaseName), decoded;
      windows, declared := windows + 1, declared + |rules|;
      emitted := emitted + [AckFrame(session, phaseName, |rules|, windows)];
    }

    /** One control line. */
    method Obey(line: Received)
      requires !finished
      modifies this
      ensures heard == old(heard) && control == old(control)
      ensures State() == TraceHelper.Obey(old(State()), line.control, line.pending, line.cleanClose)
    {
      hide TraceHelper.DecodeRules, ParsePhase, TraceHelper.Refuse, TraceHelper.CheckPending, TraceHelper.OpenWindow,
           EmitFailed, EmitFinal, Counters;
      match line.control {
        case PhaseControl(name, wire) =>
          var decoded := DecodeRules(wire);
          if ParsePhase(name) == None || decoded == None || windows >= MAX_WINDOWS {
            Refuse();
          } else {
            CheckPending(line.pending);
            OpenWindow(ParsePhase(name).value, decoded.value);
          }
        case StopControl =>
          CheckPending(line.pending);
          if failure != NoFailure { Failed(); } else { Final(true, line.cleanClose); }
        case _ =>
          Refuse();
      }
    }

    /** One read of standard input. Complete lines are taken off the front of the buffer and obeyed in
        order, until a terminal frame is out; `around` says what the helper finds at each of them. */
    method ReadInput(chunk: Bytes, parse: Bytes -> Control, around: nat -> (bool, bool)) returns (taken: nat)
      requires Valid() && !finished
      modifies this
      ensures Valid()
      ensures Overflows(old(control), chunk) ==> finished && heard == old(heard) + [EndOfInput]
      ensures !Overflows(old(control), chunk) ==>
                var lines := FrameStream.Segments(old(control) + chunk);
                && taken <= |lines| && (taken < |lines| ==> finished)
                && heard == old(heard) + Commands(Parsed(lines[..taken], parse, around))
                && (!finished ==> control == FrameStream.Tail(old(control) + chunk))
    {
      hide RunHelper, TraceHelper.Obey, FrameStream.Segments, FrameStream.Tail;
      if chunk == [] || |control| + |chunk| > MAX_INPUT {
        taken := 0;
        InputEnded();
        return;
      }
      control := control + chunk;
      taken := ObeyLines(parse, around);
    }

    /** The inner loop: the lines in the buffer, one after the other. */
    method ObeyLines(parse: Bytes -> Control, around: nat -> (bool, bool)) returns (taken: nat)
      requires Valid() && !finished
      modifies this
      ensures Valid()
      ensures var lines := FrameStream.Segments(old(control));
              && taken <= |lines| && (taken < |lines| ==> finished)
              && heard == old(heard) + Commands(Parsed(lines[..taken], parse, around))
      ensures !finished ==> control == FrameStream.Tail(old(control))
    {
      hide RunHelper, FrameStream.Segments, FrameStream.Tail, Commands, Parsed, Counters, CurrentWindow, Flags;
      taken := 0;
      ghost var all := FrameStream.Segments(control);
      NoCommands(parse, around);
      assert all[..0] == [] && heard == old(heard) + [];
      while FrameStream.NEWLINE in control && !finished
        invariant Valid() && taken <= |all|
        invariant FrameStream.Segments(control) == all[taken..]
        invariant FrameStream.Tail(control) == FrameStream.Tail(old(control))
        invariant heard == old(heard) + Commands(Parsed(all[..taken], parse, around))
        decreases |control|
      {
        var newline := IndexOf(control, FrameStream.NEWLINE);
        var line, rest := control[..newline], control[newline + 1..];
        assert control == line + [FrameStream.NEWLINE] + rest;
        FrameStream.SegmentsOfLine(line, rest);
        assert all[taken] == line && all[taken + 1..] == FrameStream.Segments(rest);
        control := rest;
        var received := Received(parse(line), around(taken).0, around(taken).1);
        ObeyNext(received);
        assert all[..taken + 1] == all[..taken] + [line];
        CommandsNext(all[..taken], line, parse, around);
        taken := taken + 1;
      }
      if !finished { FrameStream.SegmentsOfPlain(control); }
    }

    method ObeyNext(line: Received)
      requires Valid() && !finished
      modifies this
      ensures Valid() && control == old(control)
      ensures heard == old(heard) + [ControlLine(line.control, line.pending, line.cleanClose)]
    {
      hide RunHelper, TraceHelper.Obey;
      var input := ControlLine(line.control, line.pending, line.cleanClose);
      RunNext(session, tree, heard, input, State());
      Obey(line);
      heard := heard + [input];
    }

    method InputEnded()
      requires Valid() && !finished
      modifies this
      ensures Valid() && heard == old(heard) + [EndOfInput] && finished
    {
      RunNext(session, tree, heard, EndOfInput, State());
      hide RunHelper;
      Refuse();
      heard := heard + [EndOfInput];
    }
  }

  function Parsed(lines: seq<Bytes>, parse: Bytes -> Control, around: nat -> (bool, bool)): (received: seq<Received>)
    ensures |received| == |lines|
  {
    seq(|lines|, i requires 0 <= i < |lines| => Received(parse(lines[i]), around(i).0, around(i).1))
  }

  lemma NoCommands(parse: Bytes -> Control, around: nat -> (bool, bool))
    ensures Commands(Parsed([], parse, around)) == []
  {
  }

  lemma CommandsNext(lines: seq<Bytes>, line: Bytes, parse: Bytes -> Control, around: nat -> (bool, bool))
    ensures Commands(Parsed(lines + [line], parse, around))
         == Commands(Parsed(lines, parse, around)) + [ControlLine(parse(line), around(|lines|).0, around(|lines|).1)]
  {
  }

  function Prepend<T>(front: seq<T>, rest: Option<seq<T>>): Option<seq<T>>
  {
    match rest case None => None case Some(tail) => Some(front + tail)
  }

  lemma PrependNothing<T>(rest: Option<seq<T>>)
    ensures Prepend([], rest) == rest
  {
    if rest.Some? { assert [] + rest.value == rest.value; }
  }

  lemma PrependNone<T>(front: seq<T>)
    ensures Prepend(front, None) == None
  {
  }

  lemma PrependAll<T>(front: seq<T>)
    ensures Prepend(front, Some([])) == Some(front)
  {
    assert front + [] == front;
  }

  lemma PrependNext<T>(front: seq<T>, next: T, rest: Option<seq<T>>)
    ensures Prepend(front, if rest.None? then None else Some([next] + rest.value)) == Prepend(front + [next], rest)
  {
    if rest.Some? { assert front + ([next] + rest.value) == (front + [next]) + rest.value; }
  }
}
