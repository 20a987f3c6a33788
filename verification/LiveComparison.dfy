/**
 What the whole apparatus is for: a live notification seen by the helper is
 judged exactly as the controller would judge the path against the patterns the
 plan declares for the phase in force.
 */
module LiveComparison {
  import opened Prelude
  import opened Paths
  import opened WriteScope
  import opened TraceHelper
  import opened TraceSession

  /** The path a notification speaks of, for a watched directory and a name that are both text. */
  function PathOf(h: State, n: Notification): string
    requires n.wd in h.watches && h.watches[n.wd].Text? && n.name.Text?
  {
    h.watches[n.wd].text + "/" + n.name.text
  }

  /** A notification that does not fail the helper names a path the controller would call valid. */
  lemma RecordedPathIsValid(h: State, n: Notification)
    requires !h.Failed() && !Record(h, n).Failed()
    requires n.wd in h.watches && h.watches[n.wd].Text? && HasPrefix(h.watches[n.wd].text, CONTAINER_OUTPUTS)
    ensures n.name.Text? && ObservedPath(h, n) == Some(PathOf(h, n)) && ValidObserved(PathOf(h, n))
    ensures KindOf(n.mask).Some? && h.window.phase.Some?
  {
    hide CountNotification, IsCleanAbsolute, ByteLength, Printable, HelperMatches;
    LatchFails(h, NotificationGap);
    LatchFails(h, NotificationOverflow);
    LatchFails(h, NewDirectoryGap);
    hide Latch;
    assert ObservedPath(h, n).Some?;
    assert PathOf(h, n) != CONTAINER_OUTPUTS by { assert |PathOf(h, n)| > |CONTAINER_OUTPUTS|; }
  }

  lemma LatchFails(h: State, reason: Failure)
    requires reason != NoFailure
    ensures Latch(h, reason).Failed()
  {
  }

  /** The line a notification adds, and the two counts it can move. */
  lemma RecordedAs(h: State, n: Notification)
    requires !h.Failed() && !Record(h, n).Failed()
    requires ObservedPath(h, n).Some? && KindOf(n.mask).Some? && h.window.phase.Some?
    ensures var next := Record(h, n);
            var matched := HelperMatches(h.window.rules, ObservedPath(h, n).value);
            && next.tally.transcript
               == h.tally.transcript + [Line(h.tally.count + 1, KindOf(n.mask).value, h.window.phase.value, matched, n.lineLength)]
            && next.tally.allowed == h.tally.allowed + (if matched then 1 else 0)
            && next.tally.undeclared == h.tally.undeclared + (if matched then 0 else 1)
            && next.window == h.window
  {
    LatchFails(h, NotificationGap);
    LatchFails(h, NotificationOverflow);
    LatchFails(h, NewDirectoryGap);
    hide ObservedPath, HelperMatches, CountNotification, Latch;
    var matched := HelperMatches(h.window.rules, ObservedPath(h, n).value);
    assert Record(h, n) == CountNotification(h, KindOf(n.mask).value, h.window.phase.value, matched, n.lineLength);
    CountedAs(h, KindOf(n.mask).value, h.window.phase.value, matched, n.lineLength);
  }

  lemma CountedAs(h: State, kind: Kind, phase: Phase, matched: bool, lineLength: nat)
    requires !CountNotification(h, kind, phase, matched, lineLength).Failed()
    ensures var next := CountNotification(h, kind, phase, matched, lineLength);
            && next.tally.transcript == h.tally.transcript + [Line(h.tally.count + 1, kind, phase, matched, lineLength)]
            && next.tally.allowed == h.tally.allowed + (if matched then 1 else 0)
            && next.tally.undeclared == h.tally.undeclared + (if matched then 0 else 1)
            && next.window == h.window
  {
    hide PhaseCounts.Bump, KindCounts.Bump;
    var counted := Counted(h.tally, kind, phase);
    LatchFails(h.(tally := counted), NotificationOverflow);
    LatchFails(h.(tally := Judged(counted, matched)), NotificationOverflow);
    hide Latch;
  }

  /** After a phase call with the rules compiled from some patterns has succeeded, in any interleaving,
      every notification that does not fail the helper is written down under that phase and counted as
      allowed or undeclared according to whether one of those patterns matches its path. */
  lemma LiveJudgementIsDeclared(
      digest: string, events: seq<Event>, s: Session, patterns: seq<string>, n: Notification)
    requires Play(digest, events) == Some(s) && s.controller == Idle && s.inForce != []
    requires forall p :: p in patterns ==> ValidPattern(p)
    requires Elements(s.inForce[|s.inForce| - 1].1) == RulesOf(patterns)
    requires s.helper.Some? && !s.helper.value.Failed() && !Record(s.helper.value, n).Failed()
    requires var h := s.helper.value;
             n.wd in h.watches && h.watches[n.wd].Text? && HasPrefix(h.watches[n.wd].text, CONTAINER_OUTPUTS)
    ensures n.name.Text?
    ensures var h, next, path := s.helper.value, Record(s.helper.value, n), PathOf(s.helper.value, n);
            var declared := exists p :: p in patterns && PatternMatches(p, path);
            && ParsePhase(s.inForce[|s.inForce| - 1].0).Some? && KindOf(n.mask).Some?
            && next.tally.transcript
               == h.tally.transcript
                  + [Line(h.tally.count + 1, KindOf(n.mask).value, ParsePhase(s.inForce[|s.inForce| - 1].0).value, declared, n.lineLength)]
            && next.tally.allowed == h.tally.allowed + (if declared then 1 else 0)
            && next.tally.undeclared == h.tally.undeclared + (if declared then 0 else 1)
  {
    hide Play, Record, PatternMatches, HelperMatches, ValidPattern, ValidObserved, ParsePhase, KindOf, RulesOf, Elements, ObservedPath;
    var h := s.helper.value;
    SuccessfulPhaseIsInForce(digest, events, s);
    RecordedPathIsValid(h, n);
    RecordedAs(h, n);
    CompilationPreservesMeaning(patterns, h.window.rules, PathOf(h, n));
  }
}
