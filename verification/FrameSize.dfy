/**
 How long the helper's frames are on the wire: the text Python's `json.dumps`
 writes for them with sorted keys and no spaces. Nothing in a frame needs an
 escape, so a frame is its keys and punctuation, its numbers in decimal and a few
 words. The bounds below are those of every frame a helper emits.
 */
module FrameSize {
  import opened Prelude
  import opened WriteScope
  import opened TraceHelper

  const DIGEST_LENGTH := 71  // "sha256:" and 64 hexadecimal digits

  // Keys, punctuation and fixed values of each kind of frame (see ReadyText and the next two).
  const BARE_READY_SIZE: nat := 96
  const BARE_ACK_SIZE: nat := 142
  const BARE_FAILED_SIZE: nat := 121
  const BARE_FINAL_SIZE: nat := 623

  function Digits(n: nat): nat { if n < 10 then 1 else 1 + Digits(n / 10) }

  function BoolSize(b: bool): nat { if b then 4 else 5 }

  function PhaseName(phase: Phase): string
  {
    match phase
    case Setup => "setup"
    case Build => "build"
    case Run => "run"
    case Exercise => "exercise"
    case Cleanup => "cleanup"
  }

  /** The helper reads the name of a phase as that phase, and no other text as one. */
  lemma PhasesByName(phase: Phase, name: string)
    ensures ParsePhase(name) == Some(phase) <==> name == PhaseName(phase)
  {
    assert "setup"[0] == 's' && "build"[0] == 'b' && "run"[0] == 'r' && "exercise"[0] == 'e' && "cleanup"[0] == 'c';
  }

  function FailureSize(failure: Failure): nat
  {
    match failure
    case NoFailure => 0
    case NotificationOverflow => |"notification-overflow"|
    case NewDirectoryGap => |"new-directory-watch-gap"|
    case NotificationGap => |"notification-gap"|
  }

  function PhasesSize(p: PhaseCounts): nat
  {
    Digits(p.setup) + Digits(p.build) + Digits(p.run) + Digits(p.exercise) + Digits(p.cleanup) + Digits(p.unknown)
  }

  function KindsSize(k: KindCounts): nat
  {
    Digits(k.create) + Digits(k.delete) + Digits(k.write) + Digits(k.rename) + Digits(k.metadata)
  }

  function ReportSize(r: Report): nat
  {
    Digits(r.notifications) + Digits(r.renameHints) + Digits(r.changeHints) + PhasesSize(r.phases)
    + BoolSize(r.overflow) + BoolSize(r.gap) + DIGEST_LENGTH + Digits(r.rawBytes)
    + Digits(r.windows) + Digits(r.declared) + Digits(r.compared) + Digits(r.allowed) + Digits(r.undeclared) + KindsSize(r.kinds)
    + (if r.nonconforming then |"nonconforming-notifications"| else |"no-undeclared-observed"|)
  }

  function FrameLength(frame: Frame): nat
  {
    match frame
    case ReadyFrame(_) => BARE_READY_SIZE + DIGEST_LENGTH
    case AckFrame(_, phase, ruleCount, sequence) =>
      BARE_ACK_SIZE + DIGEST_LENGTH + |PhaseName(phase)| + Digits(ruleCount) + Digits(sequence)
    case FailedFrame(_, failure) => BARE_FAILED_SIZE + DIGEST_LENGTH + FailureSize(failure)
    case FinalFrame(_, ok, report) => BARE_FINAL_SIZE + DIGEST_LENGTH + BoolSize(ok) + ReportSize(report)
  }

  // The fixed sizes are those of the texts with every value taken out.

  lemma ReadyText()
    ensures BARE_READY_SIZE
         == |"{\"observerAdapter\":\"python-inotify-linux\","| + |"\"schemaVersion\":\"1\",\"sessionDigest\":\"\",\"type\":\"ready\"}"|
  {
  }

  lemma AckText()
    ensures BARE_ACK_SIZE
         == |"{\"observerAdapter\":\"python-inotify-linux\","| + |"\"phase\":\"\",\"ruleCount\":,"|
            + |"\"schemaVersion\":\"1\",\"sessionDigest\":\"\","| + |"\"type\":\"phase-ack\",\"windowSequence\":}"|
  {
  }

  lemma FailedText()
    ensures BARE_FAILED_SIZE
         == |"{\"failure\":\"\",\"observerAdapter\":\"python-inotify-linux\","|
            + |"\"ok\":false,\"schemaVersion\":\"1\",\"sessionDigest\":\"\","| + |"\"type\":\"failed\"}"|
  {
  }

  // ---------------------------------------------------------------------
  // Bounds
  // ---------------------------------------------------------------------

  const SHORT_FRAME := 300   // bounds every frame but `final`
  const LONG_FRAME := 1000   // bounds `final`

  function Power10(k: nat): nat { if k == 0 then 1 else 10 * Power10(k - 1) }

  lemma {:induction false} DigitsAtMost(n: nat, k: nat)
    requires k > 0 && n < Power10(k)
    ensures 1 <= Digits(n) <= k
  {
    if n >= 10 { DigitsAtMost(n / 10, k - 1); }
  }

  lemma SevenDigits(n: nat)
    requires n <= MAX_RAW
    ensures 1 <= Digits(n) <= 7
  {
    assert Power10(7) == 10_000_000;
    DigitsAtMost(n, 7);
  }

  predicate SmallPhases(p: PhaseCounts) { p.Sum() <= MAX_RAW }

  predicate SmallKinds(k: KindCounts) { k.Sum() <= MAX_RAW }

  predicate SmallReport(r: Report)
  {
    && r.notifications <= MAX_RAW && r.renameHints <= MAX_RAW && r.changeHints <= MAX_RAW && SmallPhases(r.phases)
    && r.rawBytes <= MAX_RAW && r.windows <= MAX_RAW && r.declared <= MAX_RAW && r.compared <= MAX_RAW
    && r.allowed <= MAX_RAW && r.undeclared <= MAX_RAW && SmallKinds(r.kinds)
  }

  lemma PhasesSizeAtMost(p: PhaseCounts)
    requires SmallPhases(p)
    ensures PhasesSize(p) <= 42
  {
    hide Digits;
    SevenDigits(p.setup);
    SevenDigits(p.build);
    SevenDigits(p.run);
    SevenDigits(p.exercise);
    SevenDigits(p.cleanup);
    SevenDigits(p.unknown);
  }

  lemma KindsSizeAtMost(k: KindCounts)
    requires SmallKinds(k)
    ensures KindsSize(k) <= 35
  {
    hide Digits;
    SevenDigits(k.create);
    SevenDigits(k.delete);
    SevenDigits(k.write);
    SevenDigits(k.rename);
    SevenDigits(k.metadata);
  }

  lemma ReportSizeAtMost(r: Report)
    requires SmallReport(r)
    ensures ReportSize(r) <= 271
  {
    hide Digits, PhasesSize, KindsSize, SmallPhases, SmallKinds;
    PhasesSizeAtMost(r.phases);
    KindsSizeAtMost(r.kinds);
    SevenDigits(r.notifications);
    SevenDigits(r.renameHints);
    SevenDigits(r.changeHints);
    SevenDigits(r.rawBytes);
    SevenDigits(r.windows);
    SevenDigits(r.declared);
    SevenDigits(r.compared);
    SevenDigits(r.allowed);
    SevenDigits(r.undeclared);
  }

  predicate SmallFrame(frame: Frame)
  {
    match frame
    case ReadyFrame(_) => true
    case AckFrame(_, _, ruleCount, sequence) => ruleCount <= RULE_LIMIT && sequence <= MAX_WINDOWS
    case FailedFrame(_, _) => true
    case FinalFrame(_, _, report) => SmallReport(report)
  }

  lemma FrameLengthAtMost(frame: Frame)
    requires SmallFrame(frame)
    ensures 1 <= FrameLength(frame) <= if frame.FinalFrame? then LONG_FRAME else SHORT_FRAME
  {
    match frame
    case ReadyFrame(_) => ReadyIsShort(frame);
    case AckFrame(_, _, _, _) => AckIsShort(frame);
    case FailedFrame(_, _) => FailedIsShort(frame);
    case FinalFrame(_, _, report) =>
      hide ReportSize;
      ReportSizeAtMost(report);
  }

  lemma ReadyIsShort(frame: Frame)
    requires frame.ReadyFrame?
    ensures 1 <= FrameLength(frame) <= SHORT_FRAME
  {
  }

  lemma AckIsShort(frame: Frame)
    requires frame.AckFrame? && SmallFrame(frame)
    ensures 1 <= FrameLength(frame) <= SHORT_FRAME
  {
    hide Digits;
    SevenDigits(frame.ruleCount);
    SevenDigits(frame.windowSequence);
    PhaseNameIsShort(frame.phase);
    hide PhaseName;
  }

  lemma PhaseNameIsShort(phase: Phase)
    ensures |PhaseName(phase)| <= 8
  {
  }

  lemma FailedIsShort(frame: Frame)
    requires frame.FailedFrame?
    ensures 1 <= FrameLength(frame) <= SHORT_FRAME
  {
  }
}
