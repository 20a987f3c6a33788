/**
 A verification runs its plan several times and reports one result: how many
 repeats completed and agreed, the worst cleanup, resources over all repeats, and
 what can still be said of the runner.
 */
module RepeatAggregation {
  import opened Prelude

  // ---------------------------------------------------------------------
  // Cleanup
  // ---------------------------------------------------------------------

  datatype Verdict = Clean | AllowedResidue | UndeclaredResidue | NotTested | Unrecognised(text: string)

  function Rank(v: Verdict): nat
  {
    match v case UndeclaredResidue => 4 case NotTested => 3 case AllowedResidue => 2 case Clean => 1 case Unrecognised(_) => 3
  }

  function Normalized(v: Verdict): Verdict { if v.Unrecognised? then NotTested else v }

  /** aggregateCleanupVerdict. */
  function Worse(left: Verdict, right: Verdict): Verdict { if Rank(right) > Rank(left) then Normalized(right) else Normalized(left) }

  function Worst(vs: seq<Verdict>): Verdict
  {
    if vs == [] then Clean else Worse(Worst(vs[..|vs| - 1]), vs[|vs| - 1])
  }

  /** The aggregate is the worst of the verdicts, an unrecognised one counting as not tested. */
  lemma {:induction false} WorstIsWorst(vs: seq<Verdict>)
    ensures !Worst(vs).Unrecognised?
    ensures forall v :: v in vs ==> Rank(v) <= Rank(Worst(vs))
    ensures Worst(vs) == Clean || exists v :: v in vs && Worst(vs) == Normalized(v)
  {
    if vs != [] {
      var front, last := vs[..|vs| - 1], vs[|vs| - 1];
      WorstIsWorst(front);
      assert vs == front + [last];
      assert forall v :: v in vs <==> v in front || v == last;
      if Worst(front) != Clean {
        var v :| v in front && Worst(front) == Normalized(v);
        assert v in vs;
      }
      assert last in vs;
    }
  }

  /** So neither the order of the repeats nor how often a verdict occurs makes a difference. */
  lemma WorstIgnoresOrder(vs: seq<Verdict>, ws: seq<Verdict>)
    requires Elements(vs) == Elements(ws)
    ensures Worst(vs) == Worst(ws)
  {
    WorstIsWorst(vs);
    WorstIsWorst(ws);
    WorstAtMost(vs, ws);
    WorstAtMost(ws, vs);
  }

  lemma WorstAtMost(vs: seq<Verdict>, ws: seq<Verdict>)
    requires Elements(vs) == Elements(ws)
    ensures Rank(Worst(vs)) <= Rank(Worst(ws))
  {
    WorstIsWorst(vs);
    WorstIsWorst(ws);
    if Worst(vs) != Clean {
      var v :| v in vs && Worst(vs) == Normalized(v);
      assert v in Elements(vs);
      assert v in ws;
    }
  }

  predicate Untested(v: Verdict) { v.NotTested? || v.Unrecognised? }

  /** Verdict by verdict: undeclared residue outweighs everything, then what was not or not recognisably
      tested, then declared residue; the aggregate is clean only if every repeat was. */
  lemma {:induction false} WorstMeans(vs: seq<Verdict>)
    ensures var worst := Worst(vs);
            && (worst == UndeclaredResidue <==> UndeclaredResidue in vs)
            && (worst == NotTested <==> UndeclaredResidue !in vs && exists v :: v in vs && Untested(v))
            && (worst == AllowedResidue <==> AllowedResidue in vs && forall v :: v in vs ==> v == AllowedResidue || v == Clean)
            && (worst == Clean <==> forall v :: v in vs ==> v == Clean)
  {
    if vs != [] {
      var front, last := vs[..|vs| - 1], vs[|vs| - 1];
      WorstMeans(front);
      assert vs == front + [last];
      assert forall v :: v in vs <==> v in front || v == last;
      assert last in vs;
    }
  }

  // ---------------------------------------------------------------------
  // Resources
  // ---------------------------------------------------------------------

  datatype Field = PeakMemory | CpuTime | MaxTasks | Writable | Output

  /** Fields whose scope is unspecified; they are combined whether observed or not. */
  datatype LegacyField = LegacyPeakMemory | LegacyCpuTime | Duration | MaxProcesses | LogBytes

  datatype Legacy = Legacy(peakMemory: Int64, cpuTime: Int64, duration: Int64, maxProcesses: Int64, logBytes: Int64)
  {
    function At(field: LegacyField): Int64
    {
      match field
      case LegacyPeakMemory => peakMemory
      case LegacyCpuTime => cpuTime
      case Duration => duration
      case MaxProcesses => maxProcesses
      case LogBytes => logBytes
    }
  }

  datatype Sandbox = Sandbox(peakMemory: Int64, cpuTime: Int64, maxTasks: Int64, writable: Int64, output: Int64)
  {
    function At(field: Field): Int64
    {
      match field
      case PeakMemory => peakMemory
      case CpuTime => cpuTime
      case MaxTasks => maxTasks
      case Writable => writable
      case Output => output
    }
  }

  datatype Resources = Resources(legacy: Legacy, sandbox: Sandbox, observed: set<Field>)

  predicate Additive(field: Field) { field == CpuTime || field == Output }

  predicate LegacyAdditive(field: LegacyField) { field != LegacyPeakMemory && field != MaxProcesses }

  function Larger(a: Int64, b: Int64): Int64 { if b > a then b else a }

  function Combine(additive: bool, a: Int64, b: Int64): Int64 { if additive then Wrap(a + b) else Larger(a, b) }

  function MergedLegacy(l: Legacy, r: Legacy): Legacy
  {
    Legacy(Larger(l.peakMemory, r.peakMemory), Wrap(l.cpuTime + r.cpuTime), Wrap(l.duration + r.duration),
           Larger(l.maxProcesses, r.maxProcesses), Wrap(l.logBytes + r.logBytes))
  }

  function MergedAt(l: Resources, r: Resources, field: Field): Int64
  {
    if field in l.observed && field in r.observed then Combine(Additive(field), l.sandbox.At(field), r.sandbox.At(field)) else 0
  }

  function Merged(l: Resources, r: Resources): Resources
  {
    Resources(MergedLegacy(l.legacy, r.legacy),
              Sandbox(MergedAt(l, r, PeakMemory), MergedAt(l, r, CpuTime), MergedAt(l, r, MaxTasks),
                      MergedAt(l, r, Writable), MergedAt(l, r, Output)),
              l.observed * r.observed)
  }

  method MergeLegacy(l: Legacy, r: Legacy) returns (merged: Legacy)
    ensures merged == MergedLegacy(l, r)
  {
    hide Wrap;
    var peakMemory, maxProcesses := l.peakMemory, l.maxProcesses;
    if r.peakMemory > peakMemory { peakMemory := r.peakMemory; }
    if r.maxProcesses > maxProcesses { maxProcesses := r.maxProcesses; }
    return Legacy(peakMemory, Wrap(l.cpuTime + r.cpuTime), Wrap(l.duration + r.duration), maxProcesses,
                  Wrap(l.logBytes + r.logBytes));
  }

  /** mergeResources: combine everything, then clear what was not observed on both sides. */
  method MergeResources(l: Resources, r: Resources) returns (merged: Resources)
    ensures merged == Merged(l, r)
  {
    hide Wrap, MergedLegacy;
    var legacy := MergeLegacy(l.legacy, r.legacy);
    var peakMemory, cpuTime, maxTasks, writable, output :=
      l.sandbox.peakMemory, l.sandbox.cpuTime, l.sandbox.maxTasks, l.sandbox.writable, l.sandbox.output;
    if r.sandbox.peakMemory > peakMemory { peakMemory := r.sandbox.peakMemory; }
    cpuTime := Wrap(cpuTime + r.sandbox.cpuTime);
    if r.sandbox.maxTasks > maxTasks { maxTasks := r.sandbox.maxTasks; }
    if r.sandbox.writable > writable { writable := r.sandbox.writable; }
    output := Wrap(output + r.sandbox.output);
    var observed := l.observed * r.observed;
    if PeakMemory !in observed { peakMemory := 0; }
    assert peakMemory == MergedAt(l, r, PeakMemory);
    if CpuTime !in observed { cpuTime := 0; }
    assert cpuTime == MergedAt(l, r, CpuTime);
    if MaxTasks !in observed { maxTasks := 0; }
    assert maxTasks == MergedAt(l, r, MaxTasks);
    if Writable !in observed { writable := 0; }
    assert writable == MergedAt(l, r, Writable);
    if Output !in observed { output := 0; }
    assert output == MergedAt(l, r, Output);
    hide MergedAt;
    return Resources(legacy, Sandbox(peakMemory, cpuTime, maxTasks, writable, output), observed);
  }

  function MergedAll(rs: seq<Resources>): Resources
    requires rs != []
  {
    if |rs| == 1 then rs[0] else Merged(MergedAll(rs[..|rs| - 1]), rs[|rs| - 1])
  }

  function Sum(xs: seq<Int64>): int { if xs == [] then 0 else Sum(xs[..|xs| - 1]) + xs[|xs| - 1] }

  /** The int64 sum, or the maximum, of some values. */
  function Total(additive: bool, xs: seq<Int64>): Int64
    requires xs != []
  {
    if additive then Wrap(Sum(xs)) else Maximum(xs)
  }

  function Maximum(xs: seq<Int64>): (m: Int64)
    requires xs != []
    ensures m in xs && forall x :: x in xs ==> x <= m
  {
    if |xs| == 1 then xs[0]
    else
      var m := Maximum(xs[..|xs| - 1]);
      assert forall x :: x in xs ==> x in xs[..|xs| - 1] || x == xs[|xs| - 1];
      Larger(m, xs[|xs| - 1])
  }

  lemma TotalOne(additive: bool, x: Int64)
    ensures Total(additive, [x]) == x
  {
    WrapExact(x);
    assert [x][..0] == [];
    assert Sum([x]) == Sum([]) + x;
  }

  lemma TotalNext(additive: bool, xs: seq<Int64>, x: Int64)
    requires xs != []
    ensures Total(additive, xs + [x]) == Combine(additive, Total(additive, xs), x)
  {
    assert (xs + [x])[..|xs|] == xs;
    WrapAdds(Sum(xs), x);
    hide Wrap;
  }

  function SandboxValues(rs: seq<Resources>, field: Field): seq<Int64>
  {
    seq(|rs|, i requires 0 <= i < |rs| => rs[i].sandbox.At(field))
  }

  predicate ObservedInAll(rs: seq<Resources>, field: Field) { forall i :: 0 <= i < |rs| ==> field in rs[i].observed }

  lemma {:induction false} SandboxTotals(rs: seq<Resources>, field: Field)
    requires rs != []
    ensures field in MergedAll(rs).observed <==> ObservedInAll(rs, field)
    ensures ObservedInAll(rs, field) ==> MergedAll(rs).sandbox.At(field) == Total(Additive(field), SandboxValues(rs, field))
    ensures !ObservedInAll(rs, field) && |rs| > 1 ==> MergedAll(rs).sandbox.At(field) == 0
  {
    hide Total, Combine;
    if |rs| == 1 {
      assert SandboxValues(rs, field) == [rs[0].sandbox.At(field)];
      TotalOne(Additive(field), rs[0].sandbox.At(field));
    } else {
      var front, last := rs[..|rs| - 1], rs[|rs| - 1];
      SandboxTotals(front, field);
      assert forall i :: 0 <= i < |front| ==> front[i] == rs[i];
      assert ObservedInAll(rs, field) <==> ObservedInAll(front, field) && field in last.observed;
      assert SandboxValues(rs, field) == SandboxValues(front, field) + [last.sandbox.At(field)];
      TotalNext(Additive(field), SandboxValues(front, field), last.sandbox.At(field));
    }
  }

  function LegacyValues(rs: seq<Resources>, field: LegacyField): seq<Int64>
  {
    seq(|rs|, i requires 0 <= i < |rs| => rs[i].legacy.At(field))
  }

  lemma LegacyCombines(l: Legacy, r: Legacy, field: LegacyField)
    ensures MergedLegacy(l, r).At(field) == Combine(LegacyAdditive(field), l.At(field), r.At(field))
  {
    hide Wrap;
  }

  lemma {:induction false} LegacyTotals(rs: seq<Resources>, field: LegacyField)
    requires rs != []
    ensures MergedAll(rs).legacy.At(field) == Total(LegacyAdditive(field), LegacyValues(rs, field))
  {
    hide Total, Combine, MergedLegacy, MergedAt;
    if |rs| == 1 {
      assert LegacyValues(rs, field) == [rs[0].legacy.At(field)];
      TotalOne(LegacyAdditive(field), rs[0].legacy.At(field));
    } else {
      var front, last := rs[..|rs| - 1], rs[|rs| - 1];
      LegacyTotals(front, field);
      LegacyCombines(MergedAll(front).legacy, last.legacy, field);
      assert LegacyValues(rs, field) == LegacyValues(front, field) + [last.legacy.At(field)];
      TotalNext(LegacyAdditive(field), LegacyValues(front, field), last.legacy.At(field));
    }
  }

  /** With two or more repeats, a sandbox field of the report is the sum, or the maximum, over all
      repeats if it was observed in every one, and zero otherwise; a legacy field is so in any case. */
  lemma ResourcesAreTotals(rs: seq<Resources>, field: Field, legacy: LegacyField)
    requires |rs| >= 2
    ensures var all := MergedAll(rs);
            && (field in all.observed <==> ObservedInAll(rs, field))
            && all.sandbox.At(field)
               == (if ObservedInAll(rs, field) then Total(Additive(field), SandboxValues(rs, field)) else 0)
            && all.legacy.At(legacy) == Total(LegacyAdditive(legacy), LegacyValues(rs, legacy))
  {
    hide MergedAll, Total;
    SandboxTotals(rs, field);
    LegacyTotals(rs, legacy);
  }

  /** The values of one field over the repeats. */
  function Values(rs: seq<Resources>, pick: Resources -> Int64): seq<Int64>
  {
    seq(|rs|, i requires 0 <= i < |rs| => pick(rs[i]))
  }

  /** A field of the report is the int64 sum over the repeats. */
  ghost predicate IsSum(value: Int64, rs: seq<Resources>, pick: Resources -> Int64) { value == Wrap(Sum(Values(rs, pick))) }

  /** It is the largest any repeat had. */
  ghost predicate IsLargestOf(value: Int64, rs: seq<Resources>, pick: Resources -> Int64)
  {
    (exists i :: 0 <= i < |rs| && pick(rs[i]) == value) && forall i :: 0 <= i < |rs| ==> pick(rs[i]) <= value
  }

  lemma TotalIsSum(value: Int64, xs: seq<Int64>, rs: seq<Resources>, pick: Resources -> Int64)
    requires rs != [] && |xs| == |rs| && (forall i :: 0 <= i < |rs| ==> xs[i] == pick(rs[i])) && value == Total(true, xs)
    ensures IsSum(value, rs, pick)
  {
    hide Wrap;
    assert xs == Values(rs, pick);
  }

  lemma TotalIsLargest(value: Int64, xs: seq<Int64>, rs: seq<Resources>, pick: Resources -> Int64)
    requires rs != [] && |xs| == |rs| && (forall i :: 0 <= i < |rs| ==> xs[i] == pick(rs[i])) && value == Total(false, xs)
    ensures IsLargestOf(value, rs, pick)
  {
    hide Maximum;
    var m := Maximum(xs);
    var i :| 0 <= i < |xs| && xs[i] == m;
    assert pick(rs[i]) == value;
    forall k | 0 <= k < |rs| ensures pick(rs[k]) <= value { assert xs[k] in xs; }
  }

  lemma LegacyReport(rs: seq<Resources>)
    requires |rs| >= 2
    ensures var all := MergedAll(rs).legacy;
            && IsLargestOf(all.peakMemory, rs, (r: Resources) => r.legacy.peakMemory)
            && IsSum(all.cpuTime, rs, (r: Resources) => r.legacy.cpuTime)
            && IsSum(all.duration, rs, (r: Resources) => r.legacy.duration)
            && IsLargestOf(all.maxProcesses, rs, (r: Resources) => r.legacy.maxProcesses)
            && IsSum(all.logBytes, rs, (r: Resources) => r.legacy.logBytes)
  {
    hide MergedAll, Total, IsSum, IsLargestOf;
    var all := MergedAll(rs).legacy;
    LegacyTotals(rs, LegacyPeakMemory);
    LegacyTotals(rs, LegacyCpuTime);
    LegacyTotals(rs, Duration);
    LegacyTotals(rs, MaxProcesses);
    LegacyTotals(rs, LogBytes);
    TotalIsLargest(all.peakMemory, LegacyValues(rs, LegacyPeakMemory), rs, (r: Resources) => r.legacy.peakMemory);
    TotalIsSum(all.cpuTime, LegacyValues(rs, LegacyCpuTime), rs, (r: Resources) => r.legacy.cpuTime);
    TotalIsSum(all.duration, LegacyValues(rs, Duration), rs, (r: Resources) => r.legacy.duration);
    TotalIsLargest(all.maxProcesses, LegacyValues(rs, MaxProcesses), rs, (r: Resources) => r.legacy.maxProcesses);
    TotalIsSum(all.logBytes, LegacyValues(rs, LogBytes), rs, (r: Resources) => r.legacy.logBytes);
  }

  /** Field by field, over two or more repeats: memory, tasks and writable bytes are the largest, cpu time
      and output the sum, of what was observed in every repeat; what was not observed in one is zero. */
  lemma SandboxReport(rs: seq<Resources>)
    requires |rs| >= 2
    ensures var all := MergedAll(rs).sandbox;
            && (if ObservedInAll(rs, PeakMemory) then IsLargestOf(all.peakMemory, rs, (r: Resources) => r.sandbox.peakMemory)
                else all.peakMemory == 0)
            && (if ObservedInAll(rs, CpuTime) then IsSum(all.cpuTime, rs, (r: Resources) => r.sandbox.cpuTime)
                else all.cpuTime == 0)
            && (if ObservedInAll(rs, MaxTasks) then IsLargestOf(all.maxTasks, rs, (r: Resources) => r.sandbox.maxTasks)
                else all.maxTasks == 0)
            && (if ObservedInAll(rs, Writable) then IsLargestOf(all.writable, rs, (r: Resources) => r.sandbox.writable)
                else all.writable == 0)
            && (if ObservedInAll(rs, Output) then IsSum(all.output, rs, (r: Resources) => r.sandbox.output)
                else all.output == 0)
  {
    hide MergedAll, Total, IsSum, IsLargestOf, ObservedInAll;
    var all := MergedAll(rs).sandbox;
    SandboxTotals(rs, PeakMemory);
    SandboxTotals(rs, CpuTime);
    SandboxTotals(rs, MaxTasks);
    SandboxTotals(rs, Writable);
    SandboxTotals(rs, Output);
    if ObservedInAll(rs, PeakMemory) {
      TotalIsLargest(all.peakMemory, SandboxValues(rs, PeakMemory), rs, (r: Resources) => r.sandbox.peakMemory);
    }
    if ObservedInAll(rs, CpuTime) {
      TotalIsSum(all.cpuTime, SandboxValues(rs, CpuTime), rs, (r: Resources) => r.sandbox.cpuTime);
    }
    if ObservedInAll(rs, MaxTasks) {
      TotalIsLargest(all.maxTasks, SandboxValues(rs, MaxTasks), rs, (r: Resources) => r.sandbox.maxTasks);
    }
    if ObservedInAll(rs, Writable) {
      TotalIsLargest(all.writable, SandboxValues(rs, Writable), rs, (r: Resources) => r.sandbox.writable);
    }
    if ObservedInAll(rs, Output) {
      TotalIsSum(all.output, SandboxValues(rs, Output), rs, (r: Resources) => r.sandbox.output);
    }
  }

  // ---------------------------------------------------------------------
  // The runner
  // ---------------------------------------------------------------------

  datatype Identity = Identity(backend: string, controllerOS: string, workloadOS: string, rootless: string, engineVersion: string)

  datatype Coverage = Coverage(
    networkAttempt: string, processExec: string, filesystemWrite: string, filesystemRead: string, port: string, resourceUsage: string)

  datatype Runner = Runner(
    identity: Identity, available: bool, networkDeny: bool, limitsEnforced: bool, coverage: Coverage, reason: string)

  const UNAVAILABLE := "unavailable"
  const NoCoverage := Coverage(UNAVAILABLE, UNAVAILABLE, UNAVAILABLE, UNAVAILABLE, UNAVAILABLE, UNAVAILABLE)

  function CoverageRank(c: string): nat
  {
    if c == "full" then 4 else if c == "high" then 3 else if c == "best-effort" then 2 else if c == "enforcement-only" then 1 else 0
  }

  /** minimumCoverage. */
  function Lesser(left: string, right: string): string { if CoverageRank(right) < CoverageRank(left) then right else left }

  function LesserCoverage(l: Coverage, r: Coverage): Coverage
  {
    Coverage(Lesser(l.networkAttempt, r.networkAttempt), Lesser(l.processExec, r.processExec),
             Lesser(l.filesystemWrite, r.filesystemWrite), Lesser(l.filesystemRead, r.filesystemRead),
             Lesser(l.port, r.port), Lesser(l.resourceUsage, r.resourceUsage))
  }

  /** Full coverage is most, then high, best effort and enforcement only; anything else is none. */
  lemma CoverageOrder(other: string)
    requires other !in ["full", "high", "best-effort", "enforcement-only"]
    ensures CoverageRank("full") > CoverageRank("high") > CoverageRank("best-effort") > CoverageRank("enforcement-only")
            > CoverageRank(other) == CoverageRank(UNAVAILABLE)
  {
    assert |"full"| == 4 && |"best-effort"| == 11 && |"enforcement-only"| == 16;
    assert "high"[0] == 'h' && "full"[0] == 'f' && UNAVAILABLE[0] == 'u' && "best-effort"[0] == 'b';
  }

  /** mergeRunnerFeatures. */
  function MergedRunner(l: Runner, r: Runner): Runner
  {
    if l.identity != r.identity then
      Runner(l.identity.(engineVersion := ""), false, false, false, NoCoverage, "Runner identity changed across repeats.")
    else
      Runner(l.identity, l.available && r.available, l.networkDeny && r.networkDeny, l.limitsEnforced && r.limitsEnforced,
             LesserCoverage(l.coverage, r.coverage),
             if l.available && r.available then l.reason else "Runner became unavailable during repeated execution.")
  }

  function MergedRunners(rs: seq<Runner>): Runner
    requires rs != []
  {
    if |rs| == 1 then rs[0] else MergedRunner(MergedRunners(rs[..|rs| - 1]), rs[|rs| - 1])
  }

  predicate Degraded(r: Runner)
  {
    !r.available && !r.networkDeny && !r.limitsEnforced && r.coverage == NoCoverage && r.identity.engineVersion == ""
  }

  lemma UnavailableIsLeast(right: string)
    ensures Lesser(UNAVAILABLE, right) == UNAVAILABLE
  {
    assert |UNAVAILABLE| == 11;
  }

  lemma DegradedStays(l: Runner, r: Runner)
    requires Degraded(l)
    ensures Degraded(MergedRunner(l, r))
  {
    hide Lesser;
    UnavailableIsLeast(r.coverage.networkAttempt);
    UnavailableIsLeast(r.coverage.processExec);
    UnavailableIsLeast(r.coverage.filesystemWrite);
    UnavailableIsLeast(r.coverage.filesystemRead);
    UnavailableIsLeast(r.coverage.port);
    UnavailableIsLeast(r.coverage.resourceUsage);
  }

  predicate SameIdentity(rs: seq<Runner>) { forall i :: 0 <= i < |rs| ==> rs[i].identity == rs[0].identity }

  /** The coverage the report claims is one some repeat had, and no repeat had less. */
  ghost predicate LeastOf(c: string, rs: seq<Runner>, pick: Coverage -> string)
  {
    && (exists i :: 0 <= i < |rs| && pick(rs[i].coverage) == c)
    && forall i :: 0 <= i < |rs| ==> CoverageRank(c) <= CoverageRank(pick(rs[i].coverage))
  }

  lemma LeastNext(c: string, front: seq<Runner>, last: Runner, pick: Coverage -> string)
    requires LeastOf(c, front, pick)
    ensures LeastOf(Lesser(c, pick(last.coverage)), front + [last], pick)
  {
    hide CoverageRank;
    var rs := front + [last];
    var i :| 0 <= i < |front| && pick(front[i].coverage) == c;
    assert rs[i] == front[i] && rs[|front|] == last;
    assert forall k :: 0 <= k < |rs| ==> rs[k] == if k < |front| then front[k] else last;
  }

  lemma {:induction false} CoverageIsLeast(rs: seq<Runner>, pick: Coverage -> string)
    requires rs != [] && SameIdentity(rs)
    requires forall l: Coverage, r: Coverage :: pick(LesserCoverage(l, r)) == Lesser(pick(l), pick(r))
    ensures MergedRunners(rs).identity == rs[0].identity
    ensures LeastOf(pick(MergedRunners(rs).coverage), rs, pick)
  {
    hide Lesser, LesserCoverage, CoverageRank;
    if |rs| == 1 {
      assert pick(rs[0].coverage) == pick(MergedRunners(rs).coverage);
    } else {
      var front, last := rs[..|rs| - 1], rs[|rs| - 1];
      assert forall i :: 0 <= i < |front| ==> front[i] == rs[i];
      CoverageIsLeast(front, pick);
      LeastNext(pick(MergedRunners(front).coverage), front, last, pick);
      assert front + [last] == rs;
    }
  }

  /** The flags and the identity of a report over runners that are all the same one. */
  predicate Conjunction(all: Runner, rs: seq<Runner>)
    requires rs != []
  {
    && all.identity == rs[0].identity
    && (all.available <==> forall i :: 0 <= i < |rs| ==> rs[i].available)
    && (all.networkDeny <==> forall i :: 0 <= i < |rs| ==> rs[i].networkDeny)
    && (all.limitsEnforced <==> forall i :: 0 <= i < |rs| ==> rs[i].limitsEnforced)
    && (all.reason == if all.available || |rs| == 1 then rs[0].reason else "Runner became unavailable during repeated execution.")
  }

  lemma ConjunctionNext(all: Runner, front: seq<Runner>, last: Runner)
    requires front != [] && Conjunction(all, front) && last.identity == all.identity
    ensures Conjunction(MergedRunner(all, last), front + [last])
  {
    hide LesserCoverage;
    var rs := front + [last];
    assert forall i :: 0 <= i < |front| ==> rs[i] == front[i];
    assert rs[|front|] == last;
  }

  lemma {:induction false} FlagsAreConjunctions(rs: seq<Runner>)
    requires rs != []
    ensures if SameIdentity(rs) then Conjunction(MergedRunners(rs), rs) else Degraded(MergedRunners(rs))
  {
    hide MergedRunner, Degraded;
    if |rs| > 1 {
      var front, last := rs[..|rs| - 1], rs[|rs| - 1];
      assert rs == front + [last];
      assert forall i :: 0 <= i < |front| ==> front[i] == rs[i];
      FlagsAreConjunctions(front);
      if SameIdentity(front) {
        assert SameIdentity(rs) <==> last.identity == rs[0].identity;
        if SameIdentity(rs) {
          ConjunctionNext(MergedRunners(front), front, last);
        } else {
          ChangeDegrades(MergedRunners(front), last);
        }
      } else {
        assert !SameIdentity(rs);
        DegradedStays(MergedRunners(front), last);
      }
    }
  }

  lemma ChangeDegrades(l: Runner, r: Runner)
    requires l.identity != r.identity
    ensures Degraded(MergedRunner(l, r))
  {
  }

  lemma {:induction false} IdentityIsKept(rs: seq<Runner>)
    requires rs != []
    ensures MergedRunners(rs).identity.(engineVersion := "") == rs[0].identity.(engineVersion := "")
  {
    hide LesserCoverage;
    if |rs| > 1 { IdentityIsKept(rs[..|rs| - 1]); }
  }

  /** Once the runner's identity changes between repeats, the report's runner is degraded and no later
      repeat restores it. If it never changes, each promise of the report was kept by every repeat, and
      each coverage is the least any repeat had. */
  lemma RunnerReport(rs: seq<Runner>)
    requires rs != []
    ensures var all := MergedRunners(rs);
            if SameIdentity(rs) then
              && Conjunction(all, rs)
              && LeastOf(all.coverage.networkAttempt, rs, (c: Coverage) => c.networkAttempt)
              && LeastOf(all.coverage.processExec, rs, (c: Coverage) => c.processExec)
              && LeastOf(all.coverage.filesystemWrite, rs, (c: Coverage) => c.filesystemWrite)
              && LeastOf(all.coverage.filesystemRead, rs, (c: Coverage) => c.filesystemRead)
              && LeastOf(all.coverage.port, rs, (c: Coverage) => c.port)
              && LeastOf(all.coverage.resourceUsage, rs, (c: Coverage) => c.resourceUsage)
            else
              && !all.available && !all.networkDeny && !all.limitsEnforced
              && all.coverage == Coverage("unavailable", "unavailable", "unavailable", "unavailable", "unavailable", "unavailable")
              && all.identity == rs[0].identity.(engineVersion := "")
  {
    hide MergedRunners, LeastOf, Lesser;
    FlagsAreConjunctions(rs);
    IdentityIsKept(rs);
    if SameIdentity(rs) {
      CoverageIsLeast(rs, (c: Coverage) => c.networkAttempt);
      CoverageIsLeast(rs, (c: Coverage) => c.processExec);
      CoverageIsLeast(rs, (c: Coverage) => c.filesystemWrite);
      CoverageIsLeast(rs, (c: Coverage) => c.filesystemRead);
      CoverageIsLeast(rs, (c: Coverage) => c.port);
      CoverageIsLeast(rs, (c: Coverage) => c.resourceUsage);
    }
  }

  // ---------------------------------------------------------------------
  // The repeat loop
  // ---------------------------------------------------------------------

  datatype Outcome = Outcome(
    runner: Runner, completed: bool, fingerprint: Option<string>, cleanup: Verdict, resources: Resources, failed: bool)

  /** How many repeats run: up to and including the first that fails. */
  function Executed(outcomes: seq<Outcome>): (n: nat)
    ensures n <= |outcomes| && (n == 0 <==> outcomes == [])
    ensures forall k :: 0 <= k < n - 1 ==> !outcomes[k].failed
    ensures n < |outcomes| ==> outcomes[n - 1].failed
  {
    if outcomes == [] then 0 else if outcomes[0].failed then 1 else 1 + Executed(outcomes[1..])
  }

  function CompletedCount(outcomes: seq<Outcome>): nat
  {
    if outcomes == [] then 0
    else CompletedCount(outcomes[..|outcomes| - 1]) + if outcomes[|outcomes| - 1].completed then 1 else 0
  }

  /** In how many completed repeats a fingerprint occurs. */
  function Multiplicity(outcomes: seq<Outcome>, fingerprint: string): nat
  {
    if outcomes == [] then 0
    else
      var last := outcomes[|outcomes| - 1];
      Multiplicity(outcomes[..|outcomes| - 1], fingerprint) + if last.completed && last.fingerprint == Some(fingerprint) then 1 else 0
  }

  function Cleanups(outcomes: seq<Outcome>): seq<Verdict> { seq(|outcomes|, i requires 0 <= i < |outcomes| => outcomes[i].cleanup) }

  function ResourcesOf(outcomes: seq<Outcome>): seq<Resources>
  {
    seq(|outcomes|, i requires 0 <= i < |outcomes| => outcomes[i].resources)
  }

  /** The runners the repeats report; a blank backend reports none. */
  function RunnersOf(outcomes: seq<Outcome>): seq<Runner>
  {
    if outcomes == [] then []
    else
      RunnersOf(outcomes[..|outcomes| - 1])
      + if outcomes[|outcomes| - 1].runner.identity.backend != "" then [outcomes[|outcomes| - 1].runner] else []
  }

  lemma {:induction false} CountsAreOrdered(outcomes: seq<Outcome>, fingerprint: string)
    ensures Multiplicity(outcomes, fingerprint) <= CompletedCount(outcomes) <= |outcomes|
  {
    if outcomes != [] { CountsAreOrdered(outcomes[..|outcomes| - 1], fingerprint); }
  }

  ghost predicate IsLargest(matching: nat, outcomes: seq<Outcome>)
  {
    && (forall fingerprint :: Multiplicity(outcomes, fingerprint) <= matching)
    && (matching == 0 || exists fingerprint :: Multiplicity(outcomes, fingerprint) == matching)
  }

  /** What one more repeat adds to each tally. */
  lemma TalliesNext(before: seq<Outcome>, o: Outcome)
    ensures CompletedCount(before + [o]) == CompletedCount(before) + if o.completed then 1 else 0
    ensures forall f :: Multiplicity(before + [o], f)
                     == Multiplicity(before, f) + if o.completed && o.fingerprint == Some(f) then 1 else 0
    ensures Cleanups(before + [o]) == Cleanups(before) + [o.cleanup]
    ensures ResourcesOf(before + [o]) == ResourcesOf(before) + [o.resources]
    ensures RunnersOf(before + [o]) == RunnersOf(before) + if o.runner.identity.backend != "" then [o.runner] else []
  {
    assert (before + [o])[..|before|] == before;
  }

  ghost predicate CountedBy(counts: map<string, nat>, outcomes: seq<Outcome>)
  {
    forall f :: Multiplicity(outcomes, f) == if f in counts then counts[f] else 0
  }

  /** The multiplicity counter. */
  method CountFingerprint(counts: map<string, nat>, matching: nat, o: Outcome, ghost before: seq<Outcome>)
    returns (counted: map<string, nat>, largest: nat)
    requires CountedBy(counts, before) && IsLargest(matching, before)
    ensures CountedBy(counted, before + [o]) && IsLargest(largest, before + [o])
  {
    TalliesNext(before, o);
    hide Multiplicity;
    counted, largest := counts, matching;
    if o.fingerprint.Some? && o.completed {
      var f := o.fingerprint.value;
      counted := counts[f := (if f in counts then counts[f] else 0) + 1];
      if counted[f] > matching { largest := counted[f]; }
      assert Multiplicity(before + [o], f) == counted[f];
    }
    if matching > 0 {
      ghost var f :| Multiplicity(before, f) == matching;
      assert Multiplicity(before + [o], f) >= matching;
    }
  }

  /** What the report says after the loop. `workRootFault` is a work directory that could not be
      inspected or removed. */
  datatype Aggregate = Aggregate(completed: nat, matching: nat, cleanup: Verdict, resources: Option<Resources>, runner: Runner)

  /** The variables of the repeat loop. */
  datatype Running = Running(
    completed: nat, matching: nat, counts: map<string, nat>, cleanup: Verdict, resources: Option<Resources>,
    features: Runner, runnerFromExecution: bool)

  ghost function ResourcesAfter(before: seq<Outcome>): Option<Resources>
  {
    if before == [] then None else Some(MergedAll(ResourcesOf(before)))
  }

  ghost function RunnerAfter(probed: Runner, before: seq<Outcome>): Runner
  {
    if RunnersOf(before) == [] then probed else MergedRunners(RunnersOf(before))
  }

  /** They hold the tallies of the repeats so far. */
  ghost predicate Tracks(r: Running, probed: Runner, before: seq<Outcome>)
  {
    && r.completed == CompletedCount(before)
    && CountedBy(r.counts, before) && IsLargest(r.matching, before)
    && r.cleanup == Worst(Cleanups(before))
    && r.resources == ResourcesAfter(before)
    && (r.runnerFromExecution <==> RunnersOf(before) != [])
    && r.features == RunnerAfter(probed, before)
  }

  lemma AfterNext(probed: Runner, before: seq<Outcome>, o: Outcome)
    ensures ResourcesAfter(before + [o])
         == Some(if before == [] then o.resources else Merged(ResourcesAfter(before).value, o.resources))
    ensures RunnerAfter(probed, before + [o])
         == if o.runner.identity.backend == "" then RunnerAfter(probed, before)
            else if RunnersOf(before) == [] then o.runner
            else MergedRunner(RunnerAfter(probed, before), o.runner)
    ensures RunnersOf(before + [o]) != [] <==> RunnersOf(before) != [] || o.runner.identity.backend != ""
    ensures Worst(Cleanups(before + [o])) == Worse(Worst(Cleanups(before)), o.cleanup)
  {
    hide MergedAll, MergedRunners, Merged, MergedRunner, Worse, Worst, RunnersOf;
    TalliesNext(before, o);
    assert |ResourcesOf(before)| == |before|;
    MergedAllNext(ResourcesOf(before), o.resources);
    MergedRunnersNext(RunnersOf(before), o.runner);
    WorstNext(Cleanups(before), o.cleanup);
    assert RunnersOf(before) + [] == RunnersOf(before);
  }

  /** One turn of the loop. */
  method Absorb(r: Running, o: Outcome, probed: Runner, ghost before: seq<Outcome>) returns (next: Running)
    requires Tracks(r, probed, before)
    ensures Tracks(next, probed, before + [o])
  {
    hide Merged, Worse, Worst, MergedRunner, Multiplicity, CountedBy, IsLargest, CompletedCount, RunnersOf, RunnerAfter,
         MergedAll;
    TalliesNext(before, o);
    AfterNext(probed, before, o);
    next := r;
    if o.runner.identity.backend != "" {
      if !r.runnerFromExecution {
        next := next.(features := o.runner, runnerFromExecution := true);
      } else {
        next := next.(features := MergedRunner(r.features, o.runner));
      }
    }
    var counts, matching := CountFingerprint(r.counts, r.matching, o, before);
    next := next.(counts := counts, matching := matching);
    if o.completed { next := next.(completed := r.completed + 1); }
    next := next.(cleanup := Worse(r.cleanup, o.cleanup));
    if r.resources == None {
      next := next.(resources := Some(o.resources));
    } else {
      var merged := MergeResources(r.resources.value, o.resources);
      next := next.(resources := Some(merged));
    }
  }

  /** The repeat loop of verify, and what follows it up to the report. */
  method RunRepeats(probed: Runner, outcomes: seq<Outcome>, workRootFault: bool) returns (report: Aggregate, ghost ran: seq<Outcome>)
    ensures ran == outcomes[..Executed(outcomes)]
    ensures report.completed == CompletedCount(ran) <= |ran| <= |outcomes|
    ensures IsLargest(report.matching, ran) && report.matching <= report.completed
    ensures report.cleanup == if CompletedCount(ran) == 0 then NotTested
                              else Worst(Cleanups(ran) + if workRootFault then [NotTested] else [])
    ensures report.resources == if ran == [] then None else Some(MergedAll(ResourcesOf(ran)))
    ensures report.runner == if RunnersOf(ran) == [] then probed else MergedRunners(RunnersOf(ran))
  {
    hide *;
    var state;
    state, ran := RunLoop(probed, outcomes);
    report := Conclude(state, probed, workRootFault, ran);
  }

  /** The loop with its break. */
  method RunLoop(probed: Runner, outcomes: seq<Outcome>) returns (state: Running, ghost ran: seq<Outcome>)
    ensures ran == outcomes[..Executed(outcomes)] && Tracks(state, probed, ran)
  {
    hide *;
    state := Running(0, 0, map[], Clean, None, probed, false);
    var executed := 0;
    NothingTracked(probed);
    assert outcomes[..0] == [];
    for repeat := 0 to |outcomes|
      invariant executed == repeat && forall k :: 0 <= k < repeat ==> !outcomes[k].failed
      invariant Tracks(state, probed, outcomes[..repeat])
    {
      assert outcomes[..repeat + 1] == outcomes[..repeat] + [outcomes[repeat]];
      state := Absorb(state, outcomes[repeat], probed, outcomes[..repeat]);
      executed := repeat + 1;
      if outcomes[repeat].failed { break; }
    }
    ExecutedIs(outcomes, executed);
    ran := outcomes[..executed];
  }

  method Conclude(state: Running, probed: Runner, workRootFault: bool, ghost ran: seq<Outcome>) returns (report: Aggregate)
    requires Tracks(state, probed, ran)
    ensures report.completed == CompletedCount(ran) <= |ran|
    ensures IsLargest(report.matching, ran) && report.matching <= report.completed
    ensures report.cleanup == if CompletedCount(ran) == 0 then NotTested
                              else Worst(Cleanups(ran) + if workRootFault then [NotTested] else [])
    ensures report.resources == if ran == [] then None else Some(MergedAll(ResourcesOf(ran)))
    ensures report.runner == if RunnersOf(ran) == [] then probed else MergedRunners(RunnersOf(ran))
  {
    hide Worse, Worst, IsLargest, CompletedCount, CountedBy, MergedAll, MergedRunners, RunnersOf, ResourcesOf;
    LargestAtMostCompleted(state.matching, ran);
    WorstNext(Cleanups(ran), NotTested);
    assert Cleanups(ran) + [] == Cleanups(ran);
    var cleanup := state.cleanup;
    if workRootFault { cleanup := Worse(cleanup, NotTested); }
    if state.completed == 0 { cleanup := NotTested; }
    report := Aggregate(state.completed, state.matching, cleanup, state.resources, state.features);
  }

  lemma NothingTracked(probed: Runner)
    ensures Tracks(Running(0, 0, map[], Clean, None, probed, false), probed, [])
  {
    hide MergedAll, MergedRunners, Worse;
    NothingRan();
  }

  lemma NothingRan()
    ensures CompletedCount([]) == 0 && CountedBy(map[], []) && IsLargest(0, []) && Cleanups([]) == [] && RunnersOf([]) == []
  {
  }

  lemma {:induction false} ExecutedIs(outcomes: seq<Outcome>, n: nat)
    requires n <= |outcomes| && (n == 0 ==> outcomes == [])
    requires forall k :: 0 <= k < n - 1 ==> !outcomes[k].failed
    requires n < |outcomes| ==> n > 0 && outcomes[n - 1].failed
    ensures Executed(outcomes) == n
  {
    if outcomes != [] && !outcomes[0].failed {
      ExecutedIs(outcomes[1..], n - 1);
    }
  }

  lemma WorstNext(vs: seq<Verdict>, v: Verdict)
    ensures Worst(vs + [v]) == Worse(Worst(vs), v)
  {
    hide Worse;
    assert (vs + [v])[..|vs|] == vs;
  }

  lemma MergedAllNext(rs: seq<Resources>, r: Resources)
    ensures MergedAll(rs + [r]) == if rs == [] then r else Merged(MergedAll(rs), r)
  {
    hide Merged;
    assert (rs + [r])[..|rs|] == rs;
  }

  lemma MergedRunnersNext(rs: seq<Runner>, r: Runner)
    ensures MergedRunners(rs + [r]) == if rs == [] then r else MergedRunner(MergedRunners(rs), r)
  {
    hide MergedRunner;
    assert (rs + [r])[..|rs|] == rs;
  }

  lemma LargestAtMostCompleted(matching: nat, outcomes: seq<Outcome>)
    requires IsLargest(matching, outcomes)
    ensures matching <= CompletedCount(outcomes) <= |outcomes|
  {
    hide Multiplicity, CompletedCount;
    CountsAreOrdered(outcomes, "");
    if matching > 0 {
      var f :| Multiplicity(outcomes, f) == matching;
      CountsAreOrdered(outcomes, f);
    }
  }
}
