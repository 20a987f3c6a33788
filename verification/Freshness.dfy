/**
 Is accepted evidence still current? Four dimensions are compared in order:
 source, policy, plan, runner. One evaluator does it for a complete observation;
 the command line observes in stages and stops as soon as the verdict is known.
 */
module Freshness {
  import opened Prelude

  datatype Evaluation = Current | Stale | Unknown

  datatype Reason =
    | NoReason | SourceChanged | PolicyChanged | PlanChanged | RunnerChanged
    | SourceUnavailable | SourceUnstable | SourceIdentityUnavailable | PlanUnavailable | RunnerUnavailable

  datatype Status = Match | Mismatch | Undetermined | NotEvaluated

  datatype Source = Source(identity: string, commit: string, treeDigest: string)

  datatype Runner = Runner(
    available: bool, backend: string, controllerOS: string, workloadOS: string, rootless: string, engineVersion: string, identity: string)

  /** What the accepted evidence says. */
  datatype Claims = Claims(source: Source, policyDigest: string, planDigest: string, runner: Runner)

  datatype Observation = Observation(
    source: Option<Source>, policyDigest: Option<string>, planDigest: Option<string>, runner: Option<Runner>, unavailable: Reason)

  const NothingObserved := Observation(None, None, None, None, NoReason)

  /** The part of a runner that is compared. */
  datatype Projection = Projection(backend: string, controllerOS: string, workloadOS: string, rootless: string, engineVersion: string)

  datatype Digests = Digests(ofSource: Source -> string, ofRunner: Projection -> Option<string>)

  /** RunnerStableDigest; None for a runner that cannot be compared safely. */
  function RunnerDigest(d: Digests, r: Runner): Option<string>
  {
    if !r.available || (r.backend != "docker" && r.backend != "podman") || r.controllerOS == "" || r.workloadOS != "linux"
       || (r.rootless != "yes" && r.rootless != "no") || r.engineVersion == ""
    then None
    else d.ofRunner(Projection(r.backend, r.controllerOS, r.workloadOS, r.rootless, r.engineVersion))
  }

  predicate Supported(s: Source) { s.commit == "" && s.treeDigest != "" && s.identity == s.treeDigest }

  predicate SourceAtFault(r: Reason) { r == SourceUnavailable || r == SourceUnstable || r == SourceIdentityUnavailable }

  // ---------------------------------------------------------------------
  // The specification of one evaluation
  // ---------------------------------------------------------------------

  datatype Mark = Mark(status: Status, digest: string)

  const Blank := Mark(NotEvaluated, "")

  datatype Marks = Marks(source: Mark, policy: Mark, plan: Mark, runner: Mark)

  datatype Outcome = Outcome(evaluation: Evaluation, reason: Reason, marks: Marks)

  function Open(marks: Marks, reason: Reason): Outcome { Outcome(Unknown, reason, marks) }

  function SourceOutcome(d: Digests, h: Claims, o: Observation): Outcome
  {
    var undetermined := Marks(Mark(Undetermined, ""), Blank, Blank, Blank);
    if SourceAtFault(o.unavailable) then Open(undetermined, o.unavailable)
    else if !Supported(h.source) then Open(undetermined, SourceIdentityUnavailable)
    else if o.source.None? then Open(undetermined, SourceUnavailable)
    else
      var digest := d.ofSource(o.source.value);
      if !Supported(o.source.value) then Open(Marks(Mark(Undetermined, digest), Blank, Blank, Blank), SourceIdentityUnavailable)
      else if h.source != o.source.value then Outcome(Stale, SourceChanged, Marks(Mark(Mismatch, digest), Blank, Blank, Blank))
      else Outcome(Current, NoReason, Marks(Mark(Match, digest), Blank, Blank, Blank))
  }

  function PlanOutcome(h: Claims, o: Observation, marks: Marks): Outcome
  {
    if o.unavailable == PlanUnavailable || o.policyDigest.None? || o.planDigest.None? then
      Open(marks.(policy := Mark(Undetermined, ""), plan := Mark(Undetermined, "")), PlanUnavailable)
    else if h.policyDigest != o.policyDigest.value then
      Outcome(Stale, PolicyChanged, marks.(policy := Mark(Mismatch, o.policyDigest.value)))
    else if h.planDigest != o.planDigest.value then
      Outcome(Stale, PlanChanged, marks.(policy := Mark(Match, o.policyDigest.value), plan := Mark(Mismatch, o.planDigest.value)))
    else
      Outcome(Current, NoReason, marks.(policy := Mark(Match, o.policyDigest.value), plan := Mark(Match, o.planDigest.value)))
  }

  function RunnerOutcome(d: Digests, h: Claims, o: Observation, marks: Marks): Outcome
  {
    if o.unavailable == RunnerUnavailable || o.runner.None? then Open(marks.(runner := Mark(Undetermined, "")), RunnerUnavailable)
    else
      var was, now := RunnerDigest(d, h.runner), RunnerDigest(d, o.runner.value);
      if was.None? || now.None? then
        Open(marks.(runner := Mark(Undetermined, if now.Some? then now.value else "")), RunnerUnavailable)
      else if was.value != now.value then Outcome(Stale, RunnerChanged, marks.(runner := Mark(Mismatch, now.value)))
      else Outcome(Current, NoReason, marks.(runner := Mark(Match, now.value)))
  }

  function Evaluate(d: Digests, h: Claims, o: Observation): Outcome
  {
    var source := SourceOutcome(d, h, o);
    if source.evaluation != Current then source
    else
      var plan := PlanOutcome(h, o, source.marks);
      if plan.evaluation != Current then plan else RunnerOutcome(d, h, o, plan.marks)
  }

  // ---------------------------------------------------------------------
  // The evaluator
  // ---------------------------------------------------------------------

  datatype Dimension = SourceDimension | PolicyDimension | PlanDimension | RunnerDimension

  datatype Check = Check(dimension: Dimension, status: Status, historical: string, current: string)

  function HistoricalRunner(d: Digests, h: Claims): string
  {
    match RunnerDigest(d, h.runner) case None => "" case Some(digest) => digest
  }

  /** The four checks of a report, in their order. */
  function Checks(d: Digests, h: Claims, m: Marks): seq<Check>
  {
    [Check(SourceDimension, m.source.status, d.ofSource(h.source), m.source.digest),
     Check(PolicyDimension, m.policy.status, h.policyDigest, m.policy.digest),
     Check(PlanDimension, m.plan.status, h.planDigest, m.plan.digest),
     Check(RunnerDimension, m.runner.status, HistoricalRunner(d, h), m.runner.digest)]
  }

  function Place(dimension: Dimension): nat
  {
    match dimension case SourceDimension => 0 case PolicyDimension => 1 case PlanDimension => 2 case RunnerDimension => 3
  }

  class Report {
    var reason: Reason
    var checks: seq<Check>

    ghost predicate Complete()
      reads this
    {
      |checks| == 4 && forall i :: 0 <= i < 4 ==> Place(checks[i].dimension) == i
    }

    constructor (d: Digests, h: Claims)
      ensures reason == NoReason && checks == Checks(d, h, Marks(Blank, Blank, Blank, Blank)) && Complete()
    {
      reason := NoReason;
      checks := Checks(d, h, Marks(Blank, Blank, Blank, Blank));
    }

    /** setCheckStatus: the first check of the dimension is overwritten. */
    method SetStatus(dimension: Dimension, status: Status, digest: string)
      requires Complete()
      modifies `checks
      ensures Complete()
      ensures checks == old(checks)[Place(dimension) := old(checks)[Place(dimension)].(status := status, current := digest)]
    {
      for index := 0 to |checks|
        invariant checks == old(checks)
        invariant index <= Place(dimension)
      {
        if checks[index].dimension == dimension {
          checks := checks[index := checks[index].(status := status, current := digest)];
          return;
        }
      }
    }
  }

  /** EvaluateFreshness. */
  method EvaluateFreshness(d: Digests, h: Claims, o: Observation) returns (evaluation: Evaluation, report: Report)
    ensures fresh(report)
    ensures Outcome(evaluation, report.reason, Evaluate(d, h, o).marks) == Evaluate(d, h, o)
    ensures report.checks == Checks(d, h, Evaluate(d, h, o).marks)
  {
    hide RunnerDigest;
    report := new Report(d, h);
    if SourceAtFault(o.unavailable) {
      report.SetStatus(SourceDimension, Undetermined, "");
      report.reason := o.unavailable;
      return Unknown, report;
    }
    if !Supported(h.source) {
      report.SetStatus(SourceDimension, Undetermined, "");
      report.reason := SourceIdentityUnavailable;
      return Unknown, report;
    }
    if o.source == None {
      report.SetStatus(SourceDimension, Undetermined, "");
      report.reason := SourceUnavailable;
      return Unknown, report;
    }
    var sourceDigest := d.ofSource(o.source.value);
    if !Supported(o.source.value) {
      report.SetStatus(SourceDimension, Undetermined, sourceDigest);
      report.reason := SourceIdentityUnavailable;
      return Unknown, report;
    }
    if h.source != o.source.value {
      report.SetStatus(SourceDimension, Mismatch, sourceDigest);
      report.reason := SourceChanged;
      return Stale, report;
    }
    report.SetStatus(SourceDimension, Match, sourceDigest);
    assert report.checks == Checks(d, h, SourceOutcome(d, h, o).marks);
    evaluation := ComparePlan(d, h, o, report, SourceOutcome(d, h, o).marks);
    if evaluation != Current { return; }
    evaluation := CompareRunner(d, h, o, report, PlanOutcome(h, o, SourceOutcome(d, h, o).marks).marks);
  }

  method ComparePlan(d: Digests, h: Claims, o: Observation, report: Report, ghost before: Marks) returns (evaluation: Evaluation)
    requires report.Complete() && report.checks == Checks(d, h, before) && report.reason == NoReason
    modifies report
    ensures report.Complete()
    ensures Outcome(evaluation, report.reason, PlanOutcome(h, o, before).marks) == PlanOutcome(h, o, before)
    ensures report.checks == Checks(d, h, PlanOutcome(h, o, before).marks)
  {
    hide RunnerDigest;
    if o.unavailable == PlanUnavailable || o.policyDigest == None || o.planDigest == None {
      report.SetStatus(PolicyDimension, Undetermined, "");
      report.SetStatus(PlanDimension, Undetermined, "");
      report.reason := PlanUnavailable;
      return Unknown;
    }
    if h.policyDigest != o.policyDigest.value {
      report.SetStatus(PolicyDimension, Mismatch, o.policyDigest.value);
      report.reason := PolicyChanged;
      return Stale;
    }
    report.SetStatus(PolicyDimension, Match, o.policyDigest.value);
    if h.planDigest != o.planDigest.value {
      report.SetStatus(PlanDimension, Mismatch, o.planDigest.value);
      report.reason := PlanChanged;
      return Stale;
    }
    report.SetStatus(PlanDimension, Match, o.planDigest.value);
    return Current;
  }

  method CompareRunner(d: Digests, h: Claims, o: Observation, report: Report, ghost before: Marks) returns (evaluation: Evaluation)
    requires report.Complete() && report.checks == Checks(d, h, before) && report.reason == NoReason
    modifies report
    ensures Outcome(evaluation, report.reason, RunnerOutcome(d, h, o, before).marks) == RunnerOutcome(d, h, o, before)
    ensures report.checks == Checks(d, h, RunnerOutcome(d, h, o, before).marks)
  {
    hide RunnerDigest;
    if o.unavailable == RunnerUnavailable || o.runner == None {
      report.SetStatus(RunnerDimension, Undetermined, "");
      report.reason := RunnerUnavailable;
      return Unknown;
    }
    var historical, current := RunnerDigest(d, h.runner), RunnerDigest(d, o.runner.value);
    if historical == None || current == None {
      var digest := "";
      if current != None { digest := current.value; }
      report.SetStatus(RunnerDimension, Undetermined, digest);
      report.reason := RunnerUnavailable;
      return Unknown;
    }
    if historical.value != current.value {
      report.SetStatus(RunnerDimension, Mismatch, current.value);
      report.reason := RunnerChanged;
      return Stale;
    }
    report.SetStatus(RunnerDimension, Match, current.value);
    return Current;
  }

  // ---------------------------------------------------------------------
  // What an evaluation means
  // ---------------------------------------------------------------------

  /** Everything was observed and nothing differs in a compared dimension. */
  predicate Unchanged(d: Digests, h: Claims, o: Observation)
  {
    && !SourceAtFault(o.unavailable) && o.unavailable != PlanUnavailable && o.unavailable != RunnerUnavailable
    && Supported(h.source) && o.source == Some(h.source)
    && o.policyDigest == Some(h.policyDigest) && o.planDigest == Some(h.planDigest)
    && o.runner.Some? && RunnerDigest(d, h.runner).Some? && RunnerDigest(d, o.runner.value) == RunnerDigest(d, h.runner)
  }

  predicate Some4(m: Marks, status: Status)
  {
    m.source.status == status || m.policy.status == status || m.plan.status == status || m.runner.status == status
  }

  predicate All4(m: Marks, status: Status)
  {
    m.source.status == status && m.policy.status == status && m.plan.status == status && m.runner.status == status
  }

  /** Evidence is current exactly when everything was observed and is unchanged; and the evaluation is
      what the checks say: current when all match, stale when one does not, unknown when one could not
      be determined; never both of the latter. */
  lemma EvaluationMeans(d: Digests, h: Claims, o: Observation)
    ensures Evaluate(d, h, o).evaluation == Current <==> Unchanged(d, h, o)
    ensures var out := Evaluate(d, h, o);
            && (out.evaluation == Current <==> All4(out.marks, Match))
            && (out.evaluation == Stale <==> Some4(out.marks, Mismatch))
            && (out.evaluation == Unknown <==> Some4(out.marks, Undetermined))
            && (out.evaluation == Current <==> out.reason == NoReason)
  {
    hide RunnerDigest;
  }

  /** The reason names the first dimension that does not match, and how. */
  lemma ReasonMeans(d: Digests, h: Claims, o: Observation)
    ensures var out, m := Evaluate(d, h, o), Evaluate(d, h, o).marks;
            && (out.reason == SourceChanged <==> m.source.status == Mismatch)
            && (out.reason == PolicyChanged <==> m.policy.status == Mismatch)
            && (out.reason == PlanChanged <==> m.plan.status == Mismatch)
            && (out.reason == RunnerChanged <==> m.runner.status == Mismatch)
            && (SourceAtFault(out.reason) <==> m.source.status == Undetermined)
            && (out.reason == PlanUnavailable <==> m.policy.status == Undetermined && m.plan.status == Undetermined)
            && (out.reason == RunnerUnavailable <==> m.runner.status == Undetermined)
            && (m.policy.status != NotEvaluated ==> m.source.status == Match)
            && (m.plan.status !in {NotEvaluated, Undetermined} ==> m.policy.status == Match)
            && (m.runner.status != NotEvaluated ==> m.plan.status == Match)
    ensures var m := Evaluate(d, h, o).marks;
            && (m.source.status == Mismatch ==> o.source.Some? && o.source.value != h.source)
            && (m.policy.status == Mismatch ==> o.policyDigest.Some? && o.policyDigest.value != h.policyDigest)
            && (m.plan.status == Mismatch ==> o.planDigest.Some? && o.planDigest.value != h.planDigest)
            && (m.runner.status == Mismatch ==> o.runner.Some? && RunnerDigest(d, o.runner.value) != RunnerDigest(d, h.runner))
  {
    hide RunnerDigest;
  }

  /** A local source: no commit, and identified by the digest of its tree. */
  predicate Local(s: Source) { s.commit == "" && s.treeDigest != "" && s.treeDigest == s.identity }

  /** A runner that can be compared, by fields. */
  predicate Comparable(d: Digests, r: Runner)
  {
    && r.available && r.backend in {"docker", "podman"} && r.workloadOS == "linux" && r.rootless in {"yes", "no"}
    && r.controllerOS != "" && r.engineVersion != ""
    && d.ofRunner(Projection(r.backend, r.controllerOS, r.workloadOS, r.rootless, r.engineVersion)).Some?
  }

  /** Only five fields of a runner matter; two runners that agree in them are the same, whatever their
      identity. */
  lemma RunnersCompareByFields(d: Digests, one: Runner, other: Runner)
    ensures RunnerDigest(d, one).Some? <==> Comparable(d, one)
    ensures Comparable(d, one) ==>
              RunnerDigest(d, one) == d.ofRunner(Projection(one.backend, one.controllerOS, one.workloadOS, one.rootless, one.engineVersion))
    ensures Comparable(d, one) && other == one.(identity := other.identity) ==> RunnerDigest(d, one) == RunnerDigest(d, other)
  {
  }

  predicate SourceSame(h: Claims, o: Observation)
  {
    && o.unavailable !in {SourceUnavailable, SourceUnstable, SourceIdentityUnavailable}
    && Local(h.source) && o.source == Some(h.source)
  }

  predicate PlanSeen(o: Observation) { o.unavailable != PlanUnavailable && o.policyDigest.Some? && o.planDigest.Some? }

  predicate PlanSame(h: Claims, o: Observation)
  {
    PlanSeen(o) && o.policyDigest == Some(h.policyDigest) && o.planDigest == Some(h.planDigest)
  }

  predicate RunnerSeen(d: Digests, h: Claims, o: Observation)
  {
    o.unavailable != RunnerUnavailable && o.runner.Some? && Comparable(d, h.runner) && Comparable(d, o.runner.value)
  }

  /** Which reason is given when: the first of source, policy, plan and runner that was not seen to be
      the same, and how. Evidence is stale for the four changes, unknown for the five other reasons. */
  lemma ReasonTable(d: Digests, h: Claims, o: Observation)
    ensures var out, sourceFault :=
                Evaluate(d, h, o), o.unavailable in {SourceUnavailable, SourceUnstable, SourceIdentityUnavailable};
            var bySource, byPlan := SourceSame(h, o), SourceSame(h, o) && PlanSame(h, o);
            && (out.reason == SourceUnstable <==> o.unavailable == SourceUnstable)
            && (out.reason == SourceUnavailable <==>
                  o.unavailable == SourceUnavailable || (!sourceFault && Local(h.source) && o.source.None?))
            && (out.reason == SourceIdentityUnavailable <==>
                  || o.unavailable == SourceIdentityUnavailable
                  || (!sourceFault && (!Local(h.source) || (o.source.Some? && !Local(o.source.value)))))
            && (out.reason == SourceChanged <==>
                  !sourceFault && Local(h.source) && o.source.Some? && Local(o.source.value) && o.source.value != h.source)
            && (out.reason == PlanUnavailable <==> bySource && !PlanSeen(o))
            && (out.reason == PolicyChanged <==> bySource && PlanSeen(o) && o.policyDigest.value != h.policyDigest)
            && (out.reason == PlanChanged <==>
                  bySource && PlanSeen(o) && o.policyDigest.value == h.policyDigest && o.planDigest.value != h.planDigest)
            && (out.reason == RunnerUnavailable <==> byPlan && !RunnerSeen(d, h, o))
            && (out.reason == RunnerChanged <==>
                  byPlan && RunnerSeen(d, h, o) && RunnerDigest(d, o.runner.value) != RunnerDigest(d, h.runner))
            && (out.reason == NoReason <==>
                  byPlan && RunnerSeen(d, h, o) && RunnerDigest(d, o.runner.value) == RunnerDigest(d, h.runner))
            && (out.evaluation == Stale <==> out.reason in {SourceChanged, PolicyChanged, PlanChanged, RunnerChanged})
            && (out.evaluation == Current <==> out.reason == NoReason)
  {
    hide RunnerDigest, Comparable;
    RunnersCompareByFields(d, h.runner, h.runner);
    if o.runner.Some? { RunnersCompareByFields(d, o.runner.value, o.runner.value); }
  }

  /** A check that was decided shows the digest of what was observed, one that was not reached shows none. */
  lemma MarksShowObserved(d: Digests, h: Claims, o: Observation)
    ensures var m := Evaluate(d, h, o).marks;
            && (m.source.status in {Match, Mismatch} ==> o.source.Some? && m.source.digest == d.ofSource(o.source.value))
            && (m.policy.status in {Match, Mismatch} ==> Some(m.policy.digest) == o.policyDigest)
            && (m.plan.status in {Match, Mismatch} ==> Some(m.plan.digest) == o.planDigest)
            && (m.runner.status in {Match, Mismatch} ==> o.runner.Some? && Some(m.runner.digest) == RunnerDigest(d, o.runner.value))
            && (m.policy.status !in {Match, Mismatch} ==> m.policy.digest == "")
            && (m.plan.status !in {Match, Mismatch} ==> m.plan.digest == "")
            && (m.runner.status == NotEvaluated ==> m.runner.digest == "")
  {
    hide RunnerDigest;
  }

  /** The four checks of a report name the evidence's own digests beside the observed ones. */
  lemma ChecksShowBoth(d: Digests, h: Claims, m: Marks)
    ensures var checks := Checks(d, h, m);
            && |checks| == 4
            && checks[0] == Check(SourceDimension, m.source.status, d.ofSource(h.source), m.source.digest)
            && checks[1] == Check(PolicyDimension, m.policy.status, h.policyDigest, m.policy.digest)
            && checks[2] == Check(PlanDimension, m.plan.status, h.planDigest, m.plan.digest)
            && checks[3].dimension == RunnerDimension && checks[3].status == m.runner.status && checks[3].current == m.runner.digest
            && checks[3].historical == (if RunnerDigest(d, h.runner).Some? then RunnerDigest(d, h.runner).value else "")
  {
  }

  // ---------------------------------------------------------------------
  // Observing in stages
  // ---------------------------------------------------------------------

  /** What each stage of the observation would find. */
  datatype Outside = Outside(
    located: bool, first: Option<Source>, second: Option<Source>, manifestLoads: bool,
    plan: Option<(string, string)>, third: Option<Source>, candidates: Option<seq<Runner>>)

  function Matching(candidates: seq<Runner>, backend: string): seq<Runner>
  {
    if candidates == [] then []
    else
      var front, last := Matching(candidates[..|candidates| - 1], backend), candidates[|candidates| - 1];
      if last.backend == backend then front + [last] else front
  }

  /** The one comparable runner of the wanted backend. */
  function Probed(d: Digests, candidates: Option<seq<Runner>>, backend: string): Option<Runner>
  {
    if (backend != "docker" && backend != "podman") || candidates.None? then None
    else
      var matches := Matching(candidates.value, backend);
      if |matches| != 1 || RunnerDigest(d, matches[0]).None? then None else Some(matches[0])
  }

  lemma {:induction false} MatchingAre(candidates: seq<Runner>, backend: string)
    ensures forall r :: r in Matching(candidates, backend) <==> r in candidates && r.backend == backend
  {
    if candidates != [] {
      var n := |candidates| - 1;
      var front, last := candidates[..n], candidates[n];
      MatchingAre(front, backend);
      assert forall r :: r in candidates <==> r in front || r == last by { assert candidates == front + [last]; }
    }
  }

  lemma {:induction false} MatchingCount(candidates: seq<Runner>, backend: string)
    ensures |Matching(candidates, backend)| == |PlacesOf(candidates, backend)|
  {
    if candidates == [] {
      assert PlacesOf(candidates, backend) == {};
    } else {
      var n := |candidates| - 1;
      MatchingCount(candidates[..n], backend);
      PlacesNext(candidates, backend, n);
    }
  }

  lemma PlacesNext(candidates: seq<Runner>, backend: string, n: nat)
    requires |candidates| == n + 1
    ensures PlacesOf(candidates, backend) ==
            PlacesOf(candidates[..n], backend) + (if candidates[n].backend == backend then {n} else {})
    ensures n !in PlacesOf(candidates[..n], backend)
  {
    forall i ensures i in PlacesOf(candidates, backend) <==>
                     i in PlacesOf(candidates[..n], backend) + (if candidates[n].backend == backend then {n} else {})
    {
      if 0 <= i < n { assert candidates[..n][i] == candidates[i]; }
    }
  }

  function PlacesOf(candidates: seq<Runner>, backend: string): set<int>
  {
    set i | 0 <= i < |candidates| && candidates[i].backend == backend
  }

  /** The probe finds a runner exactly when one candidate, and no other, is of that backend and it can be
      compared. */
  lemma ProbedIs(d: Digests, candidates: Option<seq<Runner>>, backend: string, runner: Runner)
    ensures Probed(d, candidates, backend) == Some(runner) <==>
            && (backend == "docker" || backend == "podman") && candidates.Some?
            && |PlacesOf(candidates.value, backend)| == 1
            && runner in candidates.value && runner.backend == backend && Comparable(d, runner)
  {
    hide RunnerDigest, Matching, PlacesOf, Comparable;
    RunnersCompareByFields(d, runner, runner);
    if candidates.Some? {
      MatchingAre(candidates.value, backend);
      MatchingCount(candidates.value, backend);
      var matches := Matching(candidates.value, backend);
      if |matches| == 1 { assert matches[0] in matches && forall r :: r in matches <==> r == matches[0]; }
    }
  }

  /** probeFreshnessRunner. */
  method ProbeRunner(d: Digests, candidates: Option<seq<Runner>>, backend: string) returns (runner: Option<Runner>)
    ensures runner == Probed(d, candidates, backend)
  {
    hide RunnerDigest;
    if (backend != "docker" && backend != "podman") || candidates == None { return None; }
    var all, matches := candidates.value, [];
    assert all[..0] == [];
    for i := 0 to |all|
      invariant matches == Matching(all[..i], backend)
    {
      assert all[..i + 1][..i] == all[..i];
      if all[i].backend == backend { matches := matches + [all[i]]; }
    }
    assert all[..|all|] == all;
    if |matches| != 1 || RunnerDigest(d, matches[0]) == None { return None; }
    return Some(matches[0]);
  }

  function Unavailable(source: Option<Source>, policyDigest: Option<string>, planDigest: Option<string>, reason: Reason): Observation
  {
    Observation(source, policyDigest, planDigest, None, reason)
  }

  function Verdict(d: Digests, h: Claims, o: Observation, probed: bool): (Evaluation, Reason, bool)
  {
    (Evaluate(d, h, o).evaluation, Evaluate(d, h, o).reason, probed)
  }

  /** The stages as one expression: the observation each of them would be judged by. */
  function Staged(d: Digests, h: Claims, outside: Outside): (Evaluation, Reason, bool)
  {
    var preflight := Evaluate(d, h, NothingObserved);
    if preflight.evaluation == Unknown && preflight.reason == SourceIdentityUnavailable then Verdict(d, h, NothingObserved, false)
    else if !outside.located || outside.first.None? || outside.second.None? then
      Verdict(d, h, Unavailable(None, None, None, SourceUnavailable), false)
    else if outside.first != outside.second then Verdict(d, h, Unavailable(None, None, None, SourceUnstable), false)
    else
      var bySource := Unavailable(outside.second, None, None, NoReason);
      var first := Evaluate(d, h, bySource);
      if first.evaluation != Unknown || first.reason != PlanUnavailable then Verdict(d, h, bySource, false)
      else if !outside.manifestLoads || outside.plan.None? then
        Verdict(d, h, Unavailable(outside.second, None, None, PlanUnavailable), false)
      else if outside.third.None? then Verdict(d, h, Unavailable(None, None, None, SourceUnavailable), false)
      else if outside.first != outside.third then Verdict(d, h, Unavailable(None, None, None, SourceUnstable), false)
      else
        var policyDigest, planDigest := Some(outside.plan.value.0), Some(outside.plan.value.1);
        var byPlan := Unavailable(outside.second, policyDigest, planDigest, NoReason);
        var second := Evaluate(d, h, byPlan);
        if second.evaluation != Unknown || second.reason != RunnerUnavailable || RunnerDigest(d, h.runner).None? then
          Verdict(d, h, byPlan, false)
        else
          match Probed(d, outside.candidates, h.runner.backend)
          case None => Verdict(d, h, Unavailable(outside.second, policyDigest, planDigest, RunnerUnavailable), true)
          case Some(runner) => Verdict(d, h, byPlan.(runner := Some(runner)), true)
  }

  /** The source could be read every time and was the same every time. */
  predicate Stable(outside: Outside)
  {
    outside.located && outside.first.Some? && outside.first == outside.second == outside.third
  }

  /** Everything there is to observe, at once: the source is what every look at it saw, unavailable if
      one of them saw nothing and unstable if two of them differ. */
  function Complete(d: Digests, h: Claims, outside: Outside): Observation
  {
    if !outside.located || outside.first.None? || outside.second.None? || outside.third.None? then
      Unavailable(None, None, None, SourceUnavailable)
    else if !Stable(outside) then Unavailable(None, None, None, SourceUnstable)
    else
      var planned := outside.manifestLoads && outside.plan.Some?;
      var runner := Probed(d, outside.candidates, h.runner.backend);
      Observation(
        outside.first,
        if planned then Some(outside.plan.value.0) else None,
        if planned then Some(outside.plan.value.1) else None,
        runner,
        if !planned then PlanUnavailable else if runner.None? then RunnerUnavailable else NoReason)
  }

  /** The outside at which stopping early loses nothing: the source is stable; or, for a source that
      can be compared at all, the stages got to see what is wrong with it. They do when one of the
      first two looks fails, when those differ and the third would not have failed, and when both saw
      the claimed source and the plan loads, because only then is there a third look. */
  predicate SeenEnough(h: Claims, outside: Outside)
  {
    || Stable(outside)
    || (Supported(h.source)
        && (|| !outside.located || outside.first.None? || outside.second.None?
            || (outside.first != outside.second && outside.third.Some?)
            || (outside.first == outside.second == Some(h.source) && outside.manifestLoads && outside.plan.Some?)))
  }

  /** What the stages answer when they stop before seeing what is wrong with the source. */
  function EarlyAnswer(h: Claims, outside: Outside): (Evaluation, Reason)
  {
    if !Supported(h.source) then (Unknown, SourceIdentityUnavailable)
    else if outside.first != outside.second then (Unknown, SourceUnstable)
    else if outside.first == Some(h.source) then (Unknown, PlanUnavailable)
    else if outside.first.Some? && Supported(outside.first.value) then (Stale, SourceChanged)
    else (Unknown, SourceIdentityUnavailable)
  }

  /** The source has been read as the evidence names it three times, the plan resolves to the same
      policy and plan, and the evidence's own runner can be compared. */
  predicate AllButRunnerMatches(d: Digests, h: Claims, outside: Outside)
  {
    && Supported(h.source) && Stable(outside) && outside.first == Some(h.source)
    && outside.manifestLoads && outside.plan == Some((h.policyDigest, h.planDigest))
    && RunnerDigest(d, h.runner).Some?
  }

  /** Stopping early does not change the answer exactly when enough was seen: then the stages give the
      evaluation and the reason of one evaluation of the complete observation. Otherwise the answer is
      the early one, and it is a different one. */
  lemma StagesAgreeIff(d: Digests, h: Claims, outside: Outside)
    ensures var staged, whole := Staged(d, h, outside), Evaluate(d, h, Complete(d, h, outside));
            && (staged.0 == whole.evaluation && staged.1 == whole.reason <==> SeenEnough(h, outside))
            && (!SeenEnough(h, outside) ==> (staged.0, staged.1) == EarlyAnswer(h, outside))
  {
    hide RunnerDigest, Matching;
  }

  /** In particular for every stable source. */
  lemma StagesAgreeWithOneShot(d: Digests, h: Claims, outside: Outside)
    requires Stable(outside)
    ensures var staged, whole := Staged(d, h, outside), Evaluate(d, h, Complete(d, h, outside));
            staged.0 == whole.evaluation && staged.1 == whole.reason
  {
    hide Staged, Evaluate, Complete;
    StagesAgreeIff(d, h, outside);
  }

  /** A source that is changed for the first two looks and back to what it was at the third: the stages
      have called the evidence stale by then, the complete observation finds the source unstable. */
  lemma UnstableSourcesCanDisagree(d: Digests, h: Claims, other: Source, plan: Option<(string, string)>)
    requires Supported(h.source) && Supported(other) && other != h.source
    ensures var outside := Outside(true, Some(other), Some(other), true, plan, Some(h.source), None);
            var whole := Evaluate(d, h, Complete(d, h, outside));
            && Staged(d, h, outside) == (Stale, SourceChanged, false)
            && whole.evaluation == Unknown && whole.reason == SourceUnstable
  {
  }

  /** The runner is probed exactly when source, policy and plan all match. */
  lemma ProbedOnlyWhenAllElseMatches(d: Digests, h: Claims, outside: Outside)
    ensures Staged(d, h, outside).2 <==> AllButRunnerMatches(d, h, outside)
  {
    hide RunnerDigest, Probed;
  }

  /** evaluateCurrentFreshness: the verdict, and whether the runner was probed on the way. */
  method EvaluateInStages(d: Digests, h: Claims, outside: Outside) returns (evaluation: Evaluation, reason: Reason, probed: bool)
    ensures (evaluation, reason, probed) == Staged(d, h, outside)
    ensures SeenEnough(h, outside) ==>
              var whole := Evaluate(d, h, Complete(d, h, outside)); evaluation == whole.evaluation && reason == whole.reason
    ensures !SeenEnough(h, outside) ==> (evaluation, reason) == EarlyAnswer(h, outside)
    ensures probed <==> AllButRunnerMatches(d, h, outside)
  {
    StagesAgreeIff(d, h, outside);
    ProbedOnlyWhenAllElseMatches(d, h, outside);
    hide Evaluate, RunnerDigest, Probed, SeenEnough, EarlyAnswer, AllButRunnerMatches, Complete;
    var report;
    probed := false;
    evaluation, report := EvaluateFreshness(d, h, NothingObserved);
    if evaluation == Unknown && report.reason == SourceIdentityUnavailable { return evaluation, report.reason, false; }
    if !outside.located || outside.first == None || outside.second == None {
      evaluation, report := EvaluateFreshness(d, h, Unavailable(None, None, None, SourceUnavailable));
      return evaluation, report.reason, false;
    }
    if outside.first != outside.second {
      evaluation, report := EvaluateFreshness(d, h, Unavailable(None, None, None, SourceUnstable));
      return evaluation, report.reason, false;
    }
    var source := outside.second;
    evaluation, report := EvaluateFreshness(d, h, Unavailable(source, None, None, NoReason));
    if evaluation != Unknown || report.reason != PlanUnavailable { return evaluation, report.reason, false; }
    if !outside.manifestLoads || outside.plan == None {
      evaluation, report := EvaluateFreshness(d, h, Unavailable(source, None, None, PlanUnavailable));
      return evaluation, report.reason, false;
    }
    if outside.third == None {
      evaluation, report := EvaluateFreshness(d, h, Unavailable(None, None, None, SourceUnavailable));
      return evaluation, report.reason, false;
    }
    if outside.first != outside.third {
      evaluation, report := EvaluateFreshness(d, h, Unavailable(None, None, None, SourceUnstable));
      return evaluation, report.reason, false;
    }
    var policyDigest, planDigest := Some(outside.plan.value.0), Some(outside.plan.value.1);
    var current := Unavailable(source, policyDigest, planDigest, NoReason);
    evaluation, report := EvaluateFreshness(d, h, current);
    if evaluation != Unknown || report.reason != RunnerUnavailable { return evaluation, report.reason, false; }
    if RunnerDigest(d, h.runner) == None { return evaluation, report.reason, false; }
    var runner := ProbeRunner(d, outside.candidates, h.runner.backend);
    if runner == None {
      evaluation, report := EvaluateFreshness(d, h, Unavailable(source, policyDigest, planDigest, RunnerUnavailable));
      return evaluation, report.reason, true;
    }
    evaluation, report := EvaluateFreshness(d, h, current.(runner := runner));
    return evaluation, report.reason, true;
  }
}
