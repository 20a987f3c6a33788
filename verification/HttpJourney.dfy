/**
 Running an HTTP journey step by step. What the outside world does (deadlines,
 the service, the network, file inspections) is an argument; what matters is
 which ways of stopping are left once the plan was accepted, and what the final
 assertion results look like however it stopped.
 */
module HttpJourney {
  import opened Prelude
  import opened HttpRequest
  import opened HttpAssertions
  import opened HttpPlan

  /** What the outside does around one step. A request either yields a response or fails; a file
      assertion is inspected to some status. */
  datatype Outside = Outside(contextDone: bool, serviceExited: bool, transport: Option<Response>, inspection: Status)

  datatype Stop =
    | ContextEnded
    | ServiceExited
    | RequestRejected                       // the run-time conversion of a request failed
    | RequestRefused                        // the driver's own check or the step-timeout gate failed
    | RequestFailed
    | AssertionFailed(id: string)
    | AssertionUndecided(id: string)

  datatype Journey = Journey(exchanges: map<string, Response>, results: map<string, Status>, stop: Option<Stop>)

  const Outset := Journey(map[], map[], None)

  /** The driver takes the trusted form of the request (there is only one) and it is within the step timeout. */
  ghost predicate DriverTakes(w: World, r: PlanRequest)
  {
    forall t :: Renders(w.library, r, RUN_TIME_DEFAULT, t) ==>
      Sendable(w.library, t, w.runner.limits) && t.timeout <= w.runner.limits.maxStepTimeout
  }

  ghost function RunRequest(w: World, j: Journey, r: PlanRequest, outside: Outside): Journey
  {
    if !Acceptable(w.library, r, RUN_TIME_DEFAULT, w.runner.limits) then j.(stop := Some(RequestRejected))
    else if !DriverTakes(w, r) then j.(stop := Some(RequestRefused))
    else if outside.transport == None then j.(stop := Some(RequestFailed))
    else j.(exchanges := j.exchanges[r.id := outside.transport.value])
  }

  /** Where an assertion's status stops the journey. */
  function StopAt(id: string, status: Status): Option<Stop>
  {
    match status
    case Passed => None
    case Failed => Some(AssertionFailed(id))
    case _ => Some(AssertionUndecided(id))
  }

  function Settled(j: Journey, id: string, status: Status): Journey
  {
    j.(results := j.results[id := status], stop := StopAt(id, status))
  }

  function RunAssertion(w: World, byId: map<string, Operation>, j: Journey, id: string, outside: Outside): Journey
  {
    if id !in byId then j
    else
      match byId[id]
      case JsonFileCheck(_, _) => Settled(j, id, outside.inspection)
      case FileExistsCheck(_) => Settled(j, id, outside.inspection)
      case ResponseCheck(spec) => Settled(j, id, EvaluationOf(w.json, spec, j.exchanges))
      case CommandCheck => j
  }

  ghost function RunStep(w: World, byId: map<string, Operation>, j: Journey, step: Step, outside: Outside): Journey
  {
    if j.stop.Some? then j
    else if outside.contextDone then j.(stop := Some(ContextEnded))
    else if outside.serviceExited then j.(stop := Some(ServiceExited))
    else if step.request.Some? then RunRequest(w, j, step.request.value, outside)
    else RunAssertion(w, byId, j, step.assertionId, outside)
  }

  ghost function RunSteps(w: World, byId: map<string, Operation>, steps: seq<Step>, outside: nat -> Outside): Journey
  {
    if steps == [] then Outset
    else RunStep(w, byId, RunSteps(w, byId, steps[..|steps| - 1], outside), steps[|steps| - 1], outside(|steps| - 1))
  }

  /** The whole journey; the service must still be there after the last step. */
  ghost function RunJourney(w: World, plan: Plan, outside: nat -> Outside, exitedAtEnd: bool): Journey
  {
    var j := RunSteps(w, ById(plan.assertions), plan.steps, outside);
    if j.stop.None? && exitedAtEnd then j.(stop := Some(ServiceExited)) else j
  }

  lemma {:induction false} StoppedStays(w: World, byId: map<string, Operation>, steps: seq<Step>, outside: nat -> Outside, i: nat)
    requires i <= |steps| && RunSteps(w, byId, steps[..i], outside).stop.Some?
    ensures RunSteps(w, byId, steps, outside) == RunSteps(w, byId, steps[..i], outside)
    decreases |steps| - i
  {
    hide RunRequest, RunAssertion;
    if i < |steps| {
      assert steps[..i + 1][..i] == steps[..i];
      StoppedStays(w, byId, steps, outside, i + 1);
    } else {
      assert steps[..i] == steps;
    }
  }

  /** Any assertions, any order of distinct identifiers: the last of a name wins. */
  method IndexAssertions(assertions: seq<Assertion>) returns (byId: map<string, Operation>)
    ensures byId == ById(assertions)
  {
    byId := map[];
    assert assertions[..0] == [];
    for i := 0 to |assertions|
      invariant byId == ById(assertions[..i])
    {
      assert assertions[..i + 1][..i] == assertions[..i];
      byId := byId[assertions[i].id := assertions[i].operation];
    }
    assert assertions[..|assertions|] == assertions;
  }

  /** One request step: convert again, let the driver check, send. */
  method PerformRequest(w: World, r: PlanRequest, outside: Outside, ghost j: Journey)
    returns (response: Option<Response>, stop: Option<Stop>)
    requires j.stop.None?
    ensures stop == RunRequest(w, j, r, outside).stop
    ensures stop.None? ==> response.Some? && RunRequest(w, j, r, outside) == j.(exchanges := j.exchanges[r.id := response.value])
    ensures stop.Some? ==> RunRequest(w, j, r, outside) == j.(stop := stop)
  {
    hide Acceptable, Renders, Sendable;
    response := None;
    var trusted := TrustedRequestFromPlan(w.library, r, RUN_TIME_DEFAULT, w.runner.limits);
    if trusted == None { return None, Some(RequestRejected); }
    var valid := ValidateTrustedRequest(w.library, trusted.value, w.runner.limits);
    forall t | Renders(w.library, r, RUN_TIME_DEFAULT, t) ensures t == trusted.value {
      TrustedFormIsUnique(w.library, r, RUN_TIME_DEFAULT, t, trusted.value);
    }
    if !valid || trusted.value.timeout > w.runner.limits.maxStepTimeout { return None, Some(RequestRefused); }
    assert DriverTakes(w, r);
    if outside.transport == None { return None, Some(RequestFailed); }
    return outside.transport, None;
  }

  /** executeHTTPJourney. */
  method ExecuteJourney(w: World, plan: Plan, outside: nat -> Outside, exitedAtEnd: bool)
    returns (exchanges: map<string, Response>, results: map<string, Status>, stop: Option<Stop>)
    ensures Journey(exchanges, results, stop) == RunJourney(w, plan, outside, exitedAtEnd)
  {
    hide RunRequest, ById, EvaluationOf;
    exchanges, results, stop := map[], map[], None;
    var byId := IndexAssertions(plan.assertions);
    assert plan.steps[..0] == [];
    for i := 0 to |plan.steps|
      invariant stop == None
      invariant RunSteps(w, byId, plan.steps[..i], outside) == Journey(exchanges, results, None)
    {
      var step, now := plan.steps[i], outside(i);
      ghost var before := Journey(exchanges, results, None);
      assert plan.steps[..i + 1][..i] == plan.steps[..i];
      assert RunSteps(w, byId, plan.steps[..i + 1], outside) == RunStep(w, byId, before, step, now);
      if RunStep(w, byId, before, step, now).stop.Some? { StoppedStays(w, byId, plan.steps, outside, i + 1); }
      hide RunSteps;
      if now.contextDone { return exchanges, results, Some(ContextEnded); }
      if now.serviceExited { return exchanges, results, Some(ServiceExited); }
      if step.request.Some? {
        var response;
        response, stop := PerformRequest(w, step.request.value, now, before);
        if stop != None { return; }
        exchanges := exchanges[step.request.value.id := response.value];
        continue;
      }
      if step.assertionId !in byId { continue; }
      var status;
      match byId[step.assertionId] {
        case JsonFileCheck(_, _) => status := now.inspection;
        case FileExistsCheck(_) => status := now.inspection;
        case ResponseCheck(spec) => status := EvaluateResponseAssertion(w.json, spec, exchanges);
        case CommandCheck => continue;
      }
      results := results[step.assertionId := status];
      if status == Failed { return exchanges, results, Some(AssertionFailed(step.assertionId)); }
      if status != Passed { return exchanges, results, Some(AssertionUndecided(step.assertionId)); }
    }
    assert plan.steps[..|plan.steps|] == plan.steps;
    if exitedAtEnd { return exchanges, results, Some(ServiceExited); }
  }

  // ---------------------------------------------------------------------
  // The final results
  // ---------------------------------------------------------------------

  datatype Entry = Entry(id: string, status: Status)

  predicate Reported(byId: map<string, Operation>, step: Step)
  {
    step.assertionId != "" && step.assertionId in byId && !byId[step.assertionId].CommandCheck?
  }

  function EntryOf(results: map<string, Status>, id: string): Entry
  {
    Entry(id, if id in results then results[id] else Blocked)
  }

  function FinalResults(byId: map<string, Operation>, steps: seq<Step>, results: map<string, Status>): seq<Entry>
  {
    if steps == [] then []
    else
      var front, last := FinalResults(byId, steps[..|steps| - 1], results), steps[|steps| - 1];
      if Reported(byId, last) then front + [EntryOf(results, last.assertionId)] else front
  }

  /** evaluateHTTPJourneyAssertions. */
  method EvaluateJourneyAssertions(plan: Plan, results: map<string, Status>) returns (entries: seq<Entry>)
    ensures entries == FinalResults(ById(plan.assertions), plan.steps, results)
  {
    hide ById;
    var byId := IndexAssertions(plan.assertions);
    entries := [];
    assert plan.steps[..0] == [];
    for i := 0 to |plan.steps|
      invariant entries == FinalResults(byId, plan.steps[..i], results)
    {
      assert plan.steps[..i + 1][..i] == plan.steps[..i];
      var id := plan.steps[i].assertionId;
      if id == "" { continue; }
      if id !in byId { continue; }
      match byId[id] {
        case CommandCheck =>
        case _ =>
          if id in results { entries := entries + [Entry(id, results[id])]; } else { entries := entries + [Entry(id, Blocked)]; }
      }
    }
    assert plan.steps[..|plan.steps|] == plan.steps;
  }

  // ---------------------------------------------------------------------
  // Accepted plans cannot get stuck
  // ---------------------------------------------------------------------

  /** A stop that blames the plan, or the order of its steps, rather than the outside. */
  predicate PlanAtFault(stop: Option<Stop>) { stop == Some(RequestRejected) || stop == Some(RequestRefused) }

  predicate PassedExcept(results: map<string, Status>, stop: Option<Stop>)
  {
    forall id :: id in results ==> results[id] == Passed || stop == StopAt(id, results[id])
  }

  /** Where an accepted plan's journey stands after some steps: without a stop it has every exchange
      and every passed assertion of those steps; with one, only the assertion stopped at is not passed. */
  ghost predicate OnCourse(steps: seq<Step>, j: Journey)
  {
    && !PlanAtFault(j.stop)
    && PassedExcept(j.results, j.stop)
    && j.results.Keys <= AssertionIds(steps)
    && (j.stop.None? ==> j.exchanges.Keys == RequestIds(steps) && j.results.Keys == AssertionIds(steps))
  }

  lemma AcceptedRequestRuns(w: World, readinessUrl: string, r: PlanRequest)
    requires w.library.parseDuration("") == None && w.runner.limits.maxStepTimeout > 0
    requires PlanAccepts(w.library, r, readinessUrl, w.runner.limits)
    ensures Acceptable(w.library, r, RUN_TIME_DEFAULT, w.runner.limits) && DriverTakes(w, r)
  {
    hide Sendable, Renders, Acceptable;
    var planned := ParseDuration(w.library, r.timeout, Min(w.runner.limits.maxStepTimeout, MAX_REQUEST_TIME)).value;
    forall t | Renders(w.library, r, RUN_TIME_DEFAULT, t)
      ensures Sendable(w.library, t, w.runner.limits) && t.timeout <= w.runner.limits.maxStepTimeout
    {
      PlanTimeImpliesRunTime(w.library, r, readinessUrl, w.runner.limits, planned, t);
    }
    PlanTimeImpliesRunTime(w.library, r, readinessUrl, w.runner.limits, planned, TrustedRequest("", "", "", [], [], 0));
  }

  lemma IdsOf(before: seq<Step>, step: Step)
    ensures RequestIds(before + [step]) == RequestIds(before) + if step.request.Some? then {step.request.value.id} else {}
    ensures AssertionIds(before + [step]) == AssertionIds(before) + if step.request.None? then {step.assertionId} else {}
  {
    hide RequestIds, AssertionIds;
    var steps := before + [step];
    assert steps[..|before|] == before && steps[..|before| + 1] == steps;
    RequestIdsNext(steps, |before|);
    AssertionIdsNext(steps, |before|);
  }

  lemma RequestOnCourse(w: World, readinessUrl: string, before: seq<Step>, step: Step, j: Journey, outside: Outside)
    requires w.library.parseDuration("") == None && w.runner.limits.maxStepTimeout > 0
    requires step.request.Some? && PlanAccepts(w.library, step.request.value, readinessUrl, w.runner.limits)
    requires OnCourse(before, j) && j.stop.None?
    ensures OnCourse(before + [step], RunRequest(w, j, step.request.value, outside))
  {
    hide PlanAccepts, Acceptable, DriverTakes, RequestIds, AssertionIds;
    IdsOf(before, step);
    AcceptedRequestRuns(w, readinessUrl, step.request.value);
  }

  lemma AssertionOnCourse(w: World, byId: map<string, Operation>, before: seq<Step>, step: Step, j: Journey, outside: Outside)
    requires step.request.None? && step.assertionId in byId && !byId[step.assertionId].CommandCheck?
    requires OnCourse(before, j) && j.stop.None?
    ensures OnCourse(before + [step], RunAssertion(w, byId, j, step.assertionId, outside))
  {
    hide EvaluationOf, RequestIds, AssertionIds;
    IdsOf(before, step);
  }

  lemma StepOnCourse(
      w: World, byId: map<string, Operation>, readinessUrl: string, before: seq<Step>, step: Step, j: Journey, outside: Outside)
    requires w.library.parseDuration("") == None && w.runner.limits.maxStepTimeout > 0
    requires StepAccepted(w, byId, readinessUrl, before, step)
    requires forall id :: id in byId ==> !byId[id].CommandCheck?
    requires OnCourse(before, j)
    ensures OnCourse(before + [step], RunStep(w, byId, j, step, outside))
  {
    hide PlanAccepts, RunRequest, RunAssertion, RequestIds, AssertionIds;
    IdsOf(before, step);
    if j.stop.None? && !outside.contextDone && !outside.serviceExited {
      hide OnCourse;
      if step.request.Some? {
        RequestOnCourse(w, readinessUrl, before, step, j, outside);
      } else {
        AssertionOnCourse(w, byId, before, step, j, outside);
      }
    }
  }

  lemma {:induction false} StaysOnCourse(
      w: World, byId: map<string, Operation>, readinessUrl: string, steps: seq<Step>, outside: nat -> Outside, i: nat)
    requires w.library.parseDuration("") == None && w.runner.limits.maxStepTimeout > 0
    requires StepsAccepted(w, byId, readinessUrl, steps)
    requires forall id :: id in byId ==> !byId[id].CommandCheck?
    requires i <= |steps|
    ensures OnCourse(steps[..i], RunSteps(w, byId, steps[..i], outside))
  {
    hide StepAccepted, RunStep, OnCourse;
    if i == 0 {
      assert steps[..0] == [];
      OutsetOnCourse();
    } else {
      StaysOnCourse(w, byId, readinessUrl, steps, outside, i - 1);
      assert steps[..i][..i - 1] == steps[..i - 1] && steps[..i] == steps[..i - 1] + [steps[i - 1]];
      StepOnCourse(w, byId, readinessUrl, steps[..i - 1], steps[i - 1], RunSteps(w, byId, steps[..i - 1], outside), outside(i - 1));
    }
  }

  lemma OutsetOnCourse()
    ensures OnCourse([], Outset)
  {
  }

  lemma NoCommandChecks(w: World, assertions: seq<Assertion>)
    requires forall a :: a in assertions ==> AssertionAccepted(w, a.operation)
    ensures forall id :: id in ById(assertions) ==> !ById(assertions)[id].CommandCheck?
  {
    ByIdAccepted(w, assertions);
    hide ById, SpecAccepted;
  }

  /** The journey of an accepted plan never stops because of the plan: every request converts again
      and is taken by the driver; whenever a response assertion is reached, the exchange it refers to
      is there; and what has been decided before the stop has passed. */
  lemma AcceptedPlanNeverStuck(w: World, plan: Plan, outside: nat -> Outside, exitedAtEnd: bool, i: nat)
    requires w.library.parseDuration("") == None
    requires PlanAccepted(w, plan) && i < |plan.steps|
    ensures !PlanAtFault(RunJourney(w, plan, outside, exitedAtEnd).stop)
    ensures var byId, step := ById(plan.assertions), plan.steps[i];
            var j := RunSteps(w, byId, plan.steps[..i], outside);
            j.stop.None? && step.request.None? ==>
              && step.assertionId in byId
              && (byId[step.assertionId].ResponseCheck? ==> byId[step.assertionId].spec.requestId in j.exchanges)
              && forall id :: id in j.results ==> j.results[id] == Passed
  {
    hide ById, AssertionAccepted, RunSteps, RequestIds, AssertionIds;
    var byId := ById(plan.assertions);
    NoCommandChecks(w, plan.assertions);
    StaysOnCourse(w, byId, plan.readinessUrl, plan.steps, outside, i);
    StaysOnCourse(w, byId, plan.readinessUrl, plan.steps, outside, |plan.steps|);
    assert plan.steps[..|plan.steps|] == plan.steps;
    assert StepAccepted(w, byId, plan.readinessUrl, plan.steps[..i], plan.steps[i]);
  }

  // ---------------------------------------------------------------------
  // What a journey records
  // ---------------------------------------------------------------------

  /** The status an executed assertion step must have: what the file inspection said, or what the
      predicates say of the response that the step's request got. */
  ghost predicate Judged(w: World, operation: Operation, outside: Outside, exchanges: map<string, Response>, status: Status)
  {
    match operation
    case JsonFileCheck(_, _) => status == outside.inspection
    case FileExistsCheck(_) => status == outside.inspection
    case ResponseCheck(spec) =>
      spec.requestId in exchanges && status == Settle(Verdicts(w.json, spec, exchanges[spec.requestId]))
    case CommandCheck => false
  }

  /** A step that was executed and let the journey go on. */
  ghost predicate WentWell(w: World, byId: map<string, Operation>, step: Step, outside: Outside, j: Journey)
  {
    && !outside.contextDone && !outside.serviceExited
    && (step.request.Some? ==>
          var id := step.request.value.id; outside.transport.Some? && id in j.exchanges && j.exchanges[id] == outside.transport.value)
    && (step.request.None? ==>
          var id := step.assertionId;
          id in byId && id in j.results && j.results[id] == Passed && Judged(w, byId[id], outside, j.exchanges, Passed))
  }

  /** The step the journey stopped at, and why. */
  ghost predicate StoppedAt(w: World, byId: map<string, Operation>, step: Step, outside: Outside, j: Journey)
  {
    if outside.contextDone then j.stop == Some(ContextEnded)
    else if outside.serviceExited then j.stop == Some(ServiceExited)
    else if step.request.Some? then outside.transport.None? && j.stop == Some(RequestFailed)
    else
      var id := step.assertionId;
      && id in byId && id in j.results && j.results[id] != Passed
      && Judged(w, byId[id], outside, j.exchanges, j.results[id])
      && j.stop == Some(if j.results[id] == Failed then AssertionFailed(id) else AssertionUndecided(id))
  }

  /** Was an assertion judged at this step? */
  predicate Judging(step: Step, outside: Outside)
  {
    step.request.None? && !outside.contextDone && !outside.serviceExited
  }

  ghost predicate AllWentWell(w: World, byId: map<string, Operation>, steps: seq<Step>, outside: nat -> Outside, n: nat, j: Journey)
    requires n <= |steps|
  {
    forall i :: 0 <= i < n ==> WentWell(w, byId, steps[i], outside(i), j)
  }

  /** The journey stopped at step `k`, with nothing on record but that step and those before it. */
  ghost predicate StoppedWith(w: World, byId: map<string, Operation>, steps: seq<Step>, outside: nat -> Outside, k: nat, j: Journey)
    requires k < |steps|
  {
    && AllWentWell(w, byId, steps, outside, k, j)
    && StoppedAt(w, byId, steps[k], outside(k), j)
    && j.exchanges.Keys == RequestIds(steps[..k])
    && j.results.Keys == AssertionIds(steps[..k]) + (if Judging(steps[k], outside(k)) then {steps[k].assertionId} else {})
  }

  /** What the first `n` steps lead to. */
  ghost predicate Account(w: World, byId: map<string, Operation>, steps: seq<Step>, outside: nat -> Outside, n: nat, j: Journey)
    requires n <= |steps|
  {
    if j.stop.None? then
      && AllWentWell(w, byId, steps, outside, n, j)
      && j.exchanges.Keys == RequestIds(steps[..n]) && j.results.Keys == AssertionIds(steps[..n])
    else exists k: nat :: k < n && StoppedWith(w, byId, steps, outside, k, j)
  }

  /** Nothing on record is lost or changed. */
  ghost predicate Keeps(j: Journey, next: Journey)
  {
    && (forall id :: id in j.exchanges ==> id in next.exchanges && next.exchanges[id] == j.exchanges[id])
    && (forall id :: id in j.results ==> id in next.results && next.results[id] == j.results[id])
  }

  lemma WellStaysWell(w: World, byId: map<string, Operation>, steps: seq<Step>, outside: nat -> Outside, n: nat, j: Journey, next: Journey)
    requires n <= |steps| && AllWentWell(w, byId, steps, outside, n, j) && Keeps(j, next)
    ensures AllWentWell(w, byId, steps, outside, n, next)
  {
    hide Settle, Verdicts;
    forall i | 0 <= i < n ensures WentWell(w, byId, steps[i], outside(i), next) {
      assert WentWell(w, byId, steps[i], outside(i), j);
    }
  }

  /** One more step of an accepted plan that has not stopped. */
  lemma RequestAccount(w: World, byId: map<string, Operation>, readinessUrl: string, before: seq<Step>, step: Step, j: Journey, now: Outside)
    requires w.library.parseDuration("") == None && w.runner.limits.maxStepTimeout > 0
    requires StepAccepted(w, byId, readinessUrl, before, step) && step.request.Some?
    requires j.stop.None? && j.exchanges.Keys == RequestIds(before)
    ensures var next := RunStep(w, byId, j, step, now);
            && Keeps(j, next) && next.results == j.results
            && (if next.stop.None? then
                  WentWell(w, byId, step, now, next) && next.exchanges.Keys == j.exchanges.Keys + {step.request.value.id}
                else StoppedAt(w, byId, step, now, next) && next.exchanges == j.exchanges)
  {
    hide PlanAccepts, Acceptable, DriverTakes, RequestIds, AssertionIds;
    AcceptedRequestRuns(w, readinessUrl, step.request.value);
  }

  lemma AssertionAccount(w: World, byId: map<string, Operation>, readinessUrl: string, before: seq<Step>, step: Step, j: Journey, now: Outside)
    requires StepAccepted(w, byId, readinessUrl, before, step) && step.request.None?
    requires forall id :: id in byId ==> !byId[id].CommandCheck?
    requires j.stop.None? && j.exchanges.Keys == RequestIds(before) && j.results.Keys == AssertionIds(before)
    ensures var next := RunStep(w, byId, j, step, now);
            && Keeps(j, next) && next.exchanges == j.exchanges
            && next.results.Keys == j.results.Keys + (if Judging(step, now) then {step.assertionId} else {})
            && (if next.stop.None? then WentWell(w, byId, step, now, next) && Judging(step, now)
                else StoppedAt(w, byId, step, now, next))
  {
    hide PlanAccepts, Settle, Verdicts, RequestIds, AssertionIds;
  }

  lemma {:induction false} AccountAlways(
      w: World, byId: map<string, Operation>, readinessUrl: string, steps: seq<Step>, outside: nat -> Outside, n: nat)
    requires w.library.parseDuration("") == None && w.runner.limits.maxStepTimeout > 0
    requires StepsAccepted(w, byId, readinessUrl, steps) && n <= |steps|
    requires forall id :: id in byId ==> !byId[id].CommandCheck?
    ensures Account(w, byId, steps, outside, n, RunSteps(w, byId, steps[..n], outside))
  {
    hide StepAccepted, RunStep, WentWell, StoppedAt, RequestIds, AssertionIds, Keeps, Judging, AllWentWell;
    if n == 0 {
      assert steps[..0] == [];
      NoIds();
      assert AllWentWell(w, byId, steps, outside, 0, Outset) by { NoneWentWrong(w, byId, steps, outside, Outset); }
    } else {
      var before, step, now := steps[..n - 1], steps[n - 1], outside(n - 1);
      AccountAlways(w, byId, readinessUrl, steps, outside, n - 1);
      assert steps[..n][..n - 1] == before && steps[..n][n - 1] == step;
      var j := RunSteps(w, byId, before, outside);
      var next := RunStep(w, byId, j, step, now);
      assert RunSteps(w, byId, steps[..n], outside) == next;
      hide RunSteps;
      if j.stop.Some? {
        StoppedStep(w, byId, j, step, now);
      } else {
        assert StepAccepted(w, byId, readinessUrl, steps[..n - 1], steps[n - 1]);
        IdsOf(before, step);
        assert steps[..n] == before + [step];
        NextAccount(w, byId, readinessUrl, before, step, j, now);
        WellStaysWell(w, byId, steps, outside, n - 1, j, next);
        if next.stop.None? {
          OneMoreWentWell(w, byId, steps, outside, n - 1, next);
        } else {
          assert StoppedWith(w, byId, steps, outside, n - 1, next);
        }
      }
    }
  }

  lemma NextAccount(w: World, byId: map<string, Operation>, readinessUrl: string, before: seq<Step>, step: Step, j: Journey, now: Outside)
    requires w.library.parseDuration("") == None && w.runner.limits.maxStepTimeout > 0
    requires StepAccepted(w, byId, readinessUrl, before, step)
    requires forall id :: id in byId ==> !byId[id].CommandCheck?
    requires j.stop.None? && j.exchanges.Keys == RequestIds(before) && j.results.Keys == AssertionIds(before)
    ensures var next := RunStep(w, byId, j, step, now);
            && Keeps(j, next)
            && next.results.Keys == j.results.Keys + (if Judging(step, now) then {step.assertionId} else {})
            && (if next.stop.None? then
                  && WentWell(w, byId, step, now, next) && (step.request.None? <==> Judging(step, now))
                  && next.exchanges.Keys == j.exchanges.Keys + (if step.request.Some? then {step.request.value.id} else {})
                else StoppedAt(w, byId, step, now, next) && next.exchanges == j.exchanges)
  {
    hide StepAccepted, RunStep, WentWell, StoppedAt, RequestIds, AssertionIds, Keeps;
    if step.request.Some? {
      RequestAccount(w, byId, readinessUrl, before, step, j, now);
    } else {
      AssertionAccount(w, byId, readinessUrl, before, step, j, now);
    }
  }

  lemma StoppedStep(w: World, byId: map<string, Operation>, j: Journey, step: Step, now: Outside)
    requires j.stop.Some?
    ensures RunStep(w, byId, j, step, now) == j
  {
  }

  lemma NoneWentWrong(w: World, byId: map<string, Operation>, steps: seq<Step>, outside: nat -> Outside, j: Journey)
    ensures AllWentWell(w, byId, steps, outside, 0, j)
  {
  }

  lemma OneMoreWentWell(w: World, byId: map<string, Operation>, steps: seq<Step>, outside: nat -> Outside, n: nat, j: Journey)
    requires n < |steps| && AllWentWell(w, byId, steps, outside, n, j) && WentWell(w, byId, steps[n], outside(n), j)
    ensures AllWentWell(w, byId, steps, outside, n + 1, j)
  {
    hide WentWell;
  }

  /** A whole journey: it stopped at a step, or every step went well and the service was or was not
      still there. */
  ghost predicate Recorded(w: World, byId: map<string, Operation>, steps: seq<Step>, outside: nat -> Outside, exitedAtEnd: bool, j: Journey)
  {
    || (exists k: nat :: k < |steps| && StoppedWith(w, byId, steps, outside, k, j))
    || (&& AllWentWell(w, byId, steps, outside, |steps|, j)
        && j.exchanges.Keys == RequestIds(steps) && j.results.Keys == AssertionIds(steps)
        && j.stop == if exitedAtEnd then Some(ServiceExited) else None)
  }

  lemma AccountIsRecorded(
      w: World, byId: map<string, Operation>, steps: seq<Step>, outside: nat -> Outside, exitedAtEnd: bool, j: Journey, last: Journey)
    requires Account(w, byId, steps, outside, |steps|, j)
    requires last == if j.stop.None? && exitedAtEnd then j.(stop := Some(ServiceExited)) else j
    ensures Recorded(w, byId, steps, outside, exitedAtEnd, last)
  {
    hide RequestIds, AssertionIds, AllWentWell, StoppedWith;
    assert steps[..|steps|] == steps;
    if j.stop.None? { WellStaysWell(w, byId, steps, outside, |steps|, j, last); }
  }

  /** What the journey of an accepted plan records, and where it stops: it goes on as long as the time and
      the service last, requests are answered and assertions pass; every exchange on record is the answer
      its request got, every status is the inspection's or what the predicates say of the response asked
      about, and nothing is on record beyond the step it stopped at. */
  lemma JourneyRecords(w: World, plan: Plan, outside: nat -> Outside, exitedAtEnd: bool)
    requires w.library.parseDuration("") == None
    requires PlanAccepted(w, plan)
    ensures Recorded(w, ById(plan.assertions), plan.steps, outside, exitedAtEnd, RunJourney(w, plan, outside, exitedAtEnd))
  {
    hide ById, AssertionAccepted, RunSteps, RequestIds, AssertionIds, StepsAccepted, Account, Recorded;
    var byId := ById(plan.assertions);
    NoCommandChecks(w, plan.assertions);
    AccountAlways(w, byId, plan.readinessUrl, plan.steps, outside, |plan.steps|);
    assert plan.steps[..|plan.steps|] == plan.steps;
    AccountIsRecorded(w, byId, plan.steps, outside, exitedAtEnd, RunSteps(w, byId, plan.steps, outside),
                      RunJourney(w, plan, outside, exitedAtEnd));
  }

  /** One request of any plan, accepted or not: `t` is its trusted form under the default of ten seconds. */
  lemma RequestStepMeans(w: World, j: Journey, r: PlanRequest, outside: Outside, t: TrustedRequest)
    requires Renders(w.library, r, 10 * 1000 * 1_000_000, t)
    ensures RunRequest(w, j, r, outside) ==
            if !Acceptable(w.library, r, 10 * 1000 * 1_000_000, w.runner.limits) then j.(stop := Some(RequestRejected))
            else if !Sendable(w.library, t, w.runner.limits) || t.timeout > w.runner.limits.maxStepTimeout then
              j.(stop := Some(RequestRefused))
            else if outside.transport.None? then j.(stop := Some(RequestFailed))
            else j.(exchanges := j.exchanges[r.id := outside.transport.value])
  {
    hide Acceptable, Renders, Sendable;
    forall other | Renders(w.library, r, RUN_TIME_DEFAULT, other) ensures other == t {
      TrustedFormIsUnique(w.library, r, RUN_TIME_DEFAULT, other, t);
    }
  }

  predicate NamedBy(byId: map<string, Operation>, steps: seq<Step>, k: int, id: string)
  {
    0 <= k < |steps| && steps[k].assertionId == id && id != "" && id in byId && byId[id] != CommandCheck
  }

  /** The entries are those of the steps that name a known assertion other than a command's, each with the
      status on record, or blocked. */
  lemma {:induction false} EntriesAre(byId: map<string, Operation>, steps: seq<Step>, results: map<string, Status>, id: string, status: Status)
    ensures Entry(id, status) in FinalResults(byId, steps, results) <==>
            && (exists k :: NamedBy(byId, steps, k, id))
            && status == if id in results then results[id] else Blocked
  {
    if steps != [] {
      var n := |steps| - 1;
      EntriesAre(byId, steps[..n], results, id, status);
      assert forall k :: k != n ==> (NamedBy(byId, steps[..n], k, id) <==> NamedBy(byId, steps, k, id));
      assert Reported(byId, steps[n]) && steps[n].assertionId == id <==> NamedBy(byId, steps, n, id);
      assert !NamedBy(byId, steps[..n], n, id);
    }
  }

  // ---------------------------------------------------------------------
  // The shape of the final results
  // ---------------------------------------------------------------------

  predicate AllPassed(entries: seq<Entry>) { forall i :: 0 <= i < |entries| ==> entries[i].status == Passed }

  /** Passed entries up to `k`, anything at `k`, and entries that were never reached after it. */
  predicate ShapedAt(entries: seq<Entry>, k: nat)
  {
    k <= |entries| && AllPassed(entries[..k]) && forall i :: k < i < |entries| ==> entries[i].status == Blocked
  }

  ghost predicate Shaped(entries: seq<Entry>) { exists k: nat :: ShapedAt(entries, k) }

  lemma ShapedNext(entries: seq<Entry>, entry: Entry)
    requires Shaped(entries) && entry.status == Blocked
    ensures Shaped(entries + [entry])
  {
    var k: nat :| ShapedAt(entries, k);
    assert (entries + [entry])[..k] == entries[..k];
    assert ShapedAt(entries + [entry], k);
  }

  lemma ShapedBreak(entries: seq<Entry>, entry: Entry)
    requires AllPassed(entries)
    ensures Shaped(entries + [entry]) && Shaped(entries)
  {
    assert (entries + [entry])[..|entries|] == entries && entries[..|entries|] == entries;
    assert ShapedAt(entries + [entry], |entries|) && ShapedAt(entries, |entries|);
  }

  /** Results of assertions that are not among the steps make no difference to their entries. */
  lemma {:induction false} EntriesDependOnSteps(
      byId: map<string, Operation>, steps: seq<Step>, one: map<string, Status>, other: map<string, Status>)
    requires forall i :: 0 <= i < |steps| ==> EntryOf(one, steps[i].assertionId) == EntryOf(other, steps[i].assertionId)
                                              || !Reported(byId, steps[i])
    ensures FinalResults(byId, steps, one) == FinalResults(byId, steps, other)
  {
    hide EntryOf, Reported;
    if steps != [] {
      var front := steps[..|steps| - 1];
      assert forall i :: 0 <= i < |front| ==> front[i] == steps[i];
      EntriesDependOnSteps(byId, front, one, other);
    }
  }

  ghost predicate EntriesFollow(entries: seq<Entry>, stop: Option<Stop>)
  {
    Shaped(entries) && (stop.None? ==> AllPassed(entries))
  }

  lemma EntriesNext(byId: map<string, Operation>, before: seq<Step>, step: Step, results: map<string, Status>)
    ensures FinalResults(byId, before + [step], results)
         == FinalResults(byId, before, results)
            + if Reported(byId, step) then [EntryOf(results, step.assertionId)] else []
  {
    assert (before + [step])[..|before|] == before;
  }

  /** A fresh assertion's result does not change the entries before it. */
  lemma FreshResult(byId: map<string, Operation>, before: seq<Step>, results: map<string, Status>, id: string, status: Status)
    requires id !in AssertionIds(before) && id != ""
    requires forall i :: 0 <= i < |before| ==> (before[i].request.Some? <==> before[i].assertionId == "")
    ensures FinalResults(byId, before, results[id := status]) == FinalResults(byId, before, results)
  {
    forall i | 0 <= i < |before| && Reported(byId, before[i])
      ensures EntryOf(results[id := status], before[i].assertionId) == EntryOf(results, before[i].assertionId)
    {
      assert before[i].assertionId in AssertionIds(before);
    }
    EntriesDependOnSteps(byId, before, results[id := status], results);
  }

  lemma StepEntries(
      w: World, byId: map<string, Operation>, readinessUrl: string, before: seq<Step>, step: Step, j: Journey, outside: Outside)
    requires StepAccepted(w, byId, readinessUrl, before, step)
    requires forall i :: 0 <= i < |before| ==> (before[i].request.Some? <==> before[i].assertionId == "")
    requires forall id :: id in byId ==> !byId[id].CommandCheck?
    requires OnCourse(before, j) && EntriesFollow(FinalResults(byId, before, j.results), j.stop)
    ensures var next := RunStep(w, byId, j, step, outside);
            EntriesFollow(FinalResults(byId, before + [step], next.results), next.stop)
  {
    hide PlanAccepts, Acceptable, DriverTakes, RequestIds, AssertionIds, EvaluationOf, FinalResults, Shaped, AllPassed;
    var next, id := RunStep(w, byId, j, step, outside), step.assertionId;
    EntriesNext(byId, before, step, next.results);
    if step.request.Some? {
      assert next.results == j.results;
      assert FinalResults(byId, before, j.results) + [] == FinalResults(byId, before, j.results);
    } else if next.results == j.results {
      assert id !in j.results;
      if j.stop.None? { ShapedBreak(FinalResults(byId, before, j.results), Entry(id, Blocked)); }
      ShapedNext(FinalResults(byId, before, j.results), Entry(id, Blocked));
    } else {
      var status := next.results[id];
      FreshResult(byId, before, j.results, id, status);
      ShapedBreak(FinalResults(byId, before, j.results), Entry(id, status));
      if status == Passed { AllPassedNext(FinalResults(byId, before, j.results), Entry(id, status)); }
    }
  }

  lemma AllPassedNext(entries: seq<Entry>, entry: Entry)
    requires AllPassed(entries) && entry.status == Passed
    ensures AllPassed(entries + [entry])
  {
  }

  lemma StepsPrefix(w: World, byId: map<string, Operation>, readinessUrl: string, steps: seq<Step>, i: nat)
    requires StepsAccepted(w, byId, readinessUrl, steps) && i < |steps|
    ensures StepsAccepted(w, byId, readinessUrl, steps[..i]) && StepAccepted(w, byId, readinessUrl, steps[..i], steps[i])
    ensures forall k :: 0 <= k < i ==> (steps[..i][k].request.Some? <==> steps[..i][k].assertionId == "")
  {
    hide PlanAccepts, RequestIds, AssertionIds;
    forall k | 0 <= k < i
      ensures StepAccepted(w, byId, readinessUrl, steps[..i][..k], steps[..i][k])
    {
      assert steps[..i][..k] == steps[..k] && steps[..i][k] == steps[k];
      assert StepAccepted(w, byId, readinessUrl, steps[..k], steps[k]);
    }
  }

  lemma NoEntriesFollow(byId: map<string, Operation>)
    ensures EntriesFollow(FinalResults(byId, [], Outset.results), Outset.stop)
  {
    assert ShapedAt([], 0);
  }

  lemma {:induction false} EntriesFollowRun(
      w: World, byId: map<string, Operation>, readinessUrl: string, steps: seq<Step>, outside: nat -> Outside, i: nat)
    requires w.library.parseDuration("") == None && w.runner.limits.maxStepTimeout > 0
    requires StepsAccepted(w, byId, readinessUrl, steps)
    requires forall id :: id in byId ==> !byId[id].CommandCheck?
    requires i <= |steps|
    ensures var j := RunSteps(w, byId, steps[..i], outside); EntriesFollow(FinalResults(byId, steps[..i], j.results), j.stop)
  {
    hide RunStep, OnCourse, StepsAccepted, StepAccepted, EntriesFollow, FinalResults, PlanAccepts, RequestIds, AssertionIds;
    if i == 0 {
      assert steps[..0] == [];
      NoEntriesFollow(byId);
    } else {
      EntriesFollowRun(w, byId, readinessUrl, steps, outside, i - 1);
      StaysOnCourse(w, byId, readinessUrl, steps, outside, i - 1);
      StepsPrefix(w, byId, readinessUrl, steps, i - 1);
      var before := steps[..i - 1];
      assert steps[..i][..i - 1] == before && steps[..i] == before + [steps[i - 1]];
      StepEntries(w, byId, readinessUrl, before, steps[i - 1], RunSteps(w, byId, before, outside), outside(i - 1));
    }
  }

  function EntryIds(entries: seq<Entry>): seq<string> { seq(|entries|, i requires 0 <= i < |entries| => entries[i].id) }

  /** The assertion steps of a plan, in order. */
  function AssertionOrder(steps: seq<Step>): seq<string>
  {
    if steps == [] then []
    else AssertionOrder(steps[..|steps| - 1]) + if steps[|steps| - 1].request.None? then [steps[|steps| - 1].assertionId] else []
  }

  lemma {:induction false} EntriesAreAssertionSteps(
      w: World, byId: map<string, Operation>, readinessUrl: string, steps: seq<Step>, results: map<string, Status>)
    requires StepsAccepted(w, byId, readinessUrl, steps)
    requires forall id :: id in byId ==> !byId[id].CommandCheck?
    ensures EntryIds(FinalResults(byId, steps, results)) == AssertionOrder(steps)
    ensures Distinct(AssertionOrder(steps)) && Elements(AssertionOrder(steps)) == AssertionIds(steps)
  {
    hide StepsAccepted, StepAccepted, AssertionIds, RequestIds;
    if steps == [] {
      NoIds();
    } else {
      var front, last := steps[..|steps| - 1], steps[|steps| - 1];
      StepsPrefix(w, byId, readinessUrl, steps, |steps| - 1);
      EntriesAreAssertionSteps(w, byId, readinessUrl, front, results);
      FreshAndReported(w, byId, readinessUrl, front, last);
      assert steps == front + [last];
      IdsOf(front, last);
      hide EntryOf, Reported;
      if last.request.None? {
        assert AssertionOrder(steps) == AssertionOrder(front) + [last.assertionId];
        assert last.assertionId !in Elements(AssertionOrder(front));
      } else {
        assert AssertionOrder(steps) == AssertionOrder(front);
      }
    }
  }

  lemma FreshAndReported(w: World, byId: map<string, Operation>, readinessUrl: string, before: seq<Step>, step: Step)
    requires StepAccepted(w, byId, readinessUrl, before, step)
    requires forall id :: id in byId ==> !byId[id].CommandCheck?
    ensures Reported(byId, step) <==> step.request.None?
    ensures step.request.None? ==> step.assertionId !in AssertionIds(before)
  {
    hide PlanAccepts, RequestIds, AssertionIds;
  }

  /** However the journey of an accepted plan stops, the final results have exactly one entry per
      assertion, in the order of the steps: passed entries, at most one other, then blocked ones. All
      are passed when no error is returned, and an entry recorded as anything but passed is the one
      the journey stopped at. */
  lemma FinalResultsShape(w: World, plan: Plan, outside: nat -> Outside, exitedAtEnd: bool)
    requires w.library.parseDuration("") == None
    requires PlanAccepted(w, plan)
    ensures var byId, j := ById(plan.assertions), RunJourney(w, plan, outside, exitedAtEnd);
            var entries := FinalResults(byId, plan.steps, j.results);
            && EntryIds(entries) == AssertionOrder(plan.steps)
            && Distinct(EntryIds(entries)) && Elements(EntryIds(entries)) == byId.Keys
            && Shaped(entries)
            && (j.stop.None? ==> AllPassed(entries))
            && forall id :: id in j.results ==> j.results[id] == Passed || j.stop == StopAt(id, j.results[id])
  {
    hide ById, AssertionAccepted, RunSteps, RequestIds, AssertionIds, FinalResults, Shaped, AllPassed, EntryIds, AssertionOrder,
         StepsAccepted, Distinct, Elements;
    var byId := ById(plan.assertions);
    NoCommandChecks(w, plan.assertions);
    assert plan.steps[..|plan.steps|] == plan.steps;
    StaysOnCourse(w, byId, plan.readinessUrl, plan.steps, outside, |plan.steps|);
    EntriesFollowRun(w, byId, plan.readinessUrl, plan.steps, outside, |plan.steps|);
    EntriesAreAssertionSteps(w, byId, plan.readinessUrl, plan.steps, RunJourney(w, plan, outside, exitedAtEnd).results);
  }
}
