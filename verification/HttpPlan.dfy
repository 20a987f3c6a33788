/**
 The static check of an HTTP journey: first every assertion on its own, then the
 steps in order. Which commands, capabilities and features the plan must carry
 besides is not modelled, except the signal timeout, which bounds the runner's
 step timeout from below.
 */
module HttpPlan {
  import opened Prelude
  import opened HttpRequest
  import opened HttpAssertions
  import Paths

  const MIN_STEPS := 2
  const MAX_STEPS := 128
  const MAX_REQUESTS := 32
  const MIN_STATUS := 200
  const MAX_STATUS := 599
  const MAX_MATCH_BYTES := 0x10_0000
  const SIGNAL_SLACK := 750 * MILLISECOND
  const OUTPUTS := "/outputs"

  datatype Operation =
    | ResponseCheck(spec: ResponseSpec)
    | JsonFileCheck(path: string, schema: SchemaRef)
    | FileExistsCheck(path: string)
    | CommandCheck                               // anything a CLI journey would assert

  datatype Assertion = Assertion(id: string, operation: Operation)

  /** A step as the plan spells it: a request, or the identifier of an assertion. */
  datatype Step = Step(request: Option<PlanRequest>, assertionId: string)

  datatype Plan = Plan(assertions: seq<Assertion>, steps: seq<Step>, readinessUrl: string, signalTimeout: Option<int>)

  datatype Runner = Runner(limits: Limits, maxResponseBytes: int)

  /** Checks that live elsewhere: output paths and schema references. */
  datatype Checks = Checks(outputPath: string -> bool, schemaRef: SchemaRef -> bool)

  /** Everything a check can consult. */
  datatype World = World(runner: Runner, library: Library, json: JsonLibrary, checks: Checks)

  // ---------------------------------------------------------------------
  // Assertions
  // ---------------------------------------------------------------------

  predicate SpecAccepted(w: World, spec: ResponseSpec)
  {
    && spec.requestId != ""
    && !(spec.status.None? && spec.header.None? && spec.bodyContains.None? && spec.jsonPath.None? && spec.jsonSchema.None?)
    && (spec.status.Some? ==> MIN_STATUS <= spec.status.value <= MAX_STATUS)
    && (spec.bodyContains.Some? ==>
          0 < |spec.bodyContains.value| <= MAX_MATCH_BYTES && |spec.bodyContains.value| <= w.runner.maxResponseBytes)
    && (spec.header.Some? ==>
          && ValidHeaderName(ToLower(spec.header.value.name))
          && (forall c :: c in spec.header.value.contains ==> c as int !in {0, 10, 13})
          && Paths.ByteLength(spec.header.value.contains) <= MAX_HEADER_VALUE)
    && (spec.jsonPath.Some? ==>
          && w.json.compilePath(spec.jsonPath.value.path).Some?
          && spec.jsonPath.value.equals != []
          && w.json.decode(spec.jsonPath.value.equals).Some?)
    && (spec.jsonSchema.Some? ==> w.checks.schemaRef(spec.jsonSchema.value))
  }

  predicate AssertionAccepted(w: World, operation: Operation)
  {
    match operation
    case ResponseCheck(spec) => SpecAccepted(w, spec)
    case JsonFileCheck(path, schema) => w.checks.outputPath(path) && path != OUTPUTS && w.checks.schemaRef(schema)
    case FileExistsCheck(path) => w.checks.outputPath(path)
    case CommandCheck => false
  }

  /** The assertions by identifier; a later one replaces an earlier one of the same name. */
  function ById(assertions: seq<Assertion>): map<string, Operation>
  {
    if assertions == [] then map[]
    else ById(assertions[..|assertions| - 1])[assertions[|assertions| - 1].id := assertions[|assertions| - 1].operation]
  }

  lemma {:induction false} ByIdAccepted(w: World, assertions: seq<Assertion>)
    requires forall a :: a in assertions ==> AssertionAccepted(w, a.operation)
    ensures forall id :: id in ById(assertions) ==> AssertionAccepted(w, ById(assertions)[id])
  {
    hide AssertionAccepted;
    if assertions != [] { ByIdAccepted(w, assertions[..|assertions| - 1]); }
  }

  method CollectAssertions(w: World, assertions: seq<Assertion>) returns (byId: Option<map<string, Operation>>)
    ensures byId.Some? <==> forall a :: a in assertions ==> AssertionAccepted(w, a.operation)
    ensures byId.Some? ==> byId.value == ById(assertions)
  {
    hide AssertionAccepted;
    var collected: map<string, Operation> := map[];
    assert assertions[..0] == [];
    for i := 0 to |assertions|
      invariant forall k :: 0 <= k < i ==> AssertionAccepted(w, assertions[k].operation)
      invariant collected == ById(assertions[..i])
    {
      assert assertions[..i + 1][..i] == assertions[..i];
      collected := collected[assertions[i].id := assertions[i].operation];
      if !AssertionAccepted(w, assertions[i].operation) {
        assert assertions[i] in assertions;
        return None;
      }
    }
    assert assertions[..|assertions|] == assertions;
    return Some(collected);
  }

  // ---------------------------------------------------------------------
  // Steps
  // ---------------------------------------------------------------------

  /** Identifiers of the requests, and of the assertions, among the given steps. */
  function RequestIds(steps: seq<Step>): set<string>
  {
    set k | 0 <= k < |steps| && steps[k].request.Some? :: steps[k].request.value.id
  }

  function AssertionIds(steps: seq<Step>): set<string>
  {
    set k | 0 <= k < |steps| && steps[k].request.None? :: steps[k].assertionId
  }

  /** One step in the light of the steps before it. */
  ghost predicate StepAccepted(w: World, byId: map<string, Operation>, readinessUrl: string, before: seq<Step>, step: Step)
  {
    && (step.request.Some? <==> step.assertionId == "")
    && (step.request.Some? ==>
          var r := step.request.value;
          r.id !in RequestIds(before) && r.id !in byId && PlanAccepts(w.library, r, readinessUrl, w.runner.limits))
    && (step.request.None? ==>
          && step.assertionId in byId
          && step.assertionId !in AssertionIds(before)
          && (byId[step.assertionId].ResponseCheck? ==> byId[step.assertionId].spec.requestId in RequestIds(before)))
  }

  ghost predicate StepsAccepted(w: World, byId: map<string, Operation>, readinessUrl: string, steps: seq<Step>)
  {
    forall i :: 0 <= i < |steps| ==> StepAccepted(w, byId, readinessUrl, steps[..i], steps[i])
  }

  predicate SignalAccepted(w: World, timeout: Option<int>)
  {
    timeout.Some? && SIGNAL_SLACK < timeout.value <= w.runner.limits.maxStepTimeout
  }

  /** What validateHTTPPlan accepts. */
  ghost predicate PlanAccepted(w: World, plan: Plan)
  {
    var byId := ById(plan.assertions);
    && SignalAccepted(w, plan.signalTimeout)
    && plan.assertions != [] && MIN_STEPS <= |plan.steps| <= MAX_STEPS
    && (forall a :: a in plan.assertions ==> AssertionAccepted(w, a.operation))
    && StepsAccepted(w, byId, plan.readinessUrl, plan.steps)
    && 0 < |RequestIds(plan.steps)| <= MAX_REQUESTS
    && AssertionIds(plan.steps) == byId.Keys
  }

  lemma RequestIdsNext(steps: seq<Step>, i: nat)
    requires i < |steps|
    ensures RequestIds(steps[..i + 1])
         == RequestIds(steps[..i]) + if steps[i].request.Some? then {steps[i].request.value.id} else {}
    ensures RequestIds(steps[..i]) <= RequestIds(steps)
  {
    var now, before := steps[..i + 1], steps[..i];
    assert forall k :: 0 <= k < i ==> now[k] == before[k] == steps[k];
    assert now[i] == steps[i];
    forall id | id in RequestIds(now) ensures id in RequestIds(before) || (steps[i].request.Some? && id == steps[i].request.value.id) {
      var k :| 0 <= k <= i && now[k].request.Some? && now[k].request.value.id == id;
      if k < i { assert before[k] == now[k]; }
    }
    forall id | id in RequestIds(before) ensures id in RequestIds(now) && id in RequestIds(steps) {
      var k :| 0 <= k < i && before[k].request.Some? && before[k].request.value.id == id;
      assert now[k] == before[k] && steps[k] == before[k];
    }
  }

  lemma AssertionIdsNext(steps: seq<Step>, i: nat)
    requires i < |steps|
    ensures AssertionIds(steps[..i + 1])
         == AssertionIds(steps[..i]) + if steps[i].request.None? then {steps[i].assertionId} else {}
    ensures AssertionIds(steps[..i]) <= AssertionIds(steps)
  {
    var now, before := steps[..i + 1], steps[..i];
    assert forall k :: 0 <= k < i ==> now[k] == before[k] == steps[k];
    assert now[i] == steps[i];
    forall id | id in AssertionIds(now) ensures id in AssertionIds(before) || (steps[i].request.None? && id == steps[i].assertionId) {
      var k :| 0 <= k <= i && now[k].request.None? && now[k].assertionId == id;
      if k < i { assert before[k] == now[k]; }
    }
    forall id | id in AssertionIds(before) ensures id in AssertionIds(now) && id in AssertionIds(steps) {
      var k :| 0 <= k < i && before[k].request.None? && before[k].assertionId == id;
      assert now[k] == before[k] && steps[k] == before[k];
    }
  }

  /** The checks on one request, its identifier's uniqueness aside. */
  method CheckRequest(w: World, readinessUrl: string, r: PlanRequest) returns (accepted: bool)
    ensures accepted <==> PlanAccepts(w.library, r, readinessUrl, w.runner.limits)
  {
    hide Acceptable, Canonical, Renders;
    if !w.library.validId(r.id) { return false; }
    if !w.library.sameOrigin(readinessUrl, r.url) { return false; }
    if !Canonical(r.verb) { return false; }
    var rest := r.headers.Keys;
    while rest != {}
      invariant rest <= r.headers.Keys
      invariant forall name :: name in r.headers.Keys - rest ==> Canonical(name)
      decreases rest
    {
      var name :| name in rest;
      if !Canonical(name) { return false; }
      rest := rest - {name};
    }
    var maximum := w.runner.limits.maxStepTimeout;
    if maximum > MAX_REQUEST_TIME { maximum := MAX_REQUEST_TIME; }
    var timeout := ParseDuration(w.library, r.timeout, maximum);
    if timeout == None { return false; }
    var trusted := TrustedRequestFromPlan(w.library, r, timeout.value, w.runner.limits);
    return trusted != None;
  }

  lemma StepRefused(w: World, byId: map<string, Operation>, readinessUrl: string, steps: seq<Step>, i: nat)
    requires i < |steps| && !StepAccepted(w, byId, readinessUrl, steps[..i], steps[i])
    ensures !StepsAccepted(w, byId, readinessUrl, steps)
  {
  }

  /** The ordered pass over the steps. */
  method CheckSteps(w: World, byId: map<string, Operation>, readinessUrl: string, steps: seq<Step>) returns (accepted: bool)
    ensures accepted <==>
            && StepsAccepted(w, byId, readinessUrl, steps)
            && 0 < |RequestIds(steps)| <= MAX_REQUESTS
            && AssertionIds(steps) != {} && AssertionIds(steps) == byId.Keys
  {
    hide PlanAccepts, RequestIds, AssertionIds;
    var requests: set<string>, referenced: set<string> := {}, {};
    var requestCount, assertionStepCount := 0, 0;
    NoIds();
    assert steps[..0] == [];
    for i := 0 to |steps|
      invariant requests == RequestIds(steps[..i]) && requestCount == |requests| <= MAX_REQUESTS
      invariant referenced == AssertionIds(steps[..i]) && assertionStepCount == |referenced| && referenced <= byId.Keys
      invariant forall k :: 0 <= k < i ==> StepAccepted(w, byId, readinessUrl, steps[..k], steps[k])
    {
      var step := steps[i];
      RequestIdsNext(steps, i);
      AssertionIdsNext(steps, i);
      if !StepAccepted(w, byId, readinessUrl, steps[..i], step) { StepRefused(w, byId, readinessUrl, steps, i); }
      if step.request.None? == (step.assertionId == "") { return false; }
      if step.request.Some? {
        var r := step.request.value;
        if r.id in requests { return false; }
        if r.id in byId { return false; }
        requests := requests + {r.id};
        requestCount := requestCount + 1;
        var safe := CheckRequest(w, readinessUrl, r);
        if !safe { return false; }
        if requestCount > MAX_REQUESTS {
          TooManyRequests(steps, i);
          return false;
        }
        continue;
      }
      if step.assertionId !in byId { return false; }
      if step.assertionId in referenced { return false; }
      referenced := referenced + {step.assertionId};
      assertionStepCount := assertionStepCount + 1;
      var operation := byId[step.assertionId];
      if operation.ResponseCheck? && operation.spec.requestId !in requests { return false; }
    }
    assert steps[..|steps|] == steps;
    if requestCount == 0 { return false; }
    if assertionStepCount == 0 { return false; }
    SubsetCount(referenced, byId.Keys);
    return |referenced| == |byId|;
  }

  lemma NoIds()
    ensures RequestIds([]) == {} && AssertionIds([]) == {}
  {
  }

  lemma TooManyRequests(steps: seq<Step>, i: nat)
    requires i < |steps| && |RequestIds(steps[..i + 1])| > MAX_REQUESTS
    ensures |RequestIds(steps)| > MAX_REQUESTS
  {
    if i + 1 < |steps| {
      RequestIdsNext(steps, i + 1);
    } else {
      assert steps[..i + 1] == steps;
    }
    SubsetCount(RequestIds(steps[..i + 1]), RequestIds(steps));
  }

  lemma ByIdNonEmpty(assertions: seq<Assertion>)
    requires assertions != []
    ensures ById(assertions) != map[]
  {
    assert assertions[|assertions| - 1].id in ById(assertions);
  }

  /** validateHTTPPlan, from the signal timeout on. */
  method ValidatePlan(w: World, plan: Plan) returns (accepted: bool)
    ensures accepted <==> PlanAccepted(w, plan)
  {
    hide AssertionAccepted, StepsAccepted, RequestIds, AssertionIds, ById;
    if !SignalAccepted(w, plan.signalTimeout) { return false; }
    if plan.assertions == [] { return false; }
    if |plan.steps| < MIN_STEPS || |plan.steps| > MAX_STEPS { return false; }
    ByIdNonEmpty(plan.assertions);
    var byId := CollectAssertions(w, plan.assertions);
    if byId == None { return false; }
    accepted := CheckSteps(w, byId.value, plan.readinessUrl, plan.steps);
  }

  // ---------------------------------------------------------------------
  // The plan's conditions in plain terms
  // ---------------------------------------------------------------------

  /** In lower case it is a header name: small and capital letters, digits and marks, and two characters
      beyond ASCII whose small forms are i and k. */
  predicate HeaderNameAllowed(name: string)
  {
    name != "" && forall i :: 0 <= i < |name| ==>
      || 'a' <= name[i] <= 'z' || 'A' <= name[i] <= 'Z' || '0' <= name[i] <= '9' || name[i] in "!#$%&'*+-.^_`|~"
      || name[i] in ['\U{130}', '\U{212A}']
  }

  lemma LowerIsToken(c: char)
    ensures 'a' <= Lower(c) <= 'z' || '0' <= Lower(c) <= '9' || Lower(c) in TOKEN_MARKS <==>
            || 'a' <= c <= 'z' || 'A' <= c <= 'Z' || '0' <= c <= '9' || c in "!#$%&'*+-.^_`|~"
            || c in ['\U{130}', '\U{212A}']
  {
  }

  lemma LowerNameMeans(name: string)
    ensures ValidHeaderName(ToLower(name)) <==> HeaderNameAllowed(name)
  {
    var lower := ToLower(name);
    assert |lower| == |name|;
    forall i | 0 <= i < |name| { LowerIsToken(name[i]); }
    assert forall i :: 0 <= i < |name| ==> lower[i] == Lower(name[i]);
    hide Lower;
    if ValidHeaderName(lower) {
      forall i | 0 <= i < |name| ensures 'a' <= lower[i] <= 'z' || '0' <= lower[i] <= '9' || lower[i] in TOKEN_MARKS {
        assert lower[i] in lower;
      }
    }
    if HeaderNameAllowed(name) {
      forall c | c in lower ensures 'a' <= c <= 'z' || '0' <= c <= '9' || c in TOKEN_MARKS {
        var i :| 0 <= i < |lower| && lower[i] == c;
        assert name[i] in name;
      }
    }
  }

  /** What an assertion on a response may say: something, about a named request, with a status of 200 to
      599, a body part of one byte to a mebibyte that the driver can hold, a header's name and part of its
      value without line breaks, a usable path with a decodable value, and a known schema. */
  lemma ResponseCheckMeans(w: World, spec: ResponseSpec)
    ensures AssertionAccepted(w, ResponseCheck(spec)) <==>
            && spec.requestId != ""
            && (spec.status.Some? || spec.header.Some? || spec.bodyContains.Some? || spec.jsonPath.Some? || spec.jsonSchema.Some?)
            && (spec.status.Some? ==> 200 <= spec.status.value < 600)
            && (spec.bodyContains.Some? ==> 1 <= |spec.bodyContains.value| <= Min(1048576, w.runner.maxResponseBytes))
            && (spec.header.Some? ==>
                  && HeaderNameAllowed(spec.header.value.name)
                  && (forall c :: c in ['\0', '\n', '\r'] ==> c !in spec.header.value.contains)
                  && Paths.ByteLength(spec.header.value.contains) <= 8192)
            && (spec.jsonPath.Some? ==> PathIsKnown(w.json, spec.jsonPath.value) && spec.jsonPath.value.equals != [])
            && (spec.jsonSchema.Some? ==> w.checks.schemaRef(spec.jsonSchema.value))
  {
    if spec.header.Some? { LowerNameMeans(spec.header.value.name); }
    hide HeaderNameAllowed, ValidHeaderName, ToLower;
  }

  lemma FileChecksMean(w: World, path: string, schema: SchemaRef)
    ensures AssertionAccepted(w, JsonFileCheck(path, schema)) <==>
            w.checks.outputPath(path) && path != "/outputs" && w.checks.schemaRef(schema)
    ensures AssertionAccepted(w, FileExistsCheck(path)) <==> w.checks.outputPath(path)
    ensures !AssertionAccepted(w, CommandCheck)
  {
  }

  /** Of several assertions with one identifier the last is kept. */
  lemma {:induction false} LastAssertionIsKept(assertions: seq<Assertion>, id: string, operation: Operation)
    ensures var byId := ById(assertions);
            && (id in byId <==> exists i :: 0 <= i < |assertions| && assertions[i].id == id)
            && (id in byId && byId[id] == operation <==>
                exists i :: 0 <= i < |assertions| && assertions[i] == Assertion(id, operation)
                         && forall k :: i < k < |assertions| ==> assertions[k].id != id)
  {
    if assertions != [] {
      var n := |assertions| - 1;
      var front := assertions[..n];
      LastAssertionIsKept(front, id, operation);
      assert forall k :: 0 <= k < n ==> front[k] == assertions[k];
      if assertions[n].id != id {
        if i :| 0 <= i < n && front[i] == Assertion(id, operation) && forall k :: i < k < n ==> front[k].id != id {
          assert forall k :: i < k < |assertions| ==> assertions[k].id != id;
        }
      }
    }
  }

  predicate IsRequest(step: Step) { step.request.Some? && step.assertionId == "" }

  predicate IsAssertion(step: Step) { step.request.None? && step.assertionId != "" }

  predicate Requests(steps: seq<Step>, k: int, id: string)
  {
    0 <= k < |steps| && steps[k].request.Some? && steps[k].request.value.id == id
  }

  predicate Asserts(steps: seq<Step>, k: int, id: string)
  {
    0 <= k < |steps| && steps[k].request.None? && steps[k].assertionId == id
  }

  /** What step `i` has to be, given the other steps. */
  ghost predicate StepInOrder(w: World, byId: map<string, Operation>, readinessUrl: string, steps: seq<Step>, i: nat)
    requires i < |steps|
  {
    var step := steps[i];
    if step.request.Some? then
      && IsRequest(step)
      && step.request.value.id !in byId
      && (forall j :: 0 <= j < i ==> !Requests(steps, j, step.request.value.id))
      && PlanAccepts(w.library, step.request.value, readinessUrl, w.runner.limits)
    else
      && IsAssertion(step)
      && step.assertionId in byId
      && (forall j :: 0 <= j < i ==> !Asserts(steps, j, step.assertionId))
      && (byId[step.assertionId].ResponseCheck? ==>
            exists j :: 0 <= j < i && Requests(steps, j, byId[step.assertionId].spec.requestId))
  }

  lemma IdsBefore(steps: seq<Step>, i: nat, id: string)
    requires i <= |steps|
    ensures id in RequestIds(steps[..i]) <==> exists j :: 0 <= j < i && Requests(steps, j, id)
    ensures id in AssertionIds(steps[..i]) <==> exists j :: 0 <= j < i && Asserts(steps, j, id)
  {
    var before := steps[..i];
    assert forall k :: 0 <= k < i ==> before[k] == steps[k];
    if id in RequestIds(before) {
      var k :| 0 <= k < i && before[k].request.Some? && before[k].request.value.id == id;
      assert Requests(steps, k, id);
    }
    if j :| 0 <= j < i && Requests(steps, j, id) { assert before[j].request.Some? && before[j].request.value.id == id; }
    if id in AssertionIds(before) {
      var k :| 0 <= k < i && before[k].request.None? && before[k].assertionId == id;
      assert Asserts(steps, k, id);
    }
    if j :| 0 <= j < i && Asserts(steps, j, id) { assert before[j].request.None? && before[j].assertionId == id; }
  }

  lemma StepMeans(w: World, byId: map<string, Operation>, readinessUrl: string, steps: seq<Step>, i: nat)
    requires i < |steps|
    ensures StepAccepted(w, byId, readinessUrl, steps[..i], steps[i]) <==> StepInOrder(w, byId, readinessUrl, steps, i)
  {
    hide PlanAccepts, RequestIds, AssertionIds, Requests, Asserts;
    var step := steps[i];
    if step.request.Some? {
      IdsBefore(steps, i, step.request.value.id);
    } else {
      IdsBefore(steps, i, step.assertionId);
      if step.assertionId in byId && byId[step.assertionId].ResponseCheck? {
        IdsBefore(steps, i, byId[step.assertionId].spec.requestId);
      }
    }
  }

  lemma StepsMean(w: World, byId: map<string, Operation>, readinessUrl: string, steps: seq<Step>)
    ensures StepsAccepted(w, byId, readinessUrl, steps) <==>
            forall i :: 0 <= i < |steps| ==> StepInOrder(w, byId, readinessUrl, steps, i)
  {
    hide StepAccepted, StepInOrder;
    forall i | 0 <= i < |steps|
      ensures StepAccepted(w, byId, readinessUrl, steps[..i], steps[i]) <==> StepInOrder(w, byId, readinessUrl, steps, i)
    {
      StepMeans(w, byId, readinessUrl, steps, i);
    }
  }

  function RequestPlaces(steps: seq<Step>): set<int> { set k | 0 <= k < |steps| && steps[k].request.Some? }

  lemma RequestPlacesNext(steps: seq<Step>, i: nat)
    requires i < |steps|
    ensures RequestPlaces(steps[..i + 1]) == RequestPlaces(steps[..i]) + if steps[i].request.Some? then {i as int} else {}
    ensures i !in RequestPlaces(steps[..i])
  {
    assert forall k :: 0 <= k < i ==> steps[..i + 1][k] == steps[..i][k];
    assert steps[..i + 1][i] == steps[i];
  }

  lemma NewRequest(w: World, byId: map<string, Operation>, readinessUrl: string, steps: seq<Step>, i: nat)
    requires i < |steps| && StepsAccepted(w, byId, readinessUrl, steps)
    ensures steps[i].request.Some? ==> steps[i].request.value.id !in RequestIds(steps[..i])
  {
    hide RequestIds, AssertionIds, PlanAccepts;
    assert StepAccepted(w, byId, readinessUrl, steps[..i], steps[i]);
  }

  lemma CountNext(steps: seq<Step>, i: nat)
    requires i < |steps|
    requires steps[i].request.Some? ==> steps[i].request.value.id !in RequestIds(steps[..i])
    ensures |RequestIds(steps[..i + 1])| == |RequestIds(steps[..i])| + if steps[i].request.Some? then 1 else 0
    ensures |RequestPlaces(steps[..i + 1])| == |RequestPlaces(steps[..i])| + if steps[i].request.Some? then 1 else 0
  {
    hide RequestIds, RequestPlaces;
    RequestIdsNext(steps, i);
    RequestPlacesNext(steps, i);
    var ids, places := RequestIds(steps[..i]), RequestPlaces(steps[..i]);
    if steps[i].request.None? { assert ids + {} == ids && places + {} == places; }
  }

  /** With no identifier twice there are as many identifiers as request steps. */
  lemma {:induction false} RequestsAreCounted(w: World, byId: map<string, Operation>, readinessUrl: string, steps: seq<Step>, n: nat)
    requires n <= |steps| && StepsAccepted(w, byId, readinessUrl, steps)
    ensures |RequestIds(steps[..n])| == |RequestPlaces(steps[..n])|
  {
    hide StepsAccepted, RequestIds;
    if n == 0 {
      NoIds();
      assert RequestPlaces([]) == {} && steps[..0] == [];
    } else {
      RequestsAreCounted(w, byId, readinessUrl, steps, n - 1);
      NewRequest(w, byId, readinessUrl, steps, n - 1);
      CountNext(steps, n - 1);
    }
  }

  /** 2 to 128 steps in order, 1 to 32 of them requests, and every assertion made in some step. */
  ghost predicate PlanInOrder(w: World, plan: Plan)
  {
    var byId := ById(plan.assertions);
    && plan.signalTimeout.Some?
    && 750_000_000 < plan.signalTimeout.value <= w.runner.limits.maxStepTimeout
    && plan.assertions != []
    && (forall i :: 0 <= i < |plan.assertions| ==> AssertionAccepted(w, plan.assertions[i].operation))
    && 2 <= |plan.steps| <= 128
    && (forall i :: 0 <= i < |plan.steps| ==> StepInOrder(w, byId, plan.readinessUrl, plan.steps, i))
    && 1 <= |RequestPlaces(plan.steps)| <= 32
    && forall id :: id in byId ==> exists j :: Asserts(plan.steps, j, id)
  }

  /** What validateHTTPPlan accepts, step by step. */
  lemma PlanMeans(w: World, plan: Plan)
    ensures PlanAccepted(w, plan) <==> PlanInOrder(w, plan)
  {
    hide AssertionAccepted, StepsAccepted, StepInOrder, RequestIds, RequestPlaces, AssertionIds, Asserts;
    var byId := ById(plan.assertions);
    StepsMean(w, byId, plan.readinessUrl, plan.steps);
    assert plan.steps[..|plan.steps|] == plan.steps;
    if StepsAccepted(w, byId, plan.readinessUrl, plan.steps) {
      RequestsAreCounted(w, byId, plan.readinessUrl, plan.steps, |plan.steps|);
      AllAreMade(w, byId, plan.readinessUrl, plan.steps);
    }
    if PlanAccepted(w, plan) {
      forall i | 0 <= i < |plan.assertions| ensures AssertionAccepted(w, plan.assertions[i].operation) {
        assert plan.assertions[i] in plan.assertions;
      }
      assert PlanInOrder(w, plan);
    }
    if PlanInOrder(w, plan) { assert PlanAccepted(w, plan); }
  }

  lemma AllAreMade(w: World, byId: map<string, Operation>, readinessUrl: string, steps: seq<Step>)
    requires StepsAccepted(w, byId, readinessUrl, steps)
    ensures AssertionIds(steps) == byId.Keys <==> forall id :: id in byId ==> exists j :: Asserts(steps, j, id)
  {
    hide Asserts, RequestIds, PlanAccepts;
    assert steps[..|steps|] == steps;
    forall id ensures id in AssertionIds(steps) <==> exists j :: Asserts(steps, j, id) {
      IdsBefore(steps, |steps|, id);
      if j :| Asserts(steps, j, id) { AssertsWithin(steps, j, id); }
    }
    forall id | id in AssertionIds(steps) ensures id in byId {
      var k :| 0 <= k < |steps| && steps[k].request.None? && steps[k].assertionId == id;
      assert StepAccepted(w, byId, readinessUrl, steps[..k], steps[k]);
    }
  }

  lemma AssertsWithin(steps: seq<Step>, j: int, id: string)
    requires Asserts(steps, j, id)
    ensures 0 <= j < |steps|
  {
  }
}
