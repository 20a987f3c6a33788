/**
 Judging one HTTP response against the predicates of an assertion. The status is
 overwritten predicate by predicate; what that amounts to is proved here: a
 definite failure anywhere decides, otherwise the last predicate that did not
 hold does. JSON decoding, paths and schemas belong to the `JsonLibrary`.
 */
module HttpAssertions {
  import opened Prelude
  import opened HttpRequest

  datatype Status = Passed | Failed | Blocked | Inconclusive

  // Handles for values of foreign code.
  datatype Document = Document(handle: int)
  datatype CompiledPath = CompiledPath(handle: int)
  datatype Schema = Schema(handle: int)
  datatype SchemaRef = SchemaRef(path: string, digest: string)
  datatype SchemaOutcome = Satisfied | NotSatisfied | NotEvaluated

  datatype JsonLibrary = JsonLibrary(
    decode: Bytes -> Option<Document>,
    compilePath: string -> Option<CompiledPath>,
    lookup: (CompiledPath, Document) -> Option<Document>,
    equal: (Document, Document) -> bool,
    schemaOf: SchemaRef -> Option<Schema>,
    validate: (Schema, Document) -> SchemaOutcome)

  datatype HeaderPredicate = HeaderPredicate(name: string, contains: string)
  datatype PathPredicate = PathPredicate(path: string, equals: Bytes)

  datatype ResponseSpec = ResponseSpec(
    requestId: string, status: Option<int>, header: Option<HeaderPredicate>, bodyContains: Option<Bytes>,
    jsonPath: Option<PathPredicate>, jsonSchema: Option<SchemaRef>)

  datatype Response = Response(status: int, headers: seq<Header>, body: Bytes, truncated: bool)

  predicate Contains<T(==)>(s: seq<T>, part: seq<T>) { HasPrefix(s, part) || (s != [] && Contains(s[1..], part)) }

  // ---------------------------------------------------------------------
  // What each predicate says on its own
  // ---------------------------------------------------------------------

  /** Holds, definitely does not, cannot be told, or cannot be evaluated. */
  datatype Verdict = Holds | Fails | Unknown | Unavailable

  function Definite(holds: bool): Verdict { if holds then Holds else Fails }

  predicate HeaderMatches(h: Header, spec: HeaderPredicate)
  {
    EqualFold(h.name, spec.name) && Contains(h.value, spec.contains)
  }

  function HeaderVerdict(headers: seq<Header>, spec: HeaderPredicate): Verdict
  {
    Definite(exists h :: h in headers && HeaderMatches(h, spec))
  }

  function BodyVerdict(response: Response, part: Bytes): Verdict
  {
    if Contains(response.body, part) then Holds else if response.truncated then Unknown else Fails
  }

  function PathVerdict(json: JsonLibrary, document: Document, spec: PathPredicate): Verdict
  {
    var path, expected := json.compilePath(spec.path), json.decode(spec.equals);
    if path.None? || expected.None? then Unavailable
    else
      var found := json.lookup(path.value, document);
      Definite(found.Some? && json.equal(found.value, expected.value))
  }

  function SchemaVerdict(json: JsonLibrary, document: Document, ref: SchemaRef): Verdict
  {
    match json.schemaOf(ref)
    case None => Unavailable
    case Some(schema) =>
      match json.validate(schema, document)
      case Satisfied => Holds
      case NotSatisfied => Fails
      case NotEvaluated => Unknown
  }

  function StructuredVerdicts(json: JsonLibrary, spec: ResponseSpec, response: Response): seq<Verdict>
  {
    if spec.jsonPath.None? && spec.jsonSchema.None? then []
    else if response.truncated then [Unknown]
    else
      match json.decode(response.body)
      case None => [Fails]
      case Some(document) =>
        (if spec.jsonPath.Some? then [PathVerdict(json, document, spec.jsonPath.value)] else [])
        + (if spec.jsonSchema.Some? then [SchemaVerdict(json, document, spec.jsonSchema.value)] else [])
  }

  function PlainVerdicts(spec: ResponseSpec, response: Response): seq<Verdict>
  {
    (if spec.status.Some? then [Definite(response.status == spec.status.value)] else [])
    + (if spec.header.Some? then [HeaderVerdict(response.headers, spec.header.value)] else [])
    + (if spec.bodyContains.Some? then [BodyVerdict(response, spec.bodyContains.value)] else [])
  }

  /** The verdicts of the declared predicates, in order. */
  function Verdicts(json: JsonLibrary, spec: ResponseSpec, response: Response): seq<Verdict>
  {
    PlainVerdicts(spec, response) + StructuredVerdicts(json, spec, response)
  }

  // ---------------------------------------------------------------------
  // What they amount to together
  // ---------------------------------------------------------------------

  /** The last verdict that is not Holds, or Holds. */
  function LastDoubt(verdicts: seq<Verdict>): Verdict
  {
    if verdicts == [] then Holds
    else if verdicts[|verdicts| - 1] != Holds then verdicts[|verdicts| - 1]
    else LastDoubt(verdicts[..|verdicts| - 1])
  }

  function Settle(verdicts: seq<Verdict>): Status
  {
    if Fails in verdicts then Failed
    else
      match LastDoubt(verdicts)
      case Unknown => Inconclusive
      case Unavailable => Blocked
      case _ => Passed
  }

  function EvaluationOf(json: JsonLibrary, spec: ResponseSpec, exchanges: map<string, Response>): Status
  {
    if spec.requestId !in exchanges then Blocked else Settle(Verdicts(json, spec, exchanges[spec.requestId]))
  }

  /** How one more verdict moves the status. */
  function Move(status: Status, verdict: Verdict): Status
  {
    match verdict
    case Holds => status
    case Fails => Failed
    case Unknown => if status == Failed then Failed else Inconclusive
    case Unavailable => if status == Failed then Failed else Blocked
  }

  lemma SettleNext(verdicts: seq<Verdict>, verdict: Verdict)
    ensures Settle(verdicts + [verdict]) == Move(Settle(verdicts), verdict)
  {
    assert (verdicts + [verdict])[..|verdicts|] == verdicts;
  }

  lemma {:induction false} LastDoubtIsThere(verdicts: seq<Verdict>)
    ensures LastDoubt(verdicts) == Holds <==> forall v :: v in verdicts ==> v == Holds
    ensures LastDoubt(verdicts) != Holds ==> LastDoubt(verdicts) in verdicts
  {
    if verdicts != [] {
      var front, last := verdicts[..|verdicts| - 1], verdicts[|verdicts| - 1];
      LastDoubtIsThere(front);
      assert verdicts == front + [last];
      if last == Holds {
        assert LastDoubt(verdicts) == LastDoubt(front);
        assert forall v :: v in verdicts <==> v in front || v == last;
      } else {
        assert last in verdicts;
        assert LastDoubt(verdicts) == last;
      }
    }
  }

  /** A response passes exactly when every declared predicate holds, and fails exactly when some
      predicate definitely does not hold, whatever could not be decided beside it. */
  lemma StatusMeans(json: JsonLibrary, spec: ResponseSpec, response: Response)
    ensures var verdicts, status := Verdicts(json, spec, response), Settle(Verdicts(json, spec, response));
            && (status == Passed <==> forall v :: v in verdicts ==> v == Holds)
            && (status == Failed <==> Fails in verdicts)
            && (status == Blocked ==> Unavailable in verdicts)
            && (status == Inconclusive ==> Unknown in verdicts)
  {
    hide Verdicts;
    LastDoubtIsThere(Verdicts(json, spec, response));
  }

  /** With a path and an expected value that were compiled and decoded before, a response is blocked
      only for want of the plan-bound schema. */
  lemma BlockedForWantOfSchema(json: JsonLibrary, spec: ResponseSpec, response: Response)
    requires spec.jsonPath.Some? ==>
               json.compilePath(spec.jsonPath.value.path).Some? && json.decode(spec.jsonPath.value.equals).Some?
    requires Settle(Verdicts(json, spec, response)) == Blocked
    ensures spec.jsonSchema.Some? && json.schemaOf(spec.jsonSchema.value).None?
  {
    hide *;
    StatusMeans(json, spec, response);
    PlainIsAvailable(spec, response);
    UnavailableIsSchema(json, spec, response);
    VerdictsAre(json, spec, response);
  }

  lemma VerdictsAre(json: JsonLibrary, spec: ResponseSpec, response: Response)
    ensures Verdicts(json, spec, response) == PlainVerdicts(spec, response) + StructuredVerdicts(json, spec, response)
  {
  }

  lemma PlainIsAvailable(spec: ResponseSpec, response: Response)
    ensures Unavailable !in PlainVerdicts(spec, response)
  {
    hide HeaderMatches, Contains;
  }

  lemma UnavailableIsSchema(json: JsonLibrary, spec: ResponseSpec, response: Response)
    requires spec.jsonPath.Some? ==>
               json.compilePath(spec.jsonPath.value.path).Some? && json.decode(spec.jsonPath.value.equals).Some?
    ensures Unavailable in StructuredVerdicts(json, spec, response) ==>
              spec.jsonSchema.Some? && json.schemaOf(spec.jsonSchema.value).None?
  {
  }

  // ---------------------------------------------------------------------
  // The status in terms of the response
  // ---------------------------------------------------------------------

  predicate StandsAt<T(==)>(s: seq<T>, part: seq<T>, i: int) { 0 <= i && i + |part| <= |s| && s[i..i + |part|] == part }

  lemma {:induction false} ContainsMeans<T>(s: seq<T>, part: seq<T>)
    ensures Contains(s, part) <==> exists i :: StandsAt(s, part, i)
  {
    if HasPrefix(s, part) {
      assert StandsAt(s, part, 0);
    } else if s != [] {
      ContainsMeans(s[1..], part);
      forall i ensures StandsAt(s, part, i) <==> StandsAt(s[1..], part, i - 1) {
        if 1 <= i && i + |part| <= |s| { assert s[1..][i - 1..i - 1 + |part|] == s[i..i + |part|]; }
      }
      if i :| StandsAt(s[1..], part, i) { assert StandsAt(s, part, i + 1); }
    }
  }

  predicate WantsDocument(spec: ResponseSpec) { spec.jsonPath.Some? || spec.jsonSchema.Some? }

  /** Every declared predicate is met by the response. */
  predicate AllMet(json: JsonLibrary, spec: ResponseSpec, response: Response)
  {
    && (spec.status.Some? ==> response.status == spec.status.value)
    && (spec.header.Some? ==>
          exists h :: h in response.headers && EqualFold(h.name, spec.header.value.name)
                   && Contains(h.value, spec.header.value.contains))
    && (spec.bodyContains.Some? ==> Contains(response.body, spec.bodyContains.value))
    && (WantsDocument(spec) ==> !response.truncated && json.decode(response.body).Some?)
    && (spec.jsonPath.Some? ==> PathFound(json, spec.jsonPath.value, response.body))
    && (spec.jsonSchema.Some? ==>
          && json.schemaOf(spec.jsonSchema.value).Some?
          && json.decode(response.body).Some?
          && json.validate(json.schemaOf(spec.jsonSchema.value).value, json.decode(response.body).value) == Satisfied)
  }

  predicate PathIsKnown(json: JsonLibrary, spec: PathPredicate)
  {
    json.compilePath(spec.path).Some? && json.decode(spec.equals).Some?
  }

  predicate PathFound(json: JsonLibrary, spec: PathPredicate, body: Bytes)
  {
    && PathIsKnown(json, spec) && json.decode(body).Some?
    && var found := json.lookup(json.compilePath(spec.path).value, json.decode(body).value);
       found.Some? && json.equal(found.value, json.decode(spec.equals).value)
  }

  /** Some declared predicate is contradicted by the response. */
  predicate SomeContradicted(json: JsonLibrary, spec: ResponseSpec, response: Response)
  {
    || (spec.status.Some? && response.status != spec.status.value)
    || (spec.header.Some? && forall h :: h in response.headers ==>
           !(EqualFold(h.name, spec.header.value.name) && Contains(h.value, spec.header.value.contains)))
    || (spec.bodyContains.Some? && !response.truncated && !Contains(response.body, spec.bodyContains.value))
    || (WantsDocument(spec) && !response.truncated && json.decode(response.body).None?)
    || (!response.truncated && json.decode(response.body).Some?
        && spec.jsonPath.Some? && PathIsKnown(json, spec.jsonPath.value)
        && !PathFound(json, spec.jsonPath.value, response.body))
    || (!response.truncated && json.decode(response.body).Some?
        && spec.jsonSchema.Some? && json.schemaOf(spec.jsonSchema.value).Some?
        && json.validate(json.schemaOf(spec.jsonSchema.value).value, json.decode(response.body).value) == NotSatisfied)
  }

  /** The schema is missing, or the path cannot be used and the schema, if any, is satisfied. */
  predicate CannotBeJudged(json: JsonLibrary, spec: ResponseSpec, response: Response)
  {
    && !response.truncated && json.decode(response.body).Some?
    && if spec.jsonSchema.Some? && json.schemaOf(spec.jsonSchema.value).None? then true
       else
         && spec.jsonPath.Some? && !PathIsKnown(json, spec.jsonPath.value)
         && (spec.jsonSchema.Some? ==>
               json.validate(json.schemaOf(spec.jsonSchema.value).value, json.decode(response.body).value) == Satisfied)
  }

  lemma PlainMeans(spec: ResponseSpec, response: Response)
    ensures var plain := PlainVerdicts(spec, response);
            && (AllHold(plain) <==>
                  && (spec.status.Some? ==> response.status == spec.status.value)
                  && (spec.header.Some? ==> exists h :: h in response.headers && HeaderMatches(h, spec.header.value))
                  && (spec.bodyContains.Some? ==> Contains(response.body, spec.bodyContains.value)))
            && (Fails in plain <==>
                  || (spec.status.Some? && response.status != spec.status.value)
                  || (spec.header.Some? && forall h :: h in response.headers ==> !HeaderMatches(h, spec.header.value))
                  || (spec.bodyContains.Some? && !response.truncated && !Contains(response.body, spec.bodyContains.value)))
            && Unavailable !in plain
  {
    hide HeaderMatches, Contains, AllHold;
    var status := if spec.status.Some? then [Definite(response.status == spec.status.value)] else [];
    var header := if spec.header.Some? then [HeaderVerdict(response.headers, spec.header.value)] else [];
    var body := if spec.bodyContains.Some? then [BodyVerdict(response, spec.bodyContains.value)] else [];
    assert PlainVerdicts(spec, response) == status + header + body;
    HoldsThrough(status, header);
    HoldsThrough(status + header, body);
    AtMostOne(status);
    AtMostOne(header);
    AtMostOne(body);
  }

  predicate AllHold(verdicts: seq<Verdict>) { forall v :: v in verdicts ==> v == Holds }

  lemma HoldsThrough(front: seq<Verdict>, back: seq<Verdict>)
    ensures AllHold(front + back) <==> AllHold(front) && AllHold(back)
  {
    assert forall v :: v in front + back <==> v in front || v in back;
  }

  lemma AtMostOne(verdicts: seq<Verdict>)
    ensures verdicts == [] ==> AllHold(verdicts)
    ensures |verdicts| == 1 ==> (AllHold(verdicts) <==> verdicts[0] == Holds)
  {
    if |verdicts| == 1 { assert verdicts[0] in verdicts && verdicts == [verdicts[0]]; }
  }

  lemma StructuredMeans(json: JsonLibrary, spec: ResponseSpec, response: Response)
    ensures var structured := StructuredVerdicts(json, spec, response);
            && (AllHold(structured) <==>
                  && (WantsDocument(spec) ==> !response.truncated && json.decode(response.body).Some?)
                  && (spec.jsonPath.Some? ==> PathFound(json, spec.jsonPath.value, response.body))
                  && (spec.jsonSchema.Some? ==>
                        && json.schemaOf(spec.jsonSchema.value).Some?
                        && json.decode(response.body).Some?
                        && json.validate(json.schemaOf(spec.jsonSchema.value).value, json.decode(response.body).value) == Satisfied))
            && (LastDoubt(structured) == Unavailable <==> CannotBeJudged(json, spec, response))
  {
    hide AllHold, LastDoubt;
    var structured := StructuredVerdicts(json, spec, response);
    AtMostOne(structured);
    if |structured| == 2 {
      assert structured == [structured[0]] + [structured[1]];
      HoldsThrough([structured[0]], [structured[1]]);
      AtMostOne([structured[0]]);
      AtMostOne([structured[1]]);
    }
    LastOfTwo(structured);
  }

  lemma StructuredFails(json: JsonLibrary, spec: ResponseSpec, response: Response)
    ensures Fails in StructuredVerdicts(json, spec, response) <==>
            || (WantsDocument(spec) && !response.truncated && json.decode(response.body).None?)
            || (!response.truncated && json.decode(response.body).Some?
                && spec.jsonPath.Some? && PathIsKnown(json, spec.jsonPath.value)
                && !PathFound(json, spec.jsonPath.value, response.body))
            || (!response.truncated && json.decode(response.body).Some?
                && spec.jsonSchema.Some? && json.schemaOf(spec.jsonSchema.value).Some?
                && json.validate(json.schemaOf(spec.jsonSchema.value).value, json.decode(response.body).value) == NotSatisfied)
  {
    var structured := StructuredVerdicts(json, spec, response);
    if |structured| == 2 { assert Fails in structured <==> structured[0] == Fails || structured[1] == Fails; }
  }

  lemma LastOfTwo(verdicts: seq<Verdict>)
    ensures verdicts == [] ==> LastDoubt(verdicts) == Holds
    ensures |verdicts| == 1 ==> LastDoubt(verdicts) == verdicts[0]
    ensures |verdicts| == 2 ==> LastDoubt(verdicts) == if verdicts[1] != Holds then verdicts[1] else verdicts[0]
  {
  }

  lemma {:induction false} LastDoubtAppend(front: seq<Verdict>, back: seq<Verdict>)
    ensures LastDoubt(front + back) == if LastDoubt(back) != Holds then LastDoubt(back) else LastDoubt(front)
  {
    if back == [] {
      assert front + back == front;
    } else {
      var n := |back| - 1;
      assert (front + back)[..|front + back| - 1] == front + back[..n];
      LastDoubtAppend(front, back[..n]);
    }
  }

  lemma SettledBy(front: seq<Verdict>, back: seq<Verdict>)
    requires Unavailable !in front
    ensures var status := Settle(front + back);
            && (status == Passed <==> AllHold(front) && AllHold(back))
            && (status == Failed <==> Fails in front || Fails in back)
            && (status == Blocked <==> Fails !in front && Fails !in back && LastDoubt(back) == Unavailable)
  {
    hide LastDoubt;
    HoldsThrough(front, back);
    LastDoubtIsThere(front + back);
    LastDoubtIsThere(front);
    LastDoubtAppend(front, back);
  }

  /** The status of a response that came, in terms of the response: passed when it meets every declared
      predicate, failed when it contradicts one, blocked when it does neither and a missing schema or
      path has the last word, inconclusive otherwise. */
  lemma StatusByResponse(json: JsonLibrary, spec: ResponseSpec, exchanges: map<string, Response>)
    ensures var status := EvaluationOf(json, spec, exchanges);
            if spec.requestId !in exchanges then status == Blocked
            else
              var response := exchanges[spec.requestId];
              && (status == Passed <==> AllMet(json, spec, response))
              && (status == Failed <==> SomeContradicted(json, spec, response))
              && (status == Blocked <==> !SomeContradicted(json, spec, response) && CannotBeJudged(json, spec, response))
  {
    if spec.requestId in exchanges {
      hide Settle, EqualFold, Contains, PlainVerdicts, StructuredVerdicts, LastDoubt, CannotBeJudged, PathFound,
           PathIsKnown, AllHold;
      var response := exchanges[spec.requestId];
      PlainMeans(spec, response);
      StructuredMeans(json, spec, response);
      StructuredFails(json, spec, response);
      SettledBy(PlainVerdicts(spec, response), StructuredVerdicts(json, spec, response));
    }
  }

  // ---------------------------------------------------------------------
  // The evaluator
  // ---------------------------------------------------------------------

  method FindHeader(headers: seq<Header>, spec: HeaderPredicate) returns (matched: bool)
    ensures Definite(matched) == HeaderVerdict(headers, spec)
  {
    hide HeaderMatches;
    for i := 0 to |headers|
      invariant forall k :: 0 <= k < i ==> !HeaderMatches(headers[k], spec)
    {
      if HeaderMatches(headers[i], spec) {
        assert headers[i] in headers;
        return true;
      }
    }
    return false;
  }

  /** The predicates that need no JSON: status, header, body. */
  method JudgePlain(spec: ResponseSpec, response: Response) returns (status: Status)
    ensures status == Settle(PlainVerdicts(spec, response))
  {
    hide Settle, HeaderVerdict, Contains;
    status := Passed;
    ghost var seen: seq<Verdict> := [];
    assert Settle(seen) == Passed by { NothingSettles(); }
    if spec.status.Some? {
      if response.status != spec.status.value { status := Failed; }
      SettleNext(seen, Definite(response.status == spec.status.value));
      seen := seen + [Definite(response.status == spec.status.value)];
    }
    if spec.header.Some? {
      var matched := FindHeader(response.headers, spec.header.value);
      if !matched { status := Failed; }
      SettleNext(seen, Definite(matched));
      seen := seen + [Definite(matched)];
    }
    if spec.bodyContains.Some? {
      var matched := Contains(response.body, spec.bodyContains.value);
      if matched {
      } else if response.truncated && status != Failed {
        status := Inconclusive;
      } else {
        status := Failed;
      }
      SettleNext(seen, BodyVerdict(response, spec.bodyContains.value));
      seen := seen + [BodyVerdict(response, spec.bodyContains.value)];
    }
    assert seen == PlainVerdicts(spec, response);
  }

  lemma NothingSettles()
    ensures Settle([]) == Passed
  {
  }

  /** The predicates on the response as a JSON document. */
  method JudgeStructured(json: JsonLibrary, spec: ResponseSpec, response: Response, before: Status, ghost seen: seq<Verdict>)
    returns (status: Status)
    requires before == Settle(seen)
    ensures status == Settle(seen + StructuredVerdicts(json, spec, response))
  {
    hide Settle, PathVerdict, SchemaVerdict;
    status := before;
    if spec.jsonPath.None? && spec.jsonSchema.None? {
      assert seen + [] == seen;
      return;
    }
    if response.truncated {
      SettleNext(seen, Unknown);
      if status != Failed { status := Inconclusive; }
      return;
    }
    var document := json.decode(response.body);
    if document == None {
      SettleNext(seen, Fails);
      status := Failed;
      return;
    }
    ghost var verdicts := seen;
    if spec.jsonPath.Some? {
      SettleNext(verdicts, PathVerdict(json, document.value, spec.jsonPath.value));
      status := JudgePath(json, document.value, spec.jsonPath.value, status);
      verdicts := verdicts + [PathVerdict(json, document.value, spec.jsonPath.value)];
    }
    if spec.jsonSchema.Some? {
      SettleNext(verdicts, SchemaVerdict(json, document.value, spec.jsonSchema.value));
      status := JudgeSchema(json, document.value, spec.jsonSchema.value, status);
      verdicts := verdicts + [SchemaVerdict(json, document.value, spec.jsonSchema.value)];
    }
    assert verdicts == seen + StructuredVerdicts(json, spec, response);
  }

  method JudgePath(json: JsonLibrary, document: Document, spec: PathPredicate, before: Status) returns (status: Status)
    ensures status == Move(before, PathVerdict(json, document, spec))
  {
    status := before;
    var path, expected := json.compilePath(spec.path), json.decode(spec.equals);
    if path == None || expected == None {
      if status != Failed { status := Blocked; }
      return;
    }
    var found := json.lookup(path.value, document);
    if found == None || !json.equal(found.value, expected.value) { status := Failed; }
  }

  method JudgeSchema(json: JsonLibrary, document: Document, ref: SchemaRef, before: Status) returns (status: Status)
    ensures status == Move(before, SchemaVerdict(json, document, ref))
  {
    status := before;
    var schema := json.schemaOf(ref);
    if schema == None {
      if status != Failed { status := Blocked; }
      return;
    }
    var outcome := json.validate(schema.value, document);
    if outcome == NotSatisfied {
      status := Failed;
    } else if outcome == NotEvaluated && status != Failed {
      status := Inconclusive;
    }
  }

  /** evaluateHTTPResponseAssertion. */
  method EvaluateResponseAssertion(json: JsonLibrary, spec: ResponseSpec, exchanges: map<string, Response>)
    returns (status: Status)
    ensures status == EvaluationOf(json, spec, exchanges)
  {
    hide Settle, PlainVerdicts, StructuredVerdicts;
    if spec.requestId !in exchanges { return Blocked; }
    var response := exchanges[spec.requestId];
    status := JudgePlain(spec, response);
    status := JudgeStructured(json, spec, response, status, PlainVerdicts(spec, response));
  }
}
