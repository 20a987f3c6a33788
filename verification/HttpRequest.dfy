/**
 One request of an HTTP journey: what a plan may ask for, the trusted form the
 driver builds from it, and the check the driver repeats before sending. The
 same plan request is turned into its trusted form twice, once while the plan is
 validated and once while it runs. Durations are in nanoseconds; parsing them,
 URLs and JSON is left to the `Library`.
 */
module HttpRequest {
  import opened Prelude
  import opened Ordering
  import opened Paths

  const MILLISECOND := 1_000_000
  const MAX_REQUEST_TIME := 1800 * 1000 * MILLISECOND
  const RUN_TIME_DEFAULT := 10 * 1000 * MILLISECOND
  const MAX_HEADERS := 64
  const MAX_HEADER_VALUE := 0x2000
  const MAX_HEADER_BYTES := 0x1_0000
  const MAX_BODY_BYTES := 0x10_0000
  const CONTENT_TYPE := "content-type"
  const JSON_CONTENT := "application/json"
  const FORBIDDEN_HEADERS: set<string> := {
    "authorization", "proxy-authorization", "cookie", "x-api-key", "host", "content-length", "transfer-encoding", "connection"}
  const METHODS: set<string> := {"GET", "HEAD", "POST", "PUT", "PATCH", "DELETE", "OPTIONS"}
  const TOKEN_MARKS := "!#$%&'*+-.^_`|~"

  /** Foreign code both passes share. */
  datatype Library = Library(
    parseDuration: string -> Option<int>, validJson: Bytes -> bool, validUrl: string -> bool,
    validId: string -> bool, sameOrigin: (string, string) -> bool)

  datatype Limits = Limits(maxBodyBytes: int, maxHeaderBytes: int, maxStepTimeout: int)

  datatype PlanRequest = PlanRequest(
    id: string, verb: string, url: string, headers: map<string, string>,
    body: Option<Bytes>, json: Option<Bytes>, timeout: string)

  datatype Header = Header(name: string, value: string)

  datatype TrustedRequest = TrustedRequest(
    id: string, verb: string, url: string, headers: seq<Header>, body: Bytes, timeout: int)

  // ---------------------------------------------------------------------
  // Text
  // ---------------------------------------------------------------------

  /** unicode.IsSpace. */
  predicate IsSpace(c: char)
  {
    || c as int in {9, 10, 11, 12, 13, 32, 0x85, 0xa0, 0x1680, 0x2028, 0x2029, 0x202f, 0x205f, 0x3000}
    || 0x2000 <= c as int <= 0x200a
  }

  function TrimSpace(s: string): string
  {
    if s != "" && IsSpace(s[0]) then TrimSpace(s[1..])
    else if s != "" && IsSpace(s[|s| - 1]) then TrimSpace(s[..|s| - 1])
    else s
  }

  /** name == strings.ToLower(strings.TrimSpace(name)). */
  predicate Canonical(name: string) { name == ToLower(TrimSpace(name)) }

  predicate ValidHeaderName(name: string)
  {
    name != "" && forall c :: c in name ==> 'a' <= c <= 'z' || '0' <= c <= '9' || c in TOKEN_MARKS
  }

  predicate PrintableAscii(value: string) { forall c :: c in value ==> ' ' <= c <= '~' }

  // ---------------------------------------------------------------------
  // Plan-time bounds on headers
  // ---------------------------------------------------------------------

  function Cost(headers: map<string, string>, name: string): nat
  {
    if name in headers then ByteLength(name) + ByteLength(headers[name]) + 4 else 0
  }

  /** What a header set weighs, in any order. */
  ghost function Weight(headers: map<string, string>): nat { SumSet(headers.Keys, name => Cost(headers, name)) }

  /** strings.EqualFold with the content type's name. */
  predicate IsContentType(name: string) { EqualFold(name, CONTENT_TYPE) }

  predicate NamesContentType(headers: map<string, string>) { exists name :: name in headers && IsContentType(name) }

  function AlphaCount(headers: map<string, string>, hasJson: bool): nat
  {
    |headers| + if hasJson && !NamesContentType(headers) then 1 else 0
  }

  ghost function AlphaWeight(headers: map<string, string>, hasJson: bool): nat
  {
    Weight(headers)
    + if hasJson && !NamesContentType(headers) then ByteLength(CONTENT_TYPE) + ByteLength(JSON_CONTENT) + 4 else 0
  }

  ghost predicate AlphaHeaders(headers: map<string, string>, hasJson: bool)
  {
    && BoundedAmong(headers, headers.Keys)
    && AlphaCount(headers, hasJson) <= MAX_HEADERS
    && AlphaWeight(headers, hasJson) <= MAX_HEADER_BYTES
  }

  lemma WeightNext(headers: map<string, string>, seen: set<string>, name: string)
    requires seen <= headers.Keys && name in headers && name !in seen
    ensures SumSet(seen + {name}, n => Cost(headers, n)) == SumSet(seen, n => Cost(headers, n)) + Cost(headers, name)
  {
    assert seen + {name} - {name} == seen;
    SumSetAny(seen + {name}, n => Cost(headers, n), name);
  }

  predicate ContentTypeAmong(names: set<string>) { exists name :: name in names && IsContentType(name) }

  predicate ValueBounded(value: string) { ByteLength(value) <= MAX_HEADER_VALUE && PrintableAscii(value) }

  predicate BoundedAmong(headers: map<string, string>, names: set<string>)
  {
    forall name :: name in names && name in headers ==> ValueBounded(headers[name])
  }

  lemma AmongNext(headers: map<string, string>, names: set<string>, name: string)
    requires name in headers
    ensures ContentTypeAmong(names + {name}) <==> ContentTypeAmong(names) || IsContentType(name)
    ensures BoundedAmong(headers, names + {name}) <==> BoundedAmong(headers, names) && ValueBounded(headers[name])
  {
    hide ValueBounded, IsContentType;
    if IsContentType(name) { assert name in names + {name}; }
    if ContentTypeAmong(names) {
      var other :| other in names && IsContentType(other);
      assert other in names + {name};
    }
    if BoundedAmong(headers, names + {name}) {
      assert forall n :: n in names ==> n in names + {name};
      assert name in names + {name};
    }
  }

  lemma NothingAmong(headers: map<string, string>)
    ensures !ContentTypeAmong({}) && BoundedAmong(headers, {})
  {
  }

  /** Ranging over the headers in any order. */
  method ScanHeaders(headers: map<string, string>) returns (bounded: bool, aggregate: nat, hasContentType: bool)
    ensures bounded <==> BoundedAmong(headers, headers.Keys)
    ensures bounded ==> aggregate == Weight(headers) && (hasContentType <==> ContentTypeAmong(headers.Keys))
  {
    hide ByteLength, IsContentType, ValueBounded, ContentTypeAmong, BoundedAmong;
    bounded, aggregate, hasContentType := true, 0, false;
    var rest := headers.Keys;
    assert headers.Keys - rest == {};
    NothingAmong(headers);
    while rest != {}
      invariant rest <= headers.Keys
      invariant aggregate == SumSet(headers.Keys - rest, name => Cost(headers, name))
      invariant hasContentType <==> ContentTypeAmong(headers.Keys - rest)
      invariant BoundedAmong(headers, headers.Keys - rest)
      decreases rest
    {
      var name :| name in rest;
      if !ValueBounded(headers[name]) {
        NotBounded(headers, name);
        return false, 0, false;
      }
      WeightNext(headers, headers.Keys - rest, name);
      AmongNext(headers, headers.Keys - rest, name);
      assert headers.Keys - (rest - {name}) == headers.Keys - rest + {name};
      aggregate := aggregate + ByteLength(name) + ByteLength(headers[name]) + 4;
      if IsContentType(name) { hasContentType := true; }
      rest := rest - {name};
    }
    assert headers.Keys - {} == headers.Keys;
  }

  /** ValidateAlphaHTTPHeaders. */
  method ValidateAlphaHTTPHeaders(headers: map<string, string>, hasJson: bool) returns (accepted: bool)
    ensures accepted <==> AlphaHeaders(headers, hasJson)
  {
    hide ByteLength, IsContentType, PrintableAscii, Weight;
    var bounded, aggregate, hasContentType := ScanHeaders(headers);
    if !bounded { return false; }
    assert hasContentType <==> NamesContentType(headers);
    hide NamesContentType, ContentTypeAmong;
    var count := |headers|;
    if hasJson && !hasContentType {
      count := count + 1;
      aggregate := aggregate + ByteLength(CONTENT_TYPE) + ByteLength(JSON_CONTENT) + 4;
    }
    return count <= MAX_HEADERS && aggregate <= MAX_HEADER_BYTES;
  }

  lemma NotBounded(headers: map<string, string>, name: string)
    requires name in headers && !ValueBounded(headers[name])
    ensures !BoundedAmong(headers, headers.Keys)
  {
    hide ValueBounded;
  }

  // ---------------------------------------------------------------------
  // The trusted form
  // ---------------------------------------------------------------------

  predicate WholeMilliseconds(t: int) { t >= MILLISECOND && t % MILLISECOND == 0 }

  /** ParseAlphaHTTPDuration; a maximum of zero or less means no upper bound. */
  function ParseDuration(lib: Library, text: string, maximum: int): Option<int>
  {
    match lib.parseDuration(text)
    case None => None
    case Some(t) => if !WholeMilliseconds(t) || (maximum > 0 && t > maximum) then None else Some(t)
  }

  function EffectiveTimeout(lib: Library, r: PlanRequest, fallback: int): Option<int>
  {
    if r.timeout != "" then ParseDuration(lib, r.timeout, MAX_REQUEST_TIME) else Some(fallback)
  }

  predicate HeaderAllowed(name: string, value: string)
  {
    && Canonical(name) && ValidHeaderName(name) && PrintableAscii(value)
    && ByteLength(value) <= MAX_HEADER_VALUE && name !in FORBIDDEN_HEADERS
  }

  /** The headers sent: a JSON body brings its own content type unless the plan names one. */
  function EffectiveHeaders(r: PlanRequest): map<string, string>
  {
    if r.json.Some? && CONTENT_TYPE !in r.headers then r.headers[CONTENT_TYPE := JSON_CONTENT] else r.headers
  }

  function BodyOf(r: PlanRequest): Bytes
  {
    if r.body.Some? then r.body.value else if r.json.Some? then r.json.value else []
  }

  function EffectiveLimit(configured: int, ceiling: int): int
  {
    if configured <= 0 || configured > ceiling then ceiling else configured
  }

  /** When trustedHTTPRequestFromPlan succeeds. */
  ghost predicate Acceptable(lib: Library, r: PlanRequest, fallback: int, limits: Limits)
  {
    && EffectiveTimeout(lib, r, fallback).Some?
    && WholeMilliseconds(EffectiveTimeout(lib, r, fallback).value)
    && EffectiveTimeout(lib, r, fallback).value <= MAX_REQUEST_TIME
    && Canonical(r.verb)
    && AlphaHeaders(r.headers, r.json.Some?)
    && (forall name :: name in r.headers ==> HeaderAllowed(name, r.headers[name]))
    && !(r.body.Some? && r.json.Some?)
    && (r.json.Some? ==> lib.validJson(r.json.value))
    && |EffectiveHeaders(r)| <= MAX_HEADERS
    && Weight(EffectiveHeaders(r)) <= EffectiveLimit(limits.maxHeaderBytes, MAX_HEADER_BYTES)
    && |BodyOf(r)| <= EffectiveLimit(limits.maxBodyBytes, MAX_BODY_BYTES)
    && lib.validUrl(r.url)
    && ToUpper(TrimSpace(r.verb)) in METHODS
  }

  function Names(headers: seq<Header>): seq<string> { seq(|headers|, i requires 0 <= i < |headers| => headers[i].name) }

  /** The list holds exactly the given headers, sorted by name. */
  ghost predicate Lists(headers: seq<Header>, m: map<string, string>)
  {
    && StrictlySorted(Names(headers), StringLess)
    && Elements(Names(headers)) == m.Keys
    && forall i :: 0 <= i < |headers| ==> headers[i].name in m && headers[i].value == m[headers[i].name]
  }

  /** `t` is the trusted form of `r`. */
  ghost predicate Renders(lib: Library, r: PlanRequest, fallback: int, t: TrustedRequest)
  {
    && t.id == r.id && t.url == r.url && t.body == BodyOf(r)
    && t.verb == ToUpper(TrimSpace(r.verb))
    && Some(t.timeout) == EffectiveTimeout(lib, r, fallback)
    && Lists(t.headers, EffectiveHeaders(r))
  }

  /** Ranging over a header map in any order: the first inadmissible header ends it. */
  method CollectHeaders(headers: map<string, string>) returns (weight: Option<nat>)
    ensures weight.Some? <==> forall name :: name in headers ==> HeaderAllowed(name, headers[name])
    ensures weight.Some? ==> weight.value == Weight(headers)
  {
    hide ByteLength, Canonical, ValidHeaderName, PrintableAscii;
    var total := 0;
    var rest := headers.Keys;
    while rest != {}
      invariant rest <= headers.Keys
      invariant total == SumSet(headers.Keys - rest, name => Cost(headers, name))
      invariant forall name :: name in headers.Keys - rest ==> HeaderAllowed(name, headers[name])
      decreases rest
    {
      var name :| name in rest;
      var value := headers[name];
      if !Canonical(name) { return None; }
      if !ValidHeaderName(name) || !PrintableAscii(value) { return None; }
      if ByteLength(value) > MAX_HEADER_VALUE { return None; }
      if name in FORBIDDEN_HEADERS { return None; }
      WeightNext(headers, headers.Keys - rest, name);
      assert headers.Keys - (rest - {name}) == headers.Keys - rest + {name};
      total := total + ByteLength(name) + ByteLength(value) + 4;
      rest := rest - {name};
    }
    assert headers.Keys - {} == headers.Keys;
    return Some(total);
  }

  method SortHeaders(m: map<string, string>) returns (headers: seq<Header>)
    ensures Lists(headers, m)
  {
    hide StringLess, StrictOrder;
    StringLessIsStrictOrder();
    var names := SortedElements(m.Keys, StringLess);
    headers := [];
    for i := 0 to |names|
      invariant |headers| == i
      invariant forall k :: 0 <= k < i ==> headers[k].name == names[k] && names[k] in m && headers[k].value == m[names[k]]
    {
      assert names[i] in Elements(names);
      headers := headers + [Header(names[i], m[names[i]])];
    }
    assert Names(headers) == names;
  }

  lemma JsonContentWeight(r: PlanRequest)
    requires r.json.Some? && CONTENT_TYPE !in r.headers
    ensures Weight(EffectiveHeaders(r)) == Weight(r.headers) + ByteLength(CONTENT_TYPE) + ByteLength(JSON_CONTENT) + 4
  {
    hide ByteLength;
    var all := EffectiveHeaders(r);
    assert all.Keys - {CONTENT_TYPE} == r.headers.Keys;
    SumSetAny(all.Keys, name => Cost(all, name), CONTENT_TYPE);
    SumSetSame(r.headers.Keys, name => Cost(all, name), name => Cost(r.headers, name));
  }

  /** trustedHTTPRequestFromPlan. */
  method TrustedRequestFromPlan(lib: Library, r: PlanRequest, fallback: int, limits: Limits)
    returns (trusted: Option<TrustedRequest>)
    ensures trusted.Some? <==> Acceptable(lib, r, fallback, limits)
    ensures trusted.Some? ==> Renders(lib, r, fallback, trusted.value)
  {
    hide ByteLength, ToLower, ToUpper, TrimSpace, HeaderAllowed, AlphaHeaders, Weight, Lists, Canonical, ParseDuration;
    var timeout := fallback;
    if r.timeout != "" {
      var parsed := ParseDuration(lib, r.timeout, MAX_REQUEST_TIME);
      if parsed == None { return None; }
      timeout := parsed.value;
    }
    if !WholeMilliseconds(timeout) || timeout > MAX_REQUEST_TIME { return None; }
    if !Canonical(r.verb) { return None; }
    var bounded := ValidateAlphaHTTPHeaders(r.headers, r.json.Some?);
    if !bounded { return None; }
    var verb := ToUpper(TrimSpace(r.verb));
    var collected := CollectHeaders(r.headers);
    if collected == None { return None; }
    var headers, total := r.headers, collected.value;
    var body: Bytes := [];
    if r.body.Some? && r.json.Some? { return None; }
    if r.body.Some? {
      body := r.body.value;
    } else if r.json.Some? {
      if !lib.validJson(r.json.value) { return None; }
      body := r.json.value;
      if CONTENT_TYPE !in headers {
        JsonContentWeight(r);
        headers := headers[CONTENT_TYPE := JSON_CONTENT];
        total := total + ByteLength(CONTENT_TYPE) + ByteLength(JSON_CONTENT) + 4;
      }
    }
    assert headers == EffectiveHeaders(r) && total == Weight(EffectiveHeaders(r)) && body == BodyOf(r);
    if |headers| > MAX_HEADERS { return None; }
    if total > EffectiveLimit(limits.maxHeaderBytes, MAX_HEADER_BYTES) { return None; }
    if |body| > EffectiveLimit(limits.maxBodyBytes, MAX_BODY_BYTES) { return None; }
    var sorted := SortHeaders(headers);
    if !lib.validUrl(r.url) { return None; }
    if verb !in METHODS { return None; }
    return Some(TrustedRequest(r.id, verb, r.url, sorted, body, timeout));
  }

  /** The order the header map is ranged over in does not show: there is one trusted form. */
  lemma TrustedFormIsUnique(lib: Library, r: PlanRequest, fallback: int, one: TrustedRequest, other: TrustedRequest)
    requires Renders(lib, r, fallback, one) && Renders(lib, r, fallback, other)
    ensures one == other
  {
    hide StringLess, StrictOrder, StrictlySorted, EffectiveHeaders, ParseDuration, ToUpper, TrimSpace;
    StringLessIsStrictOrder();
    SortedIsUnique(Names(one.headers), Names(other.headers), StringLess);
    var m := EffectiveHeaders(r);
    assert |one.headers| == |Names(one.headers)| == |other.headers|;
    forall i | 0 <= i < |one.headers| ensures one.headers[i] == other.headers[i] {
      assert Names(one.headers)[i] == Names(other.headers)[i];
    }
  }

  // ---------------------------------------------------------------------
  // The check before sending
  // ---------------------------------------------------------------------

  function HeaderCost(h: Header): nat { ByteLength(h.name) + ByteLength(h.value) + 4 }

  function ListWeight(headers: seq<Header>): nat
  {
    if headers == [] then 0 else ListWeight(headers[..|headers| - 1]) + HeaderCost(headers[|headers| - 1])
  }

  ghost predicate Sendable(lib: Library, t: TrustedRequest, limits: Limits)
  {
    && lib.validId(t.id) && t.verb in METHODS && lib.validUrl(t.url)
    && WholeMilliseconds(t.timeout) && t.timeout <= MAX_REQUEST_TIME
    && |t.headers| <= MAX_HEADERS
    && (forall h :: h in t.headers ==> HeaderAllowed(h.name, h.value))
    && Distinct(Names(t.headers))
    && ListWeight(t.headers) <= EffectiveLimit(limits.maxHeaderBytes, MAX_HEADER_BYTES)
    && |t.body| <= EffectiveLimit(limits.maxBodyBytes, MAX_BODY_BYTES)
  }

  /** The loop over the headers: each admissible, none twice; their weight. */
  method CheckHeaderList(headers: seq<Header>) returns (weight: Option<nat>)
    ensures weight.Some? <==> (forall h :: h in headers ==> HeaderAllowed(h.name, h.value)) && Distinct(Names(headers))
    ensures weight.Some? ==> weight.value == ListWeight(headers)
  {
    hide ByteLength, HeaderAllowed;
    var seen: set<string>, total := {}, 0;
    assert headers[..0] == [];
    for i := 0 to |headers|
      invariant forall k :: 0 <= k < i ==> HeaderAllowed(headers[k].name, headers[k].value)
      invariant forall j, k :: 0 <= j < k < i ==> headers[j].name != headers[k].name
      invariant seen == set k | 0 <= k < i :: headers[k].name
      invariant total == ListWeight(headers[..i])
    {
      var h := headers[i];
      assert h in headers;
      if !HeaderAllowed(h.name, h.value) { return None; }
      if h.name in seen {
        var k :| 0 <= k < i && headers[k].name == h.name;
        assert Names(headers)[k] == Names(headers)[i];
        return None;
      }
      seen := seen + {h.name};
      assert headers[..i + 1][..i] == headers[..i];
      total := total + ByteLength(h.name) + ByteLength(h.value) + 4;
    }
    assert headers[..|headers|] == headers;
    return Some(total);
  }

  /** validateTrustedHTTPRequest. */
  method ValidateTrustedRequest(lib: Library, t: TrustedRequest, limits: Limits) returns (accepted: bool)
    ensures accepted <==> Sendable(lib, t, limits)
  {
    hide HeaderAllowed, Distinct, ListWeight;
    if !lib.validId(t.id) { return false; }
    if t.verb !in METHODS { return false; }
    if !lib.validUrl(t.url) { return false; }
    if !WholeMilliseconds(t.timeout) { return false; }
    if t.timeout > MAX_REQUEST_TIME { return false; }
    if |t.headers| > MAX_HEADERS { return false; }
    var total := CheckHeaderList(t.headers);
    if total == None { return false; }
    if total.value > EffectiveLimit(limits.maxHeaderBytes, MAX_HEADER_BYTES) { return false; }
    return |t.body| <= EffectiveLimit(limits.maxBodyBytes, MAX_BODY_BYTES);
  }

  // ---------------------------------------------------------------------
  // Plan time implies run time
  // ---------------------------------------------------------------------

  lemma {:induction false} ListWeightIsSum(headers: seq<Header>, m: map<string, string>)
    requires Distinct(Names(headers))
    requires forall i :: 0 <= i < |headers| ==> headers[i].name in m && headers[i].value == m[headers[i].name]
    ensures ListWeight(headers) == SumSet(Elements(Names(headers)), name => Cost(m, name))
  {
    hide ByteLength;
    if headers != [] {
      var front, last := headers[..|headers| - 1], headers[|headers| - 1];
      var names := Names(headers);
      assert Names(front) == names[..|names| - 1];
      DropLast(names);
      hide Distinct, Elements;
      ListWeightIsSum(front, m);
      SumSetAny(Elements(names), name => Cost(m, name), last.name);
    }
  }

  lemma ListedWeight(headers: seq<Header>, m: map<string, string>)
    requires Lists(headers, m)
    ensures ListWeight(headers) == Weight(m) && |headers| == |m| && Distinct(Names(headers))
  {
    hide StringLess;
    SortedIsDistinct(Names(headers));
    ListWeightIsSum(headers, m);
    DistinctCount(Names(headers));
  }

  lemma EffectiveIsAlpha(r: PlanRequest)
    requires forall name :: name in r.headers ==> Canonical(name)
    ensures |EffectiveHeaders(r)| == AlphaCount(r.headers, r.json.Some?)
    ensures Weight(EffectiveHeaders(r)) == AlphaWeight(r.headers, r.json.Some?)
  {
    hide ByteLength, ToLower, TrimSpace, Weight;
    ContentTypeIsLower();
    assert IsContentType(CONTENT_TYPE);
    if name :| name in r.headers && IsContentType(name) {
      CanonicalIsLower(name);
      LowerContentType(name);
      assert CONTENT_TYPE in r.headers;
    } else {
      assert !NamesContentType(r.headers);
      assert CONTENT_TYPE !in r.headers;
      if r.json.Some? { JsonContentWeight(r); }
    }
  }

  lemma ContentTypeIsLower()
    ensures ToLower(CONTENT_TYPE) == CONTENT_TYPE
  {
  }

  lemma LowerTwice(s: string)
    ensures ToLower(ToLower(s)) == ToLower(s)
  {
  }

  lemma CanonicalIsLower(name: string)
    requires Canonical(name)
    ensures ToLower(name) == name
  {
    LowerTwice(TrimSpace(name));
    hide ToLower, TrimSpace;
  }

  lemma LowerContentType(name: string)
    requires ToLower(name) == name && IsContentType(name)
    ensures name == CONTENT_TYPE
  {
    assert 's' !in CONTENT_TYPE && 'k' !in CONTENT_TYPE;
    forall i | 0 <= i < |name| ensures name[i] == CONTENT_TYPE[i] {
      assert ToLower(name)[i] == Lower(name[i]) && Fold(CONTENT_TYPE[i]) == CONTENT_TYPE[i];
    }
  }

  lemma ContentTypeIsToken()
    ensures ValidHeaderName(CONTENT_TYPE)
  {
    assert '-' == TOKEN_MARKS[8];
    forall i | 0 <= i < |CONTENT_TYPE| ensures 'a' <= CONTENT_TYPE[i] <= 'z' || CONTENT_TYPE[i] == '-' { }
  }

  lemma JsonContentIsPrintable()
    ensures PrintableAscii(JSON_CONTENT) && |JSON_CONTENT| == 16
  {
    forall i | 0 <= i < |JSON_CONTENT| ensures ' ' <= JSON_CONTENT[i] <= '~' { }
  }

  lemma ContentTypeIsTrimmed()
    ensures TrimSpace(CONTENT_TYPE) == CONTENT_TYPE
  {
    assert CONTENT_TYPE[0] == 'c' && CONTENT_TYPE[|CONTENT_TYPE| - 1] == 'e';
  }

  lemma ContentTypeIsNotForbidden()
    ensures CONTENT_TYPE !in FORBIDDEN_HEADERS
  {
    assert |CONTENT_TYPE| == 12;
  }

  lemma ContentTypeAllowed()
    ensures HeaderAllowed(CONTENT_TYPE, JSON_CONTENT)
  {
    hide ByteLength, TrimSpace, ToLower, ValidHeaderName, PrintableAscii;
    ContentTypeIsLower();
    ContentTypeIsToken();
    JsonContentIsPrintable();
    ContentTypeIsTrimmed();
    ContentTypeIsNotForbidden();
    ByteLengthAtMost(JSON_CONTENT);
  }

  /** A method the code takes although it is not spelled in ASCII: with a long s, `post` is canonical
      and its capitals are POST. */
  lemma LongSPasses()
    ensures var verb := "po" + [LONG_S] + "t"; Canonical(verb) && ToUpper(TrimSpace(verb)) == "POST" && "POST" in METHODS
  {
    var verb := "po" + [LONG_S] + "t";
    assert TrimSpace(verb) == verb;
    assert ToLower(verb) == verb;
    assert ToUpper(verb) == "POST";
  }

  /** What validateHTTPPlan asks of one request step, its identifier's uniqueness aside. */
  ghost predicate PlanAccepts(lib: Library, r: PlanRequest, readinessUrl: string, limits: Limits)
  {
    var maximum := Min(limits.maxStepTimeout, MAX_REQUEST_TIME);
    && lib.validId(r.id)
    && lib.sameOrigin(readinessUrl, r.url)
    && Canonical(r.verb)
    && (forall name :: name in r.headers ==> Canonical(name))
    && ParseDuration(lib, r.timeout, maximum).Some?
    && Acceptable(lib, r, ParseDuration(lib, r.timeout, maximum).value, limits)
  }

  /** A request the plan check accepted cannot be turned away when it runs: the second conversion,
      with its different default timeout, succeeds with the same result; the result passes the
      driver's own check and the step-timeout gate; and its header count and weight are the ones the
      plan-time bound was checked against. */
  lemma PlanTimeImpliesRunTime(
      lib: Library, r: PlanRequest, readinessUrl: string, limits: Limits, planned: int, t: TrustedRequest)
    requires lib.parseDuration("") == None && limits.maxStepTimeout > 0
    requires PlanAccepts(lib, r, readinessUrl, limits)
    requires Some(planned) == ParseDuration(lib, r.timeout, Min(limits.maxStepTimeout, MAX_REQUEST_TIME))
    ensures Acceptable(lib, r, RUN_TIME_DEFAULT, limits)
    ensures Renders(lib, r, RUN_TIME_DEFAULT, t) <==> Renders(lib, r, planned, t)
    ensures Renders(lib, r, RUN_TIME_DEFAULT, t) ==>
              && Sendable(lib, t, limits)
              && t.timeout <= limits.maxStepTimeout
              && |t.headers| == AlphaCount(r.headers, r.json.Some?)
              && ListWeight(t.headers) == AlphaWeight(r.headers, r.json.Some?)
  {
    hide ByteLength, ToLower, ToUpper, TrimSpace, HeaderAllowed, AlphaHeaders, Weight, ListWeight, AlphaWeight, AlphaCount;
    assert r.timeout != "";
    EffectiveIsAlpha(r);
    if Renders(lib, r, RUN_TIME_DEFAULT, t) {
      ListedWeight(t.headers, EffectiveHeaders(r));
      ContentTypeAllowed();
      forall h | h in t.headers ensures HeaderAllowed(h.name, h.value) { }
    }
  }

  // ---------------------------------------------------------------------
  // The conditions in plain terms
  // ---------------------------------------------------------------------

  /** A name and value that may be sent: an ASCII token without capitals that is none of the names the
      driver sets itself or keeps out, and printable ASCII of at most 8192 characters. */
  predicate PlainHeader(name: string, value: string)
  {
    && name != ""
    && (forall i :: 0 <= i < |name| ==> 'a' <= name[i] <= 'z' || '0' <= name[i] <= '9' || name[i] in "!#$%&'*+-.^_`|~")
    && name !in ["authorization", "proxy-authorization", "cookie", "x-api-key", "host", "content-length",
                 "transfer-encoding", "connection"]
    && (forall i :: 0 <= i < |value| ==> ' ' <= value[i] <= '~')
    && |value| <= 8192
  }

  lemma {:induction false} AsciiLength(s: string)
    requires forall i :: 0 <= i < |s| ==> s[i] as int < 0x80
    ensures ByteLength(s) == |s|
  {
    if s != "" {
      assert forall i :: 0 <= i < |s[1..]| ==> s[1..][i] == s[i + 1];
      AsciiLength(s[1..]);
    }
  }

  lemma MarksAreAscii(c: char)
    requires c in TOKEN_MARKS
    ensures '!' <= c <= '~' && !('A' <= c <= 'Z')
  {
    var i :| 0 <= i < |TOKEN_MARKS| && TOKEN_MARKS[i] == c;
    assert |TOKEN_MARKS| == 15;
    assert TOKEN_MARKS == ['!', '#', '$', '%', '&', '\'', '*', '+', '-', '.', '^', '_', '`', '|', '~'];
  }

  lemma TokenIsLower(name: string)
    requires ValidHeaderName(name)
    ensures Canonical(name)
    ensures forall i :: 0 <= i < |name| ==> name[i] as int < 0x80
  {
    forall i | 0 <= i < |name| ensures '!' <= name[i] <= '~' && !('A' <= name[i] <= 'Z') {
      assert name[i] in name;
      if name[i] in TOKEN_MARKS { MarksAreAscii(name[i]); }
    }
    assert TrimSpace(name) == name;
    assert ToLower(name) == name;
  }

  lemma AllowedIsPlain(name: string, value: string)
    ensures HeaderAllowed(name, value) <==> PlainHeader(name, value)
  {
    hide TrimSpace, Canonical, ByteLength;
    assert ValidHeaderName(name) ==> Canonical(name) by { if ValidHeaderName(name) { TokenIsLower(name); } }
    assert ValidHeaderName(name) <==>
           name != "" && forall i :: 0 <= i < |name| ==> 'a' <= name[i] <= 'z' || '0' <= name[i] <= '9' || name[i] in TOKEN_MARKS by {
      if ValidHeaderName(name) {
        forall i | 0 <= i < |name| ensures 'a' <= name[i] <= 'z' || '0' <= name[i] <= '9' || name[i] in TOKEN_MARKS {
          assert name[i] in name;
        }
      }
    }
    assert PrintableAscii(value) <==> forall i :: 0 <= i < |value| ==> ' ' <= value[i] <= '~' by {
      if PrintableAscii(value) {
        forall i | 0 <= i < |value| ensures ' ' <= value[i] <= '~' { assert value[i] in value; }
      }
    }
    if PrintableAscii(value) { AsciiLength(value); }
    ForbiddenAre(name);
  }

  lemma ForbiddenAre(name: string)
    ensures name in FORBIDDEN_HEADERS <==>
            name in ["authorization", "proxy-authorization", "cookie", "x-api-key", "host", "content-length",
                     "transfer-encoding", "connection"]
  {
  }

  /** The headers as they go over the wire. */
  function WireForm(headers: seq<Header>): string
  {
    if headers == [] then "" else WireForm(headers[..|headers| - 1]) + Line(headers[|headers| - 1])
  }

  function Line(h: Header): string { h.name + ": " + h.value + "\r\n" }

  /** The weight that is limited is the length of the header lines. */
  lemma {:induction false} WeightIsWireLength(headers: seq<Header>)
    requires forall i :: 0 <= i < |headers| ==> PlainHeader(headers[i].name, headers[i].value)
    ensures ListWeight(headers) == |WireForm(headers)|
  {
    if headers != [] {
      var front, last := headers[..|headers| - 1], headers[|headers| - 1];
      hide PlainHeader;
      assert forall i :: 0 <= i < |front| ==> front[i] == headers[i];
      WeightIsWireLength(front);
      PlainIsAscii(last.name, last.value);
      assert |Line(last)| == |last.name| + |last.value| + 4;
    }
  }

  lemma PlainIsAscii(name: string, value: string)
    requires PlainHeader(name, value)
    ensures ByteLength(name) == |name| && ByteLength(value) == |value|
  {
    AllowedIsPlain(name, value);
    hide ByteLength;
    TokenIsLower(name);
    AsciiLength(name);
    AsciiLength(value);
  }

  /** The tighter of a configured limit and the built-in one; zero or less configures nothing. */
  predicate Within(size: int, configured: int, ceiling: int) { size <= ceiling && (configured > 0 ==> size <= configured) }

  /** From one millisecond to 1800 seconds, in whole milliseconds. */
  predicate TimeAllowed(t: int) { 1_000_000 <= t <= 1_800_000_000_000 && t % 1_000_000 == 0 }

  /** The driver's check: what may be sent, in plain terms. */
  lemma SendableMeans(lib: Library, t: TrustedRequest, limits: Limits)
    ensures Sendable(lib, t, limits) <==>
            && lib.validId(t.id) && lib.validUrl(t.url)
            && t.verb in ["GET", "HEAD", "POST", "PUT", "PATCH", "DELETE", "OPTIONS"]
            && TimeAllowed(t.timeout)
            && |t.headers| <= 64
            && (forall i :: 0 <= i < |t.headers| ==> PlainHeader(t.headers[i].name, t.headers[i].value))
            && (forall i, j :: 0 <= i < j < |t.headers| ==> t.headers[i].name != t.headers[j].name)
            && Within(|WireForm(t.headers)|, limits.maxHeaderBytes, 65536)
            && Within(|t.body|, limits.maxBodyBytes, 1048576)
  {
    hide HeaderAllowed, PlainHeader, ListWeight, WireForm;
    MethodsAre(t.verb);
    assert (forall h :: h in t.headers ==> HeaderAllowed(h.name, h.value)) <==>
           forall i :: 0 <= i < |t.headers| ==> PlainHeader(t.headers[i].name, t.headers[i].value) by {
      forall i | 0 <= i < |t.headers| ensures HeaderAllowed(t.headers[i].name, t.headers[i].value)
                                              <==> PlainHeader(t.headers[i].name, t.headers[i].value)
      {
        AllowedIsPlain(t.headers[i].name, t.headers[i].value);
        assert t.headers[i] in t.headers;
      }
    }
    assert Distinct(Names(t.headers)) <==> forall i, j :: 0 <= i < j < |t.headers| ==> t.headers[i].name != t.headers[j].name by {
      DistinctNames(t.headers);
    }
    if forall i :: 0 <= i < |t.headers| ==> PlainHeader(t.headers[i].name, t.headers[i].value) {
      WeightIsWireLength(t.headers);
    }
  }

  lemma DistinctNames(headers: seq<Header>)
    ensures Distinct(Names(headers)) <==> forall i, j :: 0 <= i < j < |headers| ==> headers[i].name != headers[j].name
  {
    var names := Names(headers);
    if Distinct(names) {
      forall i, j | 0 <= i < j < |headers| ensures headers[i].name != headers[j].name { assert names[i] != names[j]; }
    }
  }

  lemma MethodsAre(verb: string)
    ensures verb in METHODS <==> verb in ["GET", "HEAD", "POST", "PUT", "PATCH", "DELETE", "OPTIONS"]
  {
  }

  /** Letter by letter the small form of a capital; dotless i and long s count as small i and s. */
  predicate Spells(verb: string, capitals: string)
  {
    && |verb| == |capitals|
    && forall i :: 0 <= i < |verb| ==>
         || verb[i] as int == capitals[i] as int + 32
         || (capitals[i] == 'I' && verb[i] == '\U{131}')
         || (capitals[i] == 'S' && verb[i] == '\U{17F}')
  }

  lemma SmallOf(c: char, capital: char)
    requires 'A' <= capital <= 'Z'
    ensures Upper(c) == capital && Lower(c) == c <==>
            c as int == capital as int + 32 || (capital == 'I' && c == '\U{131}') || (capital == 'S' && c == '\U{17F}')
    ensures Upper(c) == capital && Lower(c) == c ==> !IsSpace(c)
  {
  }

  lemma {:induction false} TrimShortens(s: string)
    ensures |TrimSpace(s)| <= |s| && (|TrimSpace(s)| == |s| ==> TrimSpace(s) == s)
    decreases |s|
  {
    if s != "" {
      TrimShortens(s[1..]);
      TrimShortens(s[..|s| - 1]);
    }
  }

  lemma CanonicalMeans(name: string)
    ensures Canonical(name) <==> TrimSpace(name) == name && ToLower(name) == name
  {
    TrimShortens(name);
    hide TrimSpace;
  }

  lemma SpellsIff(verb: string, capitals: string)
    requires capitals != "" && forall i :: 0 <= i < |capitals| ==> 'A' <= capitals[i] <= 'Z'
    ensures Canonical(verb) && ToUpper(TrimSpace(verb)) == capitals <==> Spells(verb, capitals)
  {
    CanonicalMeans(verb);
    if Spells(verb, capitals) || (Canonical(verb) && ToUpper(TrimSpace(verb)) == capitals) {
      forall i | 0 <= i < |verb| ensures Upper(verb[i]) == capitals[i] && Lower(verb[i]) == verb[i] && !IsSpace(verb[i]) {
        SmallOf(verb[i], capitals[i]);
        assert Canonical(verb) ==> ToUpper(verb)[i] == Upper(verb[i]) && ToLower(verb)[i] == Lower(verb[i]);
      }
      assert TrimSpace(verb) == verb;
      hide TrimSpace, Canonical;
      assert ToLower(verb) == verb;
      assert ToUpper(verb) == capitals;
      forall i | 0 <= i < |verb| { SmallOf(verb[i], capitals[i]); }
    }
  }

  /** The methods a plan may ask for, as it may spell them. */
  lemma VerbsAccepted(verb: string)
    ensures Canonical(verb) && ToUpper(TrimSpace(verb)) in METHODS <==>
            exists capitals :: capitals in ["GET", "HEAD", "POST", "PUT", "PATCH", "DELETE", "OPTIONS"] && Spells(verb, capitals)
  {
    hide Canonical, ToUpper, TrimSpace, Spells;
    MethodsAre(ToUpper(TrimSpace(verb)));
    forall capitals | capitals in ["GET", "HEAD", "POST", "PUT", "PATCH", "DELETE", "OPTIONS"]
      ensures Canonical(verb) && ToUpper(TrimSpace(verb)) == capitals <==> Spells(verb, capitals)
    {
      SpellsIff(verb, capitals);
    }
  }

  lemma DurationMeans(t: int)
    ensures WholeMilliseconds(t) && t <= MAX_REQUEST_TIME <==> TimeAllowed(t)
  {
  }

  lemma WithinLimit(size: int, configured: int, ceiling: int)
    ensures size <= EffectiveLimit(configured, ceiling) <==> Within(size, configured, ceiling)
  {
  }

  /** The headers a request is sent with. */
  lemma EffectiveAre(r: PlanRequest, name: string)
    ensures name in EffectiveHeaders(r) <==> name in r.headers || (r.json.Some? && name == "content-type")
    ensures name in r.headers ==> EffectiveHeaders(r)[name] == r.headers[name]
    ensures name in EffectiveHeaders(r) && name !in r.headers ==> EffectiveHeaders(r)[name] == "application/json"
  {
  }

  /** What a plan's request has to be, in plain terms; the header lines are those of its trusted form. */
  lemma AcceptableMeans(lib: Library, r: PlanRequest, fallback: int, limits: Limits, sent: seq<Header>)
    requires Lists(sent, EffectiveHeaders(r))
    ensures Acceptable(lib, r, fallback, limits) <==>
            && (if r.timeout == "" then TimeAllowed(fallback)
                else lib.parseDuration(r.timeout).Some? && TimeAllowed(lib.parseDuration(r.timeout).value))
            && (exists capitals :: capitals in ["GET", "HEAD", "POST", "PUT", "PATCH", "DELETE", "OPTIONS"] && Spells(r.verb, capitals))
            && (forall name :: name in r.headers ==> PlainHeader(name, r.headers[name]))
            && (r.body.None? || r.json.None?)
            && (r.json.Some? ==> lib.validJson(r.json.value))
            && |sent| <= 64
            && Within(|WireForm(sent)|, limits.maxHeaderBytes, 65536)
            && Within(if r.body.Some? then |r.body.value| else if r.json.Some? then |r.json.value| else 0, limits.maxBodyBytes, 1048576)
            && lib.validUrl(r.url)
  {
    hide Lists, Canonical, ToUpper, TrimSpace, Spells, PlainHeader, HeaderAllowed, Weight, ListWeight, WireForm, EffectiveHeaders,
         AlphaHeaders, EffectiveLimit, Within, ByteLength, WholeMilliseconds, TimeAllowed;
    VerbsAccepted(r.verb);
    HeadersArePlain(r.headers);
    DurationMeans(fallback);
    if lib.parseDuration(r.timeout).Some? { DurationMeans(lib.parseDuration(r.timeout).value); }
    WithinLimit(Weight(EffectiveHeaders(r)), limits.maxHeaderBytes, 65536);
    WithinLimit(|BodyOf(r)|, limits.maxBodyBytes, 1048576);
    if forall name :: name in r.headers ==> HeaderAllowed(name, r.headers[name]) {
      EffectiveIsSent(r, sent);
      if |sent| <= 64 && Within(|WireForm(sent)|, limits.maxHeaderBytes, 65536) { LimitsAreAlpha(r, limits); }
    }
  }

  /** The plan-time bounds on headers, in numbers: a JSON body without a content type in any case of letters
      counts as one header more, of 32 bytes. */
  lemma AlphaMeans(headers: map<string, string>, hasJson: bool)
    ensures var extra := hasJson && forall name :: name in headers ==> !EqualFold(name, "content-type");
            AlphaHeaders(headers, hasJson) <==>
            && (forall name :: name in headers ==>
                  ByteLength(headers[name]) <= 8192 && forall c :: c in headers[name] ==> ' ' <= c <= '~')
            && |headers| + (if extra then 1 else 0) <= 64
            && Weight(headers) + (if extra then 32 else 0) <= 65536
  {
    JsonExtra();
    BoundedMeans(headers);
    NamesMeans(headers);
    hide BoundedAmong, NamesContentType, ByteLength, EqualFold, Weight;
  }

  lemma JsonExtra()
    ensures ByteLength(CONTENT_TYPE) + ByteLength(JSON_CONTENT) + 4 == 32
  {
    ContentTypeIsToken();
    TokenIsLower(CONTENT_TYPE);
    AsciiLength(CONTENT_TYPE);
    JsonContentIsPrintable();
    forall i | 0 <= i < |JSON_CONTENT| ensures JSON_CONTENT[i] as int < 0x80 { assert JSON_CONTENT[i] in JSON_CONTENT; }
    AsciiLength(JSON_CONTENT);
    assert |CONTENT_TYPE| == 12;
    hide ByteLength, ValidHeaderName, Canonical, PrintableAscii;
  }

  lemma BoundedMeans(headers: map<string, string>)
    ensures BoundedAmong(headers, headers.Keys) <==>
            forall name :: name in headers ==>
              ByteLength(headers[name]) <= 8192 && forall c :: c in headers[name] ==> ' ' <= c <= '~'
  {
    hide ByteLength;
  }

  lemma NamesMeans(headers: map<string, string>)
    ensures NamesContentType(headers) <==> exists name :: name in headers && EqualFold(name, "content-type")
  {
    hide EqualFold;
  }

  lemma HeadersArePlain(headers: map<string, string>)
    ensures (forall name :: name in headers ==> HeaderAllowed(name, headers[name])) <==>
            forall name :: name in headers ==> PlainHeader(name, headers[name])
  {
    hide HeaderAllowed, PlainHeader;
    forall name | name in headers ensures HeaderAllowed(name, headers[name]) <==> PlainHeader(name, headers[name]) {
      AllowedIsPlain(name, headers[name]);
    }
  }

  lemma EffectiveIsSent(r: PlanRequest, sent: seq<Header>)
    requires Lists(sent, EffectiveHeaders(r))
    requires forall name :: name in r.headers ==> HeaderAllowed(name, r.headers[name])
    ensures |sent| == |EffectiveHeaders(r)| && |WireForm(sent)| == Weight(EffectiveHeaders(r))
  {
    hide HeaderAllowed, PlainHeader, ListWeight, WireForm, Weight;
    ListedWeight(sent, EffectiveHeaders(r));
    ContentTypeAllowed();
    forall i | 0 <= i < |sent| ensures PlainHeader(sent[i].name, sent[i].value) {
      AllowedIsPlain(sent[i].name, sent[i].value);
    }
    WeightIsWireLength(sent);
  }

  /** Within the bounds on what is sent, the plan-time bounds on headers hold too. */
  lemma LimitsAreAlpha(r: PlanRequest, limits: Limits)
    requires forall name :: name in r.headers ==> HeaderAllowed(name, r.headers[name])
    requires |EffectiveHeaders(r)| <= MAX_HEADERS
    requires Weight(EffectiveHeaders(r)) <= EffectiveLimit(limits.maxHeaderBytes, MAX_HEADER_BYTES)
    ensures AlphaHeaders(r.headers, r.json.Some?)
  {
    hide Canonical, ValidHeaderName, ByteLength, Weight, AlphaWeight, AlphaCount, EffectiveHeaders;
    EffectiveIsAlpha(r);
  }

  /** What a plan's request step has to be: of the readiness probe's origin, with a timeout of its own that
      respects the runner's, and acceptable as above. */
  lemma PlanAcceptsMeans(lib: Library, r: PlanRequest, readinessUrl: string, limits: Limits)
    ensures PlanAccepts(lib, r, readinessUrl, limits) <==>
            && lib.validId(r.id) && lib.sameOrigin(readinessUrl, r.url)
            && lib.parseDuration(r.timeout).Some?
            && var t := lib.parseDuration(r.timeout).value;
               && TimeAllowed(t) && (limits.maxStepTimeout > 0 ==> t <= limits.maxStepTimeout)
               && Acceptable(lib, r, t, limits)
  {
    hide AlphaHeaders, Weight, EffectiveHeaders, BodyOf, TrimSpace, ToUpper, ToLower;
    assert forall name :: name in r.headers && HeaderAllowed(name, r.headers[name]) ==> Canonical(name);
    hide HeaderAllowed, Canonical;
  }
}
