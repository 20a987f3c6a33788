/**
 Rotating the authority that signs trust policies: single transitions signed by
 the previous authority, and bounded chains of them from an explicit root to an
 explicit terminal key. Keys, digests, signatures and JSON are foreign code,
 collected in `Foreign`; base64 and the pre-authentication encoding are not.
 */
module TrustChain {
  import opened Prelude
  import opened Base64
  import opened Dsse

  const MIN_HOPS := 2
  const MAX_HOPS := 8
  const MAX_CHAIN_BYTES := 0x4_0000
  const MAX_ENVELOPE_BYTES := 0x8000
  const MAX_PAYLOAD_BYTES := 0x4000
  const MAX_KEY_BYTES := 0x4000
  const SIGNATURE_SIZE := 64
  const MAX_GENERATION := 9007199254740991

  datatype Signature = Signature(keyId: string, sig: Bytes)
  datatype Envelope = Envelope(payloadType: Bytes, payload: Bytes, signatures: seq<Signature>)

  /** A transition payload, its constant fields checked by the decoder. */
  datatype Transition = Transition(generation: nat, previousId: string, nextId: string)

  datatype Hop = Hop(envelope: Bytes, nextSpki: Bytes)

  /** One entry of a policy document, and its signed facts. */
  datatype KeyStatus = Trusted | Revoked
  datatype PolicyKey = PolicyKey(keyId: string, status: KeyStatus)
  datatype PolicyDocument = PolicyDocument(generation: nat, keys: seq<PolicyKey>)

  /** Foreign code. Decoders stand for schema validation and canonical JSON together. */
  datatype Foreign = Foreign(
    parseKey: Bytes -> Option<Bytes>,                  // canonical PEM to DER
    digest: Bytes -> string,
    verify: (Bytes, Bytes, Bytes) -> bool,             // key, message, signature
    validKeyId: string -> bool,
    decodeTransitionEnvelope: Bytes -> Option<Envelope>,
    decodeTransition: Bytes -> Option<Transition>,
    decodeChain: Bytes -> Option<seq<Hop>>,
    encodeChain: seq<Hop> -> Option<Bytes>,
    decodePolicyEnvelope: Bytes -> Option<Envelope>,
    decodePolicy: Bytes -> Option<PolicyDocument>,
    transitionType: Bytes,
    policyType: Bytes,
    chainTag: Bytes)

  /** Bounded, non-empty, without carriage returns and without a byte-order mark. */
  predicate PlainText(raw: Bytes, maximum: nat)
  {
    0 < |raw| <= maximum && CR !in raw && !HasPrefix(raw, [0xef, 0xbb, 0xbf])
  }

  function KeyId(f: Foreign, spki: Bytes): string
    requires f.parseKey(spki).Some?
  {
    f.digest(f.parseKey(spki).value)
  }

  // ---------------------------------------------------------------------
  // One signed envelope
  // ---------------------------------------------------------------------

  /** The payload of an envelope of the given type carrying exactly one signature, by that key. */
  function Authenticated(f: Foreign, e: Envelope, payloadType: Bytes, spki: Bytes, maximum: nat): Option<Bytes>
    requires f.parseKey(spki).Some?
  {
    if e.payloadType != payloadType || |e.signatures| != 1 || e.signatures[0].keyId != KeyId(f, spki) then None
    else
      var payload, signature := DecodeBounded(e.payload, maximum), DecodeBounded(e.signatures[0].sig, SIGNATURE_SIZE);
      if payload.None? || signature.None? || |signature.value| != SIGNATURE_SIZE then None
      else if !f.verify(f.parseKey(spki).value, Pae(e.payloadType, payload.value), signature.value) then None
      else payload
  }

  /** `payload` is signed, under the encoding of exactly this type, by the key `spki`. */
  ghost predicate SignedBy(f: Foreign, spki: Bytes, payloadType: Bytes, payload: Bytes)
  {
    f.parseKey(spki).Some? && exists signature: Bytes ::
      |signature| == SIGNATURE_SIZE && f.verify(f.parseKey(spki).value, Pae(payloadType, payload), signature)
  }

  lemma AuthenticatedIsSigned(f: Foreign, e: Envelope, payloadType: Bytes, spki: Bytes, maximum: nat)
    requires f.parseKey(spki).Some? && Authenticated(f, e, payloadType, spki, maximum).Some?
    ensures SignedBy(f, spki, payloadType, Authenticated(f, e, payloadType, spki, maximum).value)
    ensures e.payload == Encode(Authenticated(f, e, payloadType, spki, maximum).value)
  {
    hide DecodeBounded, Pae, Encode;
    var payload := Authenticated(f, e, payloadType, spki, maximum).value;
    AcceptsExactlyTheCanonical(e.payload, maximum, payload);
    var signature := DecodeBounded(e.signatures[0].sig, SIGNATURE_SIZE).value;
    assert f.verify(f.parseKey(spki).value, Pae(payloadType, payload), signature);
  }

  // ---------------------------------------------------------------------
  // One transition
  // ---------------------------------------------------------------------

  /** The authoring parser: shape and value checks on a transition payload. */
  function ParseTransition(f: Foreign, payload: Bytes): Option<Transition>
  {
    if !PlainText(payload, MAX_PAYLOAD_BYTES) || f.decodeTransition(payload).None? then None
    else
      var t := f.decodeTransition(payload).value;
      if t.generation == 0 || t.generation > MAX_GENERATION || !f.validKeyId(t.previousId) || !f.validKeyId(t.nextId)
         || t.previousId == t.nextId
      then None else Some(t)
  }

  datatype VerifiedTransition = VerifiedTransition(transition: Transition, payloadDigest: string, envelopeDigest: string)

  /** VerifyOfflineTrustPolicyAuthorityTransition. */
  function VerifyTransition(f: Foreign, envelopeRaw: Bytes, previous: Bytes, next: Bytes, floor: nat): Option<VerifiedTransition>
  {
    if floor == 0 || floor > MAX_GENERATION || !PlainText(envelopeRaw, MAX_ENVELOPE_BYTES) then None
    else if f.parseKey(previous).None? || f.parseKey(next).None? || KeyId(f, previous) == KeyId(f, next) then None
    else if f.decodeTransitionEnvelope(envelopeRaw).None? then None
    else
      match Authenticated(f, f.decodeTransitionEnvelope(envelopeRaw).value, f.transitionType, previous, MAX_PAYLOAD_BYTES)
      case None => None
      case Some(payload) =>
        match ParseTransition(f, payload)
        case None => None
        case Some(t) =>
          if t.previousId != KeyId(f, previous) || t.nextId != KeyId(f, next) || t.generation < floor then None
          else Some(VerifiedTransition(t, f.digest(payload), f.digest(envelopeRaw)))
  }

  /** The previous authority has signed a transition of this generation to the next one. */
  ghost predicate Hands(f: Foreign, previous: Bytes, next: Bytes, generation: nat)
  {
    && f.parseKey(previous).Some? && f.parseKey(next).Some?
    && exists payload ::
         && SignedBy(f, previous, f.transitionType, payload)
         && ParseTransition(f, payload) == Some(Transition(generation, KeyId(f, previous), KeyId(f, next)))
  }

  lemma TransitionIsSound(f: Foreign, envelopeRaw: Bytes, previous: Bytes, next: Bytes, floor: nat, v: VerifiedTransition)
    requires VerifyTransition(f, envelopeRaw, previous, next, floor) == Some(v)
    ensures Hands(f, previous, next, v.transition.generation)
    ensures floor <= v.transition.generation <= MAX_GENERATION && KeyId(f, previous) != KeyId(f, next)
  {
    hide Authenticated, SignedBy;
    var e := f.decodeTransitionEnvelope(envelopeRaw).value;
    AuthenticatedIsSigned(f, e, f.transitionType, previous, MAX_PAYLOAD_BYTES);
  }

  // ---------------------------------------------------------------------
  // Exactly what is accepted
  // ---------------------------------------------------------------------

  /** The envelope holds the payload and one signature of it, 64 bytes long, named for and made by the
      key; both are in standard base64. */
  ghost predicate Seals(f: Foreign, e: Envelope, payloadType: Bytes, spki: Bytes, payload: Bytes, sig: Bytes)
  {
    && f.parseKey(spki).Some?
    && |sig| == 64
    && f.verify(f.parseKey(spki).value, Pae(payloadType, payload), sig)
    && e == Envelope(payloadType, Encode(payload), [Signature(f.digest(f.parseKey(spki).value), Encode(sig))])
  }

  lemma AuthenticatedIff(f: Foreign, e: Envelope, payloadType: Bytes, spki: Bytes, maximum: nat, payload: Bytes)
    requires f.parseKey(spki).Some?
    ensures Authenticated(f, e, payloadType, spki, maximum) == Some(payload) <==>
            |payload| <= maximum && exists sig :: Seals(f, e, payloadType, spki, payload, sig)
  {
    hide DecodeBounded, Pae, Encode;
    AcceptsExactlyTheCanonical(e.payload, maximum, payload);
    if Authenticated(f, e, payloadType, spki, maximum) == Some(payload) {
      var sig := DecodeBounded(e.signatures[0].sig, SIGNATURE_SIZE).value;
      AcceptsExactlyTheCanonical(e.signatures[0].sig, SIGNATURE_SIZE, sig);
      assert e.signatures == [e.signatures[0]];
      assert Seals(f, e, payloadType, spki, payload, sig);
    }
    if |payload| <= maximum {
      forall sig | Seals(f, e, payloadType, spki, payload, sig)
        ensures Authenticated(f, e, payloadType, spki, maximum) == Some(payload)
      {
        AcceptsExactlyTheCanonical(e.signatures[0].sig, SIGNATURE_SIZE, sig);
      }
    }
  }

  /** Not empty, at most so many bytes, no carriage return, no byte-order mark. */
  lemma PlainTextMeans(raw: Bytes, maximum: nat)
    ensures PlainText(raw, maximum) <==>
            && 1 <= |raw| <= maximum
            && (forall i :: 0 <= i < |raw| ==> raw[i] != 13)
            && !(|raw| >= 3 && raw[0] == 0xef && raw[1] == 0xbb && raw[2] == 0xbf)
  {
    if |raw| >= 3 { assert raw[..3] == [raw[0], raw[1], raw[2]]; }
    if PlainText(raw, maximum) {
      forall i | 0 <= i < |raw| ensures raw[i] != 13 { assert raw[i] in raw; }
    }
  }

  /** The payload is a transition of this generation between these two authorities. */
  ghost predicate Says(f: Foreign, payload: Bytes, t: Transition)
  {
    && PlainText(payload, 16384) && f.decodeTransition(payload) == Some(t)
    && 1 <= t.generation <= 9007199254740991
    && f.validKeyId(t.previousId) && f.validKeyId(t.nextId) && t.previousId != t.nextId
  }

  lemma ParseTransitionIff(f: Foreign, payload: Bytes, t: Transition)
    ensures ParseTransition(f, payload) == Some(t) <==> Says(f, payload, t)
  {
    hide PlainText;
  }

  /** The raw envelope is a transition from one key to another, sealed by the first. */
  ghost predicate Transfers(f: Foreign, envelopeRaw: Bytes, previous: Bytes, next: Bytes, t: Transition, payload: Bytes)
  {
    && PlainText(envelopeRaw, 32768)
    && f.parseKey(previous).Some? && f.parseKey(next).Some?
    && t.previousId == f.digest(f.parseKey(previous).value) && t.nextId == f.digest(f.parseKey(next).value)
    && Says(f, payload, t)
    && f.decodeTransitionEnvelope(envelopeRaw).Some?
    && exists sig :: Seals(f, f.decodeTransitionEnvelope(envelopeRaw).value, f.transitionType, previous, payload, sig)
  }

  /** A transition verifies exactly when it is one, at the floors up to its generation, and is reported
      with the digests of its payload and of the envelope. */
  lemma TransitionIff(f: Foreign, envelopeRaw: Bytes, previous: Bytes, next: Bytes, floor: nat, v: VerifiedTransition)
    ensures VerifyTransition(f, envelopeRaw, previous, next, floor) == Some(v) <==>
            && 1 <= floor <= v.transition.generation
            && v.envelopeDigest == f.digest(envelopeRaw)
            && exists payload :: Transfers(f, envelopeRaw, previous, next, v.transition, payload) && v.payloadDigest == f.digest(payload)
  {
    hide Authenticated, Seals, PlainText, ParseTransition;
    if f.parseKey(previous).Some? && f.decodeTransitionEnvelope(envelopeRaw).Some? {
      var e := f.decodeTransitionEnvelope(envelopeRaw).value;
      forall payload ensures Authenticated(f, e, f.transitionType, previous, 16384) == Some(payload) <==>
                             |payload| <= 16384 && exists sig :: Seals(f, e, f.transitionType, previous, payload, sig)
      {
        AuthenticatedIff(f, e, f.transitionType, previous, 16384, payload);
      }
      forall payload ensures ParseTransition(f, payload) == Some(v.transition) <==> Says(f, payload, v.transition) {
        ParseTransitionIff(f, payload, v.transition);
      }
      forall payload | PlainText(payload, 16384) ensures |payload| <= 16384 { PlainTextFits(payload, 16384); }
    }
  }

  // ---------------------------------------------------------------------
  // Chains
  // ---------------------------------------------------------------------

  function DecodeNonEmpty(s: Bytes, maximum: nat): Option<Bytes>
  {
    if s == [] then None
    else match DecodeBounded(s, maximum) case None => None case Some(raw) => if raw == [] then None else Some(raw)
  }

  /** What the loop carries: the keys so far, as texts and identifiers, and the last generation. */
  datatype Progress = Progress(ids: seq<string>, current: Bytes, generation: nat)

  function Advance(f: Foreign, p: Progress, hop: Hop): Option<Progress>
  {
    var envelope, next := DecodeNonEmpty(hop.envelope, MAX_ENVELOPE_BYTES), DecodeNonEmpty(hop.nextSpki, MAX_KEY_BYTES);
    if envelope.None? || next.None? || f.parseKey(next.value).None? then None
    else if KeyId(f, next.value) in p.ids then None
    else
      match VerifyTransition(f, envelope.value, p.current, next.value, 1)
      case None => None
      case Some(v) =>
        if v.transition.generation <= p.generation then None
        else Some(Progress(p.ids + [KeyId(f, next.value)], next.value, v.transition.generation))
  }

  /** Where the loop stands after the first `n` hops. */
  function Walk(f: Foreign, root: Bytes, hops: seq<Hop>, n: nat): Option<Progress>
    requires f.parseKey(root).Some? && n <= |hops|
  {
    if n == 0 then Some(Progress([KeyId(f, root)], root, 0))
    else
      match Walk(f, root, hops, n - 1)
      case None => None
      case Some(p) => Advance(f, p, hops[n - 1])
  }

  datatype VerifiedChain = VerifiedChain(
    rootId: string, terminalId: string, terminalGeneration: nat, hopCount: nat, digest: string, authorityIds: seq<string>)

  function VerifyChain(f: Foreign, raw: Bytes, root: Bytes, terminal: Bytes, floor: nat): Option<VerifiedChain>
  {
    if floor == 0 || floor > MAX_GENERATION || !PlainText(raw, MAX_CHAIN_BYTES) || f.decodeChain(raw).None? then None
    else
      var hops := f.decodeChain(raw).value;
      if !(MIN_HOPS <= |hops| <= MAX_HOPS) || f.parseKey(root).None? || f.parseKey(terminal).None? then None
      else if KeyId(f, root) == KeyId(f, terminal) then None
      else
        match Walk(f, root, hops, |hops|)
        case None => None
        case Some(p) =>
          if p.generation < floor || p.current != terminal then None
          else Some(VerifiedChain(KeyId(f, root), KeyId(f, terminal), p.generation, |hops|,
                                  f.digest(f.chainTag + raw), p.ids))
  }

  lemma {:induction false} PrefixWalks(f: Foreign, root: Bytes, hops: seq<Hop>, i: nat, n: nat)
    requires f.parseKey(root).Some? && i <= n <= |hops| && Walk(f, root, hops, i).None?
    ensures Walk(f, root, hops, n).None?
  {
    hide Advance;
    if i < n { PrefixWalks(f, root, hops, i, n - 1); }
  }

  /** VerifyOfflineTrustPolicyAuthorityTransitionChain. */
  method VerifyTransitionChain(f: Foreign, raw: Bytes, root: Bytes, terminal: Bytes, floor: nat)
    returns (verified: Option<VerifiedChain>)
    ensures verified == VerifyChain(f, raw, root, terminal, floor)
  {
    hide PlainText, DecodeNonEmpty, VerifyTransition;
    if floor == 0 || floor > MAX_GENERATION || !PlainText(raw, MAX_CHAIN_BYTES) { return None; }
    var chain := f.decodeChain(raw);
    if chain == None { return None; }
    var hops := chain.value;
    if |hops| < MIN_HOPS || |hops| > MAX_HOPS { return None; }
    if f.parseKey(root) == None || f.parseKey(terminal) == None { return None; }
    var rootId, terminalId := KeyId(f, root), KeyId(f, terminal);
    if rootId == terminalId { return None; }

    var seen: set<string>, authorityKeyIds := {rootId}, [rootId];
    var currentSpki, previousGeneration := root, 0;
    for i := 0 to |hops|
      invariant previousGeneration >= 0
      invariant seen == Elements(authorityKeyIds)
      invariant Walk(f, root, hops, i) == Some(Progress(authorityKeyIds, currentSpki, previousGeneration))
    {
      if Walk(f, root, hops, i + 1) == None { PrefixWalks(f, root, hops, i + 1, |hops|); }
      var envelope := DecodeNonEmpty(hops[i].envelope, MAX_ENVELOPE_BYTES);
      if envelope == None { return None; }
      var next := DecodeNonEmpty(hops[i].nextSpki, MAX_KEY_BYTES);
      if next == None { return None; }
      if f.parseKey(next.value) == None { return None; }
      var nextId := KeyId(f, next.value);
      if nextId in seen { return None; }
      var v := VerifyTransition(f, envelope.value, currentSpki, next.value, 1);
      if v == None || v.value.transition.generation <= previousGeneration { return None; }
      seen := seen + {nextId};
      authorityKeyIds := authorityKeyIds + [nextId];
      currentSpki, previousGeneration := next.value, v.value.transition.generation;
    }
    if previousGeneration < floor || currentSpki != terminal { return None; }
    return Some(VerifiedChain(rootId, terminalId, previousGeneration, |hops|, f.digest(f.chainTag + raw), authorityKeyIds));
  }

  // ---------------------------------------------------------------------
  // What an accepted chain proves
  // ---------------------------------------------------------------------

  /** Keys and generations along which authority was handed over, one signature per hop. */
  ghost predicate HandedAlong(f: Foreign, keys: seq<Bytes>, generations: seq<nat>)
  {
    && |keys| == |generations| + 1
    && (forall i :: 0 <= i < |keys| ==> f.parseKey(keys[i]).Some?)
    && (forall i :: 0 <= i < |generations| ==> Hands(f, keys[i], keys[i + 1], generations[i]))
    && (forall i :: 0 <= i < |generations| ==> i < generations[i] <= MAX_GENERATION)
    && (forall i, j :: 0 <= i < j < |generations| ==> generations[i] < generations[j])
  }

  function IdsOf(f: Foreign, keys: seq<Bytes>): seq<string>
    requires forall i :: 0 <= i < |keys| ==> f.parseKey(keys[i]).Some?
  {
    seq(|keys|, i requires 0 <= i < |keys| => KeyId(f, keys[i]))
  }

  lemma AdvanceIsSound(f: Foreign, p: Progress, hop: Hop, next: Progress)
    requires Advance(f, p, hop) == Some(next)
    ensures f.parseKey(p.current).Some? && f.parseKey(next.current).Some?
    ensures Hands(f, p.current, next.current, next.generation)
    ensures p.generation < next.generation <= MAX_GENERATION
    ensures next.ids == p.ids + [KeyId(f, next.current)] && KeyId(f, next.current) !in p.ids
  {
    hide VerifyTransition, Hands, DecodeNonEmpty;
    var envelope, spki := DecodeNonEmpty(hop.envelope, MAX_ENVELOPE_BYTES).value, DecodeNonEmpty(hop.nextSpki, MAX_KEY_BYTES).value;
    TransitionIsSound(f, envelope, p.current, spki, 1, VerifyTransition(f, envelope, p.current, spki, 1).value);
    assert Hands(f, p.current, spki, next.generation);
    HandsNeedsKeys(f, p.current, spki, next.generation);
  }

  lemma HandsNeedsKeys(f: Foreign, previous: Bytes, next: Bytes, generation: nat)
    requires Hands(f, previous, next, generation)
    ensures f.parseKey(previous).Some? && f.parseKey(next).Some?
  {
  }

  lemma {:induction false} WalkIsSound(f: Foreign, root: Bytes, hops: seq<Hop>, n: nat, p: Progress)
    returns (keys: seq<Bytes>, generations: seq<nat>)
    requires f.parseKey(root).Some? && n <= |hops| && Walk(f, root, hops, n) == Some(p)
    ensures HandedAlong(f, keys, generations) && |generations| == n
    ensures keys[0] == root && keys[n] == p.current
    ensures p.generation == if n == 0 then 0 else generations[n - 1]
    ensures p.ids == IdsOf(f, keys) && Distinct(p.ids)
  {
    hide Hands, Advance;
    if n == 0 {
      keys, generations := [root], [];
    } else {
      var before := Walk(f, root, hops, n - 1).value;
      var front, earlier := WalkIsSound(f, root, hops, n - 1, before);
      AdvanceIsSound(f, before, hops[n - 1], p);
      keys, generations := front + [p.current], earlier + [p.generation];
      assert IdsOf(f, keys) == IdsOf(f, front) + [KeyId(f, p.current)];
    }
  }

  /** An accepted chain leads, signature by signature, from the explicit root to the explicit terminal
      key: every hop is signed by the authority before it and names the one after it, no authority
      occurs twice, the generations grow strictly, so that the last is at least the number of hops, and
      it meets the floor. */
  lemma ChainIsSound(f: Foreign, raw: Bytes, root: Bytes, terminal: Bytes, floor: nat, v: VerifiedChain)
    returns (keys: seq<Bytes>, generations: seq<nat>)
    requires VerifyChain(f, raw, root, terminal, floor) == Some(v)
    ensures HandedAlong(f, keys, generations)
    ensures MIN_HOPS <= |generations| == v.hopCount <= MAX_HOPS
    ensures keys[0] == root && keys[v.hopCount] == terminal
    ensures v.authorityIds == IdsOf(f, keys) && Distinct(v.authorityIds)
    ensures v.authorityIds[0] == v.rootId && v.authorityIds[v.hopCount] == v.terminalId
    ensures v.terminalGeneration == generations[v.hopCount - 1]
    ensures v.hopCount <= v.terminalGeneration && 1 <= floor <= v.terminalGeneration <= MAX_GENERATION
  {
    hide Hands, Walk, PlainText;
    var hops := f.decodeChain(raw).value;
    keys, generations := WalkIsSound(f, root, hops, |hops|, Walk(f, root, hops, |hops|).value);
  }

  // ---------------------------------------------------------------------
  // Building
  // ---------------------------------------------------------------------

  predicate SizesFit(envelopes: seq<Bytes>, spkis: seq<Bytes>)
  {
    && MIN_HOPS <= |envelopes| <= MAX_HOPS && |envelopes| == |spkis|
    && (forall i :: 0 <= i < |envelopes| ==> 0 < |envelopes[i]| <= MAX_ENVELOPE_BYTES)
    && (forall i :: 0 <= i < |spkis| ==> 0 < |spkis[i]| <= MAX_KEY_BYTES)
  }

  function Transport(envelopes: seq<Bytes>, spkis: seq<Bytes>): seq<Hop>
    requires |envelopes| == |spkis|
  {
    seq(|envelopes|, i requires 0 <= i < |envelopes| => Hop(Encode(envelopes[i]), Encode(spkis[i])))
  }

  /** What BuildOfflineTrustPolicyAuthorityTransitionChain returns. */
  function Build(f: Foreign, envelopes: seq<Bytes>, spkis: seq<Bytes>, root: Bytes): Option<Bytes>
  {
    if !SizesFit(envelopes, spkis) then None
    else
      match f.encodeChain(Transport(envelopes, spkis))
      case None => None
      case Some(raw) =>
        if |raw| > MAX_CHAIN_BYTES || VerifyChain(f, raw, root, spkis[|spkis| - 1], 1).None? then None else Some(raw)
  }

  /** BuildOfflineTrustPolicyAuthorityTransitionChain. */
  method BuildTransitionChain(f: Foreign, envelopes: seq<Bytes>, spkis: seq<Bytes>, root: Bytes) returns (raw: Option<Bytes>)
    ensures raw == Build(f, envelopes, spkis, root)
  {
    hide Encode, VerifyChain;
    if |envelopes| < MIN_HOPS || |envelopes| > MAX_HOPS || |envelopes| != |spkis| { return None; }
    var hops: seq<Hop> := [];
    for i := 0 to |envelopes|
      invariant |hops| == i
      invariant forall k :: 0 <= k < i ==> 0 < |envelopes[k]| <= MAX_ENVELOPE_BYTES && 0 < |spkis[k]| <= MAX_KEY_BYTES
      invariant forall k :: 0 <= k < i ==> hops[k] == Hop(Encode(envelopes[k]), Encode(spkis[k]))
    {
      if envelopes[i] == [] || |envelopes[i]| > MAX_ENVELOPE_BYTES || spkis[i] == [] || |spkis[i]| > MAX_KEY_BYTES {
        return None;
      }
      hops := hops + [Hop(Encode(envelopes[i]), Encode(spkis[i]))];
    }
    assert hops == Transport(envelopes, spkis);
    var encoded := f.encodeChain(hops);
    if encoded == None || |encoded.value| > MAX_CHAIN_BYTES { return None; }
    var verified := VerifyTransitionChain(f, encoded.value, root, spkis[|spkis| - 1], 1);
    if verified == None { return None; }
    return encoded;
  }

  /** A chain that was built verifies at exactly the floors from one to its terminal generation, and
      always with the same facts. */
  lemma BuiltChainVerifiesAtFloors(
      f: Foreign, envelopes: seq<Bytes>, spkis: seq<Bytes>, root: Bytes, raw: Bytes, floor: nat)
    requires Build(f, envelopes, spkis, root) == Some(raw)
    ensures var terminal := spkis[|spkis| - 1];
            && VerifyChain(f, raw, root, terminal, 1).Some?
            && (VerifyChain(f, raw, root, terminal, floor).Some? <==>
                  1 <= floor <= VerifyChain(f, raw, root, terminal, 1).value.terminalGeneration)
            && (VerifyChain(f, raw, root, terminal, floor).Some? ==>
                  VerifyChain(f, raw, root, terminal, floor) == VerifyChain(f, raw, root, terminal, 1))
  {
    hide Walk, PlainText, Hands, Encode;
    var terminal := spkis[|spkis| - 1];
    var keys, generations := ChainIsSound(f, raw, root, terminal, 1, VerifyChain(f, raw, root, terminal, 1).value);
  }

  /** The hops of a transport, decoded again. */
  lemma TransportDecodes(envelopes: seq<Bytes>, spkis: seq<Bytes>, i: nat)
    requires SizesFit(envelopes, spkis) && i < |envelopes|
    ensures DecodeNonEmpty(Transport(envelopes, spkis)[i].envelope, MAX_ENVELOPE_BYTES) == Some(envelopes[i])
    ensures DecodeNonEmpty(Transport(envelopes, spkis)[i].nextSpki, MAX_KEY_BYTES) == Some(spkis[i])
  {
    hide Encode, DecodeBounded;
    AcceptsExactlyTheCanonical(Encode(envelopes[i]), MAX_ENVELOPE_BYTES, envelopes[i]);
    AcceptsExactlyTheCanonical(Encode(spkis[i]), MAX_KEY_BYTES, spkis[i]);
    EncodeLength(envelopes[i]);
    EncodeLength(spkis[i]);
  }

  /** The keys along which a chain of these parts hands over authority. */
  function KeysOf(root: Bytes, spkis: seq<Bytes>): seq<Bytes> { [root] + spkis }

  /** The generation of the transition between two neighbours; zero when it does not verify. */
  function GenerationAt(f: Foreign, root: Bytes, envelopes: seq<Bytes>, spkis: seq<Bytes>, i: nat): nat
    requires |envelopes| == |spkis| && i < |envelopes|
  {
    match VerifyTransition(f, envelopes[i], KeysOf(root, spkis)[i], spkis[i], 1)
    case None => 0
    case Some(v) => v.transition.generation
  }

  /** What the first `n` hops must satisfy to form a chain, said without the loop: keys that parse and
      differ from each other, transitions that verify between neighbours, growing generations. */
  ghost predicate Chainable(f: Foreign, root: Bytes, envelopes: seq<Bytes>, spkis: seq<Bytes>, n: nat)
    requires |envelopes| == |spkis| && n <= |envelopes|
  {
    var keys := KeysOf(root, spkis);
    && (forall i :: 0 <= i <= n ==> f.parseKey(keys[i]).Some?)
    && (forall i, j :: 0 <= i < j <= n ==> KeyId(f, keys[i]) != KeyId(f, keys[j]))
    && (forall i :: 0 <= i < n ==> VerifyTransition(f, envelopes[i], keys[i], spkis[i], 1).Some?)
    && (forall i :: 0 < i < n ==> GenerationAt(f, root, envelopes, spkis, i - 1) < GenerationAt(f, root, envelopes, spkis, i))
  }

  /** A walk over the first `n` hops of a transport succeeds exactly when they chain, and stands where
      they lead. */
  ghost predicate WalkedAs(
      f: Foreign, root: Bytes, envelopes: seq<Bytes>, spkis: seq<Bytes>, n: nat, walked: Option<Progress>)
    requires |envelopes| == |spkis| && n <= |envelopes|
  {
    && (walked.Some? <==> Chainable(f, root, envelopes, spkis, n))
    && (walked.Some? ==> walked.value.current == KeysOf(root, spkis)[n]
                         && walked.value.ids == IdsOf(f, KeysOf(root, spkis)[..n + 1])
                         && walked.value.generation
                            == if n == 0 then 0 else GenerationAt(f, root, envelopes, spkis, n - 1))
  }

  lemma {:induction false} WalksIffChainable(f: Foreign, root: Bytes, envelopes: seq<Bytes>, spkis: seq<Bytes>, n: nat)
    requires |envelopes| == |spkis| && SizesFit(envelopes, spkis)
    requires f.parseKey(root).Some? && n <= |envelopes|
    ensures |Transport(envelopes, spkis)| == |envelopes|
    ensures WalkedAs(f, root, envelopes, spkis, n, Walk(f, root, Transport(envelopes, spkis), n))
    decreases n
  {
    hide *;
    TransportLength(envelopes, spkis);
    WalkUnfolds(f, root, Transport(envelopes, spkis), n);
    if n == 0 {
      NothingWalked(f, root, envelopes, spkis);
    } else {
      WalksIffChainable(f, root, envelopes, spkis, n - 1);
      TransportStep(f, root, envelopes, spkis, n);
    }
  }

  lemma TransportStep(f: Foreign, root: Bytes, envelopes: seq<Bytes>, spkis: seq<Bytes>, n: nat)
    requires |envelopes| == |spkis| && SizesFit(envelopes, spkis)
    requires f.parseKey(root).Some? && 0 < n <= |envelopes|
    requires |Transport(envelopes, spkis)| == |envelopes|
    requires WalkedAs(f, root, envelopes, spkis, n - 1, Walk(f, root, Transport(envelopes, spkis), n - 1))
    ensures WalkedAs(f, root, envelopes, spkis, n, Walk(f, root, Transport(envelopes, spkis), n))
  {
    hide *;
    var hops := Transport(envelopes, spkis);
    WalkUnfolds(f, root, hops, n);
    TransportDecodes(envelopes, spkis, n - 1);
    StepWalked(f, root, envelopes, spkis, n, Walk(f, root, hops, n - 1), hops[n - 1]);
  }

  lemma WalkUnfolds(f: Foreign, root: Bytes, hops: seq<Hop>, n: nat)
    requires f.parseKey(root).Some? && n <= |hops|
    ensures n == 0 ==> Walk(f, root, hops, n) == Some(Progress([KeyId(f, root)], root, 0))
    ensures n > 0 ==>
              var before := Walk(f, root, hops, n - 1);
              Walk(f, root, hops, n) == if before.None? then None else Advance(f, before.value, hops[n - 1])
  {
    hide Advance, KeyId;
  }

  lemma NothingWalked(f: Foreign, root: Bytes, envelopes: seq<Bytes>, spkis: seq<Bytes>)
    requires |envelopes| == |spkis| && f.parseKey(root).Some?
    ensures WalkedAs(f, root, envelopes, spkis, 0, Some(Progress([KeyId(f, root)], root, 0)))
  {
    hide Chainable, IdsOf, KeysOf, GenerationAt;
    NothingChained(f, root, envelopes, spkis);
  }

  lemma StepWalked(
      f: Foreign, root: Bytes, envelopes: seq<Bytes>, spkis: seq<Bytes>, n: nat, before: Option<Progress>, hop: Hop)
    requires |envelopes| == |spkis| && 0 < n <= |envelopes|
    requires WalkedAs(f, root, envelopes, spkis, n - 1, before)
    requires DecodeNonEmpty(hop.envelope, MAX_ENVELOPE_BYTES) == Some(envelopes[n - 1])
    requires DecodeNonEmpty(hop.nextSpki, MAX_KEY_BYTES) == Some(spkis[n - 1])
    ensures WalkedAs(f, root, envelopes, spkis, n, if before.None? then None else Advance(f, before.value, hop))
  {
    hide DecodeNonEmpty, Advance, Chainable, GenerationAt, IdsOf, KeysOf;
    ChainableNext(f, root, envelopes, spkis, n);
    if before.Some? {
      hide Linked;
      StepIffLinked(f, root, envelopes, spkis, n, before.value, hop);
    }
  }

  lemma NothingChained(f: Foreign, root: Bytes, envelopes: seq<Bytes>, spkis: seq<Bytes>)
    requires |envelopes| == |spkis| && f.parseKey(root).Some?
    ensures Chainable(f, root, envelopes, spkis, 0)
    ensures KeysOf(root, spkis)[0] == root && IdsOf(f, KeysOf(root, spkis)[..1]) == [KeyId(f, root)]
  {
    assert KeysOf(root, spkis)[..1] == [root];
  }

  lemma TransitionGenerationIsPositive(f: Foreign, envelope: Bytes, previous: Bytes, next: Bytes)
    ensures VerifyTransition(f, envelope, previous, next, 1).Some? ==>
              VerifyTransition(f, envelope, previous, next, 1).value.transition.generation > 0
  {
    hide Authenticated;
  }

  /** What the last of `n` hops adds. */
  ghost predicate Linked(f: Foreign, root: Bytes, envelopes: seq<Bytes>, spkis: seq<Bytes>, n: nat)
    requires |envelopes| == |spkis| && 0 < n <= |envelopes|
    requires forall i :: 0 <= i < n ==> f.parseKey(KeysOf(root, spkis)[i]).Some?
  {
    var keys := KeysOf(root, spkis);
    && f.parseKey(keys[n]).Some?
    && KeyId(f, keys[n]) !in IdsOf(f, keys[..n])
    && VerifyTransition(f, envelopes[n - 1], keys[n - 1], spkis[n - 1], 1).Some?
    && (n > 1 ==> GenerationAt(f, root, envelopes, spkis, n - 2) < GenerationAt(f, root, envelopes, spkis, n - 1))
  }

  lemma ChainableNext(f: Foreign, root: Bytes, envelopes: seq<Bytes>, spkis: seq<Bytes>, n: nat)
    requires |envelopes| == |spkis| && 0 < n <= |envelopes|
    ensures Chainable(f, root, envelopes, spkis, n) <==>
            Chainable(f, root, envelopes, spkis, n - 1) && Linked(f, root, envelopes, spkis, n)
  {
    hide VerifyTransition, GenerationAt, KeyId, IdsOf;
    var keys := KeysOf(root, spkis);
    if forall i :: 0 <= i <= n ==> f.parseKey(keys[i]).Some? {
      FreshIff(f, keys, n);
    }
  }

  lemma StepIffLinked(
      f: Foreign, root: Bytes, envelopes: seq<Bytes>, spkis: seq<Bytes>, n: nat, before: Progress, hop: Hop)
    requires |envelopes| == |spkis| && 0 < n <= |envelopes|
    requires Chainable(f, root, envelopes, spkis, n - 1)
    requires DecodeNonEmpty(hop.envelope, MAX_ENVELOPE_BYTES) == Some(envelopes[n - 1])
    requires DecodeNonEmpty(hop.nextSpki, MAX_KEY_BYTES) == Some(spkis[n - 1])
    requires before.current == KeysOf(root, spkis)[n - 1]
    requires before.ids == IdsOf(f, KeysOf(root, spkis)[..n])
    requires before.generation == if n == 1 then 0 else GenerationAt(f, root, envelopes, spkis, n - 2)
    ensures var next := Advance(f, before, hop);
            && (next.Some? <==> Linked(f, root, envelopes, spkis, n))
            && (next.Some? ==> next.value.current == KeysOf(root, spkis)[n]
                               && next.value.ids == IdsOf(f, KeysOf(root, spkis)[..n + 1])
                               && next.value.generation == GenerationAt(f, root, envelopes, spkis, n - 1))
  {
    assert forall i :: 0 <= i < n ==> f.parseKey(KeysOf(root, spkis)[i]).Some?;
    hide DecodeNonEmpty, VerifyTransition, Chainable, KeyId;
    var keys := KeysOf(root, spkis);
    assert keys[n] == spkis[n - 1];
    TransitionGenerationIsPositive(f, envelopes[n - 1], keys[n - 1], spkis[n - 1]);
    assert |keys| == |spkis| + 1 && f.parseKey(keys[n - 1]).Some?;
    hide KeysOf;
    if f.parseKey(spkis[n - 1]).Some? {
      IdsNext(f, keys, n);
      hide IdsOf;
      var v := VerifyTransition(f, envelopes[n - 1], before.current, spkis[n - 1], 1);
      if v.Some? { assert v.value.transition.generation == GenerationAt(f, root, envelopes, spkis, n - 1); }
    }
  }

  lemma IdsNext(f: Foreign, keys: seq<Bytes>, n: nat)
    requires n < |keys| && forall i :: 0 <= i <= n ==> f.parseKey(keys[i]).Some?
    ensures IdsOf(f, keys[..n + 1]) == IdsOf(f, keys[..n]) + [KeyId(f, keys[n])]
  {
    hide KeyId;
  }

  lemma FreshIff(f: Foreign, keys: seq<Bytes>, n: nat)
    requires n < |keys| && forall i :: 0 <= i <= n ==> f.parseKey(keys[i]).Some?
    ensures KeyId(f, keys[n]) in IdsOf(f, keys[..n]) <==> exists i :: 0 <= i < n && KeyId(f, keys[i]) == KeyId(f, keys[n])
  {
    hide KeyId;
    if KeyId(f, keys[n]) in IdsOf(f, keys[..n]) {
      var i :| 0 <= i < n && IdsOf(f, keys[..n])[i] == KeyId(f, keys[n]);
      assert keys[..n][i] == keys[i];
    }
    if i :| 0 <= i < n && KeyId(f, keys[i]) == KeyId(f, keys[n]) {
      assert IdsOf(f, keys[..n])[i] == KeyId(f, keys[i]);
    }
  }

  lemma NonEmptyDecodes(s: Bytes, maximum: nat, raw: Bytes)
    requires DecodeNonEmpty(s, maximum) == Some(raw)
    ensures s == Encode(raw) && 1 <= |raw| <= maximum
  {
    AcceptsExactlyTheCanonical(s, maximum, raw);
    hide DecodeBounded, Encode;
  }

  lemma AdvanceDecodes(f: Foreign, p: Progress, hop: Hop) returns (envelope: Bytes, next: Bytes)
    requires Advance(f, p, hop).Some?
    ensures hop == Hop(Encode(envelope), Encode(next)) && 1 <= |envelope| <= 32768 && 1 <= |next| <= 16384
  {
    hide DecodeNonEmpty, VerifyTransition;
    envelope, next := DecodeNonEmpty(hop.envelope, MAX_ENVELOPE_BYTES).value, DecodeNonEmpty(hop.nextSpki, MAX_KEY_BYTES).value;
    NonEmptyDecodes(hop.envelope, MAX_ENVELOPE_BYTES, envelope);
    NonEmptyDecodes(hop.nextSpki, MAX_KEY_BYTES, next);
  }

  /** The hops walked are the standard encodings of the parts they hold. */
  lemma {:induction false} WalkDecodes(f: Foreign, root: Bytes, hops: seq<Hop>, n: nat)
    returns (envelopes: seq<Bytes>, spkis: seq<Bytes>)
    requires f.parseKey(root).Some? && n <= |hops| && Walk(f, root, hops, n).Some?
    ensures |envelopes| == |spkis| == n && hops[..n] == Transport(envelopes, spkis)
    ensures forall i :: 0 <= i < n ==> 1 <= |envelopes[i]| <= 32768 && 1 <= |spkis[i]| <= 16384
  {
    hide *;
    WalkUnfolds(f, root, hops, n);
    if n == 0 {
      envelopes, spkis := [], [];
      TransportLength(envelopes, spkis);
      assert Transport(envelopes, spkis) == [];
    } else {
      var front, behind := WalkDecodes(f, root, hops, n - 1);
      var envelope, next := AdvanceDecodes(f, Walk(f, root, hops, n - 1).value, hops[n - 1]);
      envelopes, spkis := front + [envelope], behind + [next];
      assert hops[..n] == hops[..n - 1] + [hops[n - 1]];
      TransportAppend(front, behind, envelope, next);
    }
  }

  lemma TransportAppend(envelopes: seq<Bytes>, spkis: seq<Bytes>, envelope: Bytes, next: Bytes)
    requires |envelopes| == |spkis|
    ensures Transport(envelopes + [envelope], spkis + [next]) == Transport(envelopes, spkis) + [Hop(Encode(envelope), Encode(next))]
  {
    hide Encode;
  }

  /** The raw chain is the transport of two to eight transitions that chain from the root to the terminal key. */
  ghost predicate Chained(f: Foreign, raw: Bytes, root: Bytes, terminal: Bytes, envelopes: seq<Bytes>, spkis: seq<Bytes>)
  {
    && PlainText(raw, 262144)
    && 2 <= |envelopes| == |spkis| <= 8
    && (forall i :: 0 <= i < |envelopes| ==> 1 <= |envelopes[i]| <= 32768 && 1 <= |spkis[i]| <= 16384)
    && f.decodeChain(raw) == Some(Transport(envelopes, spkis))
    && Chainable(f, root, envelopes, spkis, |envelopes|)
    && spkis[|spkis| - 1] == terminal
  }

  lemma ChainedEnds(f: Foreign, raw: Bytes, root: Bytes, terminal: Bytes, envelopes: seq<Bytes>, spkis: seq<Bytes>)
    requires Chained(f, raw, root, terminal, envelopes, spkis)
    ensures SizesFit(envelopes, spkis) && |Transport(envelopes, spkis)| == |envelopes|
    ensures f.parseKey(root).Some? && f.parseKey(terminal).Some? && KeyId(f, root) != KeyId(f, terminal)
  {
    hide PlainText, VerifyTransition, GenerationAt, KeyId;
    var keys, n := KeysOf(root, spkis), |envelopes|;
    assert keys[0] == root && keys[n] == terminal;
    assert KeyId(f, keys[0]) != KeyId(f, keys[n]);
  }

  lemma VerifiedWalks(f: Foreign, raw: Bytes, root: Bytes, terminal: Bytes, floor: nat) returns (hops: seq<Hop>, p: Progress)
    requires VerifyChain(f, raw, root, terminal, floor).Some?
    ensures PlainText(raw, 262144) && f.decodeChain(raw) == Some(hops) && 2 <= |hops| <= 8
    ensures f.parseKey(root).Some? && Walk(f, root, hops, |hops|) == Some(p)
    ensures p.current == terminal && 1 <= floor <= p.generation
  {
    hide Walk, PlainText, KeyId;
    hops := f.decodeChain(raw).value;
    p := Walk(f, root, hops, |hops|).value;
  }

  lemma VerifiedIsChained(f: Foreign, raw: Bytes, root: Bytes, terminal: Bytes, floor: nat)
    returns (envelopes: seq<Bytes>, spkis: seq<Bytes>)
    requires VerifyChain(f, raw, root, terminal, floor).Some?
    ensures Chained(f, raw, root, terminal, envelopes, spkis)
    ensures 1 <= floor <= GenerationAt(f, root, envelopes, spkis, |envelopes| - 1)
  {
    hide Chainable, GenerationAt, Walk, PlainText, KeyId, Transport, VerifyChain;
    var hops, p := VerifiedWalks(f, raw, root, terminal, floor);
    envelopes, spkis := WalkDecodes(f, root, hops, |hops|);
    assert hops[..|hops|] == hops;
    var n := |envelopes|;
    WalksIffChainable(f, root, envelopes, spkis, n);
    assert KeysOf(root, spkis)[n] == spkis[n - 1];
  }

  ghost predicate ChainedAbove(
      f: Foreign, raw: Bytes, root: Bytes, terminal: Bytes, envelopes: seq<Bytes>, spkis: seq<Bytes>, floor: nat)
  {
    && Chained(f, raw, root, terminal, envelopes, spkis)
    && 1 <= floor <= GenerationAt(f, root, envelopes, spkis, |envelopes| - 1)
  }

  /** A chain verifies exactly when it is one, at the floors up to its last generation. */
  lemma ChainVerifiesIff(f: Foreign, raw: Bytes, root: Bytes, terminal: Bytes, floor: nat)
    ensures VerifyChain(f, raw, root, terminal, floor).Some? <==>
            exists envelopes, spkis :: ChainedAbove(f, raw, root, terminal, envelopes, spkis, floor)
  {
    hide VerifyChain, Chainable, PlainText, Transport, GenerationAt;
    if VerifyChain(f, raw, root, terminal, floor).Some? {
      var envelopes, spkis := VerifiedIsChained(f, raw, root, terminal, floor);
      assert ChainedAbove(f, raw, root, terminal, envelopes, spkis, floor);
    }
    forall envelopes, spkis | ChainedAbove(f, raw, root, terminal, envelopes, spkis, floor)
      ensures VerifyChain(f, raw, root, terminal, floor).Some?
    {
      ChainedVerifies(f, raw, root, terminal, envelopes, spkis, floor);
    }
  }

  lemma ChainedVerifies(
      f: Foreign, raw: Bytes, root: Bytes, terminal: Bytes, envelopes: seq<Bytes>, spkis: seq<Bytes>, floor: nat)
    requires Chained(f, raw, root, terminal, envelopes, spkis)
    requires 1 <= floor <= GenerationAt(f, root, envelopes, spkis, |envelopes| - 1)
    ensures var v := VerifyChain(f, raw, root, terminal, floor);
            && v.Some?
            && v.value.terminalGeneration == GenerationAt(f, root, envelopes, spkis, |envelopes| - 1)
            && v.value.digest == f.digest(f.chainTag + raw)
  {
    hide *;
    var n := |envelopes|;
    ChainedIs(f, raw, root, terminal, envelopes, spkis);
    ChainedEnds(f, raw, root, terminal, envelopes, spkis);
    WalksIffChainable(f, root, envelopes, spkis, n);
    GenerationsFit(f, root, envelopes, spkis, n - 1);
    WalkLeadsTo(f, root, envelopes, spkis);
    Verifies(f, raw, root, terminal, floor);
  }

  lemma ChainedIs(f: Foreign, raw: Bytes, root: Bytes, terminal: Bytes, envelopes: seq<Bytes>, spkis: seq<Bytes>)
    requires Chained(f, raw, root, terminal, envelopes, spkis)
    ensures 2 <= |envelopes| == |spkis| <= 8 && PlainText(raw, MAX_CHAIN_BYTES)
    ensures f.decodeChain(raw) == Some(Transport(envelopes, spkis))
    ensures Chainable(f, root, envelopes, spkis, |envelopes|) && spkis[|spkis| - 1] == terminal
  {
    hide PlainText, Chainable, Transport;
  }

  lemma WalkLeadsTo(f: Foreign, root: Bytes, envelopes: seq<Bytes>, spkis: seq<Bytes>)
    requires 0 < |envelopes| == |spkis| && Chainable(f, root, envelopes, spkis, |envelopes|)
    requires f.parseKey(root).Some? && |Transport(envelopes, spkis)| == |envelopes|
    requires WalkedAs(f, root, envelopes, spkis, |envelopes|, Walk(f, root, Transport(envelopes, spkis), |envelopes|))
    ensures var p := Walk(f, root, Transport(envelopes, spkis), |envelopes|);
            p.Some? && p.value.current == spkis[|spkis| - 1]
            && p.value.generation == GenerationAt(f, root, envelopes, spkis, |envelopes| - 1)
  {
    hide Walk, Transport, Chainable, GenerationAt, IdsOf;
  }

  lemma Verifies(f: Foreign, raw: Bytes, root: Bytes, terminal: Bytes, floor: nat)
    requires 1 <= floor <= MAX_GENERATION && PlainText(raw, MAX_CHAIN_BYTES) && f.decodeChain(raw).Some?
    requires 2 <= |f.decodeChain(raw).value| <= 8
    requires f.parseKey(root).Some? && f.parseKey(terminal).Some? && KeyId(f, root) != KeyId(f, terminal)
    requires var hops := f.decodeChain(raw).value;
             var p := Walk(f, root, hops, |hops|); p.Some? && p.value.generation >= floor && p.value.current == terminal
    ensures var v := VerifyChain(f, raw, root, terminal, floor);
            var hops := f.decodeChain(raw).value;
            && v.Some?
            && v.value.terminalGeneration == Walk(f, root, hops, |hops|).value.generation
            && v.value.digest == f.digest(f.chainTag + raw)
  {
    hide Walk, PlainText, KeyId;
  }

  lemma GenerationsFit(f: Foreign, root: Bytes, envelopes: seq<Bytes>, spkis: seq<Bytes>, i: nat)
    requires |envelopes| == |spkis| && i < |envelopes|
    ensures GenerationAt(f, root, envelopes, spkis, i) <= MAX_GENERATION
  {
    hide Authenticated;
  }

  /** With a chain codec that reads back what it wrote, building succeeds exactly when the parts chain. */
  lemma BuildsIffChainable(f: Foreign, envelopes: seq<Bytes>, spkis: seq<Bytes>, root: Bytes, raw: Bytes)
    requires SizesFit(envelopes, spkis)
    requires f.encodeChain(Transport(envelopes, spkis)) == Some(raw) && f.decodeChain(raw) == Some(Transport(envelopes, spkis))
    requires PlainText(raw, MAX_CHAIN_BYTES)
    ensures Build(f, envelopes, spkis, root) == Some(raw) <==> Chainable(f, root, envelopes, spkis, |envelopes|)
  {
    hide VerifyTransition, PlainText, Transport, Walk;
    var n, keys := |envelopes|, KeysOf(root, spkis);
    assert |raw| <= MAX_CHAIN_BYTES by { PlainTextFits(raw, MAX_CHAIN_BYTES); }
    assert keys[0] == root && keys[n] == spkis[n - 1];
    if f.parseKey(root).Some? {
      WalksIffChainable(f, root, envelopes, spkis, n);
      if Chainable(f, root, envelopes, spkis, n) {
        TransitionGenerationIsPositive(f, envelopes[n - 1], keys[n - 1], spkis[n - 1]);
      }
    }
  }

  lemma PlainTextFits(raw: Bytes, maximum: nat)
    requires PlainText(raw, maximum)
    ensures |raw| <= maximum
  {
  }

  lemma TransportLength(envelopes: seq<Bytes>, spkis: seq<Bytes>)
    requires |envelopes| == |spkis|
    ensures |Transport(envelopes, spkis)| == |envelopes|
  {
  }

  // ---------------------------------------------------------------------
  // A chain that is accepted
  // ---------------------------------------------------------------------

  function Letter(k: int): string { if 0 <= k < 256 then [k as char] else "" }

  /** Toy foreign code: one-byte keys that name themselves, every signature valid, and transitions that
      are one byte too: the previous key, which is also the generation; the next key is one more. */
  function Toy(hops: seq<Hop>): Foreign
  {
    var signature: Bytes := seq(SIGNATURE_SIZE, _ => 0);
    Foreign(
      (raw: Bytes) => Some(raw),
      (raw: Bytes) => if raw == [] then "" else Letter(raw[0]),
      (key: Bytes, message: Bytes, sig: Bytes) => true,
      (id: string) => true,
      (raw: Bytes) => if raw == [] then None else Some(Envelope([], Encode(raw), [Signature(Letter(raw[0]), Encode(signature))])),
      (raw: Bytes) => if raw == [] then None else Some(Transition(raw[0], Letter(raw[0]), Letter(raw[0] as int + 1))),
      (raw: Bytes) => Some(hops),
      (parts: seq<Hop>) => Some([1]),
      (raw: Bytes) => None,
      (raw: Bytes) => None,
      [], [], [])
  }

  lemma ToyTransition(hops: seq<Hop>, k: Byte)
    requires 0 < k < 3
    ensures var v := VerifyTransition(Toy(hops), [k], [k], [k + 1], 1);
            v.Some? && v.value.transition.generation == k
  {
    hide Encode, DecodeBounded, Pae;
    var signature: Bytes := seq(SIGNATURE_SIZE, _ => 0);
    AcceptsExactlyTheCanonical(Encode([k]), MAX_PAYLOAD_BYTES, [k]);
    AcceptsExactlyTheCanonical(Encode(signature), SIGNATURE_SIZE, signature);
    var f := Toy(hops);
    assert Authenticated(f, f.decodeTransitionEnvelope([k]).value, [], [k], MAX_PAYLOAD_BYTES) == Some([k]);
    assert Letter(k)[0] != Letter(k + 1)[0];
  }

  lemma ToyKey(hops: seq<Hop>, k: Byte)
    ensures Toy(hops).parseKey([k]) == Some([k]) && KeyId(Toy(hops), [k]) == Letter(k) && Letter(k) == [k as char]
  {
  }

  lemma ToyChains(hops: seq<Hop>)
    ensures Chainable(Toy(hops), [1], [[1], [2]], [[2], [3]], 2)
  {
    hide Toy, VerifyTransition, KeyId, Letter;
    ToyTransition(hops, 1);
    ToyTransition(hops, 2);
    ToyKey(hops, 1);
    ToyKey(hops, 2);
    ToyKey(hops, 3);
    assert KeysOf([1], [[2], [3]]) == [[1], [2], [3]];
    assert [1 as char][0] != [2 as char][0] && [2 as char][0] != [3 as char][0] && [1 as char][0] != [3 as char][0];
  }

  lemma ToyCodec(hops: seq<Hop>)
    ensures Toy(hops).encodeChain(hops) == Some([1]) && Toy(hops).decodeChain([1]) == Some(hops) && PlainText([1], MAX_CHAIN_BYTES)
  {
  }

  /** The results above are about something: for some foreign code, two transitions between three keys
      chain. */
  lemma ChainsExist() returns (f: Foreign)
    ensures Build(f, [[1], [2]], [[2], [3]], [1]).Some?
  {
    hide Chainable, Build, Toy, PlainText, Transport;
    var envelopes: seq<Bytes>, spkis: seq<Bytes> := [[1], [2]], [[2], [3]];
    var hops := Transport(envelopes, spkis);
    f := Toy(hops);
    ToyChains(hops);
    ToyCodec(hops);
    BuildsIffChainable(f, envelopes, spkis, [1], [1]);
  }
}
