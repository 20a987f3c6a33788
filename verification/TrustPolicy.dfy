/**
 Deciding whether to trust a verified bundle: a policy signed by the terminal
 authority of a transition chain lists which evidence signers are trusted. The
 gates are passed one after the other and the report is filled in as they are.
 */
module TrustPolicy {
  import opened Prelude
  import opened Ordering
  import opened TrustChain

  const MAX_POLICY_ENVELOPE_BYTES := 0x1_8000
  const MAX_POLICY_BYTES := 0x1_0000

  // ---------------------------------------------------------------------
  // The signed policy
  // ---------------------------------------------------------------------

  function KeyIds(keys: seq<PolicyKey>): seq<string> { seq(|keys|, i requires 0 <= i < |keys| => keys[i].keyId) }

  /** Valid identifiers, strictly increasing. */
  ghost predicate WellListed(f: Foreign, keys: seq<PolicyKey>)
  {
    (forall k :: k in keys ==> f.validKeyId(k.keyId)) && StrictlySorted(KeyIds(keys), StringLess)
  }

  /** The status each listed identifier has. */
  function Statuses(keys: seq<PolicyKey>): map<string, KeyStatus>
  {
    if keys == [] then map[] else Statuses(keys[..|keys| - 1])[keys[|keys| - 1].keyId := keys[|keys| - 1].status]
  }

  /** The table has exactly the listed identifiers, each with its status. */
  ghost predicate Tabulates(statuses: map<string, KeyStatus>, keys: seq<PolicyKey>)
  {
    && statuses.Keys == Elements(KeyIds(keys))
    && forall k :: k in keys ==> k.keyId in statuses && statuses[k.keyId] == k.status
  }

  lemma {:induction false} StatusesAreListed(keys: seq<PolicyKey>)
    requires Distinct(KeyIds(keys))
    ensures Tabulates(Statuses(keys), keys)
  {
    hide Distinct, Tabulates, Elements, KeyIds;
    if keys == [] {
      NothingTabulates();
    } else {
      var front, last := keys[..|keys| - 1], keys[|keys| - 1];
      KeyIdsLast(keys);
      DropLast(KeyIds(keys));
      StatusesAreListed(front);
      TabulatesNext(Statuses(front), front, last);
      assert front + [last] == keys;
    }
  }

  lemma NothingTabulates()
    ensures Tabulates(map[], [])
  {
  }

  lemma KeyIdsLast(keys: seq<PolicyKey>)
    requires keys != []
    ensures KeyIds(keys) != [] && |KeyIds(keys)| == |keys| && KeyIds(keys)[|keys| - 1] == keys[|keys| - 1].keyId
    ensures KeyIds(keys)[..|keys| - 1] == KeyIds(keys[..|keys| - 1])
  {
  }

  lemma TabulatesNext(statuses: map<string, KeyStatus>, front: seq<PolicyKey>, last: PolicyKey)
    requires Tabulates(statuses, front) && last.keyId !in Elements(KeyIds(front))
    ensures Tabulates(statuses[last.keyId := last.status], front + [last])
  {
    assert KeyIds(front + [last]) == KeyIds(front) + [last.keyId];
    assert forall id :: id in KeyIds(front + [last]) <==> id in KeyIds(front) || id == last.keyId;
    forall k | k in front ensures k.keyId != last.keyId {
      var i :| 0 <= i < |front| && front[i] == k;
      assert KeyIds(front)[i] == k.keyId;
    }
    assert forall k :: k in front + [last] ==> k in front || k == last;
  }

  lemma SortedNext(ids: seq<string>, id: string)
    requires StrictlySorted(ids, StringLess)
    ensures StrictlySorted(ids + [id], StringLess) <==> ids == [] || StringLess(ids[|ids| - 1], id)
  {
    hide StringLess;
    var longer := ids + [id];
    if ids != [] && StringLess(ids[|ids| - 1], id) {
      forall i, j | 0 <= i < j < |longer| ensures StringLess(longer[i], longer[j]) {
        if j == |ids| && i < |ids| - 1 { StringLessTransitive(ids[i], ids[|ids| - 1], id); }
      }
    }
    if ids != [] && StrictlySorted(longer, StringLess) { assert StringLess(longer[|ids| - 1], longer[|ids|]); }
  }

  lemma PrefixSorted(ids: seq<string>, i: nat)
    requires i <= |ids| && StrictlySorted(ids, StringLess)
    ensures StrictlySorted(ids[..i], StringLess)
  {
    hide StringLess;
  }

  /** The loop of parseOfflineTrustPolicyV2. */
  method CollectStatuses(f: Foreign, keys: seq<PolicyKey>) returns (statuses: Option<map<string, KeyStatus>>)
    ensures statuses.Some? <==> WellListed(f, keys)
    ensures statuses.Some? ==> statuses.value == Statuses(keys)
  {
    hide StringLess, StrictlySorted;
    var collected: map<string, KeyStatus>, previous := map[], "";
    assert keys[..0] == [] && KeyIds([]) == [];
    assert StrictlySorted(KeyIds([]), StringLess) by { NothingSorted(); }
    for i := 0 to |keys|
      invariant forall k :: 0 <= k < i ==> f.validKeyId(keys[k].keyId)
      invariant StrictlySorted(KeyIds(keys[..i]), StringLess)
      invariant i > 0 ==> previous == keys[i - 1].keyId
      invariant collected == Statuses(keys[..i])
    {
      var key := keys[i];
      assert key in keys;
      assert keys[..i + 1][..i] == keys[..i];
      assert KeyIds(keys[..i + 1]) == KeyIds(keys[..i]) + [key.keyId];
      SortedNext(KeyIds(keys[..i]), key.keyId);
      if !f.validKeyId(key.keyId) || (i > 0 && !StringLess(previous, key.keyId)) {
        if StrictlySorted(KeyIds(keys), StringLess) {
          PrefixSorted(KeyIds(keys), i + 1);
          assert KeyIds(keys)[..i + 1] == KeyIds(keys[..i + 1]);
        }
        return None;
      }
      previous := key.keyId;
      collected := collected[key.keyId := key.status];
    }
    assert keys[..|keys|] == keys;
    return Some(collected);
  }

  lemma NothingSorted()
    ensures StrictlySorted(KeyIds([]), StringLess)
  {
  }

  datatype SignedPolicy = SignedPolicy(
    statuses: map<string, KeyStatus>, payloadDigest: string, envelopeDigest: string, authorityId: string, generation: nat)

  datatype ParsedPolicy = InvalidPolicy | RoleConflict | Parsed(policy: SignedPolicy)

  ghost predicate DocumentAccepted(f: Foreign, payload: Bytes)
  {
    && PlainText(payload, MAX_POLICY_BYTES) && f.decodePolicy(payload).Some?
    && var document := f.decodePolicy(payload).value;
       0 < document.generation <= MAX_GENERATION && WellListed(f, document.keys)
  }

  ghost function ParsePolicy(f: Foreign, raw: Bytes, authority: Bytes): ParsedPolicy
  {
    if !PlainText(raw, MAX_POLICY_ENVELOPE_BYTES) || f.parseKey(authority).None? || f.decodePolicyEnvelope(raw).None? then InvalidPolicy
    else
      match Authenticated(f, f.decodePolicyEnvelope(raw).value, f.policyType, authority, MAX_POLICY_BYTES)
      case None => InvalidPolicy
      case Some(payload) =>
        if !DocumentAccepted(f, payload) then InvalidPolicy
        else
          var document := f.decodePolicy(payload).value;
          var statuses := Statuses(document.keys);
          if KeyId(f, authority) in statuses then RoleConflict
          else Parsed(SignedPolicy(statuses, f.digest(payload), f.digest(raw), KeyId(f, authority), document.generation))
  }

  /** ParseSignedOfflineTrustPolicy. */
  method ParseSignedPolicy(f: Foreign, raw: Bytes, authority: Bytes) returns (parsed: ParsedPolicy)
    ensures parsed == ParsePolicy(f, raw, authority)
  {
    hide Statuses, WellListed, Authenticated;
    if |raw| > MAX_POLICY_ENVELOPE_BYTES || !PlainText(raw, MAX_POLICY_ENVELOPE_BYTES) { return InvalidPolicy; }
    if f.parseKey(authority) == None { return InvalidPolicy; }
    var envelope := f.decodePolicyEnvelope(raw);
    if envelope == None { return InvalidPolicy; }
    var payload := Authenticated(f, envelope.value, f.policyType, authority, MAX_POLICY_BYTES);
    if payload == None { return InvalidPolicy; }
    if !PlainText(payload.value, MAX_POLICY_BYTES) { return InvalidPolicy; }
    var document := f.decodePolicy(payload.value);
    if document == None || document.value.generation == 0 || document.value.generation > MAX_GENERATION { return InvalidPolicy; }
    var statuses := CollectStatuses(f, document.value.keys);
    if statuses == None { return InvalidPolicy; }
    if KeyId(f, authority) in statuses.value { return RoleConflict; }
    return Parsed(SignedPolicy(
      statuses.value, f.digest(payload.value), f.digest(raw), KeyId(f, authority), document.value.generation));
  }

  datatype TrustDecision = IsTrusted | IsRevoked | NotListed

  /** EvaluateSignerKeyID; None for a malformed identifier. */
  function EvaluateSigner(f: Foreign, policy: SignedPolicy, signer: string): Option<TrustDecision>
  {
    if !f.validKeyId(signer) then None
    else if signer !in policy.statuses then Some(NotListed)
    else match policy.statuses[signer] case Trusted => Some(IsTrusted) case Revoked => Some(IsRevoked)
  }

  /** A parsed policy was signed by the authority, which it does not list itself, and says of every
      key what its signed document says. */
  lemma PolicyIsSound(f: Foreign, raw: Bytes, authority: Bytes, policy: SignedPolicy) returns (payload: Bytes)
    requires ParsePolicy(f, raw, authority) == Parsed(policy)
    ensures f.parseKey(authority).Some? && SignedBy(f, authority, f.policyType, payload)
    ensures f.decodePolicy(payload).Some? && policy.generation == f.decodePolicy(payload).value.generation
    ensures policy.authorityId == KeyId(f, authority) && policy.authorityId !in policy.statuses
    ensures policy.payloadDigest == f.digest(payload) && policy.envelopeDigest == f.digest(raw)
    ensures Tabulates(policy.statuses, f.decodePolicy(payload).value.keys)
  {
    hide SignedBy, Authenticated, Statuses, StrictlySorted, StringLess, Tabulates, PlainText, Distinct;
    payload := Authenticated(f, f.decodePolicyEnvelope(raw).value, f.policyType, authority, MAX_POLICY_BYTES).value;
    AuthenticatedIsSigned(f, f.decodePolicyEnvelope(raw).value, f.policyType, authority, MAX_POLICY_BYTES);
    SortedIsDistinct(KeyIds(f.decodePolicy(payload).value.keys));
    StatusesAreListed(f.decodePolicy(payload).value.keys);
  }

  // ---------------------------------------------------------------------
  // The gates
  // ---------------------------------------------------------------------

  datatype Decision = Undecided | Accepted | Rejected

  datatype Reason =
    | NoReason | InvalidOrUnavailable | AuthorityRoleConflict | GenerationBelowMinimum
    | StateRefused(why: string) | SignerTrusted | SignerRevoked | SignerNotListed

  /** What reading each file yields, if it can be read. */
  datatype Files = Files(root: Option<Bytes>, terminal: Option<Bytes>, chain: Option<Bytes>, policy: Option<Bytes>)

  datatype Source = Root | Terminal | Chain | Policy

  /** The opt-in local state: not asked for, or its verdict. */
  datatype StateGate = NotAsked | StateAccepts | StateRefuses(why: string)

  datatype Request = Request(
    authorityFloor: nat, policyFloor: nat, signer: string, state: StateGate, claimsAsked: bool, claimsAvailable: bool)

  datatype Report = Report(
    decision: Decision, reason: Reason, chain: Option<VerifiedChain>, policy: Option<SignedPolicy>, claims: bool)

  /** ValidateOfflineTrustPolicyAuthorityTransitionKeyPair. */
  predicate KeysDiffer(f: Foreign, root: Bytes, terminal: Bytes)
  {
    f.parseKey(root).Some? && f.parseKey(terminal).Some? && f.parseKey(root) != f.parseKey(terminal)
  }

  /** The chain gate: both keys and the chain between them, at the authority floor. */
  ghost predicate ChainGate(f: Foreign, files: Files, request: Request, chain: VerifiedChain)
  {
    && files.root.Some? && files.terminal.Some? && KeysDiffer(f, files.root.value, files.terminal.value)
    && files.chain.Some?
    && VerifyChain(f, files.chain.value, files.root.value, files.terminal.value, request.authorityFloor) == Some(chain)
  }

  /** The policy gate: a policy by the chain's terminal authority. */
  ghost predicate PolicyGate(f: Foreign, files: Files, chain: VerifiedChain, policy: SignedPolicy)
  {
    && files.policy.Some? && files.terminal.Some?
    && ParsePolicy(f, files.policy.value, files.terminal.value) == Parsed(policy)
    && policy.authorityId == chain.terminalId
  }

  predicate FloorGate(request: Request, policy: SignedPolicy)
  {
    0 < request.policyFloor <= MAX_GENERATION && policy.generation >= request.policyFloor
  }

  /** No authority of the chain is listed as an evidence signer. */
  predicate RoleGate(f: Foreign, chain: VerifiedChain, policy: SignedPolicy)
  {
    forall id :: id in chain.authorityIds ==> EvaluateSigner(f, policy, id) == Some(NotListed)
  }

  predicate SignerGate(f: Foreign, request: Request, policy: SignedPolicy)
  {
    EvaluateSigner(f, policy, request.signer) == Some(IsTrusted)
  }

  /** The reason given once roles are known to be separate. */
  function ReasonAfterRoles(f: Foreign, request: Request, policy: SignedPolicy): Reason
  {
    if request.state.StateRefuses? then StateRefused(request.state.why)
    else
      match EvaluateSigner(f, policy, request.signer)
      case None => InvalidOrUnavailable
      case Some(IsRevoked) => SignerRevoked
      case Some(NotListed) => SignerNotListed
      case Some(IsTrusted) => SignerTrusted
  }

  /** The policy lists its own authority, or another authority of the chain. */
  ghost predicate RolesCollide(f: Foreign, files: Files, request: Request, chain: VerifiedChain)
  {
    && files.policy.Some? && files.terminal.Some?
    && match ParsePolicy(f, files.policy.value, files.terminal.value)
       case InvalidPolicy => false
       case RoleConflict => true
       case Parsed(policy) =>
         policy.authorityId == chain.terminalId && FloorGate(request, policy) && !RoleGate(f, chain, policy)
  }

  /** The loop over the chain's authorities. */
  method CheckRoles(f: Foreign, chain: VerifiedChain, policy: SignedPolicy) returns (separate: bool)
    ensures separate <==> RoleGate(f, chain, policy)
  {
    hide EvaluateSigner;
    for i := 0 to |chain.authorityIds|
      invariant forall k :: 0 <= k < i ==> EvaluateSigner(f, policy, chain.authorityIds[k]) == Some(NotListed)
    {
      if EvaluateSigner(f, policy, chain.authorityIds[i]) != Some(NotListed) {
        assert chain.authorityIds[i] in chain.authorityIds;
        return false;
      }
    }
    return true;
  }

  /** verifyWithChainedSignedOfflineTrustPolicyReaders; `consulted` lists the files in the order they are
      read. The report accepts exactly when every gate opens. Chain facts are released only after the
      chain, the policy, both floors and the separation of roles; policy facts only from a policy by
      the chain's terminal authority; and nothing is read before what must be checked first. */
  method VerifyWithChainedPolicy(f: Foreign, files: Files, request: Request) returns (report: Report, consulted: seq<Source>)
    ensures report.decision == Accepted <==>
            exists chain, policy ::
              && ChainGate(f, files, request, chain) && PolicyGate(f, files, chain, policy)
              && FloorGate(request, policy) && RoleGate(f, chain, policy)
              && !request.state.StateRefuses? && SignerGate(f, request, policy)
              && (request.claimsAsked ==> request.claimsAvailable)
    ensures report.decision == Accepted ==> report.reason == SignerTrusted && report.chain.Some?
    ensures report.decision == Undecided <==>
            exists chain, policy ::
              && ChainGate(f, files, request, chain) && PolicyGate(f, files, chain, policy)
              && FloorGate(request, policy) && RoleGate(f, chain, policy)
              && !request.state.StateRefuses? && SignerGate(f, request, policy)
              && request.claimsAsked && !request.claimsAvailable
    ensures report.decision == Undecided ==> report == Report(Undecided, NoReason, None, None, false)
    ensures report.claims <==> report.decision == Accepted && request.claimsAsked
    ensures report.chain.Some? <==>
            report.decision != Undecided
            && exists chain, policy ::
                 && ChainGate(f, files, request, chain) && PolicyGate(f, files, chain, policy)
                 && FloorGate(request, policy) && RoleGate(f, chain, policy)
    ensures report.chain.Some? ==>
              && report.policy.Some?
              && ChainGate(f, files, request, report.chain.value)
              && PolicyGate(f, files, report.chain.value, report.policy.value)
              && FloorGate(request, report.policy.value) && RoleGate(f, report.chain.value, report.policy.value)
    ensures report.chain.Some? ==> report.reason == ReasonAfterRoles(f, request, report.policy.value)
    ensures report.reason == GenerationBelowMinimum <==>
            exists chain, policy ::
              && ChainGate(f, files, request, chain) && PolicyGate(f, files, chain, policy)
              && policy.generation < request.policyFloor <= MAX_GENERATION
    ensures report.reason == AuthorityRoleConflict <==>
            exists chain :: ChainGate(f, files, request, chain) && RolesCollide(f, files, request, chain)
    ensures report.policy.Some? ==>
              exists chain :: ChainGate(f, files, request, chain) && PolicyGate(f, files, chain, report.policy.value)
    ensures report.policy.Some? <==>
            report.decision != Undecided && 0 < request.policyFloor <= MAX_GENERATION
            && exists chain, policy :: ChainGate(f, files, request, chain) && PolicyGate(f, files, chain, policy)
    ensures consulted <= [Root, Terminal, Chain, Policy] && consulted != []
    ensures Terminal in consulted <==> files.root.Some?
    ensures Chain in consulted <==>
            files.root.Some? && files.terminal.Some? && KeysDiffer(f, files.root.value, files.terminal.value)
    ensures Policy in consulted <==> exists chain :: ChainGate(f, files, request, chain)
  {
    hide VerifyChain, ParsePolicy, EvaluateSigner, RoleGate;
    report, consulted := Report(Rejected, InvalidOrUnavailable, None, None, false), [Root];
    if files.root == None { return; }
    consulted := [Root, Terminal];
    if files.terminal == None || !KeysDiffer(f, files.root.value, files.terminal.value) { return; }
    consulted := [Root, Terminal, Chain];
    if files.chain == None { return; }
    var verified := VerifyTransitionChain(f, files.chain.value, files.root.value, files.terminal.value, request.authorityFloor);
    if verified == None { return; }
    var chain := verified.value;
    assert ChainGate(f, files, request, chain);
    consulted := [Root, Terminal, Chain, Policy];
    if files.policy == None { return; }
    var parsed := ParseSignedPolicy(f, files.policy.value, files.terminal.value);
    if parsed == RoleConflict {
      report := report.(reason := AuthorityRoleConflict);
      return;
    }
    if parsed == InvalidPolicy || parsed.policy.authorityId != chain.terminalId { return; }
    var policy := parsed.policy;
    assert PolicyGate(f, files, chain, policy);
    if request.policyFloor == 0 || request.policyFloor > MAX_GENERATION { return; }
    report := report.(policy := Some(policy));
    if policy.generation < request.policyFloor {
      report := report.(reason := GenerationBelowMinimum);
      return;
    }
    var separate := CheckRoles(f, chain, policy);
    if !separate {
      report := report.(reason := AuthorityRoleConflict);
      return;
    }
    report := report.(chain := Some(chain));
    if request.state.StateRefuses? {
      report := report.(reason := StateRefused(request.state.why));
      return;
    }
    var decision := EvaluateSigner(f, policy, request.signer);
    match decision {
      case None =>
      case Some(IsRevoked) => report := report.(reason := SignerRevoked);
      case Some(NotListed) => report := report.(reason := SignerNotListed);
      case Some(IsTrusted) =>
        if request.claimsAsked && !request.claimsAvailable {
          report := Report(Undecided, NoReason, None, None, false);
          return;
        }
        report := Report(Accepted, SignerTrusted, Some(chain), Some(policy), request.claimsAsked);
    }
  }

  // ---------------------------------------------------------------------
  // What the gates mean, said of the signed document
  // ---------------------------------------------------------------------

  predicate Listed(keys: seq<PolicyKey>, id: string) { exists k :: k in keys && k.keyId == id }

  /** The table answers for an identifier exactly what the document lists. */
  lemma AnswerIsListed(f: Foreign, policy: SignedPolicy, keys: seq<PolicyKey>, id: string)
    requires Tabulates(policy.statuses, keys)
    ensures EvaluateSigner(f, policy, id) == None <==> !f.validKeyId(id)
    ensures EvaluateSigner(f, policy, id) == Some(NotListed) <==> f.validKeyId(id) && !Listed(keys, id)
    ensures EvaluateSigner(f, policy, id) == Some(IsTrusted) <==> f.validKeyId(id) && PolicyKey(id, Trusted) in keys
    ensures EvaluateSigner(f, policy, id) == Some(IsRevoked) <==> f.validKeyId(id) && PolicyKey(id, Revoked) in keys
  {
    if id in policy.statuses {
      assert id in Elements(KeyIds(keys));
      var i :| 0 <= i < |KeyIds(keys)| && KeyIds(keys)[i] == id;
      assert keys[i] in keys && keys[i] == PolicyKey(id, policy.statuses[id]);
    }
  }

  /** The document of a policy that passed the policy gate: signed by the terminal key, of the policy's
      own generation, with valid keys in strictly increasing order, none of them the terminal key. */
  ghost predicate SignedDocument(f: Foreign, files: Files, chain: VerifiedChain, policy: SignedPolicy, payload: Bytes)
  {
    && files.terminal.Some? && SignedBy(f, files.terminal.value, f.policyType, payload)
    && f.decodePolicy(payload).Some? && f.decodePolicy(payload).value.generation == policy.generation
    && !Listed(f.decodePolicy(payload).value.keys, chain.terminalId)
  }

  lemma PolicyGateDocument(f: Foreign, files: Files, chain: VerifiedChain, policy: SignedPolicy) returns (payload: Bytes)
    requires PolicyGate(f, files, chain, policy)
    ensures SignedDocument(f, files, chain, policy, payload)
    ensures Tabulates(policy.statuses, f.decodePolicy(payload).value.keys)
  {
    hide ParsePolicy, SignedBy;
    payload := PolicyIsSound(f, files.policy.value, files.terminal.value, policy);
    assert forall k :: k in f.decodePolicy(payload).value.keys ==> k.keyId in policy.statuses;
  }

  /** The separation of roles: no authority of the chain is in the document, whatever its status there. */
  lemma RolesAreSeparateIff(f: Foreign, files: Files, chain: VerifiedChain, policy: SignedPolicy) returns (payload: Bytes)
    requires PolicyGate(f, files, chain, policy)
    ensures SignedDocument(f, files, chain, policy, payload)
    ensures RoleGate(f, chain, policy) <==>
            forall id :: id in chain.authorityIds ==> f.validKeyId(id) && !Listed(f.decodePolicy(payload).value.keys, id)
  {
    hide PolicyGate, SignedBy, Tabulates, EvaluateSigner, Listed;
    payload := PolicyGateDocument(f, files, chain, policy);
    forall id
      ensures EvaluateSigner(f, policy, id) == Some(NotListed) <==>
              f.validKeyId(id) && !Listed(f.decodePolicy(payload).value.keys, id)
    {
      AnswerIsListed(f, policy, f.decodePolicy(payload).value.keys, id);
    }
  }

  /** The reason once roles are separate, unless local state refuses: what the signed document says of
      the signer. */
  lemma SignerReasonIs(f: Foreign, files: Files, request: Request, chain: VerifiedChain, policy: SignedPolicy)
    returns (payload: Bytes)
    requires PolicyGate(f, files, chain, policy)
    ensures SignedDocument(f, files, chain, policy, payload)
    ensures var reason, keys, signer :=
                ReasonAfterRoles(f, request, policy), f.decodePolicy(payload).value.keys, request.signer;
            if request.state.StateRefuses? then reason == StateRefused(request.state.why)
            else if !f.validKeyId(signer) then reason == InvalidOrUnavailable
            else
              && (reason == SignerTrusted <==> PolicyKey(signer, Trusted) in keys)
              && (reason == SignerRevoked <==> PolicyKey(signer, Revoked) in keys)
              && (reason == SignerNotListed <==> !Listed(keys, signer))
              && reason in {SignerTrusted, SignerRevoked, SignerNotListed}
  {
    hide PolicyGate, SignedBy, Tabulates, Listed, EvaluateSigner;
    payload := PolicyGateDocument(f, files, chain, policy);
    AnswerIsListed(f, policy, f.decodePolicy(payload).value.keys, request.signer);
  }

  /** The pair of keys needs no gate of its own: a chain between them verifies only if they differ. */
  lemma ChainGateIff(f: Foreign, files: Files, request: Request, chain: VerifiedChain)
    ensures ChainGate(f, files, request, chain) <==>
            && files.root.Some? && files.terminal.Some? && files.chain.Some?
            && VerifyChain(f, files.chain.value, files.root.value, files.terminal.value, request.authorityFloor) == Some(chain)
  {
    hide Walk, PlainText;
  }

  /** All the gates together, said of the files: the chain verifies at its floor, the policy parses under
      the terminal key, its generation reaches a positive floor, its document lists no authority of the
      chain, and lists the signer as trusted. */
  lemma GatesOpenIff(f: Foreign, files: Files, request: Request, chain: VerifiedChain, policy: SignedPolicy) returns (payload: Bytes)
    requires files.root.Some? && files.terminal.Some? && files.chain.Some? && files.policy.Some?
    requires VerifyChain(f, files.chain.value, files.root.value, files.terminal.value, request.authorityFloor) == Some(chain)
    requires ParsePolicy(f, files.policy.value, files.terminal.value) == Parsed(policy)
    ensures ChainGate(f, files, request, chain) && PolicyGate(f, files, chain, policy)
    ensures SignedDocument(f, files, chain, policy, payload)
    ensures var keys := f.decodePolicy(payload).value.keys;
            FloorGate(request, policy) && RoleGate(f, chain, policy) && SignerGate(f, request, policy) <==>
              && 1 <= request.policyFloor <= policy.generation
              && (forall id :: id in chain.authorityIds ==> f.validKeyId(id) && !Listed(keys, id))
              && f.validKeyId(request.signer) && PolicyKey(request.signer, Trusted) in keys
  {
    hide VerifyChain, ParsePolicy, SignedBy, Tabulates, Listed, EvaluateSigner, RoleGate;
    ChainGateIff(f, files, request, chain);
    TerminalIsLast(f, files, request, chain, policy);
    payload := PolicyGateDocument(f, files, chain, policy);
    var keys := f.decodePolicy(payload).value.keys;
    AnswerIsListed(f, policy, keys, request.signer);
    RoleGateIff(f, chain, policy, keys);
  }

  lemma TerminalIsLast(f: Foreign, files: Files, request: Request, chain: VerifiedChain, policy: SignedPolicy)
    requires files.root.Some? && files.terminal.Some? && files.chain.Some? && files.policy.Some?
    requires VerifyChain(f, files.chain.value, files.root.value, files.terminal.value, request.authorityFloor) == Some(chain)
    requires ParsePolicy(f, files.policy.value, files.terminal.value) == Parsed(policy)
    ensures PolicyGate(f, files, chain, policy) && policy.generation <= MAX_GENERATION
  {
    hide Walk, PlainText, Authenticated, Statuses, WellListed;
  }

  lemma RoleGateIff(f: Foreign, chain: VerifiedChain, policy: SignedPolicy, keys: seq<PolicyKey>)
    requires Tabulates(policy.statuses, keys)
    ensures RoleGate(f, chain, policy) <==> forall id :: id in chain.authorityIds ==> f.validKeyId(id) && !Listed(keys, id)
  {
    hide Tabulates, EvaluateSigner, Listed;
    forall id ensures EvaluateSigner(f, policy, id) == Some(NotListed) <==> f.validKeyId(id) && !Listed(keys, id) {
      AnswerIsListed(f, policy, keys, id);
    }
  }

  /** Roles collide behind a verified chain exactly when the signed document lists its own signer, or
      when it reaches the policy floor and some authority of the chain is listed or malformed. */
  lemma RolesCollideIff(f: Foreign, files: Files, request: Request, chain: VerifiedChain)
    requires ChainGate(f, files, request, chain) && files.policy.Some?
    ensures RolesCollide(f, files, request, chain) <==>
            exists document ::
              && SignedInOrder(f, files.policy.value, files.terminal.value, document)
              && (Listed(document.keys, chain.terminalId)
                  || (1 <= request.policyFloor <= document.generation
                      && exists id :: id in chain.authorityIds && (!f.validKeyId(id) || Listed(document.keys, id))))
  {
    hide VerifyChain, ParsePolicy, Listed, SignedInOrder, RoleGate, StrictlySorted, StringLess, Authenticated, PlainText;
    var raw, authority := files.policy.value, files.terminal.value;
    TerminalIs(f, files, request, chain);
    ParsedOrConflicts(f, raw, authority);
    match ParsePolicy(f, raw, authority) {
      case InvalidPolicy =>
      case RoleConflict =>
      case Parsed(policy) =>
        var document :| SignedInOrder(f, raw, authority, document) && !Listed(document.keys, KeyId(f, authority));
        OnlyDocument(f, raw, authority, document);
        ParsedIsDocument(f, raw, authority, policy, document);
        RoleGateIff(f, chain, policy, document.keys);
    }
  }

  lemma TerminalIs(f: Foreign, files: Files, request: Request, chain: VerifiedChain)
    requires ChainGate(f, files, request, chain)
    ensures f.parseKey(files.terminal.value).Some? && chain.terminalId == KeyId(f, files.terminal.value)
  {
    hide Walk, PlainText;
  }

  lemma OnlyDocument(f: Foreign, raw: Bytes, authority: Bytes, document: PolicyDocument)
    requires SignedInOrder(f, raw, authority, document)
    ensures forall other :: SignedInOrder(f, raw, authority, other) ==> other == document
  {
    hide Authenticated, StrictlySorted, PlainText;
  }

  lemma ParsedIsDocument(f: Foreign, raw: Bytes, authority: Bytes, policy: SignedPolicy, document: PolicyDocument)
    requires SignedInOrder(f, raw, authority, document) && ParsePolicy(f, raw, authority) == Parsed(policy)
    ensures Tabulates(policy.statuses, document.keys)
    ensures policy.generation == document.generation <= MAX_GENERATION && policy.authorityId == KeyId(f, authority)
  {
    hide Authenticated, StrictlySorted, StringLess, PlainText, Statuses, Tabulates, Distinct;
    SortedIsDistinct(KeyIds(document.keys));
    StatusesAreListed(document.keys);
  }

  /** The document of a policy file that the given authority signed and that is in order. */
  ghost predicate SignedInOrder(f: Foreign, raw: Bytes, authority: Bytes, document: PolicyDocument)
  {
    && PlainText(raw, 96 * 1024) && f.parseKey(authority).Some?
    && exists e, payload ::
         && f.decodePolicyEnvelope(raw) == Some(e)
         && Authenticated(f, e, f.policyType, authority, 64 * 1024) == Some(payload)
         && PlainText(payload, 64 * 1024) && f.decodePolicy(payload) == Some(document)
         && 0 < document.generation <= MAX_GENERATION
         && (forall k :: k in document.keys ==> f.validKeyId(k.keyId))
         && StrictlySorted(KeyIds(document.keys), StringLess)
  }

  /** A policy file is a role conflict exactly when the signed document lists its own signer, and is
      parsed exactly when it is in order otherwise. */
  lemma ParsedOrConflicts(f: Foreign, raw: Bytes, authority: Bytes)
    ensures ParsePolicy(f, raw, authority) == RoleConflict <==>
            exists document :: SignedInOrder(f, raw, authority, document) && Listed(document.keys, KeyId(f, authority))
    ensures ParsePolicy(f, raw, authority).Parsed? <==>
            exists document :: SignedInOrder(f, raw, authority, document) && !Listed(document.keys, KeyId(f, authority))
  {
    hide Authenticated, Statuses, StrictlySorted, StringLess, PlainText, Listed, KeyId, ParsePolicy;
    if f.parseKey(authority).Some? && f.decodePolicyEnvelope(raw).Some? {
      var e := f.decodePolicyEnvelope(raw).value;
      var payload := Authenticated(f, e, f.policyType, authority, MAX_POLICY_BYTES);
      if PlainText(raw, MAX_POLICY_ENVELOPE_BYTES) && payload.Some? && DocumentAccepted(f, payload.value) {
        var document := f.decodePolicy(payload.value).value;
        assert SignedInOrder(f, raw, authority, document);
        ParsedDocument(f, raw, authority, e, payload.value, document);
        ListedInTable(document.keys, KeyId(f, authority));
      } else {
        NotParsed(f, raw, authority);
      }
    } else {
      NotParsed(f, raw, authority);
    }
  }

  lemma NotParsed(f: Foreign, raw: Bytes, authority: Bytes)
    requires f.parseKey(authority).Some? && f.decodePolicyEnvelope(raw).Some? && PlainText(raw, MAX_POLICY_ENVELOPE_BYTES) ==>
               var payload := Authenticated(f, f.decodePolicyEnvelope(raw).value, f.policyType, authority, MAX_POLICY_BYTES);
               payload.None? || !DocumentAccepted(f, payload.value)
    ensures ParsePolicy(f, raw, authority) == InvalidPolicy
    ensures forall document :: !SignedInOrder(f, raw, authority, document)
  {
    hide Authenticated, StrictlySorted, PlainText, Statuses;
  }

  lemma ParsedDocument(f: Foreign, raw: Bytes, authority: Bytes, e: Envelope, payload: Bytes, document: PolicyDocument)
    requires PlainText(raw, MAX_POLICY_ENVELOPE_BYTES) && f.parseKey(authority).Some? && f.decodePolicyEnvelope(raw) == Some(e)
    requires Authenticated(f, e, f.policyType, authority, MAX_POLICY_BYTES) == Some(payload)
    requires DocumentAccepted(f, payload) && f.decodePolicy(payload) == Some(document)
    ensures StrictlySorted(KeyIds(document.keys), StringLess)
    ensures ParsePolicy(f, raw, authority).InvalidPolicy? == false
    ensures ParsePolicy(f, raw, authority) == RoleConflict <==> KeyId(f, authority) in Statuses(document.keys)
    ensures forall other :: SignedInOrder(f, raw, authority, other) ==> other == document
  {
    hide Authenticated, StrictlySorted, PlainText, Statuses;
  }

  lemma ListedInTable(keys: seq<PolicyKey>, id: string)
    requires StrictlySorted(KeyIds(keys), StringLess)
    ensures id in Statuses(keys) <==> Listed(keys, id)
  {
    hide StrictlySorted, StringLess, Distinct, Statuses;
    SortedIsDistinct(KeyIds(keys));
    StatusesAreListed(keys);
    if id in Statuses(keys) {
      assert id in Elements(KeyIds(keys));
      var i :| 0 <= i < |KeyIds(keys)| && KeyIds(keys)[i] == id;
      assert keys[i] in keys;
    }
  }

  /** What acceptance means, end to end: signatures lead hop by hop from the explicit root to the
      explicit terminal key through distinct authorities and growing generations; the terminal key
      signed the policy; both floors are met; the evidence signer is one the policy trusts; and no authority
      of the chain is in the policy at all, so the signer is none of them. */
  lemma AcceptanceIsSound(f: Foreign, files: Files, request: Request, chain: VerifiedChain, policy: SignedPolicy)
    returns (keys: seq<Bytes>, generations: seq<nat>, payload: Bytes)
    requires ChainGate(f, files, request, chain) && PolicyGate(f, files, chain, policy)
    requires FloorGate(request, policy) && RoleGate(f, chain, policy) && SignerGate(f, request, policy)
    ensures HandedAlong(f, keys, generations) && MIN_HOPS <= |generations| <= MAX_HOPS
    ensures Some(keys[0]) == files.root && Some(keys[|generations|]) == files.terminal
    ensures chain.authorityIds == IdsOf(f, keys) && Distinct(chain.authorityIds)
    ensures |generations| <= chain.terminalGeneration && request.authorityFloor <= chain.terminalGeneration
    ensures SignedBy(f, keys[|generations|], f.policyType, payload) && f.decodePolicy(payload).Some?
    ensures request.policyFloor <= f.decodePolicy(payload).value.generation == policy.generation
    ensures PolicyKey(request.signer, Trusted) in f.decodePolicy(payload).value.keys
    ensures forall id, k :: id in chain.authorityIds && k in f.decodePolicy(payload).value.keys ==> k.keyId != id
    ensures request.signer !in chain.authorityIds
  {
    hide VerifyChain, ParsePolicy, HandedAlong, SignedBy, Distinct, IdsOf, Tabulates, EvaluateSigner;
    keys, generations := ChainIsSound(f, files.chain.value, files.root.value, files.terminal.value, request.authorityFloor, chain);
    payload := PolicyIsSound(f, files.policy.value, files.terminal.value, policy);
    var listed := f.decodePolicy(payload).value.keys;
    AnswerIsListed(f, policy, listed, request.signer);
    forall id, k | id in chain.authorityIds && k in listed ensures k.keyId != id { AnswerIsListed(f, policy, listed, id); }
  }
}
