/**
 Declared write scopes. A plan declares patterns (a path, the children of a
 path, or a whole tree); the controller matches them itself against retained state,
 and also compiles them into (kind, base) rules that the Python helper applies
 to live notifications. The point of this module is that the two agree.
 */
module WriteScope {
  import opened Prelude
  import opened Ordering
  import opened Paths

  const RULE_LIMIT := 256
  const TREE_SUFFIX := "/**"
  const CHILD_SUFFIX := "/*"

  datatype RuleKind = Exact | Child | Tree {
    function Name(): string { match this case Exact => "exact" case Child => "child" case Tree => "tree" }
  }

  datatype Rule = Rule(kind: RuleKind, base: string)

  // ---------------------------------------------------------------------
  // The controller's side
  // ---------------------------------------------------------------------

  function RuleOf(pattern: string): Rule
  {
    if HasSuffix(pattern, TREE_SUFFIX) then Rule(Tree, pattern[..|pattern| - |TREE_SUFFIX|])
    else if HasSuffix(pattern, CHILD_SUFFIX) then Rule(Child, pattern[..|pattern| - |CHILD_SUFFIX|])
    else Rule(Exact, pattern)
  }

  predicate ValidPattern(pattern: string)
  {
    var base := RuleOf(pattern).base;
    && pattern != ""
    && ByteLength(pattern) <= PATH_LIMIT
    && '\\' !in pattern
    && Printable(pattern)
    && base != ""
    && IsCleanAbsolute(base)
    && (base == CONTAINER_OUTPUTS || BelowOutputs(base))
  }

  predicate ValidObserved(path: string)
  {
    && path != ""
    && ByteLength(path) <= PATH_LIMIT
    && BelowOutputs(path)
    && IsCleanAbsolute(path)
    && Printable(path)
  }

  /** filesystemDeclarationPatternMatches. */
  predicate PatternMatches(pattern: string, observed: string)
  {
    if !ValidPattern(pattern) || !ValidObserved(observed) then false
    else if HasSuffix(pattern, TREE_SUFFIX) then
      var base := pattern[..|pattern| - |TREE_SUFFIX|];
      observed == base || HasPrefix(observed, base + "/")
    else if HasSuffix(pattern, CHILD_SUFFIX) then
      var base := pattern[..|pattern| - |CHILD_SUFFIX|];
      && HasPrefix(observed, base + "/")
      && observed[|base| + 1..] != ""
      && '/' !in observed[|base| + 1..]
    else
      observed == pattern
  }

  predicate RuleLess(a: Rule, b: Rule)
  {
    if a.base != b.base then StringLess(a.base, b.base) else StringLess(a.kind.Name(), b.kind.Name())
  }

  lemma NamesDiffer(a: RuleKind, b: RuleKind)
    ensures a.Name() == b.Name() ==> a == b
  {
    assert Exact.Name()[0] == 'e' && Child.Name()[0] == 'c' && Tree.Name()[0] == 't';
  }

  lemma RuleLessTotal(a: Rule, b: Rule)
    ensures RuleLess(a, b) || RuleLess(b, a) || a == b
    ensures !RuleLess(a, a)
  {
    StringLessTotal(a.base, b.base);
    StringLessTotal(a.kind.Name(), b.kind.Name());
    StringLessTotal(a.kind.Name(), a.kind.Name());
    NamesDiffer(a.kind, b.kind);
  }

  lemma RuleLessTransitive(a: Rule, b: Rule, c: Rule)
    requires RuleLess(a, b) && RuleLess(b, c)
    ensures RuleLess(a, c)
  {
    if a.base != b.base && b.base != c.base {
      StringLessTransitive(a.base, b.base, c.base);
      StringLessTotal(a.base, c.base);
      StringLessTotal(a.base, b.base);
    } else if a.base == b.base == c.base {
      StringLessTransitive(a.kind.Name(), b.kind.Name(), c.kind.Name());
    }
  }

  lemma RuleLessIsStrictOrder()
    ensures StrictOrder(RuleLess)
  {
    forall a: Rule, b: Rule
      ensures RuleLess(a, b) || RuleLess(b, a) || a == b
      ensures !RuleLess(a, a)
    {
      RuleLessTotal(a, b);
    }
    forall a, b, c | RuleLess(a, b) && RuleLess(b, c) ensures RuleLess(a, c) {
      RuleLessTransitive(a, b, c);
    }
  }

  /** Sorted rules are in the order of their bases, and for one base the child rule comes before the exact
      one and the tree rule last. */
  lemma SortedByBase(rules: seq<Rule>, i: nat, j: nat)
    requires StrictlySorted(rules, RuleLess) && i < j < |rules|
    ensures StringLess(rules[i].base, rules[j].base) || rules[i].base == rules[j].base
    ensures rules[i].base == rules[j].base ==> rules[i].kind != rules[j].kind && rules[j].kind != Child && rules[i].kind != Tree
  {
    assert RuleLess(rules[i], rules[j]);
    RuleLessTotal(rules[i], rules[j]);
    assert Exact.Name()[0] == 'e' && Child.Name()[0] == 'c' && Tree.Name()[0] == 't';
  }

  /** The rules a pattern list stands for. */
  function RulesOf(patterns: seq<string>): set<Rule> { set p | p in patterns :: RuleOf(p) }

  /** The rules for a phase: none when the phase declares nothing, an error when the list is too
      long or some pattern is invalid, otherwise the patterns' rules, sorted and without repeats. */
  method CompileRules(declared: Option<seq<string>>) returns (compiled: Option<seq<Rule>>)
    ensures declared.None? ==> compiled == Some([])
    ensures declared.Some? ==>
              (compiled.Some? <==> |declared.value| <= 256 && forall p :: p in declared.value ==> ValidPattern(p))
    ensures declared.Some? && compiled.Some? ==>
              StrictlySorted(compiled.value, RuleLess) && Elements(compiled.value) == RulesOf(declared.value)
  {
    hide ValidPattern, RuleOf, RuleLess, StrictOrder, StrictlySorted;
    if declared.None? { return Some([]); }
    var patterns := declared.value;
    if |patterns| > RULE_LIMIT { return None; }
    var unique := {};
    for i := 0 to |patterns|
      invariant forall k :: 0 <= k < i ==> ValidPattern(patterns[k])
      invariant unique == RulesOf(patterns[..i])
    {
      if !ValidPattern(patterns[i]) {
        assert patterns[i] in patterns;
        return None;
      }
      assert patterns[..i + 1] == patterns[..i] + [patterns[i]];
      unique := unique + {RuleOf(patterns[i])};
    }
    assert patterns[..|patterns|] == patterns;
    RuleLessIsStrictOrder();
    var rules := SortedElements(unique, RuleLess);
    return Some(rules);
  }

  // ---------------------------------------------------------------------
  // The helper's side
  // ---------------------------------------------------------------------

  predicate RuleMatches(rule: Rule, path: string)
  {
    match rule.kind
    case Exact => path == rule.base
    case Tree => path == rule.base || HasPrefix(path, rule.base + "/")
    case Child => HasPrefix(path, rule.base + "/") && '/' !in path[|rule.base| + 1..]
  }

  /** The helper's `matches`: try the rules in order. */
  predicate HelperMatches(rules: seq<Rule>, path: string)
  {
    rules != [] && (RuleMatches(rules[0], path) || HelperMatches(rules[1..], path))
  }

  predicate HelperValidText(value: string) { ByteLength(value) <= PATH_LIMIT && Printable(value) }

  predicate HelperValidBase(value: string)
  {
    && HelperValidText(value)
    && '\\' !in value
    && (value == CONTAINER_OUTPUTS || BelowOutputs(value))
    && IsCleanAbsolute(value)
  }

  lemma {:induction false} HelperMatchesIsExists(rules: seq<Rule>, path: string)
    ensures HelperMatches(rules, path) <==> exists rule :: rule in rules && RuleMatches(rule, path)
  {
    if rules != [] {
      HelperMatchesIsExists(rules[1..], path);
      assert forall rule :: rule in rules <==> rule == rules[0] || rule in rules[1..];
    }
  }

  // ---------------------------------------------------------------------
  // Validity, character by character
  // ---------------------------------------------------------------------

  /** A path that may be observed: at most 1024 bytes, below /outputs, printable, a name behind every separator. */
  lemma ObservedByCharacters(p: string)
    ensures ValidObserved(p) <==>
            && ByteLength(p) <= 1024
            && |p| >= 9 && p[..9] == "/outputs/"
            && (forall i :: 0 <= i < |p| ==> p[i] >= ' ' && p[i] != '\U{7F}')
            && NameBehindEverySlash(p)
  {
    CleanByCharacters(p);
    hide NameBehindEverySlash, IsCleanAbsolute, ByteLength;
    assert CONTAINER_OUTPUTS + "/" == "/outputs/";
    PrintableByCharacters(p);
  }

  lemma PrintableByCharacters(p: string)
    ensures Printable(p) <==> forall i :: 0 <= i < |p| ==> p[i] >= ' ' && p[i] != '\U{7F}'
  {
    if Printable(p) {
      forall i | 0 <= i < |p| ensures p[i] >= ' ' && p[i] != '\U{7F}' { assert p[i] in p; }
    }
  }

  /** A base the helper takes is /outputs or such a path, and has no backslash. */
  lemma BaseByCharacters(p: string)
    ensures HelperValidBase(p) <==> (p == "/outputs" || ValidObserved(p)) && '\\' !in p
  {
    OutputsIsValid();
    hide IsCleanAbsolute, ByteLength;
  }

  lemma NamesOfBase(base: string, suffix: string)
    requires base != "" && |suffix| >= 2 && suffix[0] == '/' && forall k :: 1 <= k < |suffix| ==> suffix[k] == '*'
    ensures NameBehindEverySlash(base + suffix) <==> NameBehindEverySlash(base)
  {
    var p, n := base + suffix, |base|;
    assert forall k :: 0 <= k < n ==> p[k] == base[k];
    assert forall k :: n <= k < |p| ==> p[k] == suffix[k - n];
    forall i | 0 <= i <= n ensures NameAt(p, i) <==> NameAt(base, i) {
    }
    assert NameAt(p, n + 1);
    hide NameAt;
    if NameBehindEverySlash(p) {
      forall i | 0 <= i < n && base[i] == '/' ensures NameAt(base, i + 1) { assert p[i] == '/'; }
    }
    if NameBehindEverySlash(base) {
      forall i | 0 <= i < |p| && p[i] == '/' ensures NameAt(p, i + 1) {
        if i < n { assert base[i] == '/'; }
      }
    }
  }

  lemma OutputsPrefix(base: string, suffix: string)
    requires suffix == TREE_SUFFIX || suffix == CHILD_SUFFIX
    requires BelowOutputs(base + suffix)
    ensures base == CONTAINER_OUTPUTS || base == "" || BelowOutputs(base)
  {
    var p, n := base + suffix, |base|;
    assert p[n] == '/' && p[..9] == "/outputs/";
    assert forall k :: 0 <= k < 9 ==> p[k] == "/outputs/"[k];
    assert n == 0 || n >= 8;
    if n == 8 { assert base == p[..8] == "/outputs/"[..8]; }
    if n > 8 { assert base[..9] == p[..9]; }
  }

  lemma PartsAreClean(base: string, suffix: string)
    requires (suffix == TREE_SUFFIX || suffix == CHILD_SUFFIX) && base != ""
    ensures IsCleanAbsolute(base + suffix) <==> IsCleanAbsolute(base) && base != "/"
  {
    CleanByCharacters(base);
    CleanByCharacters(base + suffix);
    NamesOfBase(base, suffix);
    RootHasNoName(suffix);
    hide IsCleanAbsolute, NameBehindEverySlash;
  }

  lemma RootHasNoName(suffix: string)
    ensures !NameBehindEverySlash("/")
  {
    assert "/"[0] == '/';
  }

  lemma PartsAreBelow(base: string, suffix: string)
    requires suffix == TREE_SUFFIX || suffix == CHILD_SUFFIX
    ensures base + suffix == CONTAINER_OUTPUTS || BelowOutputs(base + suffix) <==>
            base == CONTAINER_OUTPUTS || BelowOutputs(base) || (base == "" && BelowOutputs(suffix))
  {
    var p := base + suffix;
    assert p[|p| - 1] == '*';
    if base == CONTAINER_OUTPUTS || BelowOutputs(base) { assert p[..9] == (base + "/")[..9]; }
    if BelowOutputs(p) { OutputsPrefix(base, suffix); }
  }

  lemma PatternPartsAreValid(base: string, suffix: string)
    requires suffix == TREE_SUFFIX || suffix == CHILD_SUFFIX
    ensures HelperValidBase(base + suffix) <==>
            && ByteLength(base + suffix) <= PATH_LIMIT && '\\' !in base + suffix && Printable(base + suffix)
            && base != "" && IsCleanAbsolute(base) && (base == CONTAINER_OUTPUTS || BelowOutputs(base))
  {
    PartsAreBelow(base, suffix);
    if base != "" { PartsAreClean(base, suffix); }
    hide IsCleanAbsolute, ByteLength, Printable;
    assert base == CONTAINER_OUTPUTS || BelowOutputs(base) ==> base != "/";
    assert !BelowOutputs(suffix);
  }

  /** A pattern is valid exactly when, its stars taken as a name, it is itself a base the helper would take. */
  lemma PatternIsValidIff(pattern: string)
    ensures ValidPattern(pattern) <==> HelperValidBase(pattern)
  {
    hide ByteLength, Printable, BelowOutputs, Split, CleanSegment;
    var n := |pattern|;
    if HasSuffix(pattern, TREE_SUFFIX) {
      Rejoin(pattern, n - |TREE_SUFFIX|, TREE_SUFFIX);
      PatternPartsAreValid(pattern[..n - |TREE_SUFFIX|], TREE_SUFFIX);
    } else if HasSuffix(pattern, CHILD_SUFFIX) {
      Rejoin(pattern, n - |CHILD_SUFFIX|, CHILD_SUFFIX);
      PatternPartsAreValid(pattern[..n - |CHILD_SUFFIX|], CHILD_SUFFIX);
    }
  }

  /** What a rule matches, in terms of what is added to its base. */
  lemma RuleMatchesMeans(base: string, path: string)
    ensures RuleMatches(Rule(Exact, base), path) <==> path == base
    ensures RuleMatches(Rule(Child, base), path) <==> exists name :: path == base + "/" + name && '/' !in name
    ensures RuleMatches(Rule(Tree, base), path) <==> path == base || exists rest: string :: path == base + "/" + rest
  {
    if HasPrefix(path, base + "/") {
      assert path == base + "/" + path[|base| + 1..];
    }
    forall rest: string | path == base + "/" + rest ensures HasPrefix(path, base + "/") && path[|base| + 1..] == rest {
      assert path[..|base| + 1] == base + "/";
    }
  }

  // ---------------------------------------------------------------------
  // Agreement
  // ---------------------------------------------------------------------

  function PatternOf(rule: Rule): string
  {
    rule.base + (match rule.kind case Exact => "" case Child => CHILD_SUFFIX case Tree => TREE_SUFFIX)
  }

  /** Nothing is lost by compiling: the pattern can be read back from its rule. */
  lemma PatternRoundTrip(pattern: string)
    ensures PatternOf(RuleOf(pattern)) == pattern
  {
    var n := |pattern|;
    if HasSuffix(pattern, TREE_SUFFIX) {
      Rejoin(pattern, n - |TREE_SUFFIX|, TREE_SUFFIX);
    } else if HasSuffix(pattern, CHILD_SUFFIX) {
      Rejoin(pattern, n - |CHILD_SUFFIX|, CHILD_SUFFIX);
    }
  }

  lemma Rejoin(s: string, n: nat, suffix: string)
    requires n <= |s| && s[n..] == suffix
    ensures s[..n] + suffix == s
  {
  }

  lemma SuffixOfBelow(path: string, base: string)
    requires HasPrefix(path, base + "/") && path[|path| - 1] != '/'
    ensures path[|base| + 1..] != ""
  {
    assert path[|base|] == (base + "/")[|base|];
  }

  lemma RuleAgreesWithPattern(pattern: string, observed: string)
    requires ValidPattern(pattern) && ValidObserved(observed)
    ensures PatternMatches(pattern, observed) <==> RuleMatches(RuleOf(pattern), observed)
  {
    var base := RuleOf(pattern).base;
    assert observed != "/" by { assert |observed| > 1; }
    CleanHasNoTrailingSlash(observed);
    if HasPrefix(observed, base + "/") {
      SuffixOfBelow(observed, base);
    }
  }

  /** Compilation preserves meaning: on any valid observed path, some declared pattern matches on
      the controller's side exactly when the compiled rules match on the helper's side. */
  lemma CompilationPreservesMeaning(patterns: seq<string>, rules: seq<Rule>, observed: string)
    requires forall p :: p in patterns ==> ValidPattern(p)
    requires Elements(rules) == RulesOf(patterns)
    requires ValidObserved(observed)
    ensures (exists p :: p in patterns && PatternMatches(p, observed)) <==> HelperMatches(rules, observed)
  {
    HelperMatchesIsExists(rules, observed);
    if p :| p in patterns && PatternMatches(p, observed) {
      RuleAgreesWithPattern(p, observed);
      assert RuleOf(p) in RulesOf(patterns);
      assert RuleOf(p) in Elements(rules);
    }
    if rule :| rule in rules && RuleMatches(rule, observed) {
      assert rule in RulesOf(patterns);
      var p :| p in patterns && RuleOf(p) == rule;
      RuleAgreesWithPattern(p, observed);
    }
  }

  // ---------------------------------------------------------------------
  // Rules on the wire
  // ---------------------------------------------------------------------

  /** What setOperationNotificationPhase checks of a rule before sending it. */
  predicate ControllerAcceptsRule(rule: Rule) { rule.base == CONTAINER_OUTPUTS || ValidObserved(rule.base) }

  /** A rule the controller is willing to send is one the helper takes, exactly when its base has no
      backslash: the controller's check does not look for one. */
  lemma SentRuleIsTakenIff(rule: Rule)
    requires ControllerAcceptsRule(rule)
    ensures HelperValidBase(rule.base) <==> '\\' !in rule.base
  {
    if rule.base == CONTAINER_OUTPUTS { OutputsIsValid(); }
  }

  /** Such a rule exists, a file named by a single backslash: the controller sends it and the helper
      refuses it. */
  lemma BackslashRuleIsRefused()
    ensures var rule := Rule(Exact, CONTAINER_OUTPUTS + "/" + ['\\']);
            ControllerAcceptsRule(rule) && !HelperValidBase(rule.base)
  {
    var base := CONTAINER_OUTPUTS + "/" + ['\\'];
    ByteLengthAtMost(base);
    CleanBelowOutputs(['\\']);
    hide IsCleanAbsolute, ByteLength;
    assert base[..|CONTAINER_OUTPUTS + "/"|] == CONTAINER_OUTPUTS + "/";
    assert base[|base| - 1] == '\\' && base[|base| - 1] in base;
    OutputsIsPrintable();
    assert forall c :: c in base ==> c in CONTAINER_OUTPUTS || c == '/' || c == '\\';
  }

  lemma OutputsIsPrintable()
    ensures Printable(CONTAINER_OUTPUTS)
  {
    OutputsIsValid();
    hide IsCleanAbsolute, ByteLength;
  }

  lemma CleanBelowOutputs(name: string)
    requires CleanSegment(name) && '/' !in name
    ensures IsCleanAbsolute(CONTAINER_OUTPUTS + "/" + name)
  {
    var head := CONTAINER_OUTPUTS[1..];
    assert CleanSegment(head) && '/' !in head by { assert head[0] == 'o'; }
    var path := CONTAINER_OUTPUTS + "/" + name;
    assert path[0] == '/' && path[1..] == head + ['/'] + name;
    SplitFirst(head, '/', name);
    PlainSplit(name, '/');
    hide Split, CleanSegment;
    assert Split(path[1..], '/') == [head, name];
  }

  lemma SplitFirst(head: string, separator: char, rest: string)
    requires separator !in head
    ensures Split(head + [separator] + rest, separator) == [head] + Split(rest, separator)
  {
    var all := head + [separator] + rest;
    IndexOfPrepend(head, separator, rest);
    assert all[..|head|] == head && all[|head| + 1..] == rest;
  }

  lemma OutputsIsValid()
    ensures HelperValidBase(CONTAINER_OUTPUTS)
  {
    OutputsIsClean();
    hide IsCleanAbsolute;
    ByteLengthAtMost(CONTAINER_OUTPUTS);
  }

  lemma OutputsIsClean()
    ensures IsCleanAbsolute(CONTAINER_OUTPUTS)
  {
    var tail := CONTAINER_OUTPUTS[1..];
    PlainSplit(tail, '/');
    assert CleanSegment(tail) by { assert tail[0] == 'o'; }
  }

  lemma PlainSplit(s: string, separator: char)
    requires separator !in s
    ensures Split(s, separator) == [s]
  {
  }

  lemma BaseTravels(pattern: string)
    requires ValidPattern(pattern)
    ensures ControllerAcceptsRule(RuleOf(pattern)) && HelperValidBase(RuleOf(pattern).base)
  {
    var base := RuleOf(pattern).base;
    var suffix := pattern[|base|..];
    assert pattern == base + suffix;
    ByteLengthAppend(base, suffix);
    assert Printable(base) by {
      forall c | c in base ensures c in pattern { }
    }
    assert '\\' !in base;
  }

  /** Every compiled rule passes both checks, so a compiled list is never refused for its bases. */
  lemma CompiledRulesTravel(patterns: seq<string>, rules: seq<Rule>)
    requires forall p :: p in patterns ==> ValidPattern(p)
    requires Elements(rules) == RulesOf(patterns)
    ensures forall rule :: rule in rules ==> ControllerAcceptsRule(rule) && HelperValidBase(rule.base)
  {
    forall rule | rule in rules ensures ControllerAcceptsRule(rule) && HelperValidBase(rule.base) {
      assert rule in Elements(rules);
      var p :| p in patterns && RuleOf(p) == rule;
      BaseTravels(p);
    }
  }
}
