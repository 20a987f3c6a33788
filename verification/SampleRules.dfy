/**
 Concrete declarations of any size the code takes: patterns that differ only in
 where a marker stands in a run of `<`, and the rules they compile to. Other
 modules use them to show that a bound can be reached by what a plan may declare.
 */
module SampleRules {
  import opened Prelude
  import opened Ordering
  import opened Paths
  import opened WriteScope

  const MARKER := "00000"

  /** What CompileRules returns for a declared list it accepts. */
  ghost predicate CompiledFrom(rules: seq<Rule>, patterns: seq<string>)
  {
    && |patterns| <= RULE_LIMIT
    && (forall p :: p in patterns ==> ValidPattern(p))
    && StrictlySorted(rules, RuleLess)
    && Elements(rules) == RulesOf(patterns)
  }

  function Repeat(c: char, n: nat): (s: string)
    ensures |s| == n && forall k :: 0 <= k < n ==> s[k] == c
  {
    seq(n, _ => c)
  }

  function Name(mark: nat, length: nat): string
    requires mark <= length
  {
    Repeat('<', mark) + MARKER + Repeat('<', length - mark)
  }

  function Base(mark: nat, length: nat): string
    requires mark <= length
  {
    CONTAINER_OUTPUTS + "/" + Name(mark, length)
  }

  function Patterns(count: nat, length: nat): (patterns: seq<string>)
    requires count <= length
    ensures |patterns| == count
  {
    seq(count, i requires 0 <= i < count => Base(i, length))
  }

  function Rules(count: nat, length: nat): (rules: seq<Rule>)
    requires count <= length
    ensures |rules| == count
  {
    seq(count, i requires 0 <= i < count => Rule(Exact, Base(i, length)))
  }

  predicate Plain(c: char) { ' ' < c <= '~' && c !in {'/', '\\', '*', '.'} }

  lemma {:induction false} AsciiByteLength(s: string)
    requires forall c :: c in s ==> c as int < 0x80
    ensures ByteLength(s) == |s|
  {
    if s != "" {
      assert s[0] in s && forall c :: c in s[1..] ==> c in s;
      AsciiByteLength(s[1..]);
    }
  }

  lemma StarlessIsExact(pattern: string)
    requires pattern != "" && pattern[|pattern| - 1] != '*'
    ensures RuleOf(pattern) == Rule(Exact, pattern)
  {
    assert TREE_SUFFIX[|TREE_SUFFIX| - 1] == '*' && CHILD_SUFFIX[|CHILD_SUFFIX| - 1] == '*';
  }

  /** A file directly below the root whose name has only plain characters is a pattern, for itself. */
  lemma PlainNameIsPattern(name: string)
    requires name != "" && |name| <= PATH_LIMIT - |CONTAINER_OUTPUTS| - 1
    requires forall c :: c in name ==> Plain(c)
    ensures var pattern := CONTAINER_OUTPUTS + "/" + name; ValidPattern(pattern) && RuleOf(pattern) == Rule(Exact, pattern)
  {
    hide IsCleanAbsolute, ByteLength, RuleOf;
    var head, pattern := CONTAINER_OUTPUTS + "/", CONTAINER_OUTPUTS + "/" + name;
    assert pattern[|pattern| - 1] == name[|name| - 1] && name[|name| - 1] in name;
    StarlessIsExact(pattern);
    assert pattern[..|head|] == head;
    assert CleanSegment(name) by { assert name[0] in name; }
    CleanBelowOutputs(name);
    OutputsIsPrintable();
    assert '\\' !in CONTAINER_OUTPUTS && forall c :: c in CONTAINER_OUTPUTS ==> c as int < 0x80;
    assert forall c :: c in pattern ==> c in CONTAINER_OUTPUTS || c == '/' || c in name;
    AsciiByteLength(pattern);
  }

  lemma NameIsPlain(mark: nat, length: nat)
    requires mark <= length
    ensures |Name(mark, length)| == length + |MARKER|
    ensures forall c :: c in Name(mark, length) ==> Plain(c)
  {
    assert forall c :: c in MARKER ==> c == '0';
  }

  lemma {:induction false} LessAtDifference(a: string, b: string, k: nat)
    requires k < |a| && k < |b| && a[..k] == b[..k] && a[k] < b[k]
    ensures StringLess(a, b)
  {
    if k > 0 {
      assert a[0] == a[..k][0] && b[0] == b[..k][0];
      assert a[1..][..k - 1] == a[..k][1..] && b[1..][..k - 1] == b[..k][1..];
      LessAtDifference(a[1..], b[1..], k - 1);
    }
  }

  lemma EarlierMarkIsLess(i: nat, j: nat, length: nat)
    requires i < j <= length
    ensures StringLess(Base(i, length), Base(j, length)) && Base(i, length) != Base(j, length)
  {
    var a, b, k := Base(i, length), Base(j, length), |CONTAINER_OUTPUTS| + 1 + i;
    assert a[k] == MARKER[0] == '0' && b[k] == '<';
    assert a[..k] == b[..k];
    LessAtDifference(a, b, k);
  }

  /** The sample rules are what the sample patterns compile to. */
  lemma SampleIsCompiled(count: nat, length: nat)
    requires count <= length <= PATH_LIMIT - |CONTAINER_OUTPUTS| - 1 - |MARKER| && count <= RULE_LIMIT
    ensures CompiledFrom(Rules(count, length), Patterns(count, length))
  {
    hide ValidPattern, StringLess, Base, RuleOf;
    var rules, patterns := Rules(count, length), Patterns(count, length);
    forall i | 0 <= i < count ensures ValidPattern(patterns[i]) && RuleOf(patterns[i]) == rules[i] {
      NameIsPlain(i, length);
      BaseIs(i, length);
      PlainNameIsPattern(Name(i, length));
    }
    forall i, j | 0 <= i < j < count ensures RuleLess(rules[i], rules[j]) {
      EarlierMarkIsLess(i, j, length);
    }
    forall rule ensures rule in Elements(rules) <==> rule in RulesOf(patterns) {
      if rule in Elements(rules) {
        var i :| 0 <= i < count && rules[i] == rule;
        assert patterns[i] in patterns;
      }
      if rule in RulesOf(patterns) {
        var p :| p in patterns && RuleOf(p) == rule;
        var i :| 0 <= i < count && patterns[i] == p;
        assert rules[i] in rules;
      }
    }
  }

  lemma BaseIs(mark: nat, length: nat)
    requires mark <= length
    ensures Base(mark, length) == CONTAINER_OUTPUTS + "/" + Name(mark, length)
  {
  }
}
