/**
 How long the controller's commands are on the wire. The controller writes them
 with Go's encoding/json, which escapes quotes and backslashes in two bytes and,
 so that the text could stand in HTML, `<`, `>` and `&` in six. The limits on a
 command are limits on this length.
 */
module ControlSize {
  import opened Paths
  import opened WriteScope
  import opened SampleRules

  const CONTROL_LIMIT := 0x8_0000       // longest phase command, without its newline
  const SHORT_CONTROL_LIMIT := 512      // longest start or stop command
  const TOKEN_LENGTH := 64              // hexadecimal digits of the session token

  /** What a character of a string costs. */
  function EscapedWidth(c: char): nat
  {
    if c == '"' || c == '\\' then 2
    else if c as int in {0x08, 0x09, 0x0a, 0x0c, 0x0d} then 2
    else if c < ' ' || c == '<' || c == '>' || c == '&' || c as int == 0x2028 || c as int == 0x2029 then 6
    else Utf8Width(c)
  }

  function EscapedLength(s: string): nat
  {
    if s == "" then 0 else EscapedWidth(s[0]) + EscapedLength(s[1..])
  }

  // Keys, punctuation and fixed values (see FixedTexts).
  const BARE_RULE_SIZE: nat := 21
  const BARE_PHASE_SIZE: nat := 52
  const BARE_STOP_SIZE: nat := 29

  function RuleSize(rule: Rule): nat { BARE_RULE_SIZE + |rule.kind.Name()| + EscapedLength(rule.base) }

  /** The elements of the list and the commas between them. */
  function RulesSize(rules: seq<Rule>): nat
  {
    if rules == [] then 0
    else RuleSize(rules[0]) + (if |rules| > 1 then 1 else 0) + RulesSize(rules[1..])
  }

  function PhaseCommandSize(name: string, rules: seq<Rule>): nat
  {
    BARE_PHASE_SIZE + TOKEN_LENGTH + EscapedLength(name) + RulesSize(rules)
  }

  const STOP_COMMAND_SIZE := BARE_STOP_SIZE + TOKEN_LENGTH

  /** The fixed sizes are those of the texts with every value taken out. */
  lemma FixedTexts()
    ensures BARE_RULE_SIZE == |"{\"kind\":\"\",\"base\":\"\"}"|
    ensures BARE_PHASE_SIZE == |"{\"command\":\"phase\",\"token\":\"\",\"phase\":\"\",\"rules\":[]}"|
    ensures BARE_STOP_SIZE == |"{\"command\":\"stop\",\"token\":\"\"}"|
  {
  }

  // ---------------------------------------------------------------------
  // Which lists reach the limit
  // ---------------------------------------------------------------------

  lemma {:induction false} EscapedLengthAppend(s: string, t: string)
    ensures EscapedLength(s + t) == EscapedLength(s) + EscapedLength(t)
  {
    if s == "" {
      assert s + t == t;
    } else {
      EscapedLengthAppend(s[1..], t);
      assert (s + t)[1..] == s[1..] + t;
    }
  }

  lemma {:induction false} RulesSizeAtMost(rules: seq<Rule>, most: nat)
    requires forall rule :: rule in rules ==> RuleSize(rule) <= most
    ensures RulesSize(rules) <= |rules| * (most + 1)
  {
    hide RuleSize;
    if rules != [] {
      assert rules[0] in rules && forall rule :: rule in rules[1..] ==> rule in rules;
      RulesSizeAtMost(rules[1..], most);
      assert |rules| * (most + 1) == (|rules| - 1) * (most + 1) + most + 1;
    }
  }

  /** A list of bases without any character that needs an escape stays well below the limit. */
  lemma UnescapedRulesFit(name: string, rules: seq<Rule>)
    requires |rules| <= RULE_LIMIT && EscapedLength(name) <= PATH_LIMIT
    requires forall rule :: rule in rules ==> EscapedLength(rule.base) <= PATH_LIMIT
    ensures PhaseCommandSize(name, rules) < CONTROL_LIMIT
  {
    hide EscapedLength;
    forall rule | rule in rules ensures RuleSize(rule) <= BARE_RULE_SIZE + 5 + PATH_LIMIT { NameIsShort(rule.kind); }
    hide RuleSize;
    RulesSizeAtMost(rules, BARE_RULE_SIZE + 5 + PATH_LIMIT);
    hide RulesSize;
    assert |rules| * 1051 <= RULE_LIMIT * 1051;
  }

  lemma NameIsShort(kind: RuleKind)
    ensures |kind.Name()| <= 5
  {
  }

  predicate Unescaped(c: char) { ' ' <= c <= '~' && c !in {'"', '\\', '<', '>', '&'} }

  lemma {:induction false} UnescapedSize(s: string)
    requires forall k :: 0 <= k < |s| ==> Unescaped(s[k])
    ensures EscapedLength(s) == |s|
  {
    if s != "" { UnescapedSize(s[1..]); }
  }

  lemma {:induction false} RepeatSize(c: char, n: nat)
    ensures EscapedLength(Repeat(c, n)) == n * EscapedWidth(c)
  {
    hide EscapedWidth;
    if n > 0 {
      RepeatSize(c, n - 1);
      assert Repeat(c, n)[1..] == Repeat(c, n - 1);
      assert n * EscapedWidth(c) == (n - 1) * EscapedWidth(c) + EscapedWidth(c);
    }
  }

  /** The sample bases: six bytes for every `<` of the run. */
  lemma SampleBaseSize(mark: nat, length: nat)
    requires mark <= length
    ensures EscapedLength(Base(mark, length)) == 6 * length + 14
  {
    hide EscapedLength, Repeat;
    var head, left, right := CONTAINER_OUTPUTS + "/", Repeat('<', mark), Repeat('<', length - mark);
    RepeatSize('<', mark);
    RepeatSize('<', length - mark);
    UnescapedSize(MARKER);
    UnescapedSize(head);
    assert EscapedWidth('<') == 6 && |MARKER| == 5 && |head| == 9;
    hide EscapedWidth;
    EscapedLengthAppend(left, MARKER);
    EscapedLengthAppend(left + MARKER, right);
    EscapedLengthAppend(head, Name(mark, length));
  }

  lemma {:induction false} EqualRulesSize(rules: seq<Rule>, each: nat)
    requires forall k :: 0 <= k < |rules| ==> RuleSize(rules[k]) == each
    ensures rules != [] ==> RulesSize(rules) == |rules| * (each + 1) - 1
  {
    hide RuleSize;
    if |rules| == 1 {
      assert rules[1..] == [];
    } else if |rules| > 1 {
      EqualRulesSize(rules[1..], each);
      assert |rules| * (each + 1) == (|rules| - 1) * (each + 1) + each + 1;
    }
  }

  lemma SampleRuleSize(mark: nat, length: nat)
    requires mark <= length
    ensures RuleSize(Rule(Exact, Base(mark, length))) == 6 * length + 40
  {
    SampleBaseSize(mark, length);
    hide EscapedLength, Base;
    assert |Exact.Name()| == 5;
  }

  /** Eighty-six sample rules of 6094 bytes each make a `run` command of exactly the limit. */
  lemma EightySixRulesReachTheLimit()
    ensures PhaseCommandSize("run", Rules(86, 1009)) == CONTROL_LIMIT
  {
    hide RuleSize, EscapedLength, RulesSize, Base;
    forall k | 0 <= k < 86 ensures RuleSize(Rules(86, 1009)[k]) == 6094 { SampleRuleSize(k, 1009); }
    EqualRulesSize(Rules(86, 1009), 6094);
    UnescapedSize("run");
  }
}
