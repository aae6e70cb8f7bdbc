/**
 * Missing-rule diagnostics of the language server: a pre-order walk over the
 * bodies of the parsed rules and over the queries that reports every call
 * whose name has no rules, or whose rules match none of its argument lists.
 * The walk never descends into a `.` (lookup) expression.
 */
module MissingRules {
  import opened Terms

  /** One parsed line of a policy file. */
  datatype Line = RuleLine(rule: Rule) | Query(term: Term)

  /** A diagnostic: the message and the (left, right) span it covers. */
  type UnusedRule = (string, nat, nat)

  /**
   * What the walk needs from the knowledge base: the rules of each name in
   * id order, applicability of a rule to call arguments, and the Polar text
   * of a call value and of a rule.
   */
  datatype KnowledgeBase = KnowledgeBase(
    rules: map<Symbol, seq<Rule>>,
    isApplicable: (Rule, seq<Term>) -> bool,
    callText: Value -> string,
    ruleText: Rule -> string)

  /** `get_applicable_rules`: the rules applicable to the arguments, in order. */
  function ApplicableRules(kb: KnowledgeBase, rules: seq<Rule>, args: seq<Term>): (r: seq<Rule>)
    ensures |r| == 0 <==> forall i :: 0 <= i < |rules| ==> !kb.isApplicable(rules[i], args)
    decreases |rules|
  {
    if rules == [] then []
    else
      var rest := ApplicableRules(kb, rules[1..], args);
      assert forall i :: 1 <= i < |rules| ==> rules[i] == rules[1..][i - 1];
      if kb.isApplicable(rules[0], args) then [rules[0]] + rest else rest
  }

  function Join(parts: seq<string>, sep: string): string
    decreases |parts|
  {
    if parts == [] then ""
    else if |parts| == 1 then parts[0]
    else parts[0] + sep + Join(parts[1..], sep)
  }

  function RuleTexts(kb: KnowledgeBase, rules: seq<Rule>): (r: seq<string>)
    ensures |r| == |rules|
  {
    seq(|rules|, i requires 0 <= i < |rules| => kb.ruleText(rules[i]))
  }

  const NoMatchPrefix := "There are no rules matching the format:\n"

  /** The no-applicable-rule message: the call, then every rule of the name. */
  function NoMatchMessage(kb: KnowledgeBase, call: Value, rules: seq<Rule>): string
  {
    NoMatchPrefix + kb.callText(call) + "\nFound:\n" + Join(RuleTexts(kb, rules), "\n  ") + "\n"
  }

  function NoRulesMessage(name: Symbol): string
  {
    "There are no rules with the name \"" + name + "\""
  }

  predicate IsDot(t: Term)
  {
    t.value.Expression? && t.value.op.operator == Dot
  }

  /** What the visitor reports for one term, before walking its children. */
  function Report(kb: KnowledgeBase, t: Term): seq<UnusedRule>
  {
    match t.value
    case Call(name, args, _) =>
      var (left, right) := SpanOrZero(t);
      if name in kb.rules then
        if |ApplicableRules(kb, kb.rules[name], args)| == 0 then
          [(NoMatchMessage(kb, t.value, kb.rules[name]), left, right)]
        else []
      else [(NoRulesMessage(name), left, right)]
    case _ => []
  }

  /** `visit_term`: nothing for a lookup; otherwise the term's report, then its children's. */
  function Missing(kb: KnowledgeBase, t: Term): seq<UnusedRule>
    decreases t, 1
  {
    if IsDot(t) then [] else Report(kb, t) + MissingFrom(kb, t, 0)
  }

  function MissingFrom(kb: KnowledgeBase, t: Term, i: nat): seq<UnusedRule>
    requires i <= |Children(t)|
    decreases t, 0, |Children(t)| - i
  {
    if i == |Children(t)| then [] else Missing(kb, Children(t)[i]) + MissingFrom(kb, t, i + 1)
  }

  /** A rule contributes its body only; a query, the whole term. */
  function LineMissing(kb: KnowledgeBase, line: Line): seq<UnusedRule>
  {
    match line
    case RuleLine(rule) => Missing(kb, rule.body)
    case Query(q) => Missing(kb, q)
  }

  function LinesMissing(kb: KnowledgeBase, lines: seq<Line>): seq<UnusedRule>
    decreases |lines|
  {
    if lines == [] then []
    else LinesMissing(kb, lines[..|lines| - 1]) + LineMissing(kb, lines[|lines| - 1])
  }

  /** Collects diagnostics while walking terms; the entries are only ever appended. */
  class UnusedRuleVisitor {
    const kb: KnowledgeBase
    var missingRules: seq<UnusedRule>

    constructor (kb: KnowledgeBase)
      ensures this.kb == kb && missingRules == []
    {
      this.kb := kb;
      missingRules := [];
    }

    /** The `Value::Call` arm of `visit_term`: at most one diagnostic for the call itself. */
    method CheckCall(t: Term)
      modifies this
      ensures missingRules == old(missingRules) + Report(kb, t)
    {
      if t.value.Call? {
        var (left, right) := SpanOrZero(t);
        var name := t.value.name;
        if name in kb.rules {
          if |ApplicableRules(kb, kb.rules[name], t.value.args)| == 0 {
            missingRules := missingRules + [(NoMatchMessage(kb, t.value, kb.rules[name]), left, right)];
          }
        } else {
          missingRules := missingRules + [(NoRulesMessage(name), left, right)];
        }
      }
      assert Report(kb, t) == [] ==> old(missingRules) + Report(kb, t) == old(missingRules);
    }

    method VisitTerm(t: Term)
      modifies this
      ensures missingRules == old(missingRules) + Missing(kb, t)
      decreases t
    {
      if IsDot(t) {
        assert old(missingRules) + [] == old(missingRules);
        return;
      }
      CheckCall(t);
      ghost var start := missingRules;
      var children := Children(t);
      for i := 0 to |children|
        invariant missingRules + MissingFrom(kb, t, i) == start + MissingFrom(kb, t, 0)
      {
        ghost var before := missingRules;
        VisitTerm(children[i]);
        calc {
          before + MissingFrom(kb, t, i);
          before + (Missing(kb, children[i]) + MissingFrom(kb, t, i + 1));
          missingRules + MissingFrom(kb, t, i + 1);
        }
      }
      assert missingRules + [] == missingRules;
      assert start + MissingFrom(kb, t, 0) == old(missingRules) + Missing(kb, t);
    }
  }

  /**
   * `find_missing_rules`: the diagnostics of every line in order, or none at
   * all when the source does not parse.
   */
  method FindMissingRules(kb: KnowledgeBase, parsed: PolarResult<seq<Line>>) returns (r: seq<UnusedRule>)
    ensures parsed.Err? ==> r == []
    ensures parsed.Ok? ==> r == LinesMissing(kb, parsed.value)
  {
    var visitor := new UnusedRuleVisitor(kb);
    if parsed.Ok? {
      var lines := parsed.value;
      for i := 0 to |lines|
        invariant visitor.missingRules == LinesMissing(kb, lines[..i])
      {
        assert lines[..i + 1][..i] == lines[..i];
        match lines[i] {
          case RuleLine(rule) => visitor.VisitTerm(rule.body);
          case Query(q) => visitor.VisitTerm(q);
        }
      }
      assert lines[..|lines|] == lines;
    }
    r := visitor.missingRules;
  }

  // ---------------------------------------------------------------------
  // Reference: the walk is the report of each reachable term, in pre-order
  // ---------------------------------------------------------------------

  /** The terms the walk visits, parents before children, nothing below a lookup. */
  function Reachable(t: Term): seq<Term>
    decreases t, 1
  {
    if IsDot(t) then [] else [t] + ReachableFrom(t, 0)
  }

  function ReachableFrom(t: Term, i: nat): seq<Term>
    requires i <= |Children(t)|
    decreases t, 0, |Children(t)| - i
  {
    if i == |Children(t)| then [] else Reachable(Children(t)[i]) + ReachableFrom(t, i + 1)
  }

  function ReportAll(kb: KnowledgeBase, ts: seq<Term>): seq<UnusedRule>
    decreases |ts|
  {
    if ts == [] then [] else Report(kb, ts[0]) + ReportAll(kb, ts[1..])
  }

  lemma {:induction false} ReportAllAppend(kb: KnowledgeBase, a: seq<Term>, b: seq<Term>)
    ensures ReportAll(kb, a + b) == ReportAll(kb, a) + ReportAll(kb, b)
    decreases |a|
  {
    if a == [] {
      assert a + b == b;
    } else {
      assert (a + b)[1..] == a[1..] + b;
      ReportAllAppend(kb, a[1..], b);
    }
  }

  /** The diagnostics are exactly the reports of the reachable terms, in walk order. */
  lemma {:induction false} MissingIsReportsOfReachable(kb: KnowledgeBase, t: Term)
    ensures Missing(kb, t) == ReportAll(kb, Reachable(t))
    decreases t, 1
  {
    if !IsDot(t) {
      MissingFromIsReports(kb, t, 0);
      ReportAllAppend(kb, [t], ReachableFrom(t, 0));
      assert ReportAll(kb, [t]) == Report(kb, t) by {
        assert [t][1..] == [];
      }
    }
  }

  lemma {:induction false} MissingFromIsReports(kb: KnowledgeBase, t: Term, i: nat)
    requires i <= |Children(t)|
    ensures MissingFrom(kb, t, i) == ReportAll(kb, ReachableFrom(t, i))
    decreases t, 0, |Children(t)| - i
  {
    if i < |Children(t)| {
      MissingIsReportsOfReachable(kb, Children(t)[i]);
      MissingFromIsReports(kb, t, i + 1);
      ReportAllAppend(kb, Reachable(Children(t)[i]), ReachableFrom(t, i + 1));
    }
  }

  /**
   * Pre-order and no lookups: a term that is not a lookup is visited first,
   * each child's walk follows in child order, and no visited term is a lookup.
   */
  lemma {:induction false} ReachableShape(t: Term)
    ensures !IsDot(t) ==> |Reachable(t)| > 0 && Reachable(t)[0] == t
    ensures IsDot(t) ==> Reachable(t) == []
    ensures NoLookups(Reachable(t))
    decreases t, 1
  {
    if !IsDot(t) {
      ReachableFromNoDot(t, 0);
      NoLookupsAppend([t], ReachableFrom(t, 0));
    }
  }

  predicate NoLookups(ts: seq<Term>)
  {
    forall i :: 0 <= i < |ts| ==> !IsDot(ts[i])
  }

  lemma NoLookupsAppend(a: seq<Term>, b: seq<Term>)
    requires NoLookups(a) && NoLookups(b)
    ensures NoLookups(a + b)
  {
    forall i | 0 <= i < |a + b| ensures !IsDot((a + b)[i]) {
      if i < |a| { assert (a + b)[i] == a[i]; } else { assert (a + b)[i] == b[i - |a|]; }
    }
  }

  lemma {:induction false} ReachableFromNoDot(t: Term, i: nat)
    requires i <= |Children(t)|
    ensures NoLookups(ReachableFrom(t, i))
    decreases t, 0, |Children(t)| - i
  {
    if i < |Children(t)| {
      ReachableShape(Children(t)[i]);
      ReachableFromNoDot(t, i + 1);
      NoLookupsAppend(Reachable(Children(t)[i]), ReachableFrom(t, i + 1));
    }
  }

  /**
   * One term's report: at most one entry, present exactly for a call whose
   * name has no rules or whose rules are none of them applicable, carrying
   * the term's span (or (0, 0)) and the matching message.
   */
  lemma ReportSpec(kb: KnowledgeBase, t: Term)
    ensures |Report(kb, t)| <= 1
    ensures |Report(kb, t)| == 1 <==>
              t.value.Call? &&
              (t.value.name !in kb.rules ||
               forall i :: 0 <= i < |kb.rules[t.value.name]| ==> !kb.isApplicable(kb.rules[t.value.name][i], t.value.args))
    ensures |Report(kb, t)| == 1 ==>
              Report(kb, t)[0].1 == SpanOrZero(t).0 && Report(kb, t)[0].2 == SpanOrZero(t).1 &&
              Report(kb, t)[0].0 ==
                (if t.value.name in kb.rules then NoMatchMessage(kb, t.value, kb.rules[t.value.name])
                 else NoRulesMessage(t.value.name))
  {
  }

  /** A lookup contributes nothing, wherever it occurs and whatever it contains. */
  lemma {:induction false} LookupsAreSilent(kb: KnowledgeBase, t: Term, i: nat)
    requires i < |Children(t)| && IsDot(Children(t)[i])
    ensures MissingFrom(kb, t, i) == MissingFrom(kb, t, i + 1)
  {
    assert Missing(kb, Children(t)[i]) == [];
    assert [] + MissingFrom(kb, t, i + 1) == MissingFrom(kb, t, i + 1);
  }
}
