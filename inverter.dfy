/**
 * Negation as failure. `not G` runs G in a cloned sub-VM; every result's
 * binding stack above the entry index `bsp` is collected, inverted per
 * variable, de-duplicated (latest binding wins) and merged across results by
 * conjunction; the merged bindings are appended to the parent's stack.
 */
module Inverter {
  import opened Terms

  // ---------------------------------------------------------------------
  // The constraint algebra and the folder the inverter uses but does not
  // define, as uninterpreted stand-ins.
  // ---------------------------------------------------------------------

  /** `PartialInverter`: the variable being inverted and its state before the negation. */
  datatype PartialInverter = PartialInverter(thisVar: Symbol, oldState: VariableState)

  /**
   * `Operation::constraints`, `Operation::inverted_constraints(csp)`,
   * `Operation::clone_with_constraints`, `Operation::merge_constraints` and
   * `fold_value` driven by a `PartialInverter`.
   */
  datatype Algebra = Algebra(
    constraints: Operation -> seq<Operation>,
    invertedConstraints: (Operation, nat) -> seq<Operation>,
    cloneWithConstraints: (Operation, seq<Operation>) -> Operation,
    mergeConstraints: (Operation, Operation) -> Operation,
    foldValue: (PartialInverter, Value) -> Value)

  /** The number of constraints the variable carried before the negation. */
  function Csp(alg: Algebra, pi: PartialInverter): nat
  {
    match pi.oldState
    case Partial(e) => |alg.constraints(e)|
    case _ => 0
  }

  /** Invert only the constraints past the pre-negation prefix. */
  function InvertOperation(alg: Algebra, pi: PartialInverter, o: Operation): Operation
  {
    alg.cloneWithConstraints(o, alg.invertedConstraints(o, Csp(alg, pi)))
  }

  /** `And(Neq(v, folded))`: the negated equality `v != folded`. */
  function NotEqual(v: Symbol, folded: Value): Value
  {
    Expression(Operation(And, [Mk(Expression(Operation(Neq, [Mk(Variable(v)), Mk(folded)])))]))
  }

  /**
   * `PartialInverter::fold_term`: an expression has its new constraints
   * inverted; any other value becomes a negated equality. The result is always
   * an expression and keeps the term's source span.
   */
  function FoldTerm(alg: Algebra, pi: PartialInverter, t: Term): (r: Term)
    ensures r.span == t.span
    ensures r.value.Expression?
  {
    CloneWithValue(t, match t.value
      case Expression(o) => Expression(InvertOperation(alg, pi, o))
      case v => NotEqual(pi.thisVar, alg.foldValue(pi, v)))
  }

  // ---------------------------------------------------------------------
  // invert_partials
  // ---------------------------------------------------------------------

  /** The inversion of one binding, given its variable's state before the negation. */
  function InvertBinding(alg: Algebra, st: VariableState, b: Binding): PolarResult<Option<Binding>>
  {
    match st
    case Unbound =>
      Ok(Some(Binding(b.variable, FoldTerm(alg, PartialInverter(b.variable, Unbound), b.value))))
    case Cycle(_) =>
      Ok(Some(Binding(b.variable, FoldTerm(alg, PartialInverter(b.variable, Unbound), b.value))))
    case Bound(x) =>
      if Same(x, b.value) then Ok(None) else Err(Panic("inconsistent bindings"))
    case Partial(e) =>
      Ok(Some(Binding(b.variable, FoldTerm(alg, PartialInverter(b.variable, Partial(e)), b.value))))
  }

  /** The inverted stack: each binding inverted in order; the first inconsistency aborts. */
  function Inverted(alg: Algebra, stateAt: (Symbol, nat) -> VariableState, bsp: nat, bs: BindingStack)
    : PolarResult<BindingStack>
    decreases |bs|
  {
    if bs == [] then Ok([])
    else
      match Inverted(alg, stateAt, bsp, bs[..|bs| - 1])
      case Err(e) => Err(e)
      case Ok(prefix) =>
        match InvertBinding(alg, stateAt(bs[|bs| - 1].variable, bsp), bs[|bs| - 1])
        case Err(e) => Err(e)
        case Ok(None) => Ok(prefix)
        case Ok(Some(nb)) => Ok(prefix + [nb])
  }

  lemma {:induction false} InvertedErrPersists(alg: Algebra, stateAt: (Symbol, nat) -> VariableState,
                                               bsp: nat, bs: BindingStack, k: nat)
    requires k <= |bs|
    requires Inverted(alg, stateAt, bsp, bs[..k]).Err?
    ensures Inverted(alg, stateAt, bsp, bs) == Inverted(alg, stateAt, bsp, bs[..k])
    decreases |bs| - k
  {
    if k < |bs| {
      assert bs[..k + 1][..k] == bs[..k];
      InvertedErrPersists(alg, stateAt, bsp, bs, k + 1);
    } else {
      assert bs[..k] == bs;
    }
  }

  /** `invert_partials`: the loop that pushes onto `new_bindings`. */
  method InvertPartials(alg: Algebra, bindings: BindingStack, stateAt: (Symbol, nat) -> VariableState, bsp: nat)
    returns (r: PolarResult<BindingStack>)
    ensures r == Inverted(alg, stateAt, bsp, bindings)
  {
    var newBindings: BindingStack := [];
    for i := 0 to |bindings|
      invariant Inverted(alg, stateAt, bsp, bindings[..i]) == Ok(newBindings)
    {
      assert bindings[..i + 1][..i] == bindings[..i];
      var b := bindings[i];
      match stateAt(b.variable, bsp)
      case Unbound =>
        newBindings := newBindings + [Binding(b.variable, FoldTerm(alg, PartialInverter(b.variable, Unbound), b.value))];
      case Cycle(_) =>
        newBindings := newBindings + [Binding(b.variable, FoldTerm(alg, PartialInverter(b.variable, Unbound), b.value))];
      case Bound(x) =>
        if !Same(x, b.value) {
          InvertedErrPersists(alg, stateAt, bsp, bindings, i + 1);
          return Err(Panic("inconsistent bindings"));
        }
      case Partial(e) =>
        newBindings := newBindings + [Binding(b.variable, FoldTerm(alg, PartialInverter(b.variable, Partial(e)), b.value))];
    }
    assert bindings[..|bindings|] == bindings;
    r := Ok(newBindings);
  }

  /** The bindings whose variable was not Bound before the negation, in input order. */
  function NotBound(stateAt: (Symbol, nat) -> VariableState, bsp: nat, bs: BindingStack): (r: BindingStack)
    ensures |r| <= |bs|
    decreases |bs|
  {
    if bs == [] then []
    else if stateAt(bs[|bs| - 1].variable, bsp).Bound? then NotBound(stateAt, bsp, bs[..|bs| - 1])
    else NotBound(stateAt, bsp, bs[..|bs| - 1]) + [bs[|bs| - 1]]
  }

  /** A binding whose variable was Bound before the negation signals no inconsistency. */
  predicate Consistent(stateAt: (Symbol, nat) -> VariableState, bsp: nat, b: Binding)
  {
    stateAt(b.variable, bsp).Bound? ==> Same(stateAt(b.variable, bsp).term, b.value)
  }

  /** Inversion fails exactly when some Bound variable was given a different value. */
  lemma {:induction false} InvertedOkIff(alg: Algebra, stateAt: (Symbol, nat) -> VariableState,
                                         bsp: nat, bs: BindingStack)
    ensures Inverted(alg, stateAt, bsp, bs).Ok? <==> forall i :: 0 <= i < |bs| ==> Consistent(stateAt, bsp, bs[i])
    ensures Inverted(alg, stateAt, bsp, bs).Err? ==> Inverted(alg, stateAt, bsp, bs).error == Panic("inconsistent bindings")
    decreases |bs|
  {
    if bs != [] {
      var p := bs[..|bs| - 1];
      InvertedOkIff(alg, stateAt, bsp, p);
      assert forall i :: 0 <= i < |p| ==> p[i] == bs[i];
    }
  }

  /**
   * What inversion makes of a stack: one inverted binding per binding whose
   * variable was not Bound, in input order; every value is an expression with
   * the original span. An expression has its constraints past the variable's
   * pre-negation count inverted; any other value becomes `var != value`.
   */
  lemma {:induction false} InvertedShape(alg: Algebra, stateAt: (Symbol, nat) -> VariableState,
                                         bsp: nat, bs: BindingStack)
    requires Inverted(alg, stateAt, bsp, bs).Ok?
    ensures var r := Inverted(alg, stateAt, bsp, bs).value;
            var kept := NotBound(stateAt, bsp, bs);
            && |r| == |kept|
            && forall k :: 0 <= k < |r| ==>
                 var st := stateAt(kept[k].variable, bsp);
                 && r[k].variable == kept[k].variable
                 && r[k].value.span == kept[k].value.span
                 && r[k].value.value.Expression?
                 && !st.Bound?
                 && (kept[k].value.value.Expression? ==>
                       r[k].value.value == Expression(alg.cloneWithConstraints(kept[k].value.value.op,
                           alg.invertedConstraints(kept[k].value.value.op, Csp(alg, PartialInverter(kept[k].variable, st))))))
                 && (!kept[k].value.value.Expression? && !st.Partial? ==>
                       r[k].value.value == NotEqual(kept[k].variable,
                           alg.foldValue(PartialInverter(kept[k].variable, Unbound), kept[k].value.value)))
                 && (!kept[k].value.value.Expression? && st.Partial? ==>
                       r[k].value.value == NotEqual(kept[k].variable,
                           alg.foldValue(PartialInverter(kept[k].variable, st), kept[k].value.value)))
    decreases |bs|
  {
    if bs != [] {
      InvertedShape(alg, stateAt, bsp, bs[..|bs| - 1]);
    }
  }

  /** Every value of a stack is an expression. */
  predicate AllExpressions(bs: BindingStack)
  {
    forall i :: 0 <= i < |bs| ==> bs[i].value.value.Expression?
  }

  lemma InvertedAllExpressions(alg: Algebra, stateAt: (Symbol, nat) -> VariableState,
                               bsp: nat, bs: BindingStack)
    requires Inverted(alg, stateAt, bsp, bs).Ok?
    ensures AllExpressions(Inverted(alg, stateAt, bsp, bs).value)
  {
    InvertedShape(alg, stateAt, bsp, bs);
  }

  // ---------------------------------------------------------------------
  // dedupe_bindings
  // ---------------------------------------------------------------------

  /** The variables a stack binds. */
  function Vars(bs: BindingStack): set<Symbol>
    decreases |bs|
  {
    if bs == [] then {} else Vars(bs[..|bs| - 1]) + {bs[|bs| - 1].variable}
  }

  /** The position of the last binding of `v`. */
  function LastIndex(bs: BindingStack, v: Symbol): (i: nat)
    requires v in Vars(bs)
    ensures i < |bs| && bs[i].variable == v
    ensures forall j :: i < j < |bs| ==> bs[j].variable != v
    decreases |bs|
  {
    if bs[|bs| - 1].variable == v then |bs| - 1 else LastIndex(bs[..|bs| - 1], v)
  }

  predicate NoDuplicateVars(bs: BindingStack)
  {
    forall j, k :: 0 <= j < k < |bs| ==> bs[j].variable != bs[k].variable
  }

  /** Filter from the latest binding back, keeping a variable's first sighting. */
  function DedupeFrom(bs: BindingStack, seen: set<Symbol>): BindingStack
    decreases |bs|
  {
    if bs == [] then []
    else if bs[|bs| - 1].variable in seen then DedupeFrom(bs[..|bs| - 1], seen)
    else [bs[|bs| - 1]] + DedupeFrom(bs[..|bs| - 1], seen + {bs[|bs| - 1].variable})
  }

  function Deduped(bs: BindingStack): BindingStack
  {
    DedupeFrom(bs, {})
  }

  /** `dedupe_bindings`: walk the stack in reverse, keeping what `seen.insert` accepts. */
  method DedupeBindings(bindings: BindingStack) returns (r: BindingStack)
    ensures r == Deduped(bindings)
  {
    var seen: set<Symbol> := {};
    r := [];
    var i := |bindings|;
    assert bindings[..i] == bindings;
    while i > 0
      invariant 0 <= i <= |bindings|
      invariant r + DedupeFrom(bindings[..i], seen) == Deduped(bindings)
    {
      assert bindings[..i][..i - 1] == bindings[..i - 1];
      i := i - 1;
      var b := bindings[i];
      if b.variable !in seen {
        seen := seen + {b.variable};
        r := r + [b];
      }
    }
  }

  /** `b` is the last binding of its variable in `p`. */
  predicate LatestOf(p: BindingStack, b: Binding)
  {
    b.variable in Vars(p) && b == p[LastIndex(p, b.variable)]
  }

  /** `r` lists bindings latest-first: their last positions in `p` strictly decrease. */
  predicate LatestFirst(p: BindingStack, r: BindingStack)
  {
    forall j, k :: 0 <= j < k < |r| ==>
      r[j].variable in Vars(p) && r[k].variable in Vars(p) &&
      LastIndex(p, r[j].variable) > LastIndex(p, r[k].variable)
  }

  lemma LastIndexSnoc(q: BindingStack, b: Binding, v: Symbol)
    requires v in Vars(q) && v != b.variable
    ensures v in Vars(q + [b]) && LastIndex(q + [b], v) == LastIndex(q, v)
  {
    assert (q + [b])[..|q|] == q;
  }

  lemma {:induction false} DedupeFromVars(p: BindingStack, seen: set<Symbol>)
    ensures Vars(DedupeFrom(p, seen)) == Vars(p) - seen
    decreases |p|
  {
    if p != [] {
      var b := p[|p| - 1];
      var q := p[..|p| - 1];
      if b.variable in seen {
        DedupeFromVars(q, seen);
      } else {
        DedupeFromVars(q, seen + {b.variable});
        VarsCons(b, DedupeFrom(q, seen + {b.variable}));
      }
    }
  }

  /** The last binding of a stack is the latest binding of its variable. */
  lemma LastIsLatest(q: BindingStack, b: Binding)
    ensures b.variable in Vars(q + [b]) && LastIndex(q + [b], b.variable) == |q|
    ensures LatestOf(q + [b], b)
  {
    assert (q + [b])[..|q|] == q;
  }

  /** Prepending the latest binding of a fresh variable keeps the listing latest-first. */
  lemma PrependLatest(p: BindingStack, b: Binding, rest: BindingStack, r: BindingStack)
    requires |r| == |rest| + 1 && r[0] == b && forall k :: 0 < k < |r| ==> r[k] == rest[k - 1]
    requires b.variable in Vars(p) && LastIndex(p, b.variable) == |p| - 1
    requires forall k :: 0 <= k < |rest| ==> rest[k].variable in Vars(p) && LastIndex(p, rest[k].variable) < |p| - 1
    requires LatestFirst(p, rest)
    ensures LatestFirst(p, r)
  {
    forall j, k | 0 <= j < k < |r|
      ensures r[j].variable in Vars(p) && r[k].variable in Vars(p)
      ensures LastIndex(p, r[j].variable) > LastIndex(p, r[k].variable)
    {
      if j > 0 {
        assert LastIndex(p, rest[j - 1].variable) > LastIndex(p, rest[k - 1].variable);
      }
    }
  }

  lemma {:induction false} DedupeFromLatest(p: BindingStack, seen: set<Symbol>)
    ensures var r := DedupeFrom(p, seen);
            && (forall k :: 0 <= k < |r| ==> LatestOf(p, r[k]) && r[k].variable !in seen)
            && LatestFirst(p, r)
    decreases |p|
  {
    if p != [] {
      var b := p[|p| - 1];
      var q := p[..|p| - 1];
      assert p == q + [b];
      var seen' := if b.variable in seen then seen else seen + {b.variable};
      DedupeFromLatest(q, seen');
      var rest := DedupeFrom(q, seen');
      forall k | 0 <= k < |rest|
        ensures LatestOf(p, rest[k])
        ensures LastIndex(p, rest[k].variable) == LastIndex(q, rest[k].variable) < |q|
      {
        LastIndexSnoc(q, b, rest[k].variable);
      }
      assert LatestFirst(p, rest) by {
        forall j, k | 0 <= j < k < |rest|
          ensures LastIndex(p, rest[j].variable) > LastIndex(p, rest[k].variable)
        {
          LastIndexSnoc(q, b, rest[j].variable);
          LastIndexSnoc(q, b, rest[k].variable);
        }
      }
      if b.variable !in seen {
        var r := [b] + rest;
        LastIsLatest(q, b);
        PrependLatest(p, b, rest, r);
        assert forall k :: 0 < k < |r| ==> r[k] == rest[k - 1];
      }
    }
  }

  lemma {:induction false} VarsCons(b: Binding, bs: BindingStack)
    ensures Vars([b] + bs) == {b.variable} + Vars(bs)
    decreases |bs|
  {
    if bs != [] {
      assert ([b] + bs)[..|bs|] == [b] + bs[..|bs| - 1];
      VarsCons(b, bs[..|bs| - 1]);
    } else {
      assert [b] + bs == [b];
      assert [b][..0] == [];
    }
  }

  /**
   * Latest wins: the de-duplicated stack binds exactly the input's variables,
   * each once, to the value of its last binding, and lists them latest-first
   * (descending position of that last binding).
   */
  lemma DedupedLatestWins(bs: BindingStack)
    ensures var r := Deduped(bs);
            && Vars(r) == Vars(bs)
            && NoDuplicateVars(r)
            && (forall k :: 0 <= k < |r| ==> LatestOf(bs, r[k]))
            && LatestFirst(bs, r)
  {
    DedupeFromVars(bs, {});
    DedupeFromLatest(bs, {});
  }

  // ---------------------------------------------------------------------
  // reduce_constraints
  // ---------------------------------------------------------------------

  /** The fold's accumulator: the merged bindings and the variables in first-appearance order. */
  datatype Reduced = Reduced(bindings: map<Symbol, Term>, vars: seq<Symbol>)

  /** One binding folded in: a new variable is recorded; a known one must merge expressions. */
  function MergeBinding(alg: Algebra, acc: Reduced, b: Binding): PolarResult<Reduced>
  {
    if b.variable in acc.bindings then
      match (acc.bindings[b.variable].value, b.value.value)
      case (Expression(x), Expression(y)) =>
        Ok(acc.(bindings := acc.bindings[b.variable := CloneWithValue(b.value, Expression(alg.mergeConstraints(x, y)))]))
      case _ => Err(Panic("Illegal state reached while reducing constraints for " + b.variable))
    else
      Ok(Reduced(acc.bindings[b.variable := b.value], acc.vars + [b.variable]))
  }

  function MergeAll(alg: Algebra, acc: Reduced, bs: BindingStack): PolarResult<Reduced>
    decreases |bs|
  {
    if bs == [] then Ok(acc)
    else
      match MergeAll(alg, acc, bs[..|bs| - 1])
      case Err(e) => Err(e)
      case Ok(a) => MergeBinding(alg, a, bs[|bs| - 1])
  }

  /** The fold over all result stacks, each de-duplicated first. */
  function ReduceAll(alg: Algebra, stacks: seq<BindingStack>): PolarResult<Reduced>
    decreases |stacks|
  {
    if stacks == [] then Ok(Reduced(map[], []))
    else
      match ReduceAll(alg, stacks[..|stacks| - 1])
      case Err(e) => Err(e)
      case Ok(a) => MergeAll(alg, a, Deduped(stacks[|stacks| - 1]))
  }

  lemma {:induction false} MergeAllErrPersists(alg: Algebra, acc: Reduced, bs: BindingStack, k: nat)
    requires k <= |bs|
    requires MergeAll(alg, acc, bs[..k]).Err?
    ensures MergeAll(alg, acc, bs) == MergeAll(alg, acc, bs[..k])
    decreases |bs| - k
  {
    if k < |bs| {
      assert bs[..k + 1][..k] == bs[..k];
      MergeAllErrPersists(alg, acc, bs, k + 1);
    } else {
      assert bs[..k] == bs;
    }
  }

  lemma {:induction false} ReduceAllErrPersists(alg: Algebra, stacks: seq<BindingStack>, k: nat)
    requires k <= |stacks|
    requires ReduceAll(alg, stacks[..k]).Err?
    ensures ReduceAll(alg, stacks) == ReduceAll(alg, stacks[..k])
    decreases |stacks| - k
  {
    if k < |stacks| {
      assert stacks[..k + 1][..k] == stacks[..k];
      ReduceAllErrPersists(alg, stacks, k + 1);
    } else {
      assert stacks[..k] == stacks;
    }
  }

  /** The `for_each` over one de-duplicated stack, updating the fold's `acc` and `vars`. */
  method MergeStack(alg: Algebra, start: Reduced, deduped: BindingStack) returns (r: PolarResult<Reduced>)
    ensures r == MergeAll(alg, start, deduped)
  {
    var acc := start.bindings;
    var vars := start.vars;
    for j := 0 to |deduped|
      invariant MergeAll(alg, start, deduped[..j]) == Ok(Reduced(acc, vars))
    {
      assert deduped[..j + 1][..j] == deduped[..j];
      var b := deduped[j];
      if b.variable in acc {
        var existing := acc[b.variable].value;
        if existing.Expression? && b.value.value.Expression? {
          acc := acc[b.variable := CloneWithValue(b.value, Expression(alg.mergeConstraints(existing.op, b.value.value.op)))];
        } else {
          MergeAllErrPersists(alg, start, deduped, j + 1);
          return Err(Panic("Illegal state reached while reducing constraints for " + b.variable));
        }
      } else {
        acc := acc[b.variable := b.value];
        vars := vars + [b.variable];
      }
    }
    assert deduped[..|deduped|] == deduped;
    r := Ok(Reduced(acc, vars));
  }

  /** `reduce_constraints`: the fold over the result stacks. */
  method ReduceConstraints(alg: Algebra, stacks: seq<BindingStack>) returns (r: PolarResult<Reduced>)
    ensures r == ReduceAll(alg, stacks)
  {
    var acc := Reduced(map[], []);
    for i := 0 to |stacks|
      invariant ReduceAll(alg, stacks[..i]) == Ok(acc)
    {
      assert stacks[..i + 1][..i] == stacks[..i];
      var deduped := DedupeBindings(stacks[i]);
      var merged := MergeStack(alg, acc, deduped);
      if merged.Err? {
        ReduceAllErrPersists(alg, stacks, i + 1);
        return merged;
      }
      acc := merged.value;
    }
    assert stacks[..|stacks|] == stacks;
    r := Ok(acc);
  }

  function SetOf(xs: seq<Symbol>): set<Symbol>
  {
    set i | 0 <= i < |xs| :: xs[i]
  }

  lemma SetOfSnoc(xs: seq<Symbol>, v: Symbol)
    ensures SetOf(xs + [v]) == SetOf(xs) + {v}
  {
    var ys := xs + [v];
    forall x | x in SetOf(ys) ensures x in SetOf(xs) + {v} {
      var i :| 0 <= i < |ys| && ys[i] == x;
      if i < |xs| { assert xs[i] == x; }
    }
    forall x | x in SetOf(xs) + {v} ensures x in SetOf(ys) {
      if x == v {
        assert ys[|xs|] == x;
      } else {
        var i :| 0 <= i < |xs| && xs[i] == x;
        assert ys[i] == x;
      }
    }
  }

  predicate Distinct(xs: seq<Symbol>)
  {
    forall j, k :: 0 <= j < k < |xs| ==> xs[j] != xs[k]
  }

  /** The accumulator's invariant: map keys are exactly the listed variables, each listed once. */
  predicate KeysMatchVars(acc: Reduced)
  {
    acc.bindings.Keys == SetOf(acc.vars) && Distinct(acc.vars)
  }

  lemma MergeBindingKeepsKeys(alg: Algebra, acc: Reduced, b: Binding)
    requires KeysMatchVars(acc)
    requires MergeBinding(alg, acc, b).Ok?
    ensures KeysMatchVars(MergeBinding(alg, acc, b).value)
  {
    if b.variable !in acc.bindings {
      var vs := acc.vars + [b.variable];
      SetOfSnoc(acc.vars, b.variable);
      forall j | 0 <= j < |acc.vars| ensures vs[j] != b.variable {
        assert acc.vars[j] in SetOf(acc.vars);
      }
    }
  }

  lemma {:induction false} MergeAllKeepsKeys(alg: Algebra, acc: Reduced, bs: BindingStack)
    requires KeysMatchVars(acc)
    requires MergeAll(alg, acc, bs).Ok?
    ensures KeysMatchVars(MergeAll(alg, acc, bs).value)
    decreases |bs|
  {
    if bs != [] {
      MergeAllKeepsKeys(alg, acc, bs[..|bs| - 1]);
      MergeBindingKeepsKeys(alg, MergeAll(alg, acc, bs[..|bs| - 1]).value, bs[|bs| - 1]);
    }
  }

  /** The keys of the reduced map are exactly the returned variables, which are distinct. */
  lemma {:induction false} ReduceKeysAreVars(alg: Algebra, stacks: seq<BindingStack>)
    requires ReduceAll(alg, stacks).Ok?
    ensures KeysMatchVars(ReduceAll(alg, stacks).value)
    decreases |stacks|
  {
    if stacks != [] {
      var p := stacks[..|stacks| - 1];
      ReduceKeysAreVars(alg, p);
      MergeAllKeepsKeys(alg, ReduceAll(alg, p).value, Deduped(stacks[|stacks| - 1]));
    } else {
      assert SetOf([]) == {};
    }
  }

  /** The variable sequence of a stack. */
  function VarSeq(bs: BindingStack): (r: seq<Symbol>)
    ensures |r| == |bs|
    ensures forall i :: 0 <= i < |bs| ==> r[i] == bs[i].variable
  {
    seq(|bs|, i requires 0 <= i < |bs| => bs[i].variable)
  }

  /** Each variable at its first appearance, in order. */
  function FirstAppearances(xs: seq<Symbol>): seq<Symbol>
    decreases |xs|
  {
    if xs == [] then []
    else
      var d := FirstAppearances(xs[..|xs| - 1]);
      if xs[|xs| - 1] in xs[..|xs| - 1] then d else d + [xs[|xs| - 1]]
  }

  lemma {:induction false} FirstAppearancesMembers(xs: seq<Symbol>)
    ensures SetOf(FirstAppearances(xs)) == SetOf(xs)
    decreases |xs|
  {
    if xs != [] {
      var p := xs[..|xs| - 1];
      var v := xs[|xs| - 1];
      FirstAppearancesMembers(p);
      assert xs == p + [v];
      SetOfSnoc(p, v);
      var d := FirstAppearances(p);
      if v in p {
        var i :| 0 <= i < |p| && p[i] == v;
        assert v in SetOf(p);
      } else {
        SetOfSnoc(d, v);
      }
    }
  }

  /** The de-duplicated result stacks, concatenated in the order they are folded. */
  function Flattened(stacks: seq<BindingStack>): BindingStack
    decreases |stacks|
  {
    if stacks == [] then [] else Flattened(stacks[..|stacks| - 1]) + Deduped(stacks[|stacks| - 1])
  }

  lemma MergeBindingVars(alg: Algebra, acc: Reduced, seen: seq<Symbol>, b: Binding)
    requires KeysMatchVars(acc) && acc.vars == FirstAppearances(seen)
    requires MergeBinding(alg, acc, b).Ok?
    ensures MergeBinding(alg, acc, b).value.vars == FirstAppearances(seen + [b.variable])
  {
    var xs := seen + [b.variable];
    assert xs[..|xs| - 1] == seen;
    FirstAppearancesMembers(seen);
    if b.variable in seen {
      var i :| 0 <= i < |seen| && seen[i] == b.variable;
      assert b.variable in SetOf(seen);
    } else {
      assert b.variable !in SetOf(seen);
    }
  }

  lemma {:induction false} MergeAllVars(alg: Algebra, acc: Reduced, seen: seq<Symbol>, bs: BindingStack)
    requires KeysMatchVars(acc) && acc.vars == FirstAppearances(seen)
    requires MergeAll(alg, acc, bs).Ok?
    ensures MergeAll(alg, acc, bs).value.vars == FirstAppearances(seen + VarSeq(bs))
    decreases |bs|
  {
    if bs == [] {
      assert seen + VarSeq(bs) == seen;
    } else {
      var p := bs[..|bs| - 1];
      MergeAllVars(alg, acc, seen, p);
      MergeAllKeepsKeys(alg, acc, p);
      MergeBindingVars(alg, MergeAll(alg, acc, p).value, seen + VarSeq(p), bs[|bs| - 1]);
      assert seen + VarSeq(p) + [bs[|bs| - 1].variable] == seen + VarSeq(bs);
    }
  }

  lemma VarSeqAppend(a: BindingStack, b: BindingStack)
    ensures VarSeq(a + b) == VarSeq(a) + VarSeq(b)
  {
    assert forall i :: 0 <= i < |a| ==> (a + b)[i] == a[i];
    assert forall i :: |a| <= i < |a| + |b| ==> (a + b)[i] == b[i - |a|];
  }

  /** One step of the fold: the last stack is merged into the reduction of the earlier ones. */
  lemma ReduceAllStep(alg: Algebra, stacks: seq<BindingStack>)
    requires stacks != []
    requires ReduceAll(alg, stacks).Ok?
    ensures ReduceAll(alg, stacks[..|stacks| - 1]).Ok?
    ensures ReduceAll(alg, stacks) ==
            MergeAll(alg, ReduceAll(alg, stacks[..|stacks| - 1]).value, Deduped(stacks[|stacks| - 1]))
    ensures Flattened(stacks) == Flattened(stacks[..|stacks| - 1]) + Deduped(stacks[|stacks| - 1])
  {
  }

  /** `vars` lists every merged variable once, ordered by first appearance across the results. */
  lemma {:induction false} ReduceVarsFirstAppearance(alg: Algebra, stacks: seq<BindingStack>)
    requires ReduceAll(alg, stacks).Ok?
    ensures ReduceAll(alg, stacks).value.vars == FirstAppearances(VarSeq(Flattened(stacks)))
    decreases |stacks|
  {
    if stacks == [] {
      assert VarSeq([]) == [];
    } else {
      var p := stacks[..|stacks| - 1];
      var last := Deduped(stacks[|stacks| - 1]);
      ReduceAllStep(alg, stacks);
      var a := ReduceAll(alg, p).value;
      ReduceVarsFirstAppearance(alg, p);
      ReduceKeysAreVars(alg, p);
      MergeAllVars(alg, a, VarSeq(Flattened(p)), last);
      VarSeqAppend(Flattened(p), last);
    }
  }

  /** The values bound to `v` in a stack, in order. */
  function ValuesOf(bs: BindingStack, v: Symbol): seq<Term>
    decreases |bs|
  {
    if bs == [] then []
    else if bs[|bs| - 1].variable == v then ValuesOf(bs[..|bs| - 1], v) + [bs[|bs| - 1].value]
    else ValuesOf(bs[..|bs| - 1], v)
  }

  /** The conjunction of a variable's expressions: each later one merged into the earlier ones. */
  function Conjoined(alg: Algebra, ts: seq<Term>): Term
    requires |ts| > 0
    decreases |ts|
  {
    if |ts| == 1 then ts[0]
    else
      match Conjoined(alg, ts[..|ts| - 1]).value
      case Expression(x) =>
        (match ts[|ts| - 1].value
         case Expression(y) => CloneWithValue(ts[|ts| - 1], Expression(alg.mergeConstraints(x, y)))
         case _ => ts[|ts| - 1])
      case _ => ts[|ts| - 1]
  }

  /** The accumulator holds, for each variable seen so far, the conjunction of its expressions. */
  predicate HoldsConjunctions(alg: Algebra, acc: Reduced, seen: BindingStack)
  {
    && acc.bindings.Keys == Vars(seen)
    && forall v :: v in acc.bindings ==>
         |ValuesOf(seen, v)| > 0
         && acc.bindings[v].value.Expression?
         && acc.bindings[v] == Conjoined(alg, ValuesOf(seen, v))
  }

  lemma {:induction false} ValuesOfNonEmpty(bs: BindingStack, v: Symbol)
    ensures v in Vars(bs) <==> |ValuesOf(bs, v)| > 0
    decreases |bs|
  {
    if bs != [] { ValuesOfNonEmpty(bs[..|bs| - 1], v); }
  }

  lemma MergeBindingConjoins(alg: Algebra, acc: Reduced, seen: BindingStack, b: Binding)
    requires HoldsConjunctions(alg, acc, seen)
    requires b.value.value.Expression?
    ensures MergeBinding(alg, acc, b).Ok?
    ensures HoldsConjunctions(alg, MergeBinding(alg, acc, b).value, seen + [b])
  {
    var s2 := seen + [b];
    assert s2[..|s2| - 1] == seen;
    var r := MergeBinding(alg, acc, b).value;
    forall v | v in r.bindings
      ensures |ValuesOf(s2, v)| > 0
      ensures r.bindings[v].value.Expression?
      ensures r.bindings[v] == Conjoined(alg, ValuesOf(s2, v))
    {
      if v == b.variable {
        if b.variable in acc.bindings {
          var vs := ValuesOf(seen, v);
          assert ValuesOf(s2, v) == vs + [b.value];
          assert (vs + [b.value])[..|vs|] == vs;
        } else {
          ValuesOfNonEmpty(seen, v);
          assert ValuesOf(s2, v) == [b.value];
        }
      }
    }
  }

  lemma AllExpressionsPrefix(bs: BindingStack, k: nat)
    requires k <= |bs| && AllExpressions(bs)
    ensures AllExpressions(bs[..k])
  {
    assert forall i :: 0 <= i < k ==> bs[..k][i] == bs[i];
  }

  lemma MergeAllStep(alg: Algebra, acc: Reduced, bs: BindingStack)
    requires bs != [] && MergeAll(alg, acc, bs[..|bs| - 1]).Ok?
    ensures MergeAll(alg, acc, bs) == MergeBinding(alg, MergeAll(alg, acc, bs[..|bs| - 1]).value, bs[|bs| - 1])
  {
  }

  lemma {:induction false} MergeAllConjoinsAll(alg: Algebra, acc: Reduced, seen: BindingStack, bs: BindingStack)
    requires HoldsConjunctions(alg, acc, seen)
    requires AllExpressions(bs)
    ensures MergeAll(alg, acc, bs).Ok?
    ensures HoldsConjunctions(alg, MergeAll(alg, acc, bs).value, seen + bs)
    decreases |bs|
  {
    if bs == [] {
      assert seen + bs == seen;
    } else {
      var p := bs[..|bs| - 1];
      var b := bs[|bs| - 1];
      assert bs == p + [b];
      assert seen + bs == (seen + p) + [b];
      AllExpressionsPrefix(bs, |bs| - 1);
      MergeAllConjoinsAll(alg, acc, seen, p);
      MergeAllStep(alg, acc, bs);
      MergeBindingConjoins(alg, MergeAll(alg, acc, p).value, seen + p, b);
    }
  }

  lemma DedupedAllExpressions(bs: BindingStack)
    requires AllExpressions(bs)
    ensures AllExpressions(Deduped(bs))
  {
    DedupedLatestWins(bs);
  }

  /**
   * Conjunction, never replacement: when every result binds only expressions,
   * reducing cannot fail, and each variable ends up bound to the merge of all
   * its (de-duplicated) values across the results, in order.
   */
  lemma {:induction false} ReduceConjoins(alg: Algebra, stacks: seq<BindingStack>)
    requires forall i :: 0 <= i < |stacks| ==> AllExpressions(stacks[i])
    ensures ReduceAll(alg, stacks).Ok?
    ensures HoldsConjunctions(alg, ReduceAll(alg, stacks).value, Flattened(stacks))
    decreases |stacks|
  {
    if stacks != [] {
      var p := stacks[..|stacks| - 1];
      ReduceConjoins(alg, p);
      DedupedAllExpressions(stacks[|stacks| - 1]);
      MergeAllConjoinsAll(alg, ReduceAll(alg, p).value, Flattened(p), Deduped(stacks[|stacks| - 1]));
    }
  }

  /** A variable already bound to a non-expression cannot be merged: an illegal state. */
  lemma MergeNonExpressionFails(alg: Algebra, acc: Reduced, b: Binding)
    requires b.variable in acc.bindings
    requires !acc.bindings[b.variable].value.Expression? || !b.value.value.Expression?
    ensures MergeBinding(alg, acc, b).Err?
    ensures MergeBinding(alg, acc, b).error.Panic?
  {
  }

  // ---------------------------------------------------------------------
  // Completing the negation: the Done branch of `Inverter::run`
  // ---------------------------------------------------------------------

  function InvertEach(alg: Algebra, stateAt: (Symbol, nat) -> VariableState, bsp: nat, results: seq<BindingStack>)
    : PolarResult<seq<BindingStack>>
    decreases |results|
  {
    if results == [] then Ok([])
    else
      match InvertEach(alg, stateAt, bsp, results[..|results| - 1])
      case Err(e) => Err(e)
      case Ok(prefix) =>
        match Inverted(alg, stateAt, bsp, results[|results| - 1])
        case Err(e) => Err(e)
        case Ok(inv) => Ok(prefix + [inv])
  }

  /** The bindings spliced into the parent: one per reduced variable, in `vars` order. */
  function Spliced(red: Reduced): (r: BindingStack)
    requires KeysMatchVars(red)
    ensures |r| == |red.vars|
  {
    seq(|red.vars|, k requires 0 <= k < |red.vars| =>
      assert red.vars[k] in SetOf(red.vars);
      Binding(red.vars[k], red.bindings[red.vars[k]]))
  }

  /**
   * The outcome of a finished negation: the `result` flag and the bindings to
   * append to the parent. No results is plain success; otherwise success iff
   * at least one binding is returned.
   */
  function Finish(alg: Algebra, stateAt: (Symbol, nat) -> VariableState, bsp: nat, results: seq<BindingStack>)
    : PolarResult<(bool, BindingStack)>
  {
    if results == [] then Ok((true, []))
    else
      match InvertEach(alg, stateAt, bsp, results)
      case Err(e) => Err(e)
      case Ok(inverted) =>
        match ReduceAll(alg, inverted)
        case Err(e) => Err(e)
        case Ok(red) =>
          ReduceKeysAreVars(alg, inverted);
          Ok((|red.vars| > 0, Spliced(red)))
  }

  lemma {:induction false} InvertEachErrPersists(alg: Algebra, stateAt: (Symbol, nat) -> VariableState,
                                                 bsp: nat, results: seq<BindingStack>, k: nat)
    requires k <= |results|
    requires InvertEach(alg, stateAt, bsp, results[..k]).Err?
    ensures InvertEach(alg, stateAt, bsp, results) == InvertEach(alg, stateAt, bsp, results[..k])
    decreases |results| - k
  {
    if k < |results| {
      assert results[..k + 1][..k] == results[..k];
      InvertEachErrPersists(alg, stateAt, bsp, results, k + 1);
    } else {
      assert results[..k] == results;
    }
  }

  /** The `map(invert_partials)` over the drained results; the first panic aborts. */
  method InvertResults(alg: Algebra, stateAt: (Symbol, nat) -> VariableState, bsp: nat, results: seq<BindingStack>)
    returns (r: PolarResult<seq<BindingStack>>)
    ensures r == InvertEach(alg, stateAt, bsp, results)
  {
    var inverted: seq<BindingStack> := [];
    for i := 0 to |results|
      invariant InvertEach(alg, stateAt, bsp, results[..i]) == Ok(inverted)
    {
      assert results[..i + 1][..i] == results[..i];
      var inv := InvertPartials(alg, results[i], stateAt, bsp);
      if inv.Err? {
        InvertEachErrPersists(alg, stateAt, bsp, results, i + 1);
        return Err(inv.error);
      }
      inverted := inverted + [inv.value];
    }
    assert results[..|results|] == results;
    r := Ok(inverted);
  }

  /** The Done branch: invert every collected result, reduce, and build the bindings to splice. */
  method CompleteNegation(alg: Algebra, stateAt: (Symbol, nat) -> VariableState, bsp: nat, results: seq<BindingStack>)
    returns (r: PolarResult<(bool, BindingStack)>)
    ensures r == Finish(alg, stateAt, bsp, results)
  {
    var result := results == [];
    if result {
      return Ok((true, []));
    }
    var inverted := InvertResults(alg, stateAt, bsp, results);
    if inverted.Err? {
      return Err(inverted.error);
    }
    var reduced := ReduceConstraints(alg, inverted.value);
    if reduced.Err? {
      return Err(reduced.error);
    }
    var red := reduced.value;
    ReduceKeysAreVars(alg, inverted.value);
    // the `assert_eq!(reduced_keys, ordered_keys)` of the source holds
    assert red.bindings.Keys == SetOf(red.vars);
    var newBindings: BindingStack := [];
    for k := 0 to |red.vars|
      invariant newBindings == Spliced(red)[..k]
      invariant result <==> k > 0
    {
      result := true;
      assert red.vars[k] in SetOf(red.vars);
      newBindings := newBindings + [Binding(red.vars[k], red.bindings[red.vars[k]])];
    }
    assert Spliced(red)[..|red.vars|] == Spliced(red);
    r := Ok((result, newBindings));
  }

  /**
   * A finished negation with results returns one binding per merged variable,
   * each variable once, in first-appearance order; `result` holds iff that
   * list is non-empty.
   */
  lemma FinishSplicesReduced(alg: Algebra, stateAt: (Symbol, nat) -> VariableState, bsp: nat,
                             results: seq<BindingStack>)
    requires results != []
    requires Finish(alg, stateAt, bsp, results).Ok?
    ensures var inverted := InvertEach(alg, stateAt, bsp, results).value;
            var red := ReduceAll(alg, inverted).value;
            var (res, nb) := Finish(alg, stateAt, bsp, results).value;
            && (res <==> |nb| > 0)
            && VarSeq(nb) == red.vars == FirstAppearances(VarSeq(Flattened(inverted)))
            && NoDuplicateVars(nb)
            && (forall k :: 0 <= k < |nb| ==> red.vars[k] in red.bindings && nb[k].value == red.bindings[red.vars[k]])
  {
    var inverted := InvertEach(alg, stateAt, bsp, results).value;
    ReduceKeysAreVars(alg, inverted);
    ReduceVarsFirstAppearance(alg, inverted);
    var red := ReduceAll(alg, inverted).value;
    forall k | 0 <= k < |red.vars| ensures red.vars[k] in red.bindings {
      assert red.vars[k] in SetOf(red.vars);
    }
  }

  lemma {:induction false} InvertEachAllExpressions(alg: Algebra, stateAt: (Symbol, nat) -> VariableState,
                                                    bsp: nat, results: seq<BindingStack>)
    requires InvertEach(alg, stateAt, bsp, results).Ok?
    ensures var inv := InvertEach(alg, stateAt, bsp, results).value;
            |inv| == |results| && forall i :: 0 <= i < |inv| ==> AllExpressions(inv[i])
    decreases |results|
  {
    if results != [] {
      InvertEachAllExpressions(alg, stateAt, bsp, results[..|results| - 1]);
      InvertedAllExpressions(alg, stateAt, bsp, results[|results| - 1]);
    }
  }

  lemma {:induction false} InvertEachOkIff(alg: Algebra, stateAt: (Symbol, nat) -> VariableState,
                                           bsp: nat, results: seq<BindingStack>)
    ensures InvertEach(alg, stateAt, bsp, results).Ok? <==>
            forall i :: 0 <= i < |results| ==> Inverted(alg, stateAt, bsp, results[i]).Ok?
    decreases |results|
  {
    if results != [] {
      var p := results[..|results| - 1];
      InvertEachOkIff(alg, stateAt, bsp, p);
      assert forall i :: 0 <= i < |p| ==> p[i] == results[i];
    }
  }

  /**
   * Inverted results are all expressions, so the merge never reaches its
   * illegal state: a negation fails only when some result rebinds a variable
   * that was Bound before the negation to a different value.
   */
  lemma FinishFailsOnlyOnInconsistency(alg: Algebra, stateAt: (Symbol, nat) -> VariableState, bsp: nat,
                                       results: seq<BindingStack>)
    ensures Finish(alg, stateAt, bsp, results).Err? <==>
            exists i, j :: 0 <= i < |results| && 0 <= j < |results[i]| && !Consistent(stateAt, bsp, results[i][j])
  {
    InvertEachOkIff(alg, stateAt, bsp, results);
    forall i | 0 <= i < |results| {
      InvertedOkIff(alg, stateAt, bsp, results[i]);
    }
    if results != [] && InvertEach(alg, stateAt, bsp, results).Ok? {
      InvertEachAllExpressions(alg, stateAt, bsp, results);
      ReduceConjoins(alg, InvertEach(alg, stateAt, bsp, results).value);
    }
  }

  lemma {:induction false} InvertEachElements(alg: Algebra, stateAt: (Symbol, nat) -> VariableState,
                                              bsp: nat, results: seq<BindingStack>)
    requires InvertEach(alg, stateAt, bsp, results).Ok?
    ensures var inv := InvertEach(alg, stateAt, bsp, results).value;
            |inv| == |results| &&
            forall i :: 0 <= i < |inv| ==>
              Inverted(alg, stateAt, bsp, results[i]).Ok? && inv[i] == Inverted(alg, stateAt, bsp, results[i]).value
    decreases |results|
  {
    if results != [] {
      var p := results[..|results| - 1];
      InvertEachElements(alg, stateAt, bsp, p);
      assert forall i :: 0 <= i < |p| ==> p[i] == results[i];
    }
  }

  lemma VarsEmpty(bs: BindingStack)
    ensures Vars(bs) == {} <==> bs == []
  {
    if bs != [] {
      assert bs[|bs| - 1].variable in Vars(bs);
    }
  }

  lemma {:induction false} FlattenedNonEmpty(stacks: seq<BindingStack>)
    ensures |Flattened(stacks)| > 0 <==> exists i :: 0 <= i < |stacks| && |stacks[i]| > 0
    decreases |stacks|
  {
    if stacks != [] {
      var p := stacks[..|stacks| - 1];
      var last := stacks[|stacks| - 1];
      FlattenedNonEmpty(p);
      DedupedLatestWins(last);
      VarsEmpty(last);
      VarsEmpty(Deduped(last));
      assert forall i :: 0 <= i < |p| ==> p[i] == stacks[i];
      if |Flattened(p)| == 0 && |last| == 0 {
        assert forall i :: 0 <= i < |stacks| ==> |stacks[i]| == 0 by {
          forall i | 0 <= i < |stacks| ensures |stacks[i]| == 0 {
            if i < |p| { assert stacks[i] == p[i]; }
          }
        }
      }
    }
  }

  lemma FirstAppearancesNonEmpty(xs: seq<Symbol>)
    ensures |FirstAppearances(xs)| > 0 <==> |xs| > 0
  {
    FirstAppearancesMembers(xs);
    if |xs| > 0 {
      assert xs[0] in SetOf(xs);
    }
    if |FirstAppearances(xs)| > 0 {
      assert FirstAppearances(xs)[0] in SetOf(FirstAppearances(xs));
    }
  }

  /**
   * With results collected, a negation succeeds exactly when some result
   * bound a variable that was not Bound before the negation; results made
   * only of consistent rebindings of Bound variables make it fail.
   */
  lemma FinishSucceedsIffSomethingInverted(alg: Algebra, stateAt: (Symbol, nat) -> VariableState, bsp: nat,
                                           results: seq<BindingStack>)
    requires results != []
    requires Finish(alg, stateAt, bsp, results).Ok?
    ensures Finish(alg, stateAt, bsp, results).value.0 <==>
            exists i :: 0 <= i < |results| && |NotBound(stateAt, bsp, results[i])| > 0
  {
    var inverted := InvertEach(alg, stateAt, bsp, results).value;
    InvertEachElements(alg, stateAt, bsp, results);
    forall i | 0 <= i < |results| ensures |inverted[i]| == |NotBound(stateAt, bsp, results[i])| {
      InvertedShape(alg, stateAt, bsp, results[i]);
    }
    ReduceVarsFirstAppearance(alg, inverted);
    FirstAppearancesNonEmpty(VarSeq(Flattened(inverted)));
    FlattenedNonEmpty(inverted);
  }

  // ---------------------------------------------------------------------
  // The sub-VM and `Inverter::run`
  // ---------------------------------------------------------------------

  datatype QueryEvent =
    | Done(result: bool)
    | Result(bindings: map<Symbol, Term>)
    | ExternalCall(callId: nat, instance: Term, attribute: Symbol, args: seq<Term>)
    | ExternalIsSubclass(callId: nat, leftClassTag: Symbol, rightClassTag: Symbol)
    | ExternalIsa(callId: nat, instance: Term, classTag: Symbol)
    | ExternalUnify(callId: nat, leftInstanceId: nat, rightInstanceId: nat)
    | Debug(message: string)

  /** What one `run` of the sub-VM reports, and its binding stack afterwards. */
  datatype Step = Step(event: PolarResult<QueryEvent>, stack: BindingStack)

  /**
   * The cloned VM. Resolution itself is not modelled: `pending` is what its
   * successive runs report; once it is exhausted the VM is halted and reports
   * `Done{result: false}`.
   */
  class Vm {
    var bindings: BindingStack
    var pending: seq<Step>
    var inverting: bool
    const stateAt: (Symbol, nat) -> VariableState

    constructor (bindings: BindingStack, pending: seq<Step>, stateAt: (Symbol, nat) -> VariableState)
      ensures this.bindings == bindings && this.pending == pending && this.stateAt == stateAt
      ensures !inverting
    {
      this.bindings := bindings;
      this.pending := pending;
      this.stateAt := stateAt;
      inverting := false;
    }

    method Run() returns (r: PolarResult<QueryEvent>)
      modifies this
      ensures inverting == old(inverting)
      ensures old(pending) == [] ==> r == Ok(Done(false)) && bindings == old(bindings) && pending == []
      ensures old(pending) != [] ==>
                r == old(pending)[0].event && bindings == old(pending)[0].stack && pending == old(pending)[1..]
    {
      if pending == [] {
        r := Ok(Done(false));
      } else {
        r := pending[0].event;
        bindings := pending[0].stack;
        pending := pending[1..];
      }
    }
  }

  /** Everything `Inverter::run` reads and changes. */
  datatype InverterState = InverterState(
    vmBindings: BindingStack,
    pending: seq<Step>,
    results: seq<BindingStack>,
    parentBindings: BindingStack)

  /** `Inverter::run`: drive the sub-VM until an event other than Result. */
  function Drive(alg: Algebra, stateAt: (Symbol, nat) -> VariableState, bsp: nat, s: InverterState)
    : (PolarResult<QueryEvent>, InverterState)
    decreases |s.pending|
  {
    var ev := if s.pending == [] then Ok(Done(false)) else s.pending[0].event;
    var s1 := if s.pending == [] then s else s.(vmBindings := s.pending[0].stack, pending := s.pending[1..]);
    match ev
    case Err(e) => (Err(e), s1)
    case Ok(Done(_)) =>
      (match Finish(alg, stateAt, bsp, s1.results)
       case Err(e) => (Err(e), s1.(results := []))
       case Ok((res, nb)) => (Ok(Done(res)), s1.(results := [], parentBindings := s1.parentBindings + nb)))
    case Ok(Result(_)) =>
      if bsp <= |s1.vmBindings| then
        Drive(alg, stateAt, bsp, s1.(results := s1.results + [s1.vmBindings[bsp..]], vmBindings := s1.vmBindings[..bsp]))
      else (Err(Panic("range end out of bounds")), s1)
    case Ok(other) => (Ok(other), s1)
  }

  class Inverter {
    const vm: Vm
    const alg: Algebra
    const bsp: nat
    var results: seq<BindingStack>
    /** The parent's binding stack, which a completed negation extends. */
    var parentBindings: BindingStack

    ghost function State(): InverterState
      reads this, vm
    {
      InverterState(vm.bindings, vm.pending, results, parentBindings)
    }

    /**
     * `Inverter::new`: clone the parent VM with the negated goals (what the
     * clone will report for them is `goals`) and mark the clone as inverting.
     */
    constructor (alg: Algebra, parent: Vm, goals: seq<Step>, parentBindings: BindingStack, bsp: nat)
      ensures fresh(vm)
      ensures vm.inverting && vm.bindings == parent.bindings && vm.pending == goals && vm.stateAt == parent.stateAt
      ensures this.alg == alg && this.bsp == bsp
      ensures results == [] && this.parentBindings == parentBindings
    {
      var clone := new Vm(parent.bindings, goals, parent.stateAt);
      clone.inverting := true;
      vm := clone;
      this.alg := alg;
      this.bsp := bsp;
      results := [];
      this.parentBindings := parentBindings;
    }

    method Run() returns (r: PolarResult<QueryEvent>)
      modifies this, vm
      ensures (r, State()) == Drive(alg, vm.stateAt, bsp, old(State()))
      ensures vm.inverting == old(vm.inverting)
    {
      r := Ok(Done(false));
      var running := true;
      while running
        invariant running ==> Drive(alg, vm.stateAt, bsp, State()) == Drive(alg, vm.stateAt, bsp, old(State()))
        invariant !running ==> (r, State()) == Drive(alg, vm.stateAt, bsp, old(State()))
        invariant vm.inverting == old(vm.inverting)
        decreases |vm.pending| + (if running then 1 else 0)
      {
        ghost var before := State();
        var event := vm.Run();
        match event
        case Err(e) =>
          r, running := Err(e), false;
        case Ok(Done(_)) =>
          var done := CompleteNegation(alg, vm.stateAt, bsp, results);
          results := [];
          match done {
            case Err(e) =>
              r := Err(e);
            case Ok((res, nb)) =>
              parentBindings := parentBindings + nb;
              r := Ok(Done(res));
          }
          running := false;
        case Ok(Result(_)) =>
          if bsp > |vm.bindings| {
            r, running := Err(Panic("range end out of bounds")), false;
          } else {
            results := results + [vm.bindings[bsp..]];
            vm.bindings := vm.bindings[..bsp];
          }
        case Ok(other) =>
          r, running := Ok(other), false;
      }
    }
  }

  // ---------------------------------------------------------------------
  // Properties of `run`
  // ---------------------------------------------------------------------

  /** Result events are absorbed: `run` never reports one to its caller. */
  lemma {:induction false} DriveNeverReportsResult(alg: Algebra, stateAt: (Symbol, nat) -> VariableState,
                                                   bsp: nat, s: InverterState)
    ensures Drive(alg, stateAt, bsp, s).0.Ok? ==> !Drive(alg, stateAt, bsp, s).0.value.Result?
    decreases |s.pending|
  {
    if s.pending != [] && s.pending[0].event.Ok? && s.pending[0].event.value.Result?
       && bsp <= |s.pending[0].stack| {
      var s1 := s.(vmBindings := s.pending[0].stack, pending := s.pending[1..]);
      DriveNeverReportsResult(alg, stateAt, bsp,
        s1.(results := s1.results + [s1.vmBindings[bsp..]], vmBindings := s1.vmBindings[..bsp]));
    }
  }

  /** Events other than Done and Result pass through untouched, and nothing else changes. */
  lemma DrivePassesEventsThrough(alg: Algebra, stateAt: (Symbol, nat) -> VariableState, bsp: nat,
                                 s: InverterState)
    requires s.pending != [] && s.pending[0].event.Ok?
    requires !s.pending[0].event.value.Done? && !s.pending[0].event.value.Result?
    ensures Drive(alg, stateAt, bsp, s).0 == s.pending[0].event
    ensures Drive(alg, stateAt, bsp, s).1.results == s.results
    ensures Drive(alg, stateAt, bsp, s).1.parentBindings == s.parentBindings
  {
  }

  /** A Result event moves the stack above `bsp` into `results` and truncates the VM's stack to `bsp`. */
  lemma DriveCollectsResult(alg: Algebra, stateAt: (Symbol, nat) -> VariableState, bsp: nat,
                            s: InverterState)
    requires s.pending != [] && s.pending[0].event.Ok? && s.pending[0].event.value.Result?
    requires bsp <= |s.pending[0].stack|
    ensures var next := InverterState(s.pending[0].stack[..bsp], s.pending[1..],
                                      s.results + [s.pending[0].stack[bsp..]], s.parentBindings);
            && |next.vmBindings| == bsp
            && next.vmBindings + next.results[|next.results| - 1] == s.pending[0].stack
            && Drive(alg, stateAt, bsp, s) == Drive(alg, stateAt, bsp, next)
  {
  }

  /** The Result steps of a script. */
  predicate AllResults(bsp: nat, steps: seq<Step>)
  {
    forall i :: 0 <= i < |steps| ==>
      steps[i].event.Ok? && steps[i].event.value.Result? && bsp <= |steps[i].stack|
  }

  /** The part of each Result step's stack above `bsp`. */
  function Collected(bsp: nat, steps: seq<Step>): (r: seq<BindingStack>)
    requires AllResults(bsp, steps)
    ensures |r| == |steps|
  {
    seq(|steps|, i requires 0 <= i < |steps| => steps[i].stack[bsp..])
  }

  /**
   * A whole negation: after a run of Result events and then Done, `run`
   * reports Done with the flag `Finish` computes over every collected stack,
   * appends exactly `Finish`'s bindings to the parent, and clears `results`.
   * With no results at all it reports Done{result: true} and leaves the
   * parent unchanged.
   */
  lemma {:induction false} DriveNegation(alg: Algebra, stateAt: (Symbol, nat) -> VariableState, bsp: nat,
                                         s: InverterState, steps: seq<Step>, done: bool, st: BindingStack,
                                         rest: seq<Step>)
    requires AllResults(bsp, steps)
    requires s.pending == steps + [Step(Ok(Done(done)), st)] + rest
    ensures var out := Drive(alg, stateAt, bsp, s);
            match Finish(alg, stateAt, bsp, s.results + Collected(bsp, steps))
            case Err(e) => out.0 == Err(e) && out.1.results == [] && out.1.parentBindings == s.parentBindings
            case Ok((res, nb)) =>
              && out.0 == Ok(Done(res))
              && out.1.results == []
              && out.1.parentBindings == s.parentBindings + nb
              && out.1.pending == rest
    ensures s.results == [] && steps == [] ==>
              Drive(alg, stateAt, bsp, s).0 == Ok(Done(true))
              && Drive(alg, stateAt, bsp, s).1.parentBindings == s.parentBindings
    decreases |steps|
  {
    if steps == [] {
      assert s.pending[0] == Step(Ok(Done(done)), st);
      assert s.pending[1..] == rest;
      assert s.results + Collected(bsp, steps) == s.results;
    } else {
      var s1 := s.(vmBindings := s.pending[0].stack, pending := s.pending[1..]);
      var next := s1.(results := s1.results + [s1.vmBindings[bsp..]], vmBindings := s1.vmBindings[..bsp]);
      assert s.pending[0] == steps[0];
      assert next.pending == steps[1..] + [Step(Ok(Done(done)), st)] + rest;
      DriveNegation(alg, stateAt, bsp, next, steps[1..], done, st, rest);
      assert next.results + Collected(bsp, steps[1..]) == s.results + Collected(bsp, steps);
    }
  }
}
