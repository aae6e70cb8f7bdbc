/**
 * The term and value model shared by the inverter, the singleton-variable
 * warnings and the missing-rule diagnostics: Polar values, terms with an
 * optional source span, bindings, variable states, rules and errors.
 */
module Terms {

  datatype Option<+T> = None | Some(value: T)

  /** A Polar result: a value, or the error that stopped the computation. */
  datatype PolarResult<+T> = Ok(value: T) | Err(error: PolarError)

  datatype ParseError = SingletonVariable(loc: nat, name: string)

  /**
   * `Panic` stands for a Rust `panic!`/`assert_eq!` failure, which aborts the
   * computation; `Runtime` for an error a VM run reports through `?`.
   */
  datatype PolarError =
    | Parse(parse: ParseError)
    | Runtime(message: string)
    | Panic(message: string)

  type Symbol = string

  datatype Operator =
    | Not | And | Or | Unify | Eq | Neq | Lt | Leq | Gt | Geq
    | Dot | Isa | In | Assign | Add | Sub | Mul | Div | Mod | Rem

  datatype Operation = Operation(operator: Operator, args: seq<Term>)

  datatype Field = Field(key: Symbol, value: Term)

  /** A specializer: an instance literal `Tag{fields}` or a dictionary pattern. */
  datatype InstanceOrDict =
    | Instance(tag: Symbol, fields: seq<Field>)
    | DictionaryPattern(fields: seq<Field>)

  datatype Value =
    | Number(n: int)
    | String(s: string)
    | Boolean(b: bool)
    | ExternalInstance(instanceId: nat)
    | Dictionary(fields: seq<Field>)
    | Pattern(pattern: InstanceOrDict)
    | Call(name: Symbol, args: seq<Term>, kwargs: seq<Field>)
    | List(elements: seq<Term>)
    | Variable(name: Symbol)
    | RestVariable(name: Symbol)
    | Expression(op: Operation)

  /** A term: a value and the (left, right) source span it was parsed from, if any. */
  datatype Term = Term(value: Value, span: Option<(nat, nat)>)

  /** A term built by the engine itself (`term!`): no source span. */
  function Mk(v: Value): Term { Term(v, None) }

  /** `Term::clone_with_value`: a new value, the same source information. */
  function CloneWithValue(t: Term, v: Value): (r: Term)
    ensures r.span == t.span && r.value == v
  {
    t.(value := v)
  }

  /** `Term::offset`: the left end of the span, 0 for a term without one. */
  function Offset(t: Term): nat
  {
    match t.span
    case Some((left, _)) => left
    case None => 0
  }

  /** `Term::span().unwrap_or((0, 0))`. */
  function SpanOrZero(t: Term): (nat, nat)
  {
    match t.span
    case Some(s) => s
    case None => (0, 0)
  }

  /**
   * The direct subterms a visitor walks into, in walk order: list elements,
   * dictionary and pattern field values, call arguments then keyword
   * arguments, and operation arguments.
   */
  function Children(t: Term): seq<Term>
  {
    match t.value
    case Dictionary(fs) => FieldValues(fs)
    case Pattern(Instance(_, fs)) => FieldValues(fs)
    case Pattern(DictionaryPattern(fs)) => FieldValues(fs)
    case Call(_, args, kwargs) => args + FieldValues(kwargs)
    case List(es) => es
    case Expression(op) => op.args
    case _ => []
  }

  function FieldValues(fs: seq<Field>): (r: seq<Term>)
    ensures |r| == |fs|
    ensures forall i :: 0 <= i < |fs| ==> r[i] == fs[i].value
  {
    seq(|fs|, i requires 0 <= i < |fs| => fs[i].value)
  }

  /** The term with every source span removed, at every depth. */
  function Erase(t: Term): (r: Term)
    ensures r.span == None
    ensures r.value.Expression? <==> t.value.Expression?
  {
    match t.value
    case Dictionary(fs) => Mk(Dictionary(EraseFields(fs)))
    case Pattern(Instance(tag, fs)) => Mk(Pattern(Instance(tag, EraseFields(fs))))
    case Pattern(DictionaryPattern(fs)) => Mk(Pattern(DictionaryPattern(EraseFields(fs))))
    case Call(name, args, kwargs) =>
      Mk(Call(name, seq(|args|, i requires 0 <= i < |args| => Erase(args[i])), EraseFields(kwargs)))
    case List(es) => Mk(List(seq(|es|, i requires 0 <= i < |es| => Erase(es[i]))))
    case Expression(Operation(op, args)) =>
      Mk(Expression(Operation(op, seq(|args|, i requires 0 <= i < |args| => Erase(args[i])))))
    case _ => Mk(t.value)
  }

  function EraseFields(fs: seq<Field>): (r: seq<Field>)
    ensures |r| == |fs|
  {
    seq(|fs|, i requires 0 <= i < |fs| => Field(fs[i].key, Erase(fs[i].value)))
  }

  /** Term equality as Rust's `PartialEq` for terms: spans do not take part. */
  predicate Same(a: Term, b: Term)
  {
    Erase(a) == Erase(b)
  }

  datatype Binding = Binding(variable: Symbol, value: Term)

  type BindingStack = seq<Binding>

  /** What the binding stack says about a variable at some point. */
  datatype VariableState =
    | Unbound
    | Bound(term: Term)
    | Partial(expr: Operation)
    | Cycle(vars: seq<Symbol>)

  datatype Parameter = Parameter(parameter: Term, specializer: Option<Term>)

  datatype Rule = Rule(name: Symbol, params: seq<Parameter>, body: Term)
}
