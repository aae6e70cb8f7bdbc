# Polar negation, singleton warnings and missing-rule diagnostics in Dafny

This project models three parts of the Polar policy engine and its language server, and proves
properties of each.

- **Negation as failure** (`inverter.dfy`). `not G` runs `G` in a cloned sub-VM. For each Result
  event, the inverter collects the part of the binding stack above the entry index `bsp`. On
  Done it does the following:
  - inverts every collected binding against the variable's state before the negation;
  - keeps only the latest binding of each variable;
  - merges the results by conjunction;
  - appends one binding per merged variable to the parent's stack.

  Every other event passes through.
- **Singleton-variable warnings** (`warnings.dfy`). A visitor counts the occurrences of each
  symbol in a rule. The symbols seen exactly once are sorted by offset and reported as follows:
  - an unknown specializer becomes a message, with a suggestion for common misspellings of the
    built-in types;
  - a plain variable becomes a `SingletonVariable` parse error, which replaces the whole report.
- **Missing-rule diagnostics** (`missing_rules.dfy`). The walk is pre-order over rule bodies and
  queries. It reports each call whose name has no rules, or whose rules are none of them
  applicable to the call's arguments. It never enters a `.` lookup.

`terms.dfy` holds the shared data model: terms with an optional source span, values, bindings,
variable states, rules and errors. Term equality ignores spans, as Rust's `PartialEq` on terms
does; the limits of the value model are listed under "Left out".

Where the Rust code changes state, the model is imperative:
- the sub-VM (`Inverter.Vm`), the inverter (`Inverter.Inverter`) and both visitors
  (`Warnings.SingletonVisitor`, `MissingRules.UnusedRuleVisitor`) are classes whose methods update
  their fields;
- each loop of the source is a method with a loop.

Every method except the sub-VM stand-in `Inverter.Vm.Run` and `Warnings.SingletonVisitor.Drain` is
proved equal to a specification function, and the properties are lemmas about those functions.
`Vm.Run` gives its new state directly. `Drain` is proved to return some listing of the map
(`IsListing`), in an order left open, as `HashMap::drain` does. `SingletonVisitor.Warnings` and
`CheckSingletons` equal `Render(SortByOffset(order))` for that listing. A Rust `panic!` or `assert_eq!` failure is modelled as the error value `Panic(message)`.

## Model

| member | source | states |
|---|---|---|
| Inverter.FoldTerm | polar-core/src/inverter.rs:65-80 | the folded term keeps the original term's source span and its value is always an expression |
| Inverter.InvertPartials | polar-core/src/inverter.rs:83-119 | the loop returns exactly the inversion `Inverted` of the stack: bindings in input order, and the first failed consistency assertion aborts with its panic |
| Inverter.InvertedOkIff | polar-core/src/inverter.rs:95-115 | inversion succeeds iff every binding whose variable was Bound before the negation re-binds it to an equal term (spans ignored); a failure is always the "inconsistent bindings" panic |
| Inverter.InvertedShape | polar-core/src/inverter.rs:55-62 | one output per binding whose variable was not Bound, in input order, each with the same variable and span and an expression value. An expression becomes `InvertOperation` of it: its constraints are inverted from the variable's pre-negation constraint count `Csp` (0 unless Partial); any other value becomes `And(Neq(var, fold(value)))`, folded with state Unbound for Unbound/Cycle variables and with the Partial state otherwise |
| Inverter.InvertedAllExpressions | polar-core/src/inverter.rs:95-115 | every binding an inversion produces holds an expression |
| Inverter.DedupeBindings | polar-core/src/inverter.rs:122-129 | the reverse walk with a `seen` set returns exactly `Deduped` of its input |
| Inverter.DedupedLatestWins | polar-core/src/inverter.rs:121-129 | the de-duplicated stack binds exactly the input's variables, each once, to the value of that variable's last binding, listed latest-first |
| Inverter.MergeStack | polar-core/src/inverter.rs:137-157 | folding one de-duplicated stack into the accumulator gives `MergeAll`: expressions of a known variable are merged, a new variable is inserted and appended to `vars`, and any other case is the illegal-state panic |
| Inverter.ReduceConstraints | polar-core/src/inverter.rs:132-161 | the fold over all result stacks, each de-duplicated first, equals `ReduceAll` |
| Inverter.ReduceKeysAreVars | polar-core/src/inverter.rs:132-161 | after a successful reduce, the merged map's key set equals the set of returned vars, and the vars are distinct |
| Inverter.ReduceVarsFirstAppearance | polar-core/src/inverter.rs:153-156 | vars lists each variable at its first appearance across the de-duplicated results, in fold order |
| Inverter.ReduceConjoins | polar-core/src/inverter.rs:140-145 | when every result holds only expressions, reducing cannot fail, and each variable's value is the merge of all its values across the results in order (conjunction, never replacement) |
| Inverter.MergeNonExpressionFails | polar-core/src/inverter.rs:146-151 | a variable that is already present, with a non-expression on either side, gives a panic |
| Inverter.InvertResults | polar-core/src/inverter.rs:178-184 | inverting the drained results one by one equals `InvertEach` (the first panic aborts) |
| Inverter.CompleteNegation | polar-core/src/inverter.rs:175-204 | the Done branch equals `Finish`. No results gives `(true, [])`. Otherwise it inverts, reduces, and returns one binding per var in vars order, with `result` true iff a binding was produced. The source's key-set `assert_eq!` is proved to hold |
| Inverter.FinishSplicesReduced | polar-core/src/inverter.rs:189-202 | with results, the spliced bindings name exactly the reduced vars: each var once, in first-appearance order, with its merged value, and `result` true iff the list is non-empty |
| Inverter.FinishSucceedsIffSomethingInverted | polar-core/src/inverter.rs:176-197 | with results, the negation succeeds iff some result bound a variable that was not Bound before the negation |
| Inverter.FinishFailsOnlyOnInconsistency | polar-core/src/inverter.rs:101 | completing a negation fails iff some collected binding re-binds a pre-negation Bound variable to a different term; the reduce's illegal state is unreachable, because inverted values are expressions |
| Inverter.Inverter.constructor | polar-core/src/inverter.rs:25-39 | a fresh sub-VM clone with the parent's stack and the negated goals, marked as inverting, with no results yet |
| Inverter.Inverter.Run | polar-core/src/inverter.rs:171-214 | the returned event and the new sub-VM stack, script, results and parent stack are exactly those of `Drive` over the old state |
| Inverter.DriveNeverReportsResult | polar-core/src/inverter.rs:206-210 | `run` never returns a Result event to its caller |
| Inverter.DrivePassesEventsThrough | polar-core/src/inverter.rs:211 | any event other than Done and Result is returned unchanged, with results and the parent stack untouched |
| Inverter.DriveCollectsResult | polar-core/src/inverter.rs:206-210 | a Result event moves the sub-VM stack from `bsp` on into `results` and leaves the sub-VM stack at length `bsp` |
| Inverter.DriveNegation | polar-core/src/inverter.rs:174-205 | after Result events and then Done, `run` reports Done with `Finish`'s flag over all collected stacks, appends exactly `Finish`'s bindings to the parent and clears results. With no results it reports `Done{result: true}` and the parent stack is unchanged |
| Warnings.CommonMisspellings | polar-core/src/warnings.rs:11-44 | any suggestion is one of Integer, Float, String, List, Dictionary |
| Warnings.ListedSpellingsSuggest | polar-core/src/warnings.rs:12-41 | each of the 28 listed spellings maps to the type the table gives it |
| Warnings.UnlistedSpellingsDoNot | polar-core/src/warnings.rs:42 | every string outside the listed spellings has no suggestion |
| Warnings.CanonicalNamesUnlisted | polar-core/src/warnings.rs:11-44 | the built-in type names Integer, Float, String, List and Dictionary themselves get no suggestion |
| Warnings.WarnStr | polar-core/src/warnings.rs:52-76 | Ok exactly for a pattern term, giving "Unknown specializer S" plus the suggestion. Any other term gives the `SingletonVariable` parse error with the symbol and the term's offset |
| Warnings.WarnStrSuggests | polar-core/src/warnings.rs:53-58 | ", did you mean T?" is appended exactly when `common_misspellings(S)` is `Some(T)`; otherwise the message is just "Unknown specializer S" |
| Warnings.Tracked | polar-core/src/warnings.rs:112-116 | a variable, rest variable or instance-pattern tag is tracked, under its own name, exactly when that name is not temporary, not namespaced and not a constant; no other term is tracked |
| Warnings.Record | polar-core/src/warnings.rs:118-125 | recording adds the symbol to the key set and changes no other entry |
| Warnings.SingletonVisitor.constructor | polar-core/src/warnings.rs:79-84 | a new visitor starts with an empty map |
| Warnings.SingletonVisitor.VisitTerm | polar-core/src/warnings.rs:111-130 | the new map is `Visit` of the old one: the term is recorded, then every child is walked in order |
| Warnings.SingletonVisitor.VisitRule | polar-core/src/warnings.rs:135 | visiting a rule visits each parameter, then its specializer, then the body |
| Warnings.VisitRecordsOccurrences | polar-core/src/warnings.rs:111-130 | the recursive walk equals recording the tracked occurrences of the term in pre-order, one at a time |
| Warnings.RecordAllCounts | polar-core/src/warnings.rs:118-125 | the first occurrence maps a symbol to `Some(term)` and any later one sets it to `None` |
| Warnings.SingletonsAreOnceOccurring | polar-core/src/warnings.rs:111-130 | a fresh visitor's map holds exactly the tracked symbols that occur. A symbol maps to `Some` iff it occurs once, and then to the term of that occurrence |
| Warnings.OnlyTrackedSymbolsRecorded | polar-core/src/warnings.rs:113-116 | temporary, namespaced and constant symbols never enter the map |
| Warnings.SortByOffset | polar-core/src/warnings.rs:92 | the sorted list has non-decreasing offsets and is a permutation of the input |
| Warnings.SortByOffsetStable | polar-core/src/warnings.rs:92 | the sort is stable: for every offset, the entries at that offset appear in the output in their input order |
| Warnings.InsertSorted | polar-core/src/warnings.rs:92 | inserting into a list sorted by offset keeps it sorted |
| Warnings.RenderOkIff | polar-core/src/warnings.rs:93-106 | rendering succeeds iff every entry is a pattern |
| Warnings.RenderMessages | polar-core/src/warnings.rs:95-104 | a successful rendering has one message per entry, in order: "Unknown specializer S", the suggestion, and the source lines after a newline when the source is known |
| Warnings.RenderFirstError | polar-core/src/warnings.rs:99-106 | a failed rendering is the `SingletonVariable` error of the first entry that is not a pattern |
| Warnings.RenderWarnings | polar-core/src/warnings.rs:93-106 | the loop over the sorted entries returns exactly `Render`, stopping at the first error |
| Warnings.SingletonVisitor.Drain | polar-core/src/warnings.rs:87-91 | the map is emptied, and the drained list holds each symbol of a `Some` entry exactly once, with its term |
| Warnings.SingletonVisitor.Warnings | polar-core/src/warnings.rs:86-107 | the map is emptied; `order` lists each `Some` entry exactly once; the result is the rendering of `order` sorted by offset |
| Warnings.CheckSingletons | polar-core/src/warnings.rs:133-137 | a fresh visitor: the report is the rendering of the sorted listing of the rule's own singleton map, which depends only on the rule and the knowledge base |
| Warnings.ReportIsOnceOccurringSorted | polar-core/src/warnings.rs:86-107 | the symbols reported are exactly the tracked symbols of the rule that occur once, in non-decreasing offset order, each with the term of its occurrence, and no symbol is reported twice |
| MissingRules.ApplicableRules | polar-analyzer/src/diagnostics/missing_rules.rs:50 | the applicable rules are empty iff no rule of the name is applicable to the arguments |
| MissingRules.UnusedRuleVisitor.constructor | polar-analyzer/src/diagnostics/missing_rules.rs:15-18 | a new visitor has no diagnostics |
| MissingRules.UnusedRuleVisitor.CheckCall | polar-analyzer/src/diagnostics/missing_rules.rs:48-73 | the call arm appends exactly the term's report: one entry for a call with no rules of its name or with no applicable rule, and nothing otherwise |
| MissingRules.UnusedRuleVisitor.VisitTerm | polar-analyzer/src/diagnostics/missing_rules.rs:42-77 | the diagnostics are the old ones with `Missing(t)` appended (entries are only appended) |
| MissingRules.FindMissingRules | polar-analyzer/src/diagnostics/missing_rules.rs:12-34 | a parse failure gives no diagnostics. Otherwise it gives the diagnostics of each line in order: a rule contributes its body only, a query the whole term |
| MissingRules.MissingIsReportsOfReachable | polar-analyzer/src/diagnostics/missing_rules.rs:42-77 | the walk's diagnostics are exactly the per-term reports of the terms it reaches, in pre-order |
| MissingRules.ReachableShape | polar-analyzer/src/diagnostics/missing_rules.rs:44-47 | a term that is not a lookup is reached before all of its subterms; a lookup reaches nothing; no reached term is a lookup |
| MissingRules.ReportSpec | polar-analyzer/src/diagnostics/missing_rules.rs:48-73 | at most one entry per term. There is one exactly for a call whose name has no rules, or whose rules are all inapplicable to its arguments. It carries the term's span, or (0, 0), and either `There are no rules with the name "<name>"` or the no-match message |
| MissingRules.LookupsAreSilent | polar-analyzer/src/diagnostics/missing_rules.rs:44-47 | a lookup child adds nothing, whatever it contains |

## Left out

- The resolution done by the sub-VM: `clone_with_goals`, `vm.run` and `variable_state_at_point`. `Inverter.Vm` is a stand-in. Its `pending` script lists what successive runs report, with the stack after each run, and an exhausted script reports `Done{result: false}`. Variable states are given as a function `stateAt`.
- `fold_value` and the constraint algebra (`constraints`, `inverted_constraints`, `clone_with_constraints`, `merge_constraints`): uninterpreted functions in `Inverter.Algebra`. Their definitions live outside the modelled files.
- The `Rc<RefCell<BindingStack>>` shared parent stack: the `parentBindings` field, which `Run` extends. Aliasing with the parent VM is not modelled.
- Panic messages. In the illegal-state panic the `to_polar` text of the existing and new values is dropped; the message keeps its fixed prefix and the variable name. When `bsp` is past the end of the sub-VM stack, `drain(bsp..)` panics, and the model gives `Panic("range end out of bounds")` rather than the library's slice-index message.
- `HashMap` iteration order in `warnings`: the drain order is a nondeterministic choice, exposed as the ghost out-parameter `order`.
- `sort_by_key` sorts a vector in place. The model uses an insertion sort on sequences (`Warnings.SortByOffset`), proved stable like `sort_by_key`, not an in-place array sort.
- Source text: `source_lines`, the source lookup by id and `set_context` on the singleton error are not modelled. The lines shown after a warning are a parameter `sourceLines`. The error's attached context is not modelled.
- `to_polar` and `formatdoc!` rendering in the missing-rule message: the call and rule texts are opaque functions of the knowledge base (`callText`, `ruleText`). The layout around them (prefix, `Found:` line, rules joined by a newline and two spaces) is modelled.
- The knowledge base: `kb.is_constant` is membership in a set. `kb.rules` is a map from names to rules in id order. `get_applicable_rules` is a per-rule applicability predicate `isApplicable`; the rule index behind it is foreign code.
- The parser `parse_lines`: `FindMissingRules` receives its result, a list of lines or an error.
- `Counter`, `debug_command`, the `external_*_result` forwarders and `clone_runnable`: they only forward to the VM.
- The language-server plumbing (connection, message loop, locking, JSON), the diagnostics re-export module and the host-binding roles test: I/O and integration code without logic of the modelled core.
- `terms.rs` and `visitor.rs` are not part of this model. They supply `Term::offset`, `Symbol::is_temporary_var`, `Symbol::is_namespaced_var`, spans, `PartialEq` on terms, and the child order of `walk_term`/`walk_rule`. The model takes their usual meaning: the left end of the span, or 0; a leading `_`; containing `::`; equality ignoring spans; list elements, field values, call arguments then keyword arguments, operation arguments; and for a rule each parameter, then its specializer, then the body.
- Numbers: `Value::Number` is an unbounded integer. Floats, the comparison of an integer with a float and the 64-bit integer width are not modelled, so `Terms.Same` matches Rust's term equality only when every number is an integer.
- Dictionaries: the fields of a dictionary, an instance literal or a dictionary pattern are a sequence, whereas a Polar dictionary maps distinct keys to terms and its order does not matter. The model assumes the fields are distinct and listed in one fixed order. On field sequences that are not, `Terms.Same` depends on the order and does not reject repeated keys. The `inconsistent bindings` check in `Inverter.InvertBinding` inherits both limits.
- Integer widths: `usize` offsets, spans and `bsp` are unbounded naturals. None of the modelled code does arithmetic on them beyond comparison and slicing.
- Warnings.CommonMisspellings: the table's cardinality, 28, is visible in `MisspellingTable` but is not proved as a lemma.

## Notes on the code versus its description

- Suppose a negation collects results, but every binding in them re-binds a variable that was already Bound to an equal value. The code then returns `Done{result: false}` (`result` starts false and only the splice loop sets it, inverter.rs:176-197). One might expect such a negation to succeed with no new bindings. The model follows the code, which agrees with the comment at inverter.rs:163-169. `Inverter.FinishSucceedsIffSomethingInverted` states the case.
