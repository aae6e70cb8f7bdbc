/**
 * Singleton-variable and unknown-specializer warnings. A visitor counts the
 * occurrences of each symbol in a rule; every symbol seen exactly once is
 * reported in source order: an unknown specializer as a warning message, a
 * plain variable as a `SingletonVariable` parse error that aborts the report.
 */
module Warnings {
  import opened Terms

  // ---------------------------------------------------------------------
  // common_misspellings and warn_str
  // ---------------------------------------------------------------------

  /** The built-in type names a specializer is probably meant to be. */
  const CanonicalTypes: set<string> := {"Integer", "Float", "String", "List", "Dictionary"}

  /** A specializer that looks like a misspelled built-in type, and the type meant. */
  function CommonMisspellings(t: string): (r: Option<string>)
    ensures r.Some? ==> r.value in CanonicalTypes
  {
    match t
    case "integer" => Some("Integer")
    case "int" => Some("Integer")
    case "i32" => Some("Integer")
    case "i64" => Some("Integer")
    case "u32" => Some("Integer")
    case "u64" => Some("Integer")
    case "usize" => Some("Integer")
    case "size_t" => Some("Integer")
    case "float" => Some("Float")
    case "f32" => Some("Float")
    case "f64" => Some("Float")
    case "double" => Some("Float")
    case "char" => Some("String")
    case "str" => Some("String")
    case "string" => Some("String")
    case "list" => Some("List")
    case "array" => Some("List")
    case "Array" => Some("List")
    case "dict" => Some("Dictionary")
    case "Dict" => Some("Dictionary")
    case "dictionary" => Some("Dictionary")
    case "hash" => Some("Dictionary")
    case "Hash" => Some("Dictionary")
    case "map" => Some("Dictionary")
    case "Map" => Some("Dictionary")
    case "HashMap" => Some("Dictionary")
    case "hashmap" => Some("Dictionary")
    case "hash_map" => Some("Dictionary")
    case _ => None
  }

  /** The misspelling table written as data. */
  const MisspellingTable: map<string, string> := map[
    "integer" := "Integer", "int" := "Integer", "i32" := "Integer", "i64" := "Integer",
    "u32" := "Integer", "u64" := "Integer", "usize" := "Integer", "size_t" := "Integer",
    "float" := "Float", "f32" := "Float", "f64" := "Float", "double" := "Float",
    "char" := "String", "str" := "String", "string" := "String",
    "list" := "List", "array" := "List", "Array" := "List",
    "dict" := "Dictionary", "Dict" := "Dictionary", "dictionary" := "Dictionary",
    "hash" := "Dictionary", "Hash" := "Dictionary", "map" := "Dictionary", "Map" := "Dictionary",
    "HashMap" := "Dictionary", "hashmap" := "Dictionary", "hash_map" := "Dictionary"]

  /** Every listed spelling gets the suggestion the table gives it. */
  lemma ListedSpellingsSuggest(t: string)
    requires t in MisspellingTable
    ensures CommonMisspellings(t) == Some(MisspellingTable[t])
  {
  }

  /** A string outside the table, the canonical names included, gets no suggestion. */
  lemma UnlistedSpellingsDoNot(t: string)
    requires t !in MisspellingTable
    ensures CommonMisspellings(t) == None
  {
  }

  /** The built-in type names themselves are not misspellings. */
  lemma CanonicalNamesUnlisted()
    ensures forall c :: c in CanonicalTypes ==> CommonMisspellings(c) == None
  {
  }

  /** The text added when a specializer looks misspelled. */
  function Suggestion(sym: Symbol): string
  {
    match CommonMisspellings(sym)
    case Some(t) => ", did you mean " + t + "?"
    case None => ""
  }

  /**
   * `warn_str`: a pattern gives an unknown-specializer message, anything else
   * a `SingletonVariable` error at the term's offset.
   */
  function WarnStr(sym: Symbol, term: Term): (r: PolarResult<string>)
    ensures r.Ok? <==> term.value.Pattern?
    ensures r.Ok? ==> r.value == "Unknown specializer " + sym + Suggestion(sym)
    ensures r.Err? ==> r.error == Parse(SingletonVariable(Offset(term), sym))
  {
    if term.value.Pattern? then
      Ok("Unknown specializer " + sym + Suggestion(sym))
    else
      Err(Parse(SingletonVariable(Offset(term), sym)))
  }

  /** The suggestion is appended exactly when the specializer is a known misspelling. */
  lemma WarnStrSuggests(sym: Symbol, term: Term)
    requires term.value.Pattern?
    ensures CommonMisspellings(sym).None? ==> WarnStr(sym, term) == Ok("Unknown specializer " + sym)
    ensures CommonMisspellings(sym).Some? ==>
              WarnStr(sym, term) == Ok("Unknown specializer " + sym + ", did you mean " + CommonMisspellings(sym).value + "?")
  {
    match CommonMisspellings(sym)
    case Some(t) =>
      assert "Unknown specializer " + sym + Suggestion(sym)
          == "Unknown specializer " + sym + ", did you mean " + t + "?";
    case None =>
      assert "Unknown specializer " + sym + Suggestion(sym) == "Unknown specializer " + sym + "";
      assert "Unknown specializer " + sym + "" == "Unknown specializer " + sym;
  }

  // ---------------------------------------------------------------------
  // What the visitor records
  // ---------------------------------------------------------------------

  /** `Symbol::is_temporary_var`: generated names start with an underscore. */
  predicate IsTemporaryVar(s: Symbol)
  {
    |s| > 0 && s[0] == '_'
  }

  /** `Symbol::is_namespaced_var`: the name contains `::`. */
  predicate IsNamespacedVar(s: Symbol)
  {
    exists i :: 0 <= i < |s| - 1 && s[i] == ':' && s[i + 1] == ':'
  }

  /** A symbol the singleton check counts: not temporary, not namespaced, not a constant. */
  predicate Countable(constants: set<Symbol>, s: Symbol)
  {
    !IsTemporaryVar(s) && !IsNamespacedVar(s) && s !in constants
  }

  /** A variable, rest variable or instance-pattern tag that is not temporary, namespaced or a constant. */
  function Tracked(constants: set<Symbol>, t: Term): (r: Option<Symbol>)
    ensures r.Some? ==> Countable(constants, r.value)
    ensures (t.value.Variable? || t.value.RestVariable?) ==>
              (Countable(constants, t.value.name) <==> r == Some(t.value.name))
    ensures t.value.Pattern? && t.value.pattern.Instance? ==>
              (Countable(constants, t.value.pattern.tag) <==> r == Some(t.value.pattern.tag))
    ensures !t.value.Variable? && !t.value.RestVariable? && !(t.value.Pattern? && t.value.pattern.Instance?) ==>
              r == None
  {
    var sym := match t.value
      case Variable(v) => Some(v)
      case RestVariable(v) => Some(v)
      case Pattern(Instance(tag, _)) => Some(tag)
      case _ => None;
    if sym.Some? && Countable(constants, sym.value) then sym else None
  }

  type Singletons = map<Symbol, Option<Term>>

  /** One occurrence: the first one is remembered, a repeat forgets it. */
  function Record(m: Singletons, v: Symbol, t: Term): (r: Singletons)
    ensures r.Keys == m.Keys + {v}
    ensures forall k :: k in m && k != v ==> r[k] == m[k]
  {
    if v in m then m[v := None] else m[v := Some(t)]
  }

  function RecordTerm(constants: set<Symbol>, m: Singletons, t: Term): Singletons
  {
    match Tracked(constants, t)
    case Some(v) => Record(m, v, t)
    case None => m
  }

  /** `visit_term`: record the term, then walk its children in order. */
  function Visit(constants: set<Symbol>, m: Singletons, t: Term): Singletons
    decreases t, 1
  {
    VisitFrom(constants, t, 0, RecordTerm(constants, m, t))
  }

  function VisitFrom(constants: set<Symbol>, t: Term, i: nat, m: Singletons): Singletons
    requires i <= |Children(t)|
    decreases t, 0, |Children(t)| - i
  {
    if i == |Children(t)| then m
    else VisitFrom(constants, t, i + 1, Visit(constants, m, Children(t)[i]))
  }

  function VisitAll(constants: set<Symbol>, m: Singletons, ts: seq<Term>): Singletons
    decreases |ts|
  {
    if ts == [] then m else VisitAll(constants, Visit(constants, m, ts[0]), ts[1..])
  }

  /** The terms `walk_rule` visits: each parameter and its specializer, then the body. */
  function RuleTerms(rule: Rule): seq<Term>
  {
    ParamTerms(rule.params) + [rule.body]
  }

  function ParamTerms(ps: seq<Parameter>): seq<Term>
    decreases |ps|
  {
    if ps == [] then []
    else
      [ps[0].parameter] + (match ps[0].specializer case Some(s) => [s] case None => []) + ParamTerms(ps[1..])
  }

  // ---------------------------------------------------------------------
  // Reference: the occurrences in walk order, and what counting them gives
  // ---------------------------------------------------------------------

  type Occurrence = (Symbol, Term)

  /** Every tracked occurrence in a term, in pre-order. */
  function Occurrences(constants: set<Symbol>, t: Term): seq<Occurrence>
    decreases t, 1
  {
    (match Tracked(constants, t) case Some(v) => [(v, t)] case None => [])
    + OccurrencesFrom(constants, t, 0)
  }

  function OccurrencesFrom(constants: set<Symbol>, t: Term, i: nat): seq<Occurrence>
    requires i <= |Children(t)|
    decreases t, 0, |Children(t)| - i
  {
    if i == |Children(t)| then []
    else Occurrences(constants, Children(t)[i]) + OccurrencesFrom(constants, t, i + 1)
  }

  function OccurrencesAll(constants: set<Symbol>, ts: seq<Term>): seq<Occurrence>
    decreases |ts|
  {
    if ts == [] then [] else Occurrences(constants, ts[0]) + OccurrencesAll(constants, ts[1..])
  }

  function RecordAll(m: Singletons, occ: seq<Occurrence>): Singletons
    decreases |occ|
  {
    if occ == [] then m else RecordAll(Record(m, occ[0].0, occ[0].1), occ[1..])
  }

  lemma {:induction false} RecordAllAppend(m: Singletons, a: seq<Occurrence>, b: seq<Occurrence>)
    ensures RecordAll(m, a + b) == RecordAll(RecordAll(m, a), b)
    decreases |a|
  {
    if a == [] {
      assert a + b == b;
    } else {
      assert (a + b)[1..] == a[1..] + b;
      RecordAllAppend(Record(m, a[0].0, a[0].1), a[1..], b);
    }
  }

  lemma {:induction false} VisitRecordsOccurrences(constants: set<Symbol>, m: Singletons, t: Term)
    ensures Visit(constants, m, t) == RecordAll(m, Occurrences(constants, t))
    decreases t, 1
  {
    var own := match Tracked(constants, t) case Some(v) => [(v, t)] case None => [];
    assert RecordAll(m, own) == RecordTerm(constants, m, t) by {
      if own != [] { assert own[1..] == []; }
    }
    VisitFromRecordsOccurrences(constants, t, 0, RecordTerm(constants, m, t));
    RecordAllAppend(m, own, OccurrencesFrom(constants, t, 0));
  }

  lemma {:induction false} VisitFromRecordsOccurrences(constants: set<Symbol>, t: Term, i: nat, m: Singletons)
    requires i <= |Children(t)|
    ensures VisitFrom(constants, t, i, m) == RecordAll(m, OccurrencesFrom(constants, t, i))
    decreases t, 0, |Children(t)| - i
  {
    if i < |Children(t)| {
      var c := Children(t)[i];
      VisitRecordsOccurrences(constants, m, c);
      VisitFromRecordsOccurrences(constants, t, i + 1, Visit(constants, m, c));
      RecordAllAppend(m, Occurrences(constants, c), OccurrencesFrom(constants, t, i + 1));
    }
  }

  lemma {:induction false} VisitAllRecordsOccurrences(constants: set<Symbol>, m: Singletons, ts: seq<Term>)
    ensures VisitAll(constants, m, ts) == RecordAll(m, OccurrencesAll(constants, ts))
    decreases |ts|
  {
    if ts != [] {
      VisitRecordsOccurrences(constants, m, ts[0]);
      VisitAllRecordsOccurrences(constants, Visit(constants, m, ts[0]), ts[1..]);
      RecordAllAppend(m, Occurrences(constants, ts[0]), OccurrencesAll(constants, ts[1..]));
    }
  }

  /** How often `v` occurs. */
  function Count(occ: seq<Occurrence>, v: Symbol): nat
    decreases |occ|
  {
    if occ == [] then 0 else (if occ[0].0 == v then 1 else 0) + Count(occ[1..], v)
  }

  /** Starting from `m`, a symbol is kept as `Some` iff it was unseen in `m` and occurs once. */
  lemma {:induction false} RecordAllCounts(m: Singletons, occ: seq<Occurrence>, v: Symbol)
    ensures var r := RecordAll(m, occ);
            && (v in r <==> v in m || Count(occ, v) > 0)
            && (Count(occ, v) > 0 ==> (r[v].Some? <==> v !in m && Count(occ, v) == 1))
            && (Count(occ, v) == 0 && v in m ==> r[v] == m[v])
            && (Count(occ, v) > 0 && r[v].Some? ==> (v, r[v].value) in occ)
    decreases |occ|
  {
    if occ != [] {
      var m' := Record(m, occ[0].0, occ[0].1);
      RecordAllCounts(m', occ[1..], v);
      if occ[0].0 == v && Count(occ[1..], v) == 0 {
        assert RecordAll(m', occ[1..])[v] == m'[v];
      }
    }
  }

  /**
   * What a fresh visitor ends with: exactly the tracked symbols, each bound to
   * `Some(term)` iff it occurs once, and then to that occurrence.
   */
  lemma SingletonsAreOnceOccurring(constants: set<Symbol>, ts: seq<Term>, v: Symbol)
    ensures var r := VisitAll(constants, map[], ts);
            var occ := OccurrencesAll(constants, ts);
            && (v in r <==> Count(occ, v) > 0)
            && (v in r ==> (r[v].Some? <==> Count(occ, v) == 1))
            && (v in r && r[v].Some? ==> (v, r[v].value) in occ)
  {
    VisitAllRecordsOccurrences(constants, map[], ts);
    RecordAllCounts(map[], OccurrencesAll(constants, ts), v);
  }

  lemma {:induction false} OccurrencesTracked(constants: set<Symbol>, t: Term)
    ensures forall i :: 0 <= i < |Occurrences(constants, t)| ==>
              Tracked(constants, Occurrences(constants, t)[i].1) == Some(Occurrences(constants, t)[i].0)
    decreases t, 1
  {
    OccurrencesFromTracked(constants, t, 0);
  }

  lemma {:induction false} OccurrencesFromTracked(constants: set<Symbol>, t: Term, i: nat)
    requires i <= |Children(t)|
    ensures forall k :: 0 <= k < |OccurrencesFrom(constants, t, i)| ==>
              Tracked(constants, OccurrencesFrom(constants, t, i)[k].1) == Some(OccurrencesFrom(constants, t, i)[k].0)
    decreases t, 0, |Children(t)| - i
  {
    if i < |Children(t)| {
      OccurrencesTracked(constants, Children(t)[i]);
      OccurrencesFromTracked(constants, t, i + 1);
    }
  }

  /** Temporary, namespaced and constant symbols never enter the map. */
  lemma {:induction false} OnlyTrackedSymbolsRecorded(constants: set<Symbol>, ts: seq<Term>)
    ensures forall v :: v in VisitAll(constants, map[], ts) ==>
              !IsTemporaryVar(v) && !IsNamespacedVar(v) && v !in constants
  {
    forall v | v in VisitAll(constants, map[], ts)
      ensures !IsTemporaryVar(v) && !IsNamespacedVar(v) && v !in constants
    {
      SingletonsAreOnceOccurring(constants, ts, v);
      var occ := OccurrencesAll(constants, ts);
      var i := CountedAt(occ, v);
      OccurrencesAllTracked(constants, ts, i);
    }
  }

  lemma {:induction false} CountedAt(occ: seq<Occurrence>, v: Symbol) returns (i: nat)
    requires Count(occ, v) > 0
    ensures i < |occ| && occ[i].0 == v
    decreases |occ|
  {
    if occ[0].0 == v {
      i := 0;
    } else {
      var j := CountedAt(occ[1..], v);
      i := j + 1;
    }
  }

  lemma {:induction false} OccurrencesAllTracked(constants: set<Symbol>, ts: seq<Term>, i: nat)
    requires i < |OccurrencesAll(constants, ts)|
    ensures Tracked(constants, OccurrencesAll(constants, ts)[i].1) == Some(OccurrencesAll(constants, ts)[i].0)
    decreases |ts|
  {
    var head := Occurrences(constants, ts[0]);
    if i < |head| {
      OccurrencesTracked(constants, ts[0]);
    } else {
      OccurrencesAllTracked(constants, ts[1..], i - |head|);
    }
  }

  // ---------------------------------------------------------------------
  // The report: drain, sort by offset, render
  // ---------------------------------------------------------------------

  function SymsOf(order: seq<Occurrence>): set<Symbol>
  {
    set i | 0 <= i < |order| :: order[i].0
  }

  /** `order` lists the `Some` entries of `m` among `keys`, each symbol once. */
  predicate Lists(order: seq<Occurrence>, m: Singletons, keys: set<Symbol>)
  {
    && (forall i, j :: 0 <= i < j < |order| ==> order[i].0 != order[j].0)
    && (forall i :: 0 <= i < |order| ==> order[i].0 in keys && order[i].0 in m && m[order[i].0] == Some(order[i].1))
    && (forall k :: k in keys && k in m && m[k].Some? ==> k in SymsOf(order))
  }

  /** `order` is one draining of the map's singletons. */
  predicate IsListing(order: seq<Occurrence>, m: Singletons)
  {
    Lists(order, m, m.Keys)
  }

  predicate SortedByOffset(es: seq<Occurrence>)
  {
    forall i, j :: 0 <= i < j < |es| ==> Offset(es[i].1) <= Offset(es[j].1)
  }

  /** Insert before the first entry whose offset is not smaller, so ahead of its equals. */
  function Insert(e: Occurrence, sorted: seq<Occurrence>): (r: seq<Occurrence>)
    ensures multiset(r) == multiset(sorted) + multiset{e}
    ensures forall x :: x in r <==> x == e || x in sorted
    decreases |sorted|
  {
    if sorted == [] then [e]
    else if Offset(e.1) <= Offset(sorted[0].1) then [e] + sorted
    else
      assert sorted == [sorted[0]] + sorted[1..];
      [sorted[0]] + Insert(e, sorted[1..])
  }

  lemma {:induction false} InsertSorted(e: Occurrence, sorted: seq<Occurrence>)
    requires SortedByOffset(sorted)
    ensures SortedByOffset(Insert(e, sorted))
    decreases |sorted|
  {
    if sorted != [] && Offset(e.1) > Offset(sorted[0].1) {
      var tail := sorted[1..];
      assert SortedByOffset(tail) by {
        forall i, j | 0 <= i < j < |tail| ensures Offset(tail[i].1) <= Offset(tail[j].1) {
          assert tail[i] == sorted[i + 1] && tail[j] == sorted[j + 1];
        }
      }
      var rest := Insert(e, tail);
      InsertSorted(e, tail);
      var r := [sorted[0]] + rest;
      assert Insert(e, sorted) == r;
      forall i, j | 0 <= i < j < |r| ensures Offset(r[i].1) <= Offset(r[j].1) {
        if i == 0 {
          var x := r[j];
          assert x == rest[j - 1];
          assert x in rest;
          if x != e {
            var k :| 0 <= k < |tail| && tail[k] == x;
            assert x == sorted[k + 1];
          }
        } else {
          assert r[i] == rest[i - 1] && r[j] == rest[j - 1];
        }
      }
    }
  }

  /**
   * `sort_by_key(offset)`, the library's stable sort, as an insertion sort:
   * each head goes ahead of the equal offsets of the already sorted tail.
   */
  function SortByOffset(es: seq<Occurrence>): (r: seq<Occurrence>)
    ensures SortedByOffset(r)
    ensures multiset(r) == multiset(es)
    decreases |es|
  {
    if es == [] then []
    else
      assert es == [es[0]] + es[1..];
      InsertSorted(es[0], SortByOffset(es[1..]));
      Insert(es[0], SortByOffset(es[1..]))
  }

  /** The entries at offset `k`, in their order in `es`. */
  function AtOffset(es: seq<Occurrence>, k: nat): (r: seq<Occurrence>)
    ensures forall x :: x in r <==> x in es && Offset(x.1) == k
    decreases |es|
  {
    if es == [] then []
    else
      assert es == [es[0]] + es[1..];
      (if Offset(es[0].1) == k then [es[0]] else []) + AtOffset(es[1..], k)
  }

  lemma AtOffsetCons(x: Occurrence, rest: seq<Occurrence>, k: nat)
    ensures AtOffset([x] + rest, k) == (if Offset(x.1) == k then [x] else []) + AtOffset(rest, k)
  {
    assert ([x] + rest)[1..] == rest;
  }

  /** Putting `x`, which is below `e`, in front of both sides keeps `e`'s place at offset `k`. */
  lemma AtOffsetSkip(e: Occurrence, x: Occurrence, inserted: seq<Occurrence>, tail: seq<Occurrence>, k: nat)
    requires Offset(x.1) < Offset(e.1)
    requires AtOffset(inserted, k) == (if Offset(e.1) == k then [e] else []) + AtOffset(tail, k)
    ensures AtOffset([x] + inserted, k) == (if Offset(e.1) == k then [e] else []) + AtOffset([x] + tail, k)
  {
    AtOffsetCons(x, inserted, k);
    AtOffsetCons(x, tail, k);
  }

  lemma {:induction false} InsertAtOffset(e: Occurrence, sorted: seq<Occurrence>, k: nat)
    ensures AtOffset(Insert(e, sorted), k) == (if Offset(e.1) == k then [e] else []) + AtOffset(sorted, k)
    decreases |sorted|
  {
    if sorted == [] {
      AtOffsetCons(e, [], k);
      assert [e] + [] == [e];
    } else if Offset(e.1) > Offset(sorted[0].1) {
      InsertAtOffset(e, sorted[1..], k);
      AtOffsetSkip(e, sorted[0], Insert(e, sorted[1..]), sorted[1..], k);
      assert sorted == [sorted[0]] + sorted[1..];
    } else {
      AtOffsetCons(e, sorted, k);
    }
  }

  /** The sort is stable: the entries of each offset keep their relative order. */
  lemma {:induction false} SortByOffsetStable(es: seq<Occurrence>, k: nat)
    ensures AtOffset(SortByOffset(es), k) == AtOffset(es, k)
    decreases |es|
  {
    if es != [] {
      SortByOffsetStable(es[1..], k);
      InsertAtOffset(es[0], SortByOffset(es[1..]), k);
    }
  }

  /** The message followed, when the term's source is known, by the rendered source lines. */
  function WithSource(msg: string, lines: Option<string>): string
  {
    match lines
    case Some(text) => msg + "\n" + text
    case None => msg
  }

  /** Render in order; the first error replaces every message. */
  function Render(es: seq<Occurrence>, sourceLines: Term -> Option<string>): PolarResult<seq<string>>
    decreases |es|
  {
    if es == [] then Ok([])
    else
      match WarnStr(es[0].0, es[0].1)
      case Err(e) => Err(e)
      case Ok(msg) =>
        match Render(es[1..], sourceLines)
        case Err(e) => Err(e)
        case Ok(msgs) => Ok([WithSource(msg, sourceLines(es[0].1))] + msgs)
  }

  /** The report succeeds iff every entry is a pattern. */
  lemma {:induction false} RenderOkIff(es: seq<Occurrence>, sourceLines: Term -> Option<string>)
    ensures Render(es, sourceLines).Ok? <==> forall i :: 0 <= i < |es| ==> es[i].1.value.Pattern?
    decreases |es|
  {
    if es != [] {
      RenderOkIff(es[1..], sourceLines);
      assert forall i :: 0 < i < |es| ==> es[i] == es[1..][i - 1];
    }
  }

  /** A successful report has one message per entry, in order. */
  lemma {:induction false} RenderMessages(es: seq<Occurrence>, sourceLines: Term -> Option<string>)
    requires Render(es, sourceLines).Ok?
    ensures var msgs := Render(es, sourceLines).value;
            |msgs| == |es| &&
            forall i :: 0 <= i < |es| ==>
              msgs[i] == WithSource("Unknown specializer " + es[i].0 + Suggestion(es[i].0), sourceLines(es[i].1))
    decreases |es|
  {
    if es != [] {
      RenderMessages(es[1..], sourceLines);
      assert forall i :: 0 < i < |es| ==> es[i] == es[1..][i - 1];
    }
  }

  /** A failed report is the error of the first entry that is not a pattern. */
  lemma {:induction false} RenderFirstError(es: seq<Occurrence>, sourceLines: Term -> Option<string>)
    requires Render(es, sourceLines).Err?
    ensures exists i :: 0 <= i < |es| && !es[i].1.value.Pattern?
              && (forall j :: 0 <= j < i ==> es[j].1.value.Pattern?)
              && Render(es, sourceLines).error == Parse(SingletonVariable(Offset(es[i].1), es[i].0))
    decreases |es|
  {
    if es[0].1.value.Pattern? {
      RenderFirstError(es[1..], sourceLines);
      var tail := es[1..];
      var i :| 0 <= i < |tail| && !tail[i].1.value.Pattern?
                && (forall j :: 0 <= j < i ==> tail[j].1.value.Pattern?)
                && Render(tail, sourceLines).error == Parse(SingletonVariable(Offset(tail[i].1), tail[i].0));
      assert es[i + 1] == tail[i];
      assert forall j :: 0 < j <= i ==> es[j] == tail[j - 1];
    }
  }

  function Prefixed(msgs: seq<string>, r: PolarResult<seq<string>>): PolarResult<seq<string>>
  {
    match r
    case Err(e) => Err(e)
    case Ok(ms) => Ok(msgs + ms)
  }

  lemma PrefixedNothing(r: PolarResult<seq<string>>)
    ensures Prefixed([], r) == r
  {
    if r.Ok? { assert [] + r.value == r.value; }
  }

  lemma PrefixedMore(msgs: seq<string>, m: string, r: PolarResult<seq<string>>)
    ensures Prefixed(msgs, Prefixed([m], r)) == Prefixed(msgs + [m], r)
  {
    if r.Ok? { assert msgs + ([m] + r.value) == msgs + [m] + r.value; }
  }

  /** Records symbol occurrences of one rule; `kb.is_constant` is membership in `constants`. */
  class SingletonVisitor {
    const constants: set<Symbol>
    var singletons: Singletons

    constructor (constants: set<Symbol>)
      ensures this.constants == constants && singletons == map[]
    {
      this.constants := constants;
      singletons := map[];
    }

    /** `visit_term`: update the entry of a tracked symbol, then walk the children. */
    method VisitTerm(t: Term)
      modifies this
      ensures singletons == Visit(constants, old(singletons), t)
      decreases t
    {
      match Tracked(constants, t) {
        case Some(v) =>
          if v in singletons {
            singletons := singletons[v := None];
          } else {
            singletons := singletons[v := Some(t)];
          }
        case None =>
      }
      var children := Children(t);
      for i := 0 to |children|
        invariant VisitFrom(constants, t, i, singletons) == Visit(constants, old(singletons), t)
      {
        VisitTerm(children[i]);
      }
    }

    /** `walk_rule`: visit each parameter and specializer, then the body. */
    method VisitRule(rule: Rule)
      modifies this
      ensures singletons == VisitAll(constants, old(singletons), RuleTerms(rule))
    {
      var ts := RuleTerms(rule);
      for i := 0 to |ts|
        invariant VisitAll(constants, singletons, ts[i..]) == VisitAll(constants, old(singletons), ts)
      {
        assert ts[i..][1..] == ts[i + 1..];
        VisitTerm(ts[i]);
      }
    }

    /** `drain().filter_map(..)`: empty the map, keeping each symbol seen once with its term. */
    method Drain() returns (collected: seq<Occurrence>)
      modifies this
      ensures singletons == map[]
      ensures IsListing(collected, old(singletons))
    {
      var all := singletons;
      var rest := singletons;
      collected := [];
      while rest != map[]
        invariant rest.Keys <= all.Keys
        invariant forall k :: k in rest ==> rest[k] == all[k]
        invariant Lists(collected, all, all.Keys - rest.Keys)
        decreases |rest|
      {
        var k :| k in rest;
        ListsStep(collected, all, all.Keys - rest.Keys, k);
        match rest[k] {
          case Some(t) =>
            collected := collected + [(k, t)];
          case None =>
        }
        assert all.Keys - (rest - {k}).Keys == (all.Keys - rest.Keys) + {k};
        rest := rest - {k};
      }
      singletons := map[];
    }

    /**
     * `warnings`: drain the map (in no particular order), keep the entries
     * seen once, sort them by offset and render them; the first error wins.
     */
    method Warnings(sourceLines: Term -> Option<string>)
      returns (r: PolarResult<seq<string>>, ghost order: seq<Occurrence>)
      modifies this
      ensures singletons == map[]
      ensures IsListing(order, old(singletons))
      ensures r == Render(SortByOffset(order), sourceLines)
    {
      var collected := Drain();
      order := collected;
      var sorted := SortByOffset(collected);
      r := RenderWarnings(sorted, sourceLines);
    }
  }

  /** Draining one more key keeps the drained list a listing of the keys drained so far. */
  lemma ListsStep(collected: seq<Occurrence>, all: Singletons, done: set<Symbol>, k: Symbol)
    requires Lists(collected, all, done)
    requires k in all && k !in done
    ensures all[k].Some? ==> Lists(collected + [(k, all[k].value)], all, done + {k})
    ensures all[k].None? ==> Lists(collected, all, done + {k})
  {
    if all[k].Some? {
      var c := collected + [(k, all[k].value)];
      SymsOfSnoc(collected, (k, all[k].value));
      forall i, j | 0 <= i < j < |c| ensures c[i].0 != c[j].0 {
        if j < |collected| {
          assert c[i] == collected[i] && c[j] == collected[j];
        } else {
          assert c[i] == collected[i];
        }
      }
      assert forall i :: 0 <= i < |collected| ==> c[i] == collected[i];
    }
  }

  lemma SymsOfSnoc(xs: seq<Occurrence>, e: Occurrence)
    ensures SymsOf(xs + [e]) == SymsOf(xs) + {e.0}
  {
    var c := xs + [e];
    forall x | x in SymsOf(c) ensures x in SymsOf(xs) + {e.0} {
      var i :| 0 <= i < |c| && c[i].0 == x;
      if i < |xs| { assert xs[i].0 == x; }
    }
    forall x | x in SymsOf(xs) ensures x in SymsOf(c) {
      var i :| 0 <= i < |xs| && xs[i].0 == x;
      assert c[i].0 == x;
    }
    assert c[|xs|].0 == e.0;
  }

  /** The `map(..).collect::<PolarResult<Vec<_>>>()` over the sorted entries. */
  method RenderWarnings(sorted: seq<Occurrence>, sourceLines: Term -> Option<string>)
    returns (r: PolarResult<seq<string>>)
    ensures r == Render(sorted, sourceLines)
  {
    var msgs: seq<string> := [];
    assert sorted[0..] == sorted;
    PrefixedNothing(Render(sorted, sourceLines));
    for i := 0 to |sorted|
      invariant Render(sorted, sourceLines) == Prefixed(msgs, Render(sorted[i..], sourceLines))
    {
      assert sorted[i..][1..] == sorted[i + 1..];
      var w := WarnStr(sorted[i].0, sorted[i].1);
      if w.Err? {
        return Err(w.error);
      }
      var line := WithSource(w.value, sourceLines(sorted[i].1));
      assert Render(sorted[i..], sourceLines) == Prefixed([line], Render(sorted[i + 1..], sourceLines));
      PrefixedMore(msgs, line, Render(sorted[i + 1..], sourceLines));
      msgs := msgs + [line];
    }
    assert msgs + [] == msgs;
    r := Ok(msgs);
  }

  /** The singleton map a fresh visitor builds for one rule. */
  function RuleSingletons(constants: set<Symbol>, rule: Rule): Singletons
  {
    VisitAll(constants, map[], RuleTerms(rule))
  }

  /**
   * `check_singletons`: a fresh visitor per rule, so the report depends only
   * on the rule and the knowledge base's constants and sources.
   */
  method CheckSingletons(rule: Rule, constants: set<Symbol>, sourceLines: Term -> Option<string>)
    returns (r: PolarResult<seq<string>>, ghost order: seq<Occurrence>)
    ensures IsListing(order, RuleSingletons(constants, rule))
    ensures r == Render(SortByOffset(order), sourceLines)
  {
    var visitor := new SingletonVisitor(constants);
    visitor.VisitRule(rule);
    r, order := visitor.Warnings(sourceLines);
  }

  /** No symbol is listed twice. */
  predicate DistinctSyms(es: seq<Occurrence>)
  {
    forall i, j :: 0 <= i < j < |es| ==> es[i].0 != es[j].0
  }

  lemma {:induction false} DistinctSymsOnce(b: seq<Occurrence>, x: Occurrence)
    requires DistinctSyms(b)
    ensures multiset(b)[x] <= 1
    decreases |b|
  {
    if b != [] {
      var tail := b[1..];
      assert b == [b[0]] + tail;
      assert DistinctSyms(tail) by {
        forall i, j | 0 <= i < j < |tail| ensures tail[i].0 != tail[j].0 {
          assert tail[i] == b[i + 1] && tail[j] == b[j + 1];
        }
      }
      DistinctSymsOnce(tail, x);
      if b[0] == x {
        assert x !in tail by {
          forall k | 0 <= k < |tail| ensures tail[k] != x {
            assert tail[k] == b[k + 1];
          }
        }
      }
    }
  }

  /** A permutation of a list with distinct symbols has distinct symbols. */
  lemma PermutationKeepsDistinctSyms(a: seq<Occurrence>, b: seq<Occurrence>)
    requires multiset(a) == multiset(b)
    requires DistinctSyms(b)
    ensures DistinctSyms(a)
  {
    forall i, j | 0 <= i < j < |a| ensures a[i].0 != a[j].0 {
      if a[i].0 == a[j].0 {
        assert a[i] in multiset(b) && a[j] in multiset(b);
        var p :| 0 <= p < |b| && b[p] == a[i];
        var q :| 0 <= q < |b| && b[q] == a[j];
        assert p == q;
        assert a == a[..j] + a[j..];
        assert a[i] in a[..j] && a[j] in a[j..];
        assert multiset(a)[a[i]] == multiset(a[..j])[a[i]] + multiset(a[j..])[a[i]];
        DistinctSymsOnce(b, a[i]);
        assert false;
      }
    }
  }

  lemma SameMembers(a: seq<Occurrence>, b: seq<Occurrence>)
    requires multiset(a) == multiset(b)
    ensures forall e :: e in a <==> e in b
  {
    forall e ensures e in a <==> e in b {
      assert e in a <==> e in multiset(a);
      assert e in b <==> e in multiset(b);
    }
  }

  lemma SameSyms(a: seq<Occurrence>, b: seq<Occurrence>)
    requires forall e :: e in a <==> e in b
    ensures SymsOf(a) == SymsOf(b)
  {
    forall v | v in SymsOf(a) ensures v in SymsOf(b) {
      var i :| 0 <= i < |a| && a[i].0 == v;
      assert a[i] in b;
      var j :| 0 <= j < |b| && b[j] == a[i];
    }
    forall v | v in SymsOf(b) ensures v in SymsOf(a) {
      var j :| 0 <= j < |b| && b[j].0 == v;
      assert b[j] in a;
      var i :| 0 <= i < |a| && a[i] == b[j];
    }
  }

  /** A listing of a fresh visitor's map names exactly the once-occurring symbols. */
  lemma ListingIsOnceOccurring(constants: set<Symbol>, ts: seq<Term>, order: seq<Occurrence>, v: Symbol)
    requires IsListing(order, VisitAll(constants, map[], ts))
    ensures v in SymsOf(order) <==> Count(OccurrencesAll(constants, ts), v) == 1
    ensures forall i :: 0 <= i < |order| ==> order[i] in OccurrencesAll(constants, ts)
  {
    SingletonsAreOnceOccurring(constants, ts, v);
    forall i | 0 <= i < |order| ensures order[i] in OccurrencesAll(constants, ts) {
      SingletonsAreOnceOccurring(constants, ts, order[i].0);
    }
  }

  /**
   * The report lists exactly the tracked symbols of the rule that occur once,
   * in non-decreasing offset order, each with the term of its occurrence.
   */
  lemma ReportIsOnceOccurringSorted(constants: set<Symbol>, rule: Rule, order: seq<Occurrence>)
    requires IsListing(order, RuleSingletons(constants, rule))
    ensures var sorted := SortByOffset(order);
            var occ := OccurrencesAll(constants, RuleTerms(rule));
            && SortedByOffset(sorted)
            && (forall v :: v in SymsOf(sorted) <==> Count(occ, v) == 1)
            && (forall i :: 0 <= i < |sorted| ==> sorted[i] in occ)
            && DistinctSyms(sorted)
  {
    var sorted := SortByOffset(order);
    var occ := OccurrencesAll(constants, RuleTerms(rule));
    PermutationKeepsDistinctSyms(sorted, order);
    SameMembers(sorted, order);
    SameSyms(sorted, order);
    forall v ensures v in SymsOf(sorted) <==> Count(occ, v) == 1 {
      ListingIsOnceOccurring(constants, RuleTerms(rule), order, v);
    }
    ListingIsOnceOccurring(constants, RuleTerms(rule), order, rule.name);
    forall i | 0 <= i < |sorted| ensures sorted[i] in occ {
      assert sorted[i] in order;
      var j :| 0 <= j < |order| && order[j] == sorted[i];
    }
  }
}
