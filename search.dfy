/** The exhaustive search: every candidate formula is evaluated, and each one
    with an integer value has its text filed under that value, once. */
module Search {
  import opened Wrappers
  import opened Collections
  import opened Expressions
  import opened Enumeration
  import opened Cli

  /** The table the search builds: each integer reached, with the texts of
      the formulas that reach it. */
  type Table = map<int, seq<string>>

  // ---------------------------------------------------------------------
  // What a table should hold

  /** The integers reached by some formula of P. */
  function Values(P: set<Expr>): set<int>
  {
    set e | e in P && IntegerValue(e).Some? :: IntegerValue(e).value
  }

  /** The texts of the formulas of P whose value is exactly k. */
  function Texts(P: set<Expr>, k: int): set<string>
  {
    set e | e in P && IntegerValue(e) == Some(k) :: Render(e)
  }

  /** The table records the formulas of P: its keys are the integers they
      reach, and each key lists, once each, the texts of the formulas that
      reach it. */
  predicate Summarises(m: Table, P: set<Expr>)
  {
    && m.Keys == Values(P)
    && forall k :: k in m ==> Distinct(m[k]) && Elements(m[k]) == Texts(P, k)
  }

  /** The list a key has so far, empty when absent (a fresh default list). */
  function ListAt(m: Table, k: int): seq<string>
  {
    if k in m then m[k] else []
  }

  /** One step of the search on one formula: a formula that divides by zero
      or whose value is not an integer leaves the table alone; otherwise its
      text is appended under its value unless it is already there. */
  function Record(m: Table, e: Expr): Table
  {
    match IntegerValue(e)
    case None => m
    case Some(k) =>
      var text := Render(e);
      if text in ListAt(m, k) then m else m[k := ListAt(m, k) + [text]]
  }

  /** One step keeps the table a record of everything seen so far. */
  lemma RecordSummarises(m: Table, P: set<Expr>, e: Expr)
    requires Summarises(m, P)
    ensures Summarises(Record(m, e), P + {e})
  {
    match IntegerValue(e)
    case None => PassedOverSummarises(m, P, e);
    case Some(v) => FiledSummarises(m, P, e, v);
  }

  lemma PassedOverSummarises(m: Table, P: set<Expr>, e: Expr)
    requires Summarises(m, P) && IntegerValue(e).None?
    ensures Summarises(m, P + {e})
  {
    assert Values(P + {e}) == Values(P);
    forall k | k in m
      ensures Texts(P + {e}, k) == Texts(P, k)
    {
    }
  }

  lemma FiledSummarises(m: Table, P: set<Expr>, e: Expr, v: int)
    requires Summarises(m, P) && IntegerValue(e) == Some(v)
    ensures Summarises(Record(m, e), P + {e})
  {
    var m' := Record(m, e);
    assert Values(P + {e}) == Values(P) + {v};
    forall k | k in m'
      ensures Distinct(m'[k]) && Elements(m'[k]) == Texts(P + {e}, k)
    {
      if k == v {
        FiledKey(m, P, e, v);
      } else {
        assert Texts(P + {e}, k) == Texts(P, k);
      }
    }
  }

  lemma FiledKey(m: Table, P: set<Expr>, e: Expr, v: int)
    requires Summarises(m, P) && IntegerValue(e) == Some(v)
    ensures v in Record(m, e)
    ensures Distinct(Record(m, e)[v]) && Elements(Record(m, e)[v]) == Texts(P + {e}, v)
  {
    var list := ListAt(m, v);
    assert Texts(P + {e}, v) == Texts(P, v) + {Render(e)};
    assert Elements(list) == Texts(P, v);
    if Render(e) !in list {
      ElementsAppend(list, [Render(e)]);
    }
  }

  /** A formula that divides by zero is passed over. */
  lemma RecordSkipsDivisionByZero(m: Table, e: Expr)
    requires DividesByZero(e)
    ensures Record(m, e) == m
  {
    EvaluateFailsIffDividesByZero(e);
  }

  /** A formula whose value is not an integer is passed over. */
  lemma RecordSkipsFraction(m: Table, e: Expr, v: real)
    requires Evaluate(e) == Some(v) && v != v.Floor as real
    ensures Record(m, e) == m
  {
  }

  /** A formula with an integer value leaves its text under that value, and
      no other key changes. */
  lemma RecordFilesText(m: Table, e: Expr, k: int)
    requires Evaluate(e) == Some(k as real)
    ensures k in Record(m, e) && Render(e) in Record(m, e)[k]
    ensures Record(m, e).Keys == m.Keys + {k}
    ensures forall j :: j in m && j != k ==> Record(m, e)[j] == m[j]
  {
    IntegerValueIsExact(e, k);
  }

  /** The loop step of the search: after one more formula of the current
      operator triple, the table records one more formula. */
  lemma RecordNext(before: Table, after: Table, seen: set<Expr>, exprs: seq<Expr>, j: nat)
    requires j < |exprs| && after == Record(before, exprs[j])
    requires Summarises(before, seen + Elements(exprs[..j]))
    ensures Summarises(after, seen + Elements(exprs[..j + 1]))
  {
    RecordSummarises(before, seen + Elements(exprs[..j]), exprs[j]);
    assert exprs[..j + 1] == exprs[..j] + [exprs[j]];
    ElementsAppend(exprs[..j], [exprs[j]]);
    assert seen + Elements(exprs[..j + 1]) == seen + Elements(exprs[..j]) + {exprs[j]};
  }

  // ---------------------------------------------------------------------
  // The search

  /** The search over the formulas of a four-digit argument. The orderings
      are taken from a set in no fixed order. */
  method CalculatePossibilities(digitsStr: string) returns (results: Table)
    requires ValidArgument(digitsStr)
    ensures Summarises(results, AllCandidates(DigitsOf(digitsStr)))
  {
    var digits := DigitsOf(digitsStr);
    results := map[];
    var remaining := Orderings(digits);
    ghost var visited: set<Ordering> := {};
    while remaining != {}
      invariant remaining + visited == Orderings(digits) && remaining !! visited
      invariant Summarises(results, CandidatesFrom(visited))
      decreases remaining
    {
      var p :| p in remaining;
      results := SearchOrdering(results, CandidatesFrom(visited), p);
      CandidatesFromAdd(visited, p);
      visited := visited + {p};
      remaining := remaining - {p};
    }
  }

  /** The search over the 320 formulas of one ordering: the operator triples
      in order, and for each the five shapes in order. */
  method SearchOrdering(table: Table, ghost seen: set<Expr>, p: Ordering) returns (results: Table)
    requires Summarises(table, seen)
    ensures Summarises(results, seen + CandidatesOf(p))
  {
    results := table;
    for i := 0 to 64
      invariant Summarises(results, seen + CandidatesUpTo(p, i))
    {
      var ops := OpTriples()[i];
      results := SearchTriple(results, seen + CandidatesUpTo(p, i), p, ops);
      NextTriple(results, seen, p, i);
    }
  }

  /** After the five formulas of the next triple, the table records the
      formulas of one more triple. */
  lemma NextTriple(m: Table, seen: set<Expr>, p: Ordering, i: nat)
    requires i < 64
    requires Summarises(m, seen + CandidatesUpTo(p, i) + Elements(ExpressionsFor(p, OpTriples()[i])))
    ensures Summarises(m, seen + CandidatesUpTo(p, i + 1))
  {
    CandidatesUpToNext(p, i);
    assert seen + CandidatesUpTo(p, i) + Elements(ExpressionsFor(p, OpTriples()[i]))
        == seen + CandidatesUpTo(p, i + 1);
  }

  /** The five formulas of one ordering and one operator triple, in the
      order of the shapes. */
  method SearchTriple(table: Table, ghost seen: set<Expr>, p: Ordering, ops: OpTriple) returns (results: Table)
    requires Summarises(table, seen)
    ensures Summarises(results, seen + Elements(ExpressionsFor(p, ops)))
  {
    ghost var expressions := ExpressionsFor(p, ops);
    results := table;
    for j := 0 to 5
      invariant Summarises(results, seen + Elements(expressions[..j]))
    {
      ghost var previous := results;
      results := FileFormula(results, ShapeList[j], p, ops);
      RecordNext(previous, results, seen, expressions, j);
    }
    assert expressions[..5] == expressions;
  }

  /** One formula: its text is the shape's format string, it is evaluated,
      and when its value is an integer the text is appended under that
      value unless the list there already holds it. */
  method FileFormula(table: Table, s: Shape, p: Ordering, ops: OpTriple) returns (results: Table)
    ensures results == Record(table, Build(s, p, ops))
  {
    var text := Template(s, p, ops);
    var res := Evaluate(Build(s, p, ops));
    RenderMatchesTemplate(s, p, ops);
    results := table;
    if res.Some? && res.value == res.value.Floor as real {
      var key := res.value.Floor;
      var list := ListAt(results, key);
      if text !in list {
        results := results[key := list + [text]];
      }
    }
  }
}
