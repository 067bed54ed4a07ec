/** What the table of a completed search says, stated over the format
    strings and formulas the search goes through. */
module Properties {
  import opened Wrappers
  import opened Collections
  import opened Expressions
  import opened Enumeration
  import opened Cli
  import opened Search

  /** A candidate of the search: a shape over one ordering of the digits,
      with some operator triple. */
  predicate IsCandidate(ds: Ordering, s: Shape, p: Ordering, t: OpTriple)
  {
    s in ShapeList && p in Orderings(ds)
  }

  /** Every candidate formula arises from a shape, an ordering and a triple. */
  lemma CandidateParts(ds: Ordering, e: Expr) returns (s: Shape, p: Ordering, t: OpTriple)
    requires e in AllCandidates(ds)
    ensures IsCandidate(ds, s, p, t) && e == Build(s, p, t)
  {
    p :| p in Orderings(ds) && e in CandidatesOf(p);
    CandidatesOfMembers(p, e);
    s, t :| s in ShapeList && e == Build(s, p, t);
  }

  lemma CandidateOfParts(ds: Ordering, s: Shape, p: Ordering, t: OpTriple)
    requires IsCandidate(ds, s, p, t)
    ensures Build(s, p, t) in AllCandidates(ds)
  {
    CandidatesOfMembers(p, Build(s, p, t));
  }

  /** Different candidates have different texts. */
  lemma CandidateTextsDistinct(ds: Ordering, e1: Expr, e2: Expr)
    requires e1 in AllCandidates(ds) && e2 in AllCandidates(ds)
    requires Render(e1) == Render(e2)
    ensures e1 == e2
  {
    var s1, p1, t1 := CandidateParts(ds, e1);
    var s2, p2, t2 := CandidateParts(ds, e2);
    RenderMatchesTemplate(s1, p1, t1);
    RenderMatchesTemplate(s2, p2, t2);
    TemplateInjective(s1, p1, t1, s2, p2, t2);
  }

  // ---------------------------------------------------------------------
  // Soundness and completeness of the table

  /** Every text filed under a key is the format string of a candidate whose
      exact value is that key. */
  lemma RecordedTextsEvaluateToKey(m: Table, ds: Ordering, k: int, text: string)
    requires Summarises(m, AllCandidates(ds))
    requires k in m && text in m[k]
    ensures exists s, p, t :: IsCandidate(ds, s, p, t) && text == Template(s, p, t)
                              && Evaluate(Build(s, p, t)) == Some(k as real)
  {
    assert text in Texts(AllCandidates(ds), k);
    var e :| e in AllCandidates(ds) && IntegerValue(e) == Some(k) && Render(e) == text;
    var s, p, t := CandidateParts(ds, e);
    RenderMatchesTemplate(s, p, t);
    IntegerValueIsExact(e, k);
  }

  /** Every candidate with an integer value has its format string filed
      under that value. */
  lemma EveryIntegerCandidateRecorded(m: Table, ds: Ordering, s: Shape, p: Ordering, t: OpTriple, k: int)
    requires Summarises(m, AllCandidates(ds))
    requires IsCandidate(ds, s, p, t) && Evaluate(Build(s, p, t)) == Some(k as real)
    ensures k in m && Template(s, p, t) in m[k]
  {
    var e := Build(s, p, t);
    CandidateOfParts(ds, s, p, t);
    IntegerValueIsExact(e, k);
    assert k in Values(AllCandidates(ds));
    assert Render(e) in Texts(AllCandidates(ds), k);
    RenderMatchesTemplate(s, p, t);
  }

  /** The keys are exactly the integers some candidate evaluates to. */
  lemma KeysAreReachedValues(m: Table, ds: Ordering, k: int)
    requires Summarises(m, AllCandidates(ds))
    ensures k in m <==> exists s, p, t :: IsCandidate(ds, s, p, t) && Evaluate(Build(s, p, t)) == Some(k as real)
  {
    if k in m {
      assert k in Values(AllCandidates(ds));
      var e :| e in AllCandidates(ds) && IntegerValue(e) == Some(k);
      var s, p, t := CandidateParts(ds, e);
      IntegerValueIsExact(e, k);
    }
    if exists s, p, t :: IsCandidate(ds, s, p, t) && Evaluate(Build(s, p, t)) == Some(k as real) {
      var s, p, t :| IsCandidate(ds, s, p, t) && Evaluate(Build(s, p, t)) == Some(k as real);
      EveryIntegerCandidateRecorded(m, ds, s, p, t, k);
    }
  }

  /** Every key has at least one text: a key appears only with the text that
      brought it. */
  lemma KeysHaveTexts(m: Table, ds: Ordering, k: int)
    requires Summarises(m, AllCandidates(ds)) && k in m
    ensures |m[k]| > 0
  {
    var e :| e in AllCandidates(ds) && IntegerValue(e) == Some(k);
    assert Render(e) in Texts(AllCandidates(ds), k);
  }

  /** A candidate that divides by zero leaves its text nowhere. */
  lemma ZeroDivisionLeavesNoText(m: Table, ds: Ordering, s: Shape, p: Ordering, t: OpTriple)
    requires Summarises(m, AllCandidates(ds))
    requires IsCandidate(ds, s, p, t) && DividesByZero(Build(s, p, t))
    ensures forall k :: k in m ==> Template(s, p, t) !in m[k]
  {
    EvaluateFailsIffDividesByZero(Build(s, p, t));
    SkippedCandidateAbsent(m, ds, s, p, t);
  }

  /** A candidate whose value is a fraction leaves its text nowhere. */
  lemma FractionLeavesNoText(m: Table, ds: Ordering, s: Shape, p: Ordering, t: OpTriple, v: real)
    requires Summarises(m, AllCandidates(ds))
    requires IsCandidate(ds, s, p, t) && Evaluate(Build(s, p, t)) == Some(v) && v != v.Floor as real
    ensures forall k :: k in m ==> Template(s, p, t) !in m[k]
  {
    SkippedCandidateAbsent(m, ds, s, p, t);
  }

  lemma SkippedCandidateAbsent(m: Table, ds: Ordering, s: Shape, p: Ordering, t: OpTriple)
    requires Summarises(m, AllCandidates(ds))
    requires IsCandidate(ds, s, p, t) && IntegerValue(Build(s, p, t)).None?
    ensures forall k :: k in m ==> Template(s, p, t) !in m[k]
  {
    var e := Build(s, p, t);
    CandidateOfParts(ds, s, p, t);
    RenderMatchesTemplate(s, p, t);
    forall k | k in m && Template(s, p, t) in m[k]
      ensures false
    {
      assert Render(e) in Texts(AllCandidates(ds), k);
      var e' :| e' in AllCandidates(ds) && IntegerValue(e') == Some(k) && Render(e') == Render(e);
      CandidateTextsDistinct(ds, e, e');
    }
  }

  // ---------------------------------------------------------------------
  // The table does not depend on the order of the search

  /** Any two tables that record the same formulas have the same keys, and
      under each key the same texts, as many of them; only their order may
      differ. */
  lemma SummaryUnique(m1: Table, m2: Table, P: set<Expr>, k: int)
    requires Summarises(m1, P) && Summarises(m2, P)
    ensures m1.Keys == m2.Keys
    ensures k in m1 ==> Elements(m1[k]) == Elements(m2[k]) && |m1[k]| == |m2[k]|
  {
    if k in m1 {
      ElementsCard(m1[k]);
      ElementsCard(m2[k]);
    }
  }

  /** The formulas of S whose value is k. */
  function Reaching(S: set<Expr>, k: int): set<Expr>
  {
    set e | e in S && IntegerValue(e) == Some(k)
  }

  /** The number of texts under a key is the number of candidates whose
      value is that key. */
  lemma TextCountIsCandidateCount(m: Table, ds: Ordering, k: int)
    requires Summarises(m, AllCandidates(ds)) && k in m
    ensures |m[k]| == |Reaching(AllCandidates(ds), k)|
  {
    ElementsCard(m[k]);
    forall e1, e2 | e1 in AllCandidates(ds) && e2 in AllCandidates(ds) && Render(e1) == Render(e2)
      ensures e1 == e2
    {
      CandidateTextsDistinct(ds, e1, e2);
    }
    TextsCard(AllCandidates(ds), k);
  }

  /** When no two formulas of S share a text, the texts with value k number
      as many as the formulas with value k. */
  lemma {:induction false} TextsCard(S: set<Expr>, k: int)
    requires forall e1, e2 :: e1 in S && e2 in S && Render(e1) == Render(e2) ==> e1 == e2
    ensures |Texts(S, k)| == |Reaching(S, k)|
  {
    if S != {} {
      var e :| e in S;
      var rest := S - {e};
      TextsCard(rest, k);
      assert S == rest + {e};
      AddOne(rest, e, k);
      if IntegerValue(e) == Some(k) {
        assert Render(e) !in Texts(rest, k);
      }
    } else {
      assert Texts(S, k) == {};
    }
  }

  lemma AddOne(S: set<Expr>, e: Expr, k: int)
    requires e !in S
    ensures IntegerValue(e) == Some(k) ==> Reaching(S + {e}, k) == Reaching(S, k) + {e}
    ensures IntegerValue(e) == Some(k) ==> Texts(S + {e}, k) == Texts(S, k) + {Render(e)}
    ensures IntegerValue(e) != Some(k) ==> Reaching(S + {e}, k) == Reaching(S, k)
    ensures IntegerValue(e) != Some(k) ==> Texts(S + {e}, k) == Texts(S, k)
  {
  }

  // ---------------------------------------------------------------------
  // Display text

  /** The texts under one key stay pairwise different once their spaces are
      removed. */
  lemma DisplayedTextsDistinct(m: Table, ds: Ordering, k: int, i: int, j: int)
    requires Summarises(m, AllCandidates(ds)) && k in m
    requires 0 <= i < j < |m[k]|
    ensures StripSpaces(m[k][i]) != StripSpaces(m[k][j])
  {
    var P := AllCandidates(ds);
    assert m[k][i] in Texts(P, k) && m[k][j] in Texts(P, k);
    var e1 :| e1 in P && IntegerValue(e1) == Some(k) && Render(e1) == m[k][i];
    var e2 :| e2 in P && IntegerValue(e2) == Some(k) && Render(e2) == m[k][j];
    if StripSpaces(m[k][i]) == StripSpaces(m[k][j]) {
      DisplayInjective(e1, e2);
    }
  }

  // ---------------------------------------------------------------------
  // Examples

  /** For 1234 the table lists 24, reached by ((1 + 2) + 3) * 4. */
  lemma FindsTwentyFour(m: Table)
    requires Summarises(m, AllCandidates([1, 2, 3, 4]))
    ensures 24 in m && "((1 + 2) + 3) * 4" in m[24]
  {
    var ds: Ordering := [1, 2, 3, 4];
    OrderingsCount(ds);
    TwentyFourFormula();
    EveryIntegerCandidateRecorded(m, ds, LeftDeep, ds, (Add, Add, Mul), 24);
  }

  lemma TwentyFourFormula()
    ensures Evaluate(Build(LeftDeep, [1, 2, 3, 4], (Add, Add, Mul))) == Some(24 as real)
    ensures Template(LeftDeep, [1, 2, 3, 4], (Add, Add, Mul)) == "((1 + 2) + 3) * 4"
  {
    var a, b, c, d := Leaf(1), Leaf(2), Leaf(3), Leaf(4);
    assert Evaluate(Node(Add, a, b)) == Some(3.0);
    assert Evaluate(Node(Add, Node(Add, a, b), c)) == Some(6.0);
  }

  /** Negative values are kept: for 1234 the table lists -8. */
  lemma KeepsNegativeValues(m: Table)
    requires Summarises(m, AllCandidates([1, 2, 3, 4]))
    ensures -8 in m && "((1 - 2) - 3) - 4" in m[-8]
  {
    var ds: Ordering := [1, 2, 3, 4];
    OrderingsCount(ds);
    MinusEightFormula();
    EveryIntegerCandidateRecorded(m, ds, LeftDeep, ds, (Sub, Sub, Sub), -8);
  }

  lemma MinusEightFormula()
    ensures Evaluate(Build(LeftDeep, [1, 2, 3, 4], (Sub, Sub, Sub))) == Some(-8 as real)
    ensures Template(LeftDeep, [1, 2, 3, 4], (Sub, Sub, Sub)) == "((1 - 2) - 3) - 4"
  {
    var a, b, c, d := Leaf(1), Leaf(2), Leaf(3), Leaf(4);
    assert Evaluate(Node(Sub, a, b)) == Some(-1.0);
    assert Evaluate(Node(Sub, Node(Sub, a, b), c)) == Some(-4.0);
  }

  /** For 0000 every formula either divides by zero or is zero, so the only
      key is 0. */
  lemma ZerosGiveOnlyZero(m: Table)
    requires Summarises(m, AllCandidates([0, 0, 0, 0]))
    ensures m.Keys == {0}
  {
    var ds: Ordering := [0, 0, 0, 0];
    RepeatedDigitOrderings(ds);
    OrderingsCount(ds);
    ZeroFormula();
    EveryIntegerCandidateRecorded(m, ds, LeftDeep, ds, (Add, Add, Add), 0);
    forall k | k in m
      ensures k == 0
    {
      var e :| e in AllCandidates(ds) && IntegerValue(e) == Some(k);
      ZeroCandidate(e);
    }
  }

  lemma ZeroFormula()
    ensures Evaluate(Build(LeftDeep, [0, 0, 0, 0], (Add, Add, Add))) == Some(0 as real)
  {
    assert Evaluate(Node(Add, Leaf(0), Leaf(0))) == Some(0.0);
  }

  lemma ZeroCandidate(e: Expr)
    requires e in AllCandidates([0, 0, 0, 0])
    ensures IntegerValue(e) == None || IntegerValue(e) == Some(0)
  {
    var s, p, t := CandidateParts([0, 0, 0, 0], e);
    RepeatedDigitOrderings([0, 0, 0, 0]);
    assert p == [0, 0, 0, 0];
    BuildLayout(s, p, t);
    AllZero(Leaves(e));
    ZeroLeavesGiveZero(e);
  }

  lemma AllZero(leaves: seq<Digit>)
    requires leaves == [0, 0, 0, 0]
    ensures forall i :: 0 <= i < |leaves| ==> leaves[i] == 0
  {
  }

  /** A formula over zeros alone divides by zero or has the value zero. */
  lemma {:induction false} ZeroLeavesGiveZero(e: Expr)
    requires forall i :: 0 <= i < |Leaves(e)| ==> Leaves(e)[i] == 0
    ensures Evaluate(e) == None || Evaluate(e) == Some(0.0)
  {
    match e
    case Leaf(_) =>
      assert Leaves(e)[0] == 0;
    case Node(op, l, r) =>
      assert forall i :: 0 <= i < |Leaves(l)| ==> Leaves(l)[i] == Leaves(e)[i];
      assert forall i :: 0 <= i < |Leaves(r)| ==> Leaves(r)[i] == Leaves(e)[|Leaves(l)| + i];
      ZeroLeavesGiveZero(l);
      ZeroLeavesGiveZero(r);
  }
}
