/** The candidate formulas of one run: every distinct ordering of the four
    digits, crossed with every triple of operators, crossed with the five
    ways of parenthesising four operands. */
module Enumeration {
  import opened Collections
  import opened Expressions

  /** Four digits in the order they are used, left to right. */
  type Ordering = p: seq<Digit> | |p| == 4 witness [0, 0, 0, 0]

  // ---------------------------------------------------------------------
  // Orderings of the digits

  /** The index tuples of the permutations of four positions, in the order
      the standard permutation generator yields them. */
  const IndexPermutations: seq<seq<int>> := [
    [0, 1, 2, 3], [0, 1, 3, 2], [0, 2, 1, 3], [0, 2, 3, 1], [0, 3, 1, 2], [0, 3, 2, 1],
    [1, 0, 2, 3], [1, 0, 3, 2], [1, 2, 0, 3], [1, 2, 3, 0], [1, 3, 0, 2], [1, 3, 2, 0],
    [2, 0, 1, 3], [2, 0, 3, 1], [2, 1, 0, 3], [2, 1, 3, 0], [2, 3, 0, 1], [2, 3, 1, 0],
    [3, 0, 1, 2], [3, 0, 2, 1], [3, 1, 0, 2], [3, 1, 2, 0], [3, 2, 0, 1], [3, 2, 1, 0]
  ]

  /** `sigma` lists each of the positions 0 .. n-1 exactly once. */
  predicate IsIndexPermutation(sigma: seq<int>, n: nat)
  {
    && |sigma| == n
    && (forall k :: 0 <= k < n ==> 0 <= sigma[k] < n)
    && Distinct(sigma)
  }

  /** Every entry of the list above is a permutation of four positions. */
  lemma IndexPermutationsValid()
    ensures |IndexPermutations| == 24
    ensures forall n :: 0 <= n < 24 ==> IsIndexPermutation(IndexPermutations[n], 4)
  {
    forall n | 0 <= n < 24
      ensures IsIndexPermutation(IndexPermutations[n], 4)
    {
      FourPositions(IndexPermutations[n]);
    }
  }

  /** Four entries in 0 .. 3, pairwise different, form a permutation. */
  lemma FourPositions(sigma: seq<int>)
    requires |sigma| == 4 && forall k :: 0 <= k < 4 ==> 0 <= sigma[k] < 4
    requires sigma[0] != sigma[1] && sigma[0] != sigma[2] && sigma[0] != sigma[3]
    requires sigma[1] != sigma[2] && sigma[1] != sigma[3] && sigma[2] != sigma[3]
    ensures IsIndexPermutation(sigma, 4)
  {
  }

  /** Every permutation of four positions is listed. */
  lemma IndexPermutationsComplete(sigma: seq<int>)
    requires IsIndexPermutation(sigma, 4)
    ensures sigma in IndexPermutations
  {
    var a, b, c, d := sigma[0], sigma[1], sigma[2], sigma[3];
    assert sigma == [a, b, c, d];
    assert a != b && a != c && a != d && b != c && b != d && c != d;
  }

  /** The digits taken in the order of the index tuple: a rearrangement of
      the digits, each used as often as it occurs. */
  function Arrange(sigma: seq<int>, ds: Ordering): (p: Ordering)
    requires IsIndexPermutation(sigma, 4)
    ensures multiset(p) == multiset(ds)
  {
    PermuteRearranges(ds, sigma);
    Permute(ds, sigma)
  }

  /** All 24 orderings of the digits, repetitions included. */
  function Permutations(ds: Ordering): (r: seq<Ordering>)
    ensures |r| == 24
  {
    IndexPermutationsValid();
    seq(24, n requires 0 <= n < 24 => Arrange(IndexPermutations[n], ds))
  }

  /** The distinct orderings: equal digits collapse identical orderings. */
  function Orderings(ds: Ordering): set<Ordering>
  {
    Elements(Permutations(ds))
  }

  /** The positions 0 .. n-1. */
  function Range(n: nat): (r: set<int>)
    ensures forall i :: i in r <==> 0 <= i < n
    ensures |r| == n
  {
    if n == 0 then {} else Range(n - 1) + {n - 1}
  }

  /** A permutation of positions reaches every position. */
  lemma PermutationReachesAll(sigma: seq<int>, n: nat, j: int)
    requires IsIndexPermutation(sigma, n) && 0 <= j < n
    ensures j in sigma
  {
    ElementsCard(sigma);
    assert Elements(sigma) <= Range(n);
    assert |Range(n) - Elements(sigma)| == 0;
    assert j in Range(n);
  }

  /** The sequence `q` read through the positions `sigma`. */
  function Permute<T>(q: seq<T>, sigma: seq<int>): (r: seq<T>)
    requires IsIndexPermutation(sigma, |q|)
    ensures |r| == |q|
  {
    seq(|q|, k requires 0 <= k < |q| => q[sigma[k]])
  }

  /** Leaving out the position that holds the last index leaves a
      permutation of the other positions. */
  lemma DropLast(sigma: seq<int>, n: nat, k0: nat)
    requires IsIndexPermutation(sigma, n + 1) && k0 <= n && sigma[k0] == n
    ensures IsIndexPermutation(sigma[..k0] + sigma[k0 + 1..], n)
  {
    var tau := sigma[..k0] + sigma[k0 + 1..];
    assert forall k :: 0 <= k < n ==> tau[k] == sigma[if k < k0 then k else k + 1];
  }

  lemma PermuteSplit<T>(q: seq<T>, sigma: seq<int>, k0: nat)
    requires |q| > 0 && IsIndexPermutation(sigma, |q|) && k0 < |q| && sigma[k0] == |q| - 1
    requires IsIndexPermutation(sigma[..k0] + sigma[k0 + 1..], |q| - 1)
    ensures var a := Permute(q[..|q| - 1], sigma[..k0] + sigma[k0 + 1..]);
            Permute(q, sigma) == a[..k0] + [q[|q| - 1]] + a[k0..]
  {
    var tau := sigma[..k0] + sigma[k0 + 1..];
    var a := Permute(q[..|q| - 1], tau);
    var r := Permute(q, sigma);
    forall k | 0 <= k < |q|
      ensures r[k] == (a[..k0] + [q[|q| - 1]] + a[k0..])[k]
    {
      if k < k0 {
        assert tau[k] == sigma[k];
      } else if k > k0 {
        assert tau[k - 1] == sigma[k];
      }
    }
  }

  /** Reading a sequence through a permutation of its positions leaves its
      elements, counted with multiplicity, unchanged. */
  lemma {:induction false} PermuteRearranges<T>(q: seq<T>, sigma: seq<int>)
    requires IsIndexPermutation(sigma, |q|)
    ensures multiset(Permute(q, sigma)) == multiset(q)
  {
    if q != [] {
      var n := |q| - 1;
      PermutationReachesAll(sigma, |q|, n);
      var k0 :| 0 <= k0 < |sigma| && sigma[k0] == n;
      var tau := sigma[..k0] + sigma[k0 + 1..];
      DropLast(sigma, n, k0);
      PermuteRearranges(q[..n], tau);
      PermuteSplit(q, sigma, k0);
      InsertCount(Permute(q[..n], tau), k0, q[n]);
      assert q == q[..n] + [q[n]];
    }
  }

  /** Inserting an element adds one occurrence of it. */
  lemma InsertCount<T>(a: seq<T>, k0: nat, x: T)
    requires k0 <= |a|
    ensures multiset(a[..k0] + [x] + a[k0..]) == multiset(a) + multiset{x}
  {
    assert a == a[..k0] + a[k0..];
  }

  /** Every ordering uses the input digits, each as often as it occurs. */
  lemma OrderingsAreRearrangements(ds: Ordering, p: Ordering)
    requires p in Orderings(ds)
    ensures multiset(p) == multiset(ds)
  {
    var n :| 0 <= n < 24 && Permutations(ds)[n] == p;
    IndexPermutationsValid();
    assert p == Arrange(IndexPermutations[n], ds);
  }

  /** Taking one matching element out of two sequences with the same
      elements leaves two sequences with the same elements. */
  lemma RemoveMatching<T>(p: seq<T>, q: seq<T>, i: nat)
    requires multiset(p) == multiset(q) && p != [] && i < |q| && q[i] == p[0]
    ensures multiset(p[1..]) == multiset(q[..i] + q[i + 1..])
  {
    var rest := q[..i] + q[i + 1..];
    assert q == q[..i] + [q[i]] + q[i + 1..];
    assert multiset(q) == multiset(rest) + multiset{q[i]};
    assert p == [p[0]] + p[1..];
    assert multiset(p) == multiset(p[1..]) + multiset{p[0]};
    assert multiset(p[1..]) == multiset(p) - multiset{p[0]};
  }

  /** Putting position `i` first and reading the rest through `tau` is a
      permutation of all positions. */
  lemma PrependIndex<T>(q: seq<T>, i: nat, tau: seq<int>) returns (sigma: seq<int>)
    requires i < |q| && IsIndexPermutation(tau, |q| - 1)
    ensures IsIndexPermutation(sigma, |q|)
    ensures Permute(q, sigma) == [q[i]] + Permute(q[..i] + q[i + 1..], tau)
  {
    var rest := q[..i] + q[i + 1..];
    sigma := PrependShifted(i, tau, |q|);
    assert forall k :: 0 <= k < |tau| ==> rest[tau[k]] == q[sigma[k + 1]];
  }

  /** Position `i` followed by `tau`'s positions moved past `i`. */
  lemma PrependShifted(i: nat, tau: seq<int>, n: nat) returns (sigma: seq<int>)
    requires i < n && IsIndexPermutation(tau, n - 1)
    ensures IsIndexPermutation(sigma, n)
    ensures |sigma| == n && sigma[0] == i
    ensures forall k :: 0 <= k < |tau| ==> sigma[k + 1] == if tau[k] < i then tau[k] else tau[k] + 1
  {
    sigma := [i] + seq(|tau|, k requires 0 <= k < |tau| => if tau[k] < i then tau[k] else tau[k] + 1);
    forall k1, k2 | 0 <= k1 < k2 < |sigma|
      ensures sigma[k1] != sigma[k2]
    {
      if k1 > 0 {
        assert tau[k1 - 1] != tau[k2 - 1];
      }
    }
  }

  /** A sequence with the same elements as `q`, counted with multiplicity,
      is `q` read through some permutation of its positions. */
  lemma {:induction false} RearrangementIndex<T>(p: seq<T>, q: seq<T>) returns (sigma: seq<int>)
    requires multiset(p) == multiset(q)
    ensures IsIndexPermutation(sigma, |q|) && |p| == |q|
    ensures p == Permute(q, sigma)
  {
    assert |p| == |multiset(p)| == |multiset(q)| == |q|;
    if p == [] {
      sigma := [];
    } else {
      assert p[0] in multiset(q);
      var i :| 0 <= i < |q| && q[i] == p[0];
      var rest := q[..i] + q[i + 1..];
      RemoveMatching(p, q, i);
      var tau := RearrangementIndex(p[1..], rest);
      sigma := PrependIndex(q, i, tau);
      calc {
        Permute(q, sigma);
        [q[i]] + Permute(rest, tau);
        [p[0]] + p[1..];
        p;
      }
    }
  }

  /** Every rearrangement of the digits is one of the orderings. */
  lemma OrderingsComplete(ds: Ordering, p: Ordering)
    requires multiset(p) == multiset(ds)
    ensures p in Orderings(ds)
  {
    var sigma := RearrangementIndex(p, ds);
    IndexPermutationsComplete(sigma);
    IndexPermutationsValid();
    var n :| 0 <= n < 24 && IndexPermutations[n] == sigma;
    assert Permutations(ds)[n] == Arrange(sigma, ds) == p;
  }

  /** The orderings visited are exactly the rearrangements of the digits. */
  lemma OrderingsExactly(ds: Ordering, p: Ordering)
    ensures p in Orderings(ds) <==> multiset(p) == multiset(ds)
  {
    if p in Orderings(ds) {
      OrderingsAreRearrangements(ds, p);
    }
    if multiset(p) == multiset(ds) {
      OrderingsComplete(ds, p);
    }
  }

  /** A run visits between 1 and 24 orderings. */
  lemma OrderingsCount(ds: Ordering)
    ensures ds in Orderings(ds)
    ensures 1 <= |Orderings(ds)| <= 24
  {
    OrderingsComplete(ds, ds);
    ElementsCard(Permutations(ds));
  }

  lemma SameDigitsOrdering(ds: Ordering, p: Ordering)
    requires ds[0] == ds[1] == ds[2] == ds[3]
    requires p in Orderings(ds)
    ensures p == ds
  {
    OrderingsAreRearrangements(ds, p);
    SameDigitsRearrangement(ds, p);
  }

  lemma SameDigitsRearrangement(ds: Ordering, p: Ordering)
    requires ds[0] == ds[1] == ds[2] == ds[3]
    requires multiset(p) == multiset(ds)
    ensures p == ds
  {
    forall k | 0 <= k < 4
      ensures p[k] == ds[k]
    {
      assert p[k] in multiset(p);
      assert p[k] in ds;
    }
  }

  /** Four equal digits have a single ordering. */
  lemma RepeatedDigitOrderings(ds: Ordering)
    requires ds[0] == ds[1] == ds[2] == ds[3]
    ensures Orderings(ds) == {ds}
  {
    forall p | p in Orderings(ds)
      ensures p == ds
    {
      SameDigitsOrdering(ds, p);
    }
    OrderingsCount(ds);
  }

  // ---------------------------------------------------------------------
  // Operator triples

  /** The operators in the order they are listed. */
  const OperatorList: seq<Op> := [Add, Sub, Mul, Div]

  type OpTriple = (Op, Op, Op)

  /** The 64 triples of operators in lexicographic order of the list above,
      the last operator varying fastest. */
  function OpTriples(): (r: seq<OpTriple>)
    ensures |r| == 64
  {
    seq(64, n requires 0 <= n < 64 => (OperatorList[n / 16], OperatorList[n / 4 % 4], OperatorList[n % 4]))
  }

  function OpIndex(op: Op): (i: nat)
    ensures i < 4 && OperatorList[i] == op
  {
    match op
    case Add => 0
    case Sub => 1
    case Mul => 2
    case Div => 3
  }

  /** The position of a triple in the product: the operator indices read as
      a number in base four. */
  function TripleIndex(t: OpTriple): (n: nat)
    ensures n < 64
  {
    16 * OpIndex(t.0) + 4 * OpIndex(t.1) + OpIndex(t.2)
  }

  lemma TripleIndexAt(n: nat)
    requires n < 64
    ensures TripleIndex(OpTriples()[n]) == n
  {
    var t := OpTriples()[n];
    assert OpIndex(t.0) == n / 16 && OpIndex(t.1) == n / 4 % 4 && OpIndex(t.2) == n % 4;
  }

  /** Every triple of operators occurs, at the position its indices give. */
  lemma OpTriplesComplete(t: OpTriple)
    ensures OpTriples()[TripleIndex(t)] == t
    ensures t in OpTriples()
  {
    var n := TripleIndex(t);
    assert n / 16 == OpIndex(t.0) && n / 4 % 4 == OpIndex(t.1) && n % 4 == OpIndex(t.2);
  }

  /** No triple occurs twice. */
  lemma OpTriplesDistinct()
    ensures Distinct(OpTriples())
  {
    forall n1, n2 | 0 <= n1 < n2 < 64
      ensures OpTriples()[n1] != OpTriples()[n2]
    {
      TripleIndexAt(n1);
      TripleIndexAt(n2);
    }
  }

  // ---------------------------------------------------------------------
  // Parenthesisation shapes

  /** The five ways of grouping four operands a, b, c, d under three
      operators, written with `o` for an operator in its place. */
  datatype Shape =
    | LeftDeep    // ((a o b) o c) o d
    | LeftInner   // (a o (b o c)) o d
    | RightInner  // a o ((b o c) o d)
    | RightDeep   // a o (b o (c o d))
    | Balanced    // (a o b) o (c o d)

  /** The shapes in the order they are tried. */
  const ShapeList: seq<Shape> := [LeftDeep, LeftInner, RightInner, RightDeep, Balanced]

  /** The formula of a shape over the ordering's digits, the first operator
      of the triple written first, the last written last. */
  function Build(s: Shape, p: Ordering, t: OpTriple): Expr
  {
    var a, b, c, d := Leaf(p[0]), Leaf(p[1]), Leaf(p[2]), Leaf(p[3]);
    match s
    case LeftDeep => Node(t.2, Node(t.1, Node(t.0, a, b), c), d)
    case LeftInner => Node(t.2, Node(t.0, a, Node(t.1, b, c)), d)
    case RightInner => Node(t.0, a, Node(t.2, Node(t.1, b, c), d))
    case RightDeep => Node(t.0, a, Node(t.1, b, Node(t.2, c, d)))
    case Balanced => Node(t.1, Node(t.0, a, b), Node(t.2, c, d))
  }

  /** The five format strings of the search, filled in with the digits and
      the operator symbols. */
  function Template(s: Shape, p: Ordering, t: OpTriple): string
  {
    var a, b, c, d := [DigitChar(p[0])], [DigitChar(p[1])], [DigitChar(p[2])], [DigitChar(p[3])];
    var o1, o2, o3 := [OpSymbol(t.0)], [OpSymbol(t.1)], [OpSymbol(t.2)];
    match s
    case LeftDeep => "((" + a + " " + o1 + " " + b + ") " + o2 + " " + c + ") " + o3 + " " + d
    case LeftInner => "(" + a + " " + o1 + " (" + b + " " + o2 + " " + c + ")) " + o3 + " " + d
    case RightInner => a + " " + o1 + " ((" + b + " " + o2 + " " + c + ") " + o3 + " " + d + ")"
    case RightDeep => a + " " + o1 + " (" + b + " " + o2 + " (" + c + " " + o3 + " " + d + "))"
    case Balanced => "(" + a + " " + o1 + " " + b + ") " + o2 + " (" + c + " " + o3 + " " + d + ")"
  }

  /** Rendering the tree of a shape gives exactly that shape's format string. */
  lemma RenderMatchesTemplate(s: Shape, p: Ordering, t: OpTriple)
    ensures Render(Build(s, p, t)) == Template(s, p, t)
  {
    ShapeText(s, p, t);
  }

  /** Each format string, filled in, is that shape's text. */
  lemma TemplateSpelled(s: Shape, p: Ordering, t: OpTriple)
    ensures Template(s, p, t) == Spelled(s, p, t)
  {
    ShapeText(s, p, t);
  }

  /** A shape's text written out character by character. */
  function Spelled(s: Shape, p: Ordering, t: OpTriple): (r: string)
    ensures |r| == 17
  {
    var a, b, c, d := DigitChar(p[0]), DigitChar(p[1]), DigitChar(p[2]), DigitChar(p[3]);
    var o1, o2, o3 := OpSymbol(t.0), OpSymbol(t.1), OpSymbol(t.2);
    match s
    case LeftDeep => ['(', '(', a, ' ', o1, ' ', b, ')', ' ', o2, ' ', c, ')', ' ', o3, ' ', d]
    case LeftInner => ['(', a, ' ', o1, ' ', '(', b, ' ', o2, ' ', c, ')', ')', ' ', o3, ' ', d]
    case RightInner => [a, ' ', o1, ' ', '(', '(', b, ' ', o2, ' ', c, ')', ' ', o3, ' ', d, ')']
    case RightDeep => [a, ' ', o1, ' ', '(', b, ' ', o2, ' ', '(', c, ' ', o3, ' ', d, ')', ')']
    case Balanced => ['(', a, ' ', o1, ' ', b, ')', ' ', o2, ' ', '(', c, ' ', o3, ' ', d, ')']
  }

  /** The tree of a shape and its format string both give the shape's text. */
  lemma ShapeText(s: Shape, p: Ordering, t: OpTriple)
    ensures Render(Build(s, p, t)) == Spelled(s, p, t) == Template(s, p, t)
  {
    match s
    case LeftDeep => LeftDeepText(p, t);
    case LeftInner => LeftInnerText(p, t);
    case RightInner => RightInnerText(p, t);
    case RightDeep => RightDeepText(p, t);
    case Balanced => BalancedText(p, t);
  }

  // ((a o b) o c) o d
  lemma LeftDeepText(p: Ordering, t: OpTriple)
    ensures Render(Build(LeftDeep, p, t)) == Spelled(LeftDeep, p, t) == Template(LeftDeep, p, t)
  {
    var a, b, c, d := DigitChar(p[0]), DigitChar(p[1]), DigitChar(p[2]), DigitChar(p[3]);
    var o1, o2, o3 := OpSymbol(t.0), OpSymbol(t.1), OpSymbol(t.2);
    var pa, pb, pc, pd := Leaf(p[0]), Leaf(p[1]), Leaf(p[2]), Leaf(p[3]);
    var inner := Node(t.0, pa, pb);
    assert Render(inner) == [a, ' ', o1, ' ', b];
    var mid := ['(', a, ' ', o1, ' ', b, ')', ' ', o2, ' ', c];
    assert Render(Node(t.1, inner, pc)) == mid;
    assert Render(Build(LeftDeep, p, t)) == ['('] + mid + [')'] + [' ', o3, ' '] + [d];
    BracketLeft(mid, o3, d);
    assert "((" + [a] + " " + [o1] + " " + [b] == ['(', '(', a, ' ', o1, ' ', b];
    assert "((" + [a] + " " + [o1] + " " + [b] + ") " + [o2] + " " + [c]
        == ['(', '(', a, ' ', o1, ' ', b, ')', ' ', o2, ' ', c];
    assert "((" + [a] + " " + [o1] + " " + [b] + ") " + [o2] + " " + [c] + ") " + [o3]
        == ['(', '(', a, ' ', o1, ' ', b, ')', ' ', o2, ' ', c, ')', ' ', o3];
  }

  // (a o (b o c)) o d
  lemma LeftInnerText(p: Ordering, t: OpTriple)
    ensures Render(Build(LeftInner, p, t)) == Spelled(LeftInner, p, t) == Template(LeftInner, p, t)
  {
    var a, b, c, d := DigitChar(p[0]), DigitChar(p[1]), DigitChar(p[2]), DigitChar(p[3]);
    var o1, o2, o3 := OpSymbol(t.0), OpSymbol(t.1), OpSymbol(t.2);
    var pa, pb, pc, pd := Leaf(p[0]), Leaf(p[1]), Leaf(p[2]), Leaf(p[3]);
    var inner := Node(t.1, pb, pc);
    assert Render(inner) == [b, ' ', o2, ' ', c];
    var mid := [a, ' ', o1, ' ', '(', b, ' ', o2, ' ', c, ')'];
    assert Render(Node(t.0, pa, inner)) == mid;
    assert Render(Build(LeftInner, p, t)) == ['('] + mid + [')'] + [' ', o3, ' '] + [d];
    BracketLeft(mid, o3, d);
    assert "(" + [a] + " " + [o1] + " (" + [b] == ['(', a, ' ', o1, ' ', '(', b];
    assert "(" + [a] + " " + [o1] + " (" + [b] + " " + [o2] + " " + [c]
        == ['(', a, ' ', o1, ' ', '(', b, ' ', o2, ' ', c];
    assert "(" + [a] + " " + [o1] + " (" + [b] + " " + [o2] + " " + [c] + ")) " + [o3]
        == ['(', a, ' ', o1, ' ', '(', b, ' ', o2, ' ', c, ')', ')', ' ', o3];
  }

  // a o ((b o c) o d)
  lemma RightInnerText(p: Ordering, t: OpTriple)
    ensures Render(Build(RightInner, p, t)) == Spelled(RightInner, p, t) == Template(RightInner, p, t)
  {
    var a, b, c, d := DigitChar(p[0]), DigitChar(p[1]), DigitChar(p[2]), DigitChar(p[3]);
    var o1, o2, o3 := OpSymbol(t.0), OpSymbol(t.1), OpSymbol(t.2);
    var pa, pb, pc, pd := Leaf(p[0]), Leaf(p[1]), Leaf(p[2]), Leaf(p[3]);
    var inner := Node(t.1, pb, pc);
    assert Render(inner) == [b, ' ', o2, ' ', c];
    var mid := ['(', b, ' ', o2, ' ', c, ')', ' ', o3, ' ', d];
    assert Render(Node(t.2, inner, pd)) == mid;
    assert Render(Build(RightInner, p, t)) == [a] + [' ', o1, ' '] + (['('] + mid + [')']);
    BracketRight(a, o1, mid);
    assert [a] + " " + [o1] + " ((" + [b] == [a, ' ', o1, ' ', '(', '(', b];
    assert [a] + " " + [o1] + " ((" + [b] + " " + [o2] + " " + [c]
        == [a, ' ', o1, ' ', '(', '(', b, ' ', o2, ' ', c];
    assert [a] + " " + [o1] + " ((" + [b] + " " + [o2] + " " + [c] + ") " + [o3] + " " + [d]
        == [a, ' ', o1, ' ', '(', '(', b, ' ', o2, ' ', c, ')', ' ', o3, ' ', d];
  }

  // a o (b o (c o d))
  lemma RightDeepText(p: Ordering, t: OpTriple)
    ensures Render(Build(RightDeep, p, t)) == Spelled(RightDeep, p, t) == Template(RightDeep, p, t)
  {
    var a, b, c, d := DigitChar(p[0]), DigitChar(p[1]), DigitChar(p[2]), DigitChar(p[3]);
    var o1, o2, o3 := OpSymbol(t.0), OpSymbol(t.1), OpSymbol(t.2);
    var pa, pb, pc, pd := Leaf(p[0]), Leaf(p[1]), Leaf(p[2]), Leaf(p[3]);
    var inner := Node(t.2, pc, pd);
    assert Render(inner) == [c, ' ', o3, ' ', d];
    var mid := [b, ' ', o2, ' ', '(', c, ' ', o3, ' ', d, ')'];
    assert Render(Node(t.1, pb, inner)) == mid;
    assert Render(Build(RightDeep, p, t)) == [a] + [' ', o1, ' '] + (['('] + mid + [')']);
    BracketRight(a, o1, mid);
    assert [a] + " " + [o1] + " (" + [b] == [a, ' ', o1, ' ', '(', b];
    assert [a] + " " + [o1] + " (" + [b] + " " + [o2] + " (" + [c]
        == [a, ' ', o1, ' ', '(', b, ' ', o2, ' ', '(', c];
    assert [a] + " " + [o1] + " (" + [b] + " " + [o2] + " (" + [c] + " " + [o3] + " " + [d]
        == [a, ' ', o1, ' ', '(', b, ' ', o2, ' ', '(', c, ' ', o3, ' ', d];
  }

  // (a o b) o (c o d)
  lemma BalancedText(p: Ordering, t: OpTriple)
    ensures Render(Build(Balanced, p, t)) == Spelled(Balanced, p, t) == Template(Balanced, p, t)
  {
    var a, b, c, d := DigitChar(p[0]), DigitChar(p[1]), DigitChar(p[2]), DigitChar(p[3]);
    var o1, o2, o3 := OpSymbol(t.0), OpSymbol(t.1), OpSymbol(t.2);
    var pa, pb, pc, pd := Leaf(p[0]), Leaf(p[1]), Leaf(p[2]), Leaf(p[3]);
    var x, y := [a, ' ', o1, ' ', b], [c, ' ', o3, ' ', d];
    assert Render(Node(t.0, pa, pb)) == x;
    assert Render(Node(t.2, pc, pd)) == y;
    assert Render(Build(Balanced, p, t)) == ['('] + x + [')'] + [' ', o2, ' '] + (['('] + y + [')']);
    BracketBoth(x, o2, y);
    assert "(" + [a] + " " + [o1] + " " + [b] == ['(', a, ' ', o1, ' ', b];
    assert "(" + [a] + " " + [o1] + " " + [b] + ") " + [o2] + " (" + [c]
        == ['(', a, ' ', o1, ' ', b, ')', ' ', o2, ' ', '(', c];
    assert "(" + [a] + " " + [o1] + " " + [b] + ") " + [o2] + " (" + [c] + " " + [o3] + " " + [d]
        == ['(', a, ' ', o1, ' ', b, ')', ' ', o2, ' ', '(', c, ' ', o3, ' ', d];
  }

  /** A bracketed eleven-character operand followed by an operator and a digit. */
  lemma BracketLeft(mid: string, o: char, d: char)
    requires |mid| == 11
    ensures ['('] + mid + [')'] + [' ', o, ' '] + [d]
         == ['(', mid[0], mid[1], mid[2], mid[3], mid[4], mid[5], mid[6], mid[7], mid[8], mid[9], mid[10], ')', ' ', o, ' ', d]
  {
  }

  /** A digit followed by an operator and a bracketed eleven-character operand. */
  lemma BracketRight(a: char, o: char, mid: string)
    requires |mid| == 11
    ensures [a] + [' ', o, ' '] + (['('] + mid + [')'])
         == [a, ' ', o, ' ', '(', mid[0], mid[1], mid[2], mid[3], mid[4], mid[5], mid[6], mid[7], mid[8], mid[9], mid[10], ')']
  {
  }

  /** Two bracketed five-character operands around an operator. */
  lemma BracketBoth(x: string, o: char, y: string)
    requires |x| == 5 && |y| == 5
    ensures ['('] + x + [')'] + [' ', o, ' '] + (['('] + y + [')'])
         == ['(', x[0], x[1], x[2], x[3], x[4], ')', ' ', o, ' ', '(', y[0], y[1], y[2], y[3], y[4], ')']
  {
  }

  /** Where a shape puts its brackets tells the shapes apart. */
  lemma SpelledShape(s: Shape, p: Ordering, t: OpTriple)
    ensures var r := Spelled(s, p, t);
      && (r[0] == '(' && r[1] == '(' <==> s == LeftDeep)
      && (r[0] == '(' && r[1] != '(' && r[5] == '(' <==> s == LeftInner)
      && (r[0] == '(' && r[1] != '(' && r[5] != '(' <==> s == Balanced)
      && (r[0] != '(' && r[5] == '(' <==> s == RightInner)
      && (r[0] != '(' && r[5] != '(' <==> s == RightDeep)
  {
  }

  /** No two shapes, orderings or operator triples share a format string:
      every text the search files names one formula. */
  lemma TemplateInjective(s1: Shape, p1: Ordering, t1: OpTriple, s2: Shape, p2: Ordering, t2: OpTriple)
    requires Template(s1, p1, t1) == Template(s2, p2, t2)
    ensures s1 == s2 && p1 == p2 && t1 == t2
  {
    TemplateSpelled(s1, p1, t1);
    TemplateSpelled(s2, p2, t2);
    SpelledShape(s1, p1, t1);
    SpelledShape(s2, p2, t2);
    assert s1 == s2;
    SpelledParts(s1, p1, t1, p2, t2);
  }

  lemma SpelledParts(s: Shape, p1: Ordering, t1: OpTriple, p2: Ordering, t2: OpTriple)
    requires Spelled(s, p1, t1) == Spelled(s, p2, t2)
    ensures p1 == p2 && t1 == t2
  {
    var r1, r2 := Spelled(s, p1, t1), Spelled(s, p2, t2);
    var (ia, ib, ic, id, i1, i2, i3) :=
      match s
      case LeftDeep => (2, 6, 11, 16, 4, 9, 14)
      case LeftInner => (1, 6, 10, 16, 3, 8, 14)
      case RightInner => (0, 6, 10, 15, 2, 8, 13)
      case RightDeep => (0, 5, 10, 14, 2, 7, 12)
      case Balanced => (1, 5, 11, 15, 3, 8, 13);
    assert r1[ia] == r2[ia] && r1[ib] == r2[ib] && r1[ic] == r2[ic] && r1[id] == r2[id];
    assert r1[i1] == r2[i1] && r1[i2] == r2[i2] && r1[i3] == r2[i3];
    OpSymbolInjective(t1.0, t2.0);
    OpSymbolInjective(t1.1, t2.1);
    OpSymbolInjective(t1.2, t2.2);
    assert p1 == [p1[0], p1[1], p1[2], p1[3]] && p2 == [p2[0], p2[1], p2[2], p2[3]];
  }

  /** A shape keeps the digits in the ordering's order and the operators in
      the triple's order. */
  lemma BuildLayout(s: Shape, p: Ordering, t: OpTriple)
    ensures Leaves(Build(s, p, t)) == p
    ensures OperatorsOf(Build(s, p, t)) == [t.0, t.1, t.2]
  {
    var a, b, c, d := Leaf(p[0]), Leaf(p[1]), Leaf(p[2]), Leaf(p[3]);
    assert p == [p[0], p[1], p[2], p[3]];
    assert Leaves(a) == [p[0]] && Leaves(b) == [p[1]] && Leaves(c) == [p[2]] && Leaves(d) == [p[3]];
    assert OperatorsOf(a) == [] && OperatorsOf(b) == [] && OperatorsOf(c) == [] && OperatorsOf(d) == [];
    match s
    case LeftDeep =>
      assert Leaves(Node(t.1, Node(t.0, a, b), c)) == [p[0], p[1], p[2]];
      assert OperatorsOf(Node(t.1, Node(t.0, a, b), c)) == [t.0, t.1];
    case LeftInner =>
      assert Leaves(Node(t.0, a, Node(t.1, b, c))) == [p[0], p[1], p[2]];
      assert OperatorsOf(Node(t.0, a, Node(t.1, b, c))) == [t.0, t.1];
    case RightInner =>
      assert Leaves(Node(t.2, Node(t.1, b, c), d)) == [p[1], p[2], p[3]];
      assert OperatorsOf(Node(t.2, Node(t.1, b, c), d)) == [t.1, t.2];
    case RightDeep =>
      assert Leaves(Node(t.1, b, Node(t.2, c, d))) == [p[1], p[2], p[3]];
      assert OperatorsOf(Node(t.1, b, Node(t.2, c, d))) == [t.1, t.2];
    case Balanced =>
      assert Leaves(Node(t.0, a, b)) == [p[0], p[1]] && Leaves(Node(t.2, c, d)) == [p[2], p[3]];
  }

  /** Different shapes, orderings or triples give different formulas. */
  lemma BuildInjective(s1: Shape, p1: Ordering, t1: OpTriple, s2: Shape, p2: Ordering, t2: OpTriple)
    requires Build(s1, p1, t1) == Build(s2, p2, t2)
    ensures s1 == s2 && p1 == p2 && t1 == t2
  {
    BuildLayout(s1, p1, t1);
    BuildLayout(s2, p2, t2);
    assert [t1.0, t1.1, t1.2][0] == [t2.0, t2.1, t2.2][0];
    assert [t1.0, t1.1, t1.2][1] == [t2.0, t2.1, t2.2][1];
    assert [t1.0, t1.1, t1.2][2] == [t2.0, t2.1, t2.2][2];
  }

  /** A formula with one digit is that digit. */
  lemma OneLeafShape(e: Expr)
    requires |Leaves(e)| == 1
    ensures e.Leaf?
  {
  }

  /** A formula with two digits is one operator applied to two digits. */
  lemma TwoLeafShape(e: Expr)
    requires |Leaves(e)| == 2
    ensures e.Node? && e.left.Leaf? && e.right.Leaf?
  {
    OneLeafShape(e.left);
    OneLeafShape(e.right);
  }

  /** A formula with three digits groups them to the left or to the right. */
  lemma ThreeLeafShapes(e: Expr)
    requires |Leaves(e)| == 3
    ensures || (e.Node? && e.left.Node? && e.left.left.Leaf? && e.left.right.Leaf? && e.right.Leaf?)
            || (e.Node? && e.left.Leaf? && e.right.Node? && e.right.left.Leaf? && e.right.right.Leaf?)
  {
    if |Leaves(e.left)| == 1 {
      OneLeafShape(e.left);
      TwoLeafShape(e.right);
    } else {
      TwoLeafShape(e.left);
      OneLeafShape(e.right);
    }
  }

  /** The five shapes are all the ways to parenthesise four operands: every
      formula over four digits is one of them, applied to its own digits and
      operators. */
  lemma ShapesCoverAll(e: Expr) returns (s: Shape, p: Ordering, t: OpTriple)
    requires |Leaves(e)| == 4
    ensures s in ShapeList && p == Leaves(e) && e == Build(s, p, t)
  {
    var l, r := e.left, e.right;
    if |Leaves(l)| == 1 {
      OneLeafShape(l);
      ThreeLeafShapes(r);
      if r.left.Node? {
        s := RightInner;
        p := [l.digit, r.left.left.digit, r.left.right.digit, r.right.digit];
        t := (e.op, r.left.op, r.op);
      } else {
        s := RightDeep;
        p := [l.digit, r.left.digit, r.right.left.digit, r.right.right.digit];
        t := (e.op, r.op, r.right.op);
      }
    } else if |Leaves(l)| == 2 {
      TwoLeafShape(l);
      TwoLeafShape(r);
      s := Balanced;
      p := [l.left.digit, l.right.digit, r.left.digit, r.right.digit];
      t := (l.op, e.op, r.op);
    } else {
      ThreeLeafShapes(l);
      OneLeafShape(r);
      if l.left.Node? {
        s := LeftDeep;
        p := [l.left.left.digit, l.left.right.digit, l.right.digit, r.digit];
        t := (l.left.op, l.op, e.op);
      } else {
        s := LeftInner;
        p := [l.left.digit, l.right.left.digit, l.right.right.digit, r.digit];
        t := (l.op, l.right.op, e.op);
      }
    }
    BuildLayout(s, p, t);
  }

  // ---------------------------------------------------------------------
  // Candidates

  /** The five formulas of one ordering and one operator triple, in the
      order of the shapes. */
  function ExpressionsFor(p: Ordering, t: OpTriple): (r: seq<Expr>)
    ensures |r| == 5
  {
    seq(5, j requires 0 <= j < 5 => Build(ShapeList[j], p, t))
  }

  /** The formulas of one ordering for the first `n` operator triples. */
  function CandidateList(p: Ordering, n: nat): (r: seq<Expr>)
    requires n <= 64
    ensures |r| == 5 * n
  {
    if n == 0 then [] else CandidateList(p, n - 1) + ExpressionsFor(p, OpTriples()[n - 1])
  }

  lemma {:induction false} CandidateListAt(p: Ordering, n: nat, i: nat, j: nat)
    requires n <= 64 && i < n && j < 5
    ensures CandidateList(p, n)[5 * i + j] == Build(ShapeList[j], p, OpTriples()[i])
  {
    if i < n - 1 {
      CandidateListAt(p, n - 1, i, j);
    }
  }

  /** The formulas of one ordering are pairwise different. */
  lemma CandidateListDistinct(p: Ordering, n: nat)
    requires n <= 64
    ensures Distinct(CandidateList(p, n))
  {
    var list := CandidateList(p, n);
    forall m1, m2 | 0 <= m1 < m2 < |list|
      ensures list[m1] != list[m2]
    {
      CandidateListEntriesDiffer(p, n, m1, m2);
    }
  }

  lemma CandidateListEntriesDiffer(p: Ordering, n: nat, m1: nat, m2: nat)
    requires n <= 64 && m1 < m2 < 5 * n
    ensures CandidateList(p, n)[m1] != CandidateList(p, n)[m2]
  {
    var list := CandidateList(p, n);
    CandidateListAt(p, n, m1 / 5, m1 % 5);
    CandidateListAt(p, n, m2 / 5, m2 % 5);
    if list[m1] == list[m2] {
      BuildInjective(ShapeList[m1 % 5], p, OpTriples()[m1 / 5], ShapeList[m2 % 5], p, OpTriples()[m2 / 5]);
      OpTriplesDistinct();
      assert false;
    }
  }

  /** The set of formulas of one ordering for the first `n` triples. */
  function CandidatesUpTo(p: Ordering, n: nat): set<Expr>
    requires n <= 64
  {
    Elements(CandidateList(p, n))
  }

  lemma CandidatesUpToNext(p: Ordering, n: nat)
    requires n < 64
    ensures CandidatesUpTo(p, n + 1) == CandidatesUpTo(p, n) + Elements(ExpressionsFor(p, OpTriples()[n]))
  {
    ElementsAppend(CandidateList(p, n), ExpressionsFor(p, OpTriples()[n]));
  }

  /** All 320 formulas of one ordering. */
  function CandidatesOf(p: Ordering): set<Expr>
  {
    CandidatesUpTo(p, 64)
  }

  /** A formula is a candidate of an ordering exactly when it is one of the
      shapes over that ordering with some operator triple. */
  lemma CandidatesOfMembers(p: Ordering, e: Expr)
    ensures e in CandidatesOf(p) <==> exists s, t :: s in ShapeList && e == Build(s, p, t)
  {
    if e in CandidatesOf(p) {
      var m :| 0 <= m < 320 && CandidateList(p, 64)[m] == e;
      CandidateListAt(p, 64, m / 5, m % 5);
    }
    if exists s, t :: s in ShapeList && e == Build(s, p, t) {
      var s, t :| s in ShapeList && e == Build(s, p, t);
      OpTriplesComplete(t);
      var i :| 0 <= i < 64 && OpTriples()[i] == t;
      var j :| 0 <= j < 5 && ShapeList[j] == s;
      CandidateListAt(p, 64, i, j);
      assert CandidateList(p, 64)[5 * i + j] == e;
    }
  }

  /** Each ordering contributes exactly 320 formulas. */
  lemma CandidatesOfCount(p: Ordering)
    ensures |CandidatesOf(p)| == 320
  {
    CandidateListDistinct(p, 64);
    ElementsCard(CandidateList(p, 64));
  }

  /** The formulas of a set of orderings. */
  function CandidatesFrom(orderings: set<Ordering>): set<Expr>
  {
    set q, e | q in orderings && e in CandidatesOf(q) :: e
  }

  lemma CandidatesFromAdd(orderings: set<Ordering>, p: Ordering)
    ensures CandidatesFrom(orderings + {p}) == CandidatesFrom(orderings) + CandidatesOf(p)
  {
  }

  /** Distinct orderings never share a formula, so the candidates of a set
      of orderings number 320 per ordering. */
  lemma {:induction false} CandidatesFromCount(orderings: set<Ordering>)
    ensures |CandidatesFrom(orderings)| == 320 * |orderings|
  {
    if orderings != {} {
      var p :| p in orderings;
      var rest := orderings - {p};
      CandidatesFromCount(rest);
      CandidatesFromAdd(rest, p);
      assert rest + {p} == orderings;
      CandidatesOfCount(p);
      forall e | e in CandidatesFrom(rest) && e in CandidatesOf(p)
        ensures false
      {
        var q :| q in rest && e in CandidatesOf(q);
        CandidatesOfMembers(q, e);
        CandidatesOfMembers(p, e);
        var s1, t1 :| s1 in ShapeList && e == Build(s1, q, t1);
        var s2, t2 :| s2 in ShapeList && e == Build(s2, p, t2);
        BuildInjective(s1, q, t1, s2, p, t2);
      }
      assert CandidatesFrom(rest) * CandidatesOf(p) == {};
    }
  }

  /** Every formula a run considers. */
  function AllCandidates(ds: Ordering): set<Expr>
  {
    CandidatesFrom(Orderings(ds))
  }

  /** The candidates are exactly the formulas whose digits, read left to
      right, are a rearrangement of the input digits: every operator on
      every operand position under every grouping, and nothing else. */
  lemma AllCandidatesExactly(ds: Ordering, e: Expr)
    ensures e in AllCandidates(ds) <==> |Leaves(e)| == 4 && multiset(Leaves(e)) == multiset(ds)
  {
    if e in AllCandidates(ds) {
      var q :| q in Orderings(ds) && e in CandidatesOf(q);
      CandidatesOfMembers(q, e);
      var s, t :| s in ShapeList && e == Build(s, q, t);
      BuildLayout(s, q, t);
      OrderingsAreRearrangements(ds, q);
    }
    if |Leaves(e)| == 4 && multiset(Leaves(e)) == multiset(ds) {
      var s, p, t := ShapesCoverAll(e);
      OrderingsComplete(ds, p);
      CandidatesOfMembers(p, e);
    }
  }

  /** A run considers 320 formulas per distinct ordering: between 320 and
      7680 in all. */
  lemma AllCandidatesCount(ds: Ordering)
    ensures |AllCandidates(ds)| == 320 * |Orderings(ds)|
    ensures 320 <= |AllCandidates(ds)| <= 7680
  {
    CandidatesFromCount(Orderings(ds));
    OrderingsCount(ds);
  }
}
