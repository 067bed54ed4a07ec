/** The pure pieces of the command-line front end: the check on the
    argument, the digits it stands for, and the compact form in which a
    formula is displayed. */
module Cli {
  import opened Expressions
  import opened Enumeration

  /** The argument is accepted: exactly four characters, each a digit. */
  predicate ValidArgument(arg: string)
  {
    |arg| == 4 && forall i :: 0 <= i < |arg| ==> IsAsciiDigit(arg[i])
  }

  // ---------------------------------------------------------------------
  // Input digits

  /** The digits an accepted argument stands for, in the order written. */
  function DigitsOf(s: string): (ds: Ordering)
    requires ValidArgument(s)
    ensures DigitText(ds) == s
  {
    [CharDigit(s[0]), CharDigit(s[1]), CharDigit(s[2]), CharDigit(s[3])]
  }

  /** The argument that writes down four digits. */
  function DigitText(ds: Ordering): string
  {
    [DigitChar(ds[0]), DigitChar(ds[1]), DigitChar(ds[2]), DigitChar(ds[3])]
  }

  /** The text of any four digits is accepted, and reading it gives the
      same digits back. */
  lemma DigitTextAccepted(ds: Ordering)
    ensures ValidArgument(DigitText(ds))
    ensures DigitsOf(DigitText(ds)) == ds
  {
    var s := DigitText(ds);
    assert DigitsOf(s)[0] == ds[0] && DigitsOf(s)[1] == ds[1];
    assert DigitsOf(s)[2] == ds[2] && DigitsOf(s)[3] == ds[3];
  }

  /** An argument is accepted exactly when it is the text of four digits. */
  lemma AcceptedArguments(arg: string)
    ensures ValidArgument(arg) <==> exists ds: Ordering :: DigitText(ds) == arg
  {
    if ValidArgument(arg) {
      assert DigitText(DigitsOf(arg)) == arg;
    }
    if exists ds: Ordering :: DigitText(ds) == arg {
      var ds: Ordering :| DigitText(ds) == arg;
      DigitTextAccepted(ds);
    }
  }

  // ---------------------------------------------------------------------
  // Display text

  /** The text with every space removed. */
  function StripSpaces(s: string): (r: string)
    ensures ' ' !in r
    ensures forall c :: c in r <==> c in s && c != ' '
    ensures ' ' !in s ==> r == s
    ensures |r| <= |s|
  {
    if s == [] then []
    else if s[0] == ' ' then StripSpaces(s[1..])
    else [s[0]] + StripSpaces(s[1..])
  }

  /** Removing spaces works piece by piece. */
  lemma {:induction false} StripSpacesAppend(a: string, b: string)
    ensures StripSpaces(a + b) == StripSpaces(a) + StripSpaces(b)
  {
    if a != [] {
      assert (a + b)[0] == a[0] && (a + b)[1..] == a[1..] + b;
      StripSpacesAppend(a[1..], b);
      var head := if a[0] == ' ' then [] else [a[0]];
      assert StripSpaces(a + b) == head + (StripSpaces(a[1..]) + StripSpaces(b));
      assert StripSpaces(a) == head + StripSpaces(a[1..]);
    } else {
      assert a + b == b;
    }
  }

  /** Removing the spaces twice is removing them once. */
  lemma StripSpacesIdempotent(s: string)
    ensures StripSpaces(StripSpaces(s)) == StripSpaces(s)
  {
  }

  /** Puts back one space on each side of every operator symbol. */
  function Respace(s: string): string
  {
    if s == [] then []
    else (if IsOpSymbol(s[0]) then [' ', s[0], ' '] else [s[0]]) + Respace(s[1..])
  }

  lemma {:induction false} RespaceAppend(a: string, b: string)
    ensures Respace(a + b) == Respace(a) + Respace(b)
  {
    if a != [] {
      assert (a + b)[0] == a[0] && (a + b)[1..] == a[1..] + b;
      RespaceAppend(a[1..], b);
      var head := if IsOpSymbol(a[0]) then [' ', a[0], ' '] else [a[0]];
      assert Respace(a + b) == head + (Respace(a[1..]) + Respace(b));
      assert Respace(a) == head + Respace(a[1..]);
    } else {
      assert a + b == b;
    }
  }

  /** Bracketing an operand commutes with both transformations. */
  lemma WrapCommutes(e: Expr, text: string)
    ensures StripSpaces(Wrap(e, text)) == Wrap(e, StripSpaces(text))
    ensures Respace(Wrap(e, text)) == Wrap(e, Respace(text))
  {
    if e.Node? {
      StripSpacesAppend(['('] + text, [')']);
      StripSpacesAppend(['('], text);
      RespaceAppend(['('] + text, [')']);
      RespaceAppend(['('], text);
    }
  }

  /** The display text loses nothing: putting the spaces back around the
      operators gives the rendered text again. */
  lemma {:induction false} DisplayRoundTrip(e: Expr)
    ensures Respace(StripSpaces(Render(e))) == Render(e)
  {
    match e
    case Leaf(d) =>
    case Node(op, l, r) =>
      var x, y := StripSpaces(Render(l)), StripSpaces(Render(r));
      StripNode(op, l, r);
      RespaceNode(op, l, r, x, y);
      DisplayRoundTrip(l);
      DisplayRoundTrip(r);
  }

  /** The display text of a compound: its operands' display texts, bracketed
      as in the rendering, around the bare operator symbol. */
  lemma StripNode(op: Op, l: Expr, r: Expr)
    ensures StripSpaces(Render(Node(op, l, r)))
         == Wrap(l, StripSpaces(Render(l))) + [OpSymbol(op)] + Wrap(r, StripSpaces(Render(r)))
  {
    var wl, mid, wr := Wrap(l, Render(l)), [' ', OpSymbol(op), ' '], Wrap(r, Render(r));
    StripSpacesAppend(wl + mid, wr);
    StripSpacesAppend(wl, mid);
    var o := OpSymbol(op);
    assert [o, ' '][1..] == [' '] && StripSpaces([' '][1..]) == [];
    assert StripSpaces([o, ' ']) == [o];
    assert mid[1..] == [o, ' '];
    WrapCommutes(l, Render(l));
    WrapCommutes(r, Render(r));
  }

  lemma RespaceNode(op: Op, l: Expr, r: Expr, x: string, y: string)
    ensures Respace(Wrap(l, x) + [OpSymbol(op)] + Wrap(r, y))
         == Wrap(l, Respace(x)) + [' ', OpSymbol(op), ' '] + Wrap(r, Respace(y))
  {
    RespaceAppend(Wrap(l, x) + [OpSymbol(op)], Wrap(r, y));
    RespaceAppend(Wrap(l, x), [OpSymbol(op)]);
    WrapCommutes(l, x);
    WrapCommutes(r, y);
  }

  /** Two formulas with the same display text have the same rendered text,
      so removing spaces never merges two texts recorded under a key. */
  lemma DisplayInjective(e1: Expr, e2: Expr)
    requires StripSpaces(Render(e1)) == StripSpaces(Render(e2))
    ensures Render(e1) == Render(e2)
  {
    DisplayRoundTrip(e1);
    DisplayRoundTrip(e2);
  }
}
