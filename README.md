# Four-digit puzzle: the exhaustive search, modelled and verified

The program takes four digits and lists every integer that can be written
with those four digits, each used once, and the operators `+ - * /` with
any grouping. Under each integer it lists the formulas that give it. Its
core is `calculate_possibilities`, an exhaustive search with three nested
loops:

- over the distinct orderings of the digits;
- over the 64 operator triples;
- over five fixed parenthesisation shapes.

It evaluates every candidate formula. A formula with an integer value has
its text appended under that value, unless that exact text is already
there. A formula that divides by zero is skipped.

This project models that search in Dafny:

- `expressions.dfy` (module `Expressions`) holds a formula as a tree:
  - a digit, or one of the four operators applied to two sub-formulas;
  - an evaluator over exact rationals (Dafny `real`) that fails on a zero
    divisor;
  - a renderer that brackets every compound operand.
- `enumeration.dfy` (module `Enumeration`) holds the candidates:
  - the 24 index permutations, in the order `itertools.permutations`
    yields them, and the set of distinct orderings they give;
  - the 64 operator triples of `itertools.product`;
  - the five format strings, their trees, and the set of all candidates
    of a run.
- `search.dfy` (module `Search`) holds the search itself, written
  imperatively:
  - `CalculatePossibilities` is a `while` loop that takes the orderings
    from a set in no fixed order;
  - `SearchOrdering` and `SearchTriple` are the two inner `for` loops;
  - `FileFormula` evaluates one formula and, if it has an integer value,
    appends its text to the `map<int, seq<string>>` table.
  - Each method is proved against the predicate `Summarises`, which says:
    - the table's keys are exactly the integer values reached;
    - each key's list holds no text twice;
    - each key's list holds exactly the texts of the formulas with that
      value.
- `cli.dfy` (module `Cli`) holds the pure pieces of `main`: the check on
  the argument, the digits it stands for, and the removal of spaces from
  the displayed text.
- `properties.dfy` (module `Properties`) states what a finished table
  means in terms of the candidates: soundness, completeness, skipped
  formulas, independence from the search order, and worked examples for
  the inputs `1234` and `0000` (lemmas about any table that records those
  inputs' candidates).
- `support.dfy` holds the `Option` type and small sequence facts.

The central definitions only compute, so their meaning is carried by the
lemmas about them. Each is listed here with the source lines it models
and the "## Model" row that states what it means:

- `Expressions.Evaluate` (src/main.py:39, `eval`) and
  `Expressions.DividesByZero` (src/main.py:43-45): see
  `Expressions.EvaluateFailsIffDividesByZero` and `Expressions.Apply`.
- `Expressions.IntegerValue` (src/main.py:41, `res == int(res)` and the
  key `int(res)`): see `Expressions.IntegerValueIsExact`.
- `Expressions.Render` (src/main.py:29-33): see
  `Enumeration.RenderMatchesTemplate`, `Cli.DisplayRoundTrip` and
  `Properties.CandidateTextsDistinct`.
- `Enumeration.Build` (src/main.py:28-34): see `Enumeration.BuildLayout`,
  `Enumeration.BuildInjective` and `Enumeration.ShapesCoverAll`.
- `Enumeration.Template` (src/main.py:29-33): see
  `Enumeration.RenderMatchesTemplate` and `Enumeration.TemplateInjective`.
- `Enumeration.Orderings` (src/main.py:20): see
  `Enumeration.OrderingsExactly` and `Enumeration.OrderingsCount`.
- `Enumeration.AllCandidates` (src/main.py:20-34): see
  `Enumeration.AllCandidatesExactly` and `Enumeration.AllCandidatesCount`.
- `Search.Record` (src/main.py:41-45): see `Search.RecordSummarises`,
  `Search.RecordFilesText`, `Search.RecordSkipsDivisionByZero` and
  `Search.RecordSkipsFraction`.
- `Search.Summarises`: see `Search.CalculatePossibilities`,
  `Properties.SummaryUnique` and the soundness and completeness lemmas in
  `Properties`.
- `Cli.ValidArgument` (src/main.py:58): see `Cli.AcceptedArguments`.
- `Cli.DigitText`: see `Cli.DigitTextAccepted` and `Cli.DigitsOf`.

## Model

| member | source | states |
|---|---|---|
| Expressions.CharDigit | src/main.py:15 | a digit character is read as its digit, and printing that digit gives the character back |
| Expressions.DigitChar | src/main.py:29-33 | the character that prints a digit is an ASCII digit whose code is the digit's value above `'0'` |
| Expressions.OpSymbol | src/main.py:16 | each operator is written with one of the four symbols `+ - * /` |
| Expressions.OpSymbolInjective | src/main.py:16 | different operators have different symbols |
| Expressions.Apply | src/main.py:39 | one operator on two exact values fails exactly when dividing by zero, and a quotient times the divisor gives the dividend |
| Expressions.EvaluateFailsIffDividesByZero | src/main.py:37-45 | `Evaluate` (the `eval` of line 39) fails if and only if `DividesByZero` holds: some division in the formula has a divisor whose value is zero |
| Expressions.IntegerValueIsExact | src/main.py:41 | `IntegerValue` (the test `res == int(res)` with key `int(res)`) gives key k exactly when the formula's exact value is k |
| Expressions.NoDivisionHasIntegerValue | src/main.py:39-41 | a formula built without `/` always has an integer value and so always passes the test |
| Expressions.ApplyToIntegers | src/main.py:39 | `+`, `-` and `*` applied to integers give an integer |
| Enumeration.IndexPermutationsValid | src/main.py:20 | each of the 24 listed index tuples is a permutation of the four positions |
| Enumeration.IndexPermutationsComplete | src/main.py:20 | every permutation of the four positions is among the listed tuples |
| Enumeration.Arrange | src/main.py:20-21 | the ordering an index tuple gives is a rearrangement of the input digits, each used as often as it occurs |
| Enumeration.Permutations | src/main.py:20 | the permutation generator yields 24 orderings, repetitions included |
| Enumeration.PermutationReachesAll | src/main.py:20 | a permutation of positions names every position |
| Enumeration.PermuteRearranges | src/main.py:20 | reading a sequence through a permutation of its positions keeps every element and its multiplicity |
| Enumeration.RearrangementIndex | src/main.py:20 | every rearrangement of a sequence is that sequence read through some permutation of its positions |
| Enumeration.OrderingsAreRearrangements | src/main.py:20 | every ordering visited uses the input digits, each as often as it occurs |
| Enumeration.OrderingsComplete | src/main.py:20 | every rearrangement of the input digits is visited |
| Enumeration.OrderingsExactly | src/main.py:20 | `Orderings`: an ordering is visited if and only if it rearranges the input digits |
| Enumeration.OrderingsCount | src/main.py:20 | the input order itself is visited, and a run visits between 1 and 24 orderings |
| Enumeration.SameDigitsOrdering | src/main.py:20 | with four equal digits, every visited ordering is the input |
| Enumeration.RepeatedDigitOrderings | src/main.py:20 | four equal digits collapse to one single ordering |
| Enumeration.OpTriples | src/main.py:24 | the operator product has 64 triples |
| Enumeration.OpIndex | src/main.py:16 | each operator has a position in the operator list |
| Enumeration.TripleIndex | src/main.py:24 | the base-four number of a triple's operator positions is a position of the product |
| Enumeration.TripleIndexAt | src/main.py:24 | the triple at position n of the product has index n |
| Enumeration.OpTriplesComplete | src/main.py:24 | every triple of operators occurs in the product, at the position its operator indices give |
| Enumeration.OpTriplesDistinct | src/main.py:24 | no triple occurs twice |
| Enumeration.RenderMatchesTemplate | src/main.py:28-34 | `Render` of each shape's tree (`Build`) is exactly that shape's format string (`Template`) filled with the digits and operators |
| Enumeration.Spelled | src/main.py:28-34 | every format string is 17 characters long |
| Enumeration.TemplateSpelled | src/main.py:28-34 | each filled format string is the shape's 17-character text |
| Enumeration.ShapeText | src/main.py:28-34 | for every shape, the rendered tree, the 17-character text and the filled format string are one and the same |
| Enumeration.LeftDeepText | src/main.py:29 | the tree of this shape renders as the format string of line 29, character for character |
| Enumeration.LeftInnerText | src/main.py:30 | the tree of this shape renders as the format string of line 30, character for character |
| Enumeration.RightInnerText | src/main.py:31 | the tree of this shape renders as the format string of line 31, character for character |
| Enumeration.RightDeepText | src/main.py:32 | the tree of this shape renders as the format string of line 32, character for character |
| Enumeration.BalancedText | src/main.py:33 | the tree of this shape renders as the format string of line 33, character for character |
| Enumeration.SpelledShape | src/main.py:28-34 | the bracket positions of a text identify its shape, in both directions |
| Enumeration.TemplateInjective | src/main.py:28-34 | two filled format strings are equal only when shape, ordering and triple are all equal |
| Enumeration.SpelledParts | src/main.py:28-34 | within one shape, the text determines the four digits and the three operators |
| Enumeration.BuildLayout | src/main.py:21-34 | each shape keeps the digits in the order a, b, c, d and the operators in the order op1, op2, op3 |
| Enumeration.BuildInjective | src/main.py:28-34 | different shapes, orderings or triples give different formulas |
| Enumeration.OneLeafShape | src/main.py:28-34 | a formula with one digit is that digit |
| Enumeration.TwoLeafShape | src/main.py:28-34 | a formula with two digits is one operator applied to two digits |
| Enumeration.ThreeLeafShapes | src/main.py:28-34 | a formula with three digits groups them to the left or to the right |
| Enumeration.ShapesCoverAll | src/main.py:28-34 | the five shapes are all the groupings: every formula over four digits is one of them, over its own digits and operators |
| Enumeration.ExpressionsFor | src/main.py:28-34 | each ordering and triple give five formulas |
| Enumeration.CandidateList | src/main.py:24-34 | the first n triples give 5n formulas |
| Enumeration.CandidateListAt | src/main.py:24-34 | position 5i+j of one ordering's formulas is shape j under triple i |
| Enumeration.CandidateListDistinct | src/main.py:24-34 | one ordering's formulas are pairwise different |
| Enumeration.CandidatesUpToNext | src/main.py:24-34 | one more triple adds its five formulas |
| Enumeration.CandidatesOfMembers | src/main.py:24-34 | a formula belongs to an ordering exactly when it is a shape over that ordering under some triple |
| Enumeration.CandidatesOfCount | src/main.py:24-34 | each ordering contributes exactly 320 formulas |
| Enumeration.CandidatesFromAdd | src/main.py:20-34 | one more ordering adds its own formulas |
| Enumeration.CandidatesFromCount | src/main.py:20-34 | distinct orderings share no formula, so a set of orderings gives 320 formulas each |
| Enumeration.AllCandidatesExactly | src/main.py:20-34 | `AllCandidates`: a formula is a candidate if and only if its digits, read left to right, rearrange the input digits |
| Enumeration.AllCandidatesCount | src/main.py:20-34 | a run considers 320 formulas per distinct ordering, between 320 and 7680 in all |
| Cli.StripSpaces | src/main.py:81 | the display text has no space and keeps every other character; a text without spaces is unchanged |
| Cli.StripSpacesAppend | src/main.py:81 | spaces are removed piece by piece |
| Cli.StripSpacesIdempotent | src/main.py:81 | removing spaces twice is removing them once |
| Cli.RespaceAppend | src/main.py:81 | spaces are put back piece by piece |
| Cli.WrapCommutes | src/main.py:81 | bracketing an operand commutes with removing and with restoring spaces |
| Cli.StripNode | src/main.py:81 | the display text of a compound is its operands' display texts around the bare operator symbol |
| Cli.RespaceNode | src/main.py:81 | restoring spaces in a compound's display text restores them around its operator |
| Cli.DisplayRoundTrip | src/main.py:81 | putting the spaces back around the operators of the display text gives the rendered text again |
| Cli.DisplayInjective | src/main.py:81 | two formulas with the same display text have the same rendered text |
| Cli.DigitsOf | src/main.py:15 | the digits read from an accepted argument write the argument back |
| Cli.DigitTextAccepted | src/main.py:58 | the text of any four digits (`DigitText`) is accepted, and reading it gives the same digits back |
| Cli.AcceptedArguments | src/main.py:58 | `ValidArgument`: an argument is accepted if and only if it is the text of four digits |
| Search.RecordSummarises | src/main.py:36-45 | `Record`, one append-unless-present step, keeps the table a record (`Summarises`) of every formula seen so far |
| Search.PassedOverSummarises | src/main.py:43-45 | a skipped formula leaves the table a record of the formulas seen, that formula included |
| Search.FiledSummarises | src/main.py:41-42 | filing a formula with an integer value keeps the table a record of the formulas seen |
| Search.FiledKey | src/main.py:41-42 | after filing, the value's list has no repeated text and holds the texts of the formulas with that value |
| Search.RecordSkipsDivisionByZero | src/main.py:43-45 | a formula that divides by zero leaves the table unchanged |
| Search.RecordSkipsFraction | src/main.py:41 | a formula whose value is not an integer leaves the table unchanged |
| Search.RecordFilesText | src/main.py:41-42 | a formula with integer value k leaves its text under k, adds at most the key k and changes no other key |
| Search.RecordNext | src/main.py:36-45 | after one more formula of a triple, the table records one more formula |
| Search.CalculatePossibilities | src/main.py:5-46 | the returned table records exactly the candidates of the argument's digits, visited in any order |
| Search.SearchOrdering | src/main.py:21-45 | searching one ordering adds its 320 formulas to what the table records |
| Search.NextTriple | src/main.py:24-45 | the formulas of the next triple extend the formulas of the triples before it |
| Search.SearchTriple | src/main.py:28-45 | searching one triple adds its five formulas to what the table records |
| Search.FileFormula | src/main.py:36-45 | one formula's step is the recording step on its tree: the format string it files is that tree's text |
| Properties.CandidateParts | src/main.py:20-34 | every candidate is a shape over a visited ordering with some triple |
| Properties.CandidateOfParts | src/main.py:20-34 | every shape over a visited ordering with any triple is a candidate |
| Properties.CandidateTextsDistinct | src/main.py:28-34 | different candidates have different texts |
| Properties.RecordedTextsEvaluateToKey | src/main.py:39-42 | every text filed under a key is the format string of a candidate whose exact value is that key |
| Properties.EveryIntegerCandidateRecorded | src/main.py:36-42 | every candidate with an integer value has its format string filed under that value |
| Properties.KeysAreReachedValues | src/main.py:41-42 | the keys are exactly the integers that some candidate evaluates to |
| Properties.KeysHaveTexts | src/main.py:41-42 | every key has a non-empty list |
| Properties.ZeroDivisionLeavesNoText | src/main.py:43-45 | a candidate that divides by zero leaves its text under no key |
| Properties.FractionLeavesNoText | src/main.py:41 | a candidate whose value is not an integer leaves its text under no key |
| Properties.SkippedCandidateAbsent | src/main.py:41-45 | a candidate without an integer value leaves its text under no key |
| Properties.SummaryUnique | src/main.py:20 | any two tables recording the same formulas have the same keys and, under each key, the same texts in the same number |
| Properties.TextCountIsCandidateCount | src/main.py:41-42 | the number of texts under a key is the number of candidates with that value |
| Properties.TextsCard | src/main.py:41-42 | when no two formulas share a text, the texts with a value are as many as the formulas with that value |
| Properties.AddOne | src/main.py:41-42 | one more formula adds its text to its own value's texts and leaves the other values' texts alone |
| Properties.DisplayedTextsDistinct | src/main.py:80-82 | the texts printed for one key stay pairwise different after their spaces are removed |
| Properties.FindsTwentyFour | src/main.py:29 | for `1234` the table lists 24 with the text `((1 + 2) + 3) * 4` |
| Properties.TwentyFourFormula | src/main.py:29 | the first shape over 1, 2, 3, 4 with `+ + *` has value 24 and that text |
| Properties.KeepsNegativeValues | src/main.py:41 | for `1234` the table lists the negative key -8 with the text `((1 - 2) - 3) - 4` |
| Properties.MinusEightFormula | src/main.py:29 | the first shape over 1, 2, 3, 4 with `- - -` has value -8 and that text |
| Properties.ZeroFormula | src/main.py:29 | the first shape over 0, 0, 0, 0 with `+ + +` has value 0 |
| Properties.ZerosGiveOnlyZero | src/main.py:5-46 | for `0000` the only key is 0 |
| Properties.ZeroCandidate | src/main.py:39-45 | every candidate for `0000` divides by zero or has value 0 |
| Properties.ZeroLeavesGiveZero | src/main.py:39-45 | a formula over zeros alone divides by zero or has value zero |

## Left out

- Floating-point evaluation. `eval` works on Python floats, and `res == int(res)` compares a float; the model evaluates over exact rationals. The two can differ. For `3388`, `8 / (3 - 8 / 3)` is exactly 24 in the model, but in floats it is about 23.999999999999993, so the program does not list it under 24. IEEE rounding is not modelled.
- `eval` itself is not modelled. The model evaluates the tree that the format string spells, and `Enumeration.RenderMatchesTemplate` ties that tree to the string.
- The iteration order of the set of orderings depends on hashing. `Search.CalculatePossibilities` takes the orderings in an unspecified order, so every order is covered.
- Search.CalculatePossibilities: does not state the order of the texts within a key's list. It states that the list holds no text twice and exactly which texts it holds; the order follows the order of the search.
- Process plumbing in `main` is not modelled: the argument count, `sys.exit`, and printing to standard output and standard error (src/main.py:53-80 and 82). The sorting of the keys for printing is not modelled either.
- Cli.AcceptedArguments: `ValidArgument` accepts ASCII digits only. Python's `str.isdigit` also accepts other Unicode digits; `int` reads some of them (Arabic-Indic digits) and rejects others (superscripts such as `²`, which would make the run fail).
