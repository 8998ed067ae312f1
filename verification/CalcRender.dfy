/**
 Printing an expression with the parentheses that the declared precedences and
 associativities ask for, and parsing it back: the parser accepts, and the
 derivation it builds has the value of the expression.
 */
module CalcRender {
  import opened LalrTables
  import opened CalcGrammar
  import opened CalcParser
  import opened CalcRuns
  import opened CalcComplete
  import opened CalcNeat
  import CalcLoop

  datatype Op = Add | Sub | Mul | Div | Pow

  datatype Expr = Lit(v: real) | Neg(e: Expr) | Bin(op: Op, l: Expr, r: Expr)

  function Tok(op: Op): Token {
    match op
    case Add => Plus
    case Sub => Minus
    case Mul => Times
    case Div => Divide
    case Pow => Caret
  }

  function Prec(e: Expr): nat {
    match e
    case Lit(_) => 5
    case Neg(_) => NEG_PREC
    case Bin(op, _, _) => OpPrec(Sym(Tok(op)))
  }

  /** Weakest operand allowed without parentheses: `^` is right associative, the others left. */
  function LeftMin(op: Op): nat { if op == Pow then 5 else OpPrec(Sym(Tok(op))) }

  function RightMin(op: Op): nat { if op == Pow then 4 else OpPrec(Sym(Tok(op))) + 1 }

  function Render(e: Expr): seq<Token>
    decreases e, 0
  {
    match e
    case Lit(v) => [Num(v)]
    case Neg(a) => [Minus] + Wrap(a, NEG_PREC)
    case Bin(op, l, r) => Wrap(l, LeftMin(op)) + [Tok(op)] + Wrap(r, RightMin(op))
  }

  function Wrap(e: Expr, min: nat): seq<Token>
    decreases e, 1
  {
    if Prec(e) < min then [LParen] + Render(e) + [RParen] else Render(e)
  }

  function Eval(op: Arith, e: Expr): real {
    match e
    case Lit(v) => v
    case Neg(a) => op.neg(Eval(op, a))
    case Bin(Add, l, r) => op.add(Eval(op, l), Eval(op, r))
    case Bin(Sub, l, r) => op.sub(Eval(op, l), Eval(op, r))
    case Bin(Mul, l, r) => op.mul(Eval(op, l), Eval(op, r))
    case Bin(Div, l, r) => op.div(Eval(op, l), Eval(op, r))
    case Bin(Pow, l, r) => op.pow(Eval(op, l), Eval(op, r))
  }

  // ----- The derivation that a rendering should parse to -----

  function BinRule(op: Op): nat {
    match op
    case Add => 7
    case Sub => 8
    case Mul => 9
    case Div => 10
    case Pow => 11
  }

  function Derive(e: Expr): Tree
    decreases e, 0
  {
    match e
    case Lit(v) => Node(6, [Leaf(Num(v))])
    case Neg(a) => Node(12, [Leaf(Minus), DeriveWrap(a, NEG_PREC)])
    case Bin(op, l, r) => Node(BinRule(op), [DeriveWrap(l, LeftMin(op)), Leaf(Tok(op)), DeriveWrap(r, RightMin(op))])
  }

  function DeriveWrap(e: Expr, min: nat): Tree
    decreases e, 1
  {
    if Prec(e) < min then Node(13, [Leaf(LParen), Derive(e), Leaf(RParen)]) else Derive(e)
  }

  lemma {:induction false} DeriveValue(op: Arith, e: Expr)
    ensures Derivation(Derive(e)) && Root(Derive(e)) == EXP
    ensures Value(op, Derive(e)) == Eval(op, e)
    decreases e, 0
  {
    match e
    case Lit(v) =>
    case Neg(a) => DeriveWrapValue(op, a, NEG_PREC);
    case Bin(o, l, r) =>
      DeriveWrapValue(op, l, LeftMin(o));
      DeriveWrapValue(op, r, RightMin(o));
  }

  lemma {:induction false} DeriveWrapValue(op: Arith, e: Expr, min: nat)
    ensures Derivation(DeriveWrap(e, min)) && Root(DeriveWrap(e, min)) == EXP
    ensures Value(op, DeriveWrap(e, min)) == Eval(op, e)
    decreases e, 1
  {
    DeriveValue(op, e);
  }

  // ----- The derivation is neat and derives the rendering -----

  lemma {:induction false} DeriveYields(e: Expr)
    ensures Yield(Derive(e)) == Render(e)
    decreases e, 0
  {
    match e
    case Lit(v) => YieldsTwo(Leaf(Num(v)), Leaf(Num(v)));
    case Neg(a) =>
      WrapYields(a, NEG_PREC);
      YieldsTwo(Leaf(Minus), DeriveWrap(a, NEG_PREC));
    case Bin(op, l, r) =>
      WrapYields(l, LeftMin(op));
      WrapYields(r, RightMin(op));
      YieldsThree(DeriveWrap(l, LeftMin(op)), Leaf(Tok(op)), DeriveWrap(r, RightMin(op)));
      Assoc(Wrap(l, LeftMin(op)), [Tok(op)], Wrap(r, RightMin(op)));
  }

  lemma {:induction false} WrapYields(e: Expr, min: nat)
    ensures Yield(DeriveWrap(e, min)) == Wrap(e, min)
    decreases e, 1
  {
    DeriveYields(e);
    if Prec(e) < min {
      YieldsThree(Leaf(LParen), Derive(e), Leaf(RParen));
      Assoc([LParen], Render(e), [RParen]);
    }
  }

  lemma {:induction false} DeriveIsNeat(e: Expr)
    ensures Derivation(Derive(e)) && Root(Derive(e)) == EXP
    ensures Neat(Derive(e)) && TreePrec(Derive(e)) == Prec(e)
    decreases e, 0
  {
    match e
    case Lit(v) =>
    case Neg(a) => WrapIsNeat(a, NEG_PREC);
    case Bin(op, l, r) =>
      WrapIsNeat(l, LeftMin(op));
      WrapIsNeat(r, RightMin(op));
      RuleOfOp(op);
  }

  lemma {:induction false} WrapIsNeat(e: Expr, min: nat)
    requires min <= 5
    ensures Derivation(DeriveWrap(e, min)) && Root(DeriveWrap(e, min)) == EXP
    ensures Neat(DeriveWrap(e, min)) && TreePrec(DeriveWrap(e, min)) >= min
    decreases e, 1
  {
    DeriveIsNeat(e);
  }

  lemma RuleOfOp(op: Op)
    ensures RulePrec(BinRule(op)) == OpPrec(Sym(Tok(op))) && RightNeed(BinRule(op)) == RightMin(op)
    ensures LeftNeed(Rhs(BinRule(op))[1]) == LeftMin(op)
  {
  }

  // ----- Whole inputs -----

  datatype Line = Blank | Shows(e: Expr)

  function LineText(line: Line): seq<Token> {
    if line.Blank? then [Newline] else Render(line.e) + [Newline]
  }

  /** The text of a sequence of lines. */
  function Text(lines: seq<Line>): seq<Token> {
    if lines == [] then [] else LineText(lines[0]) + Text(lines[1..])
  }

  /** The derivations of the expressions shown, in order. */
  function Shown(lines: seq<Line>): seq<Tree> {
    if lines == [] then []
    else (if lines[0].Blank? then [] else [Derive(lines[0].e)]) + Shown(lines[1..])
  }

  /** The values of the expressions shown, in order. */
  function Values(op: Arith, lines: seq<Line>): seq<real> {
    if lines == [] then []
    else (if lines[0].Blank? then [] else [Eval(op, lines[0].e)]) + Values(op, lines[1..])
  }

  function LineTree(line: Line): Tree {
    if line.Blank? then Node(4, [Leaf(Newline)]) else Node(5, [Derive(line.e), Leaf(Newline)])
  }

  /** The derivation of a text of lines. */
  function InputTree(lines: seq<Line>): Tree {
    if lines == [] then Node(2, []) else Node(3, [InputTree(lines[..|lines| - 1]), LineTree(lines[|lines| - 1])])
  }

  lemma LineIsNeat(line: Line)
    ensures Derivation(LineTree(line)) && Root(LineTree(line)) == LINE && Neat(LineTree(line))
    ensures Yield(LineTree(line)) == LineText(line)
  {
    var nl := Leaf(Newline);
    if line.Blank? {
      YieldsTwo(nl, nl);
    } else {
      DeriveYields(line.e);
      DeriveIsNeat(line.e);
      YieldsTwo(Derive(line.e), nl);
    }
  }

  lemma {:induction false} TextSnoc(lines: seq<Line>, line: Line)
    ensures Text(lines + [line]) == Text(lines) + LineText(line)
    ensures Shown(lines + [line]) == Shown(lines) + Lines(LineTree(line))
    decreases |lines|
  {
    var all := lines + [line];
    if lines == [] {
      assert all[0] == line && all[1..] == [] && LineText(line) + [] == LineText(line);
    } else {
      TextSnoc(lines[1..], line);
      assert all[0] == lines[0] && all[1..] == lines[1..] + [line];
      Assoc(LineText(lines[0]), Text(lines[1..]), LineText(line));
      Assoc(Lines(LineTree(lines[0])), Shown(lines[1..]), Lines(LineTree(line)));
    }
  }

  lemma OneMoreLine(t: Tree, line: Tree)
    requires Derivation(t) && Root(t) == INPUT && Neat(t) && Derivation(line) && Root(line) == LINE && Neat(line)
    ensures Derivation(Node(3, [t, line])) && Neat(Node(3, [t, line]))
    ensures Yield(Node(3, [t, line])) == Yield(t) + Yield(line) && Lines(Node(3, [t, line])) == Lines(t) + Lines(line)
  {
    YieldsTwo(t, line);
    LinesTwo(t, line);
  }

  lemma {:induction false} InputIsNeat(lines: seq<Line>)
    ensures Derivation(InputTree(lines)) && Root(InputTree(lines)) == INPUT && Neat(InputTree(lines))
    ensures Yield(InputTree(lines)) == Text(lines) && Lines(InputTree(lines)) == Shown(lines)
    decreases |lines|
  {
    if lines != [] {
      var front, last := lines[..|lines| - 1], lines[|lines| - 1];
      assert lines == front + [last];
      InputIsNeat(front);
      LineIsNeat(last);
      TextSnoc(front, last);
      OneMoreLine(InputTree(front), LineTree(last));
    }
  }

  /**
   Every sequence of expressions, rendered line by line, is accepted and parsed to the expressions' own derivations.
   */
  lemma RenderParses(lines: seq<Line>)
    ensures Valid(Initial(Text(lines)))
    ensures var o := Run(Initial(Text(lines)));
            o.Accepted? && o.out == Shown(lines)
  {
    InputIsNeat(lines);
    NeatIsFound(InputTree(lines));
  }

  lemma {:induction false} ShownValues(op: Arith, lines: seq<Line>)
    ensures |Shown(lines)| == |Values(op, lines)|
    ensures forall i :: 0 <= i < |Shown(lines)| ==>
              HasValue(Shown(lines)[i]) && Value(op, Shown(lines)[i]) == Values(op, lines)[i]
  {
    if lines != [] {
      if lines[0].Shows? { DeriveValue(op, lines[0].e); }
      ShownValues(op, lines[1..]);
    }
  }

  /** Rendering lines of expressions and running `yyparse` on the text prints exactly the expressions' values. */
  lemma RoundTrip(op: Arith, lines: seq<Line>, printed: seq<real>)
    ensures Valid(Initial(Text(lines)))
    ensures Run(Initial(Text(lines))).Accepted?
    ensures CalcLoop.PrintedMatch(op, Run(Initial(Text(lines))).out, printed) <==> printed == Values(op, lines)
  {
    RenderParses(lines);
    ShownValues(op, lines);
    var f := Shown(lines);
    forall i | 0 <= i < |f| ensures Root(f[i]) == EXP {
      ShownAreExpressions(lines, i);
    }
  }

  lemma {:induction false} ShownAreExpressions(lines: seq<Line>, i: nat)
    requires i < |Shown(lines)|
    ensures Root(Shown(lines)[i]) == EXP
  {
    var first := if lines[0].Blank? then 0 else 1;
    if i >= first { ShownAreExpressions(lines[1..], i - first); }
  }
}
