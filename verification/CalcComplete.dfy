/**
 Completeness: the parser accepts every token string that the grammar derives, so
 that together with soundness it accepts exactly the language of the grammar.
 */
module CalcComplete {
  import opened LalrTables
  import opened CalcGrammar
  import opened CalcParser
  import opened CalcRuns

  /** States that may occur above an open `1` or `(`: pending operators, prefixes and operands. */
  predicate Pending(q: nat) { AfterExp(q) || q == 4 || 11 <= q <= 15 }

  /** `ss` extends `base`, which ends at the start of a line or after `(`, by a pending operator chain. */
  ghost predicate Above(ss: seq<nat>, base: seq<nat>) {
    && IsPath(ss) && 0 < |base| <= |ss| && base == ss[..|base|]
    && (Top(base) == 1 || Top(base) == 6)
    && forall i :: |base| <= i < |ss| ==> Pending(ss[i])
  }

  /** One reduction of a pending operator chain stays above the same base. */
  lemma ReduceAbove(f: EndingFn, ss: seq<nat>, nodes: seq<Tree>, base: seq<nat>, rest: seq<Token>)
    returns (ss': seq<nat>, nodes': seq<Tree>)
    requires IsEnding(f) && f(ss, nodes, rest) != Stuck && |ss| == |nodes| + 1
    requires Above(ss, base) && AfterExp(Top(ss)) && Top(ss) != 8 && Top(ss) != 10
    requires !Shifts(Top(ss), Sym(Look(rest)))
    ensures |ss'| == |nodes'| + 1 && |ss'| < |ss|
    ensures Above(ss', base) && AfterExp(Top(ss'))
    ensures f(ss, nodes, rest) == f(ss', nodes', rest)
  {
    var r := RuleOf(Top(ss));
    var keep := ChainBottom(ss, base, r);
    var goto := Goto(ss[keep], EXP);
    assert ss == ss[..keep + 1] + ss[keep + 1..] && nodes == nodes[..keep] + nodes[keep..];
    ReduceRun(f, ss[..keep + 1], nodes[..keep], ss[keep + 1..], nodes[keep..], rest, r);
    ss', nodes' := ss[..keep + 1] + [goto], nodes[..keep] + [Node(r, nodes[keep..])];
    GotoEdge(ss[keep], EXP);
    PathSnoc(ss, keep, goto);
  }

  /** The state below a chain's right-hand side. */
  lemma ChainBottom(ss: seq<nat>, base: seq<nat>, r: nat) returns (keep: nat)
    requires Above(ss, base) && AfterExp(Top(ss)) && Top(ss) != 8 && Top(ss) != 10 && r == RuleOf(Top(ss))
    ensures IsRule(r) && Lhs(r) == EXP && keep + |Rhs(r)| == |ss| - 1 && |base| <= keep + 1 &&
      HasGoto(ss[keep], EXP) && |Rhs(r)| >= 2
  {
    assert ReducesBy(Top(ss), r);
    PathSpellsRhs(ss, r);
    ChainDepth(ss, base, r);
    keep := |ss| - 1 - |Rhs(r)|;
  }

  /** A chain's right-hand side lies entirely above the base. */
  lemma ChainDepth(ss: seq<nat>, base: seq<nat>, r: nat)
    requires Above(ss, base) && AfterExp(Top(ss)) && r == RuleOf(Top(ss)) && ReducesBy(Top(ss), r)
    requires IsRule(r) && |Rhs(r)| < |ss|
    ensures |base| <= |ss| - |Rhs(r)|
  {
    var n := |ss|;
    assert n > 1 ==> Edge(ss[n - 2], ss[n - 1]);
    assert n > 2 ==> Edge(ss[n - 3], ss[n - 2]);
    assert Top(base) == ss[|base| - 1];
  }

  /** Before an operator, a chain reduces until the operator can be shifted. */
  lemma {:induction false} ShiftOperator(f: EndingFn, ss: seq<nat>, nodes: seq<Tree>, base: seq<nat>, tok: Token,
                                         rest: seq<Token>)
    returns (ss': seq<nat>, nodes': seq<Tree>)
    requires IsEnding(f) && f(ss, nodes, [tok] + rest) != Stuck && |ss| == |nodes| + 1
    requires Above(ss, base) && AfterExp(Top(ss)) && OpPrec(Sym(tok)) > 0
    ensures |ss'| == |nodes'| + 1 && Above(ss', base) && ExpectsExp(Top(ss'))
    ensures f(ss, nodes, [tok] + rest) == f(ss', nodes', rest)
    decreases |ss|
  {
    var q := Top(ss);
    if Shifts(q, Sym(tok)) {
      var q' := OpState(Sym(tok));
      ShiftRun(f, ss, nodes, tok, rest, q');
      ss', nodes' := ss + [q'], nodes + [Leaf(tok)];
      ActionMeaning(q, Sym(tok));
      PushPending(ss, base, q');
    } else {
      var ss1, nodes1 := ReduceAbove(f, ss, nodes, base, [tok] + rest);
      ss', nodes' := ShiftOperator(f, ss1, nodes1, base, tok, rest);
    }
  }

  /** Before a token that closes it, a chain reduces to a single expression on the base. */
  lemma {:induction false} CloseChain(f: EndingFn, ss: seq<nat>, nodes: seq<Tree>, base: seq<nat>, rest: seq<Token>)
    returns (nodes': seq<Tree>)
    requires IsEnding(f) && f(ss, nodes, rest) != Stuck && |ss| == |nodes| + 1
    requires Above(ss, base) && AfterExp(Top(ss)) && OpPrec(Sym(Look(rest))) == 0
    ensures |nodes'| == |base| && IsPath(base + [Goto(Top(base), EXP)])
    ensures f(ss, nodes, rest) == f(base + [Goto(Top(base), EXP)], nodes', rest)
    decreases |ss|
  {
    var q := Top(ss);
    if q == 8 || q == 10 {
      var n := |ss|;
      assert n > 1 ==> Edge(ss[n - 2], ss[n - 1]);
      assert Top(base) == ss[|base| - 1];
      assert |ss| == |base| + 1 && ss == base + [q];
      nodes' := nodes;
    } else {
      var ss1, nodes1 := ReduceAbove(f, ss, nodes, base, rest);
      nodes' := CloseChain(f, ss1, nodes1, base, rest);
    }
  }

  /** The tokens of any derivation of `exp` extend the chain by one operand or more. */
  lemma {:induction false} ParseAny(f: EndingFn, ss: seq<nat>, nodes: seq<Tree>, base: seq<nat>, t: Tree,
                                    rest: seq<Token>)
    returns (ss': seq<nat>, nodes': seq<Tree>)
    requires IsEnding(f) && f(ss, nodes, Yield(t) + rest) != Stuck && |ss| == |nodes| + 1
    requires Derivation(t) && Root(t) == EXP
    requires Above(ss, base) && ExpectsExp(Top(ss))
    ensures |ss'| == |nodes'| + 1 && Above(ss', base) && AfterExp(Top(ss'))
    ensures f(ss, nodes, Yield(t) + rest) == f(ss', nodes', rest)
    decreases t, 1
  {
    var k := t.kids;
    if t.rule == 6 {
      assert Root(k[0]) == NUM && k == [k[0]];
      YieldsTwo(k[0], k[0]);
      ss', nodes' := ParseNumber(f, ss, nodes, base, k[0], rest);
    } else if t.rule == 12 {
      NegParts(t, rest);
      ShiftRun(f, ss, nodes, Minus, Yield(k[1]) + rest, 4);
      PushPending(ss, base, 4);
      ss', nodes' := ParseAny(f, ss + [4], nodes + [Leaf(Minus)], base, k[1], rest);
    } else if t.rule == 13 {
      ss', nodes' := ParseParens(f, ss, nodes, base, t, rest);
    } else {
      ss', nodes' := ParseOperator(f, ss, nodes, base, t, rest);
    }
  }

  lemma PushPending(ss: seq<nat>, base: seq<nat>, q: nat)
    requires Above(ss, base) && q < YYNSTATES && Pending(q) && Edge(Top(ss), q)
    ensures Above(ss + [q], base)
  {
    assert ss == ss[..|ss| - 1 + 1];
    PathSnoc(ss, |ss| - 1, q);
  }

  /** The parts of a derivation by the negation rule. */
  lemma NegParts(t: Tree, rest: seq<Token>)
    requires Derivation(t) && t.Node? && t.rule == 12
    ensures |t.kids| == 2 && Derivation(t.kids[1]) && Root(t.kids[1]) == EXP && t.kids == [Leaf(Minus), t.kids[1]]
    ensures Yield(t) + rest == [Minus] + (Yield(t.kids[1]) + rest)
  {
    var k := t.kids;
    assert Root(k[0]) == MINUS && Root(k[1]) == EXP && k[0] == Leaf(Minus);
    assert k == [k[0], k[1]];
    YieldsTwo(k[0], k[1]);
    Assoc([Minus], Yield(k[1]), rest);
  }

  lemma YieldsThree(a: Tree, b: Tree, c: Tree)
    ensures Yields([a, b, c]) == Yield(a) + (Yield(b) + Yield(c))
  {
    YieldsTwo(a, b);
    assert [a, b, c][..2] == [a, b];
    Assoc(Yield(a), Yield(b), Yield(c));
  }

  /** The parts of a derivation by a binary rule. */
  lemma BinaryParts(t: Tree, rest: seq<Token>)
    requires Derivation(t) && t.Node? && 7 <= t.rule <= 11
    ensures var k := t.kids;
            && |k| == 3 && Derivation(k[0]) && Root(k[0]) == EXP && Derivation(k[2]) && Root(k[2]) == EXP
            && k[1].Leaf? && OpPrec(Sym(k[1].tok)) > 0 && Sym(k[1].tok) == Rhs(t.rule)[1] &&
               k == [k[0], Leaf(k[1].tok), k[2]]
            && Yield(t) + rest == Yield(k[0]) + ([k[1].tok] + (Yield(k[2]) + rest))
  {
    var k := t.kids;
    assert Root(k[0]) == EXP && Root(k[1]) == Rhs(t.rule)[1] && Root(k[2]) == EXP;
    assert Yield(k[1]) == [k[1].tok] && k == [k[0], k[1], k[2]];
    YieldsThree(k[0], k[1], k[2]);
    Assoc(Yield(k[0]), [k[1].tok] + Yield(k[2]), rest);
    Assoc([k[1].tok], Yield(k[2]), rest);
  }

  /** The parts of a derivation by the parenthesis rule. */
  lemma ParenParts(t: Tree, rest: seq<Token>)
    requires Derivation(t) && t.Node? && t.rule == 13
    ensures |t.kids| == 3 && Derivation(t.kids[1]) && Root(t.kids[1]) == EXP &&
      t.kids == [Leaf(LParen), t.kids[1], Leaf(RParen)]
    ensures Yield(t) + rest == [LParen] + (Yield(t.kids[1]) + ([RParen] + rest))
  {
    var k := t.kids;
    assert Root(k[0]) == LPAREN && Root(k[1]) == EXP && Root(k[2]) == RPAREN;
    assert k[0] == Leaf(LParen) && k[2] == Leaf(RParen) && k == [k[0], k[1], k[2]];
    YieldsThree(k[0], k[1], k[2]);
    Assoc([LParen], Yield(k[1]) + [RParen], rest);
    Assoc(Yield(k[1]), [RParen], rest);
  }

  lemma ParseNumber(f: EndingFn, ss: seq<nat>, nodes: seq<Tree>, base: seq<nat>, t: Tree, rest: seq<Token>)
    returns (ss': seq<nat>, nodes': seq<Tree>)
    requires IsEnding(f) && f(ss, nodes, Yield(t) + rest) != Stuck && |ss| == |nodes| + 1
    requires Root(t) == NUM && Above(ss, base) && ExpectsExp(Top(ss))
    ensures |ss'| == |nodes'| + 1 && Above(ss', base) && AfterExp(Top(ss'))
    ensures f(ss, nodes, Yield(t) + rest) == f(ss', nodes', rest)
  {
    var goto := Goto(Top(ss), EXP);
    assert t.Leaf? && Yield(t) == [t.tok];
    ShiftRun(f, ss, nodes, t.tok, rest, 3);
    ReduceRun(f, ss, nodes, [3], [t], rest, 6);
    ss', nodes' := ss + [goto], nodes + [Node(6, [t])];
    GotoEdge(Top(ss), EXP);
    assert ss == ss[..|ss| - 1 + 1];
    PathSnoc(ss, |ss| - 1, goto);
  }

  lemma {:induction false} ParseOperator(f: EndingFn, ss: seq<nat>, nodes: seq<Tree>, base: seq<nat>, t: Tree,
                                         rest: seq<Token>)
    returns (ss': seq<nat>, nodes': seq<Tree>)
    requires IsEnding(f) && f(ss, nodes, Yield(t) + rest) != Stuck && |ss| == |nodes| + 1
    requires Derivation(t) && t.Node? && 7 <= t.rule <= 11
    requires Above(ss, base) && ExpectsExp(Top(ss))
    ensures |ss'| == |nodes'| + 1 && Above(ss', base) && AfterExp(Top(ss'))
    ensures f(ss, nodes, Yield(t) + rest) == f(ss', nodes', rest)
    decreases t, 0
  {
    var k := t.kids;
    BinaryParts(t, rest);
    var after := Yield(k[2]) + rest;
    var ss1, nodes1 := ParseAny(f, ss, nodes, base, k[0], [k[1].tok] + after);
    var ss2, nodes2 := ShiftOperator(f, ss1, nodes1, base, k[1].tok, after);
    ss', nodes' := ParseAny(f, ss2, nodes2, base, k[2], rest);
  }

  /** An open parenthesis starts a chain of its own. */
  lemma OpensAbove(ss: seq<nat>)
    requires IsPath(ss) && ExpectsExp(Top(ss))
    ensures Above(ss + [6], ss + [6]) && ExpectsExp(Top(ss + [6]))
  {
    assert ss == ss[..|ss| - 1 + 1];
    PathSnoc(ss, |ss| - 1, 6);
  }

  lemma {:induction false} ParseParens(f: EndingFn, ss: seq<nat>, nodes: seq<Tree>, base: seq<nat>, t: Tree,
                                       rest: seq<Token>)
    returns (ss': seq<nat>, nodes': seq<Tree>)
    requires IsEnding(f) && f(ss, nodes, Yield(t) + rest) != Stuck && |ss| == |nodes| + 1
    requires Derivation(t) && t.Node? && t.rule == 13
    requires Above(ss, base) && ExpectsExp(Top(ss))
    ensures |ss'| == |nodes'| + 1 && Above(ss', base) && AfterExp(Top(ss'))
    ensures f(ss, nodes, Yield(t) + rest) == f(ss', nodes', rest)
    decreases t, 0
  {
    var k := t.kids;
    ParenParts(t, rest);
    var close := [RParen] + rest;
    ShiftRun(f, ss, nodes, LParen, Yield(k[1]) + close, 6);
    var inner := ss + [6];
    OpensAbove(ss);
    var ss1, nodes1 := ParseAny(f, inner, nodes + [Leaf(LParen)], inner, k[1], close);
    var nodes2 := CloseChain(f, ss1, nodes1, inner, close);
    ss', nodes' := CloseParen(f, ss, inner, nodes2, rest);
    GotoEdge(Top(ss), EXP);
    PushPending(ss, base, Goto(Top(ss), EXP));
  }

  lemma CloseParen(f: EndingFn, ss: seq<nat>, inner: seq<nat>, nodes: seq<Tree>, rest: seq<Token>)
    returns (ss': seq<nat>, nodes': seq<Tree>)
    requires IsEnding(f) && IsPath(ss) && ExpectsExp(Top(ss)) && inner == ss + [6] && |nodes| == |inner|
    requires f(inner + [10], nodes, [RParen] + rest) != Stuck
    ensures ss' == ss + [Goto(Top(ss), EXP)] && IsPath(ss') && AfterExp(Top(ss')) && |ss'| == |nodes'| + 1
    ensures f(inner + [10], nodes, [RParen] + rest) == f(ss', nodes', rest)
  {
    ShiftRun(f, inner + [10], nodes, RParen, rest, 17);
    var keep := |ss| - 1;
    var all := nodes + [Leaf(RParen)];
    assert inner + [10] + [17] == ss + [6, 10, 17] && all == all[..keep] + all[keep..];
    ReduceRun(f, ss, all[..keep], [6, 10, 17], all[keep..], rest, 13);
    ss', nodes' := ss + [Goto(Top(ss), EXP)], all[..keep] + [Node(13, all[keep..])];
    GotoEdge(Top(ss), EXP);
    assert ss == ss[..|ss| - 1 + 1];
    PathSnoc(ss, |ss| - 1, Goto(Top(ss), EXP));
  }

  // ----- Lines and inputs -----

  /** A complete `line` on the stack joins the input read so far. */
  lemma JoinLine(f: EndingFn, t: Tree, line: Tree, rest: seq<Token>)
    requires IsEnding(f) && f([0, 1] + [7], [t] + [line], rest) != Stuck
    ensures f([0, 1] + [7], [t] + [line], rest) == f([0, 1], [Node(3, [t, line])], rest)
  {
    var kids := [t, line];
    assert [0, 1] + [7] == [0] + [1, 7] && [t] + [line] == [] + kids;
    ReduceRun(f, [0], [], [1, 7], kids, rest, 3);
    assert [0] + [1] == [0, 1] && [] + [Node(3, kids)] == [Node(3, kids)];
  }

  lemma ParseShown(f: EndingFn, t: Tree, e: Tree, rest: seq<Token>) returns (t': Tree)
    requires IsEnding(f) && f([0, 1], [t], Yield(e) + ([Newline] + rest)) != Stuck
    requires Derivation(e) && Root(e) == EXP
    ensures f([0, 1], [t], Yield(e) + ([Newline] + rest)) == f([0, 1], [t'], rest)
  {
    var ss, nl := [0, 1], [Newline] + rest;
    assert IsPath(ss);
    var ss1, nodes1 := ParseAny(f, ss, [t], ss, e, nl);
    var nodes2 := CloseChain(f, ss1, nodes1, ss, nl);
    ShiftRun(f, ss + [8], nodes2, Newline, rest, 16);
    var kids := [nodes2[1], Leaf(Newline)];
    assert ss + [8] + [16] == ss + [8, 16];
    assert nodes2 + [Leaf(Newline)] == [nodes2[0]] + kids;
    ReduceRun(f, ss, [nodes2[0]], [8, 16], kids, rest, 5);
    JoinLine(f, nodes2[0], Node(5, kids), rest);
    t' := Node(3, [nodes2[0], Node(5, kids)]);
  }

  lemma LineParts(line: Tree, rest: seq<Token>)
    requires Derivation(line) && Root(line) == LINE
    ensures line.Node? && (line.rule == 4 || line.rule == 5)
    ensures line.rule == 4 ==> line == Node(4, [Leaf(Newline)]) && Yield(line) == [Newline]
    ensures line.rule == 5 ==>
              && |line.kids| == 2 && line == Node(5, [line.kids[0], Leaf(Newline)]) && Derivation(line.kids[0]) &&
                 Root(line.kids[0]) == EXP
              && Yield(line) + rest == Yield(line.kids[0]) + ([Newline] + rest)
  {
    var k := line.kids;
    if line.rule == 4 {
      assert Root(k[0]) == NEWLINE && k == [Leaf(Newline)];
      YieldsTwo(k[0], k[0]);
    } else {
      assert Root(k[0]) == EXP && Root(k[1]) == NEWLINE && k == [k[0], Leaf(Newline)];
      YieldsTwo(k[0], k[1]);
      Assoc(Yield(k[0]), [Newline], rest);
    }
  }

  lemma ParseAnyLine(f: EndingFn, t: Tree, line: Tree, rest: seq<Token>) returns (t': Tree)
    requires IsEnding(f) && f([0, 1], [t], Yield(line) + rest) != Stuck
    requires Derivation(line) && Root(line) == LINE
    ensures f([0, 1], [t], Yield(line) + rest) == f([0, 1], [t'], rest)
  {
    LineParts(line, rest);
    if line.rule == 4 {
      ShiftRun(f, [0, 1], [t], Newline, rest, 5);
      ReduceRun(f, [0, 1], [t], [5], [Leaf(Newline)], rest, 4);
      JoinLine(f, t, line, rest);
      t' := Node(3, [t, line]);
    } else {
      t' := ParseShown(f, t, line.kids[0], rest);
    }
  }

  lemma InputParts(t: Tree, rest: seq<Token>)
    requires Derivation(t) && t.Node? && t.rule == 3
    ensures var k := t.kids;
            && |k| == 2 && Derivation(k[0]) && Root(k[0]) == INPUT && Derivation(k[1]) && Root(k[1]) == LINE
            && Yield(t) + rest == Yield(k[0]) + (Yield(k[1]) + rest)
  {
    var k := t.kids;
    assert Root(k[0]) == INPUT && Root(k[1]) == LINE && k == [k[0], k[1]];
    YieldsTwo(k[0], k[1]);
    Assoc(Yield(k[0]), Yield(k[1]), rest);
  }

  lemma {:induction false} ParseAnyInput(f: EndingFn, t: Tree, rest: seq<Token>) returns (t': Tree)
    requires IsEnding(f) && f([0], [], Yield(t) + rest) != Stuck
    requires Derivation(t) && Root(t) == INPUT
    ensures f([0], [], Yield(t) + rest) == f([0, 1], [t'], rest)
    decreases t
  {
    if t.rule == 2 {
      var ss: seq<nat>, nodes: seq<Tree> := [0], [];
      assert t.kids == [] && Yield(t) == [] && [] + rest == rest;
      assert ss + [] == ss && nodes + [] == nodes;
      assert f(ss, nodes, rest) != Stuck;
      ReduceRun(f, ss, nodes, [], [], rest, 2);
      t' := Node(2, []);
      assert [0] + [1] == [0, 1] && [] + [t'] == [t'];
    } else {
      var k := t.kids;
      InputParts(t, rest);
      var t1 := ParseAnyInput(f, k[0], Yield(k[1]) + rest);
      t' := ParseAnyLine(f, t1, k[1], rest);
    }
  }

  lemma {:induction false} DerivationHasNoEnd(t: Tree)
    requires Derivation(t) && Root(t) != END
    ensures NoEnd(Yield(t))
    decreases t, 1
  {
    if t.Node? {
      forall i | 0 <= i < |t.kids| ensures Derivation(t.kids[i]) && Root(t.kids[i]) != END {
        assert Root(t.kids[i]) == Rhs(t.rule)[i];
      }
      KidsHaveNoEnd(t.kids);
    }
  }

  lemma {:induction false} KidsHaveNoEnd(ts: seq<Tree>)
    requires forall i :: 0 <= i < |ts| ==> Derivation(ts[i]) && Root(ts[i]) != END
    ensures NoEnd(Yields(ts))
    decreases ts, 0
  {
    if ts != [] {
      KidsHaveNoEnd(ts[..|ts| - 1]);
      DerivationHasNoEnd(ts[|ts| - 1]);
    }
  }

  /** Every token string derived by the grammar is accepted. */
  lemma AcceptsDerivable(t: Tree)
    requires Derivation(t) && Root(t) == INPUT
    ensures Valid(Initial(Yield(t))) && Run(Initial(Yield(t))).Accepted?
  {
    DerivationHasNoEnd(t);
    var input := Yield(t);
    var f := StartRun(input);
    assert Yield(t) + [] == input;
    var t' := ParseAnyInput(f, t, []);
    AcceptRun(f, t');
  }

  ghost predicate Derivable(input: seq<Token>) {
    exists t: Tree :: Derivation(t) && Root(t) == INPUT && Yield(t) == input
  }

  /** `yyparse` accepts exactly the language of the grammar. */
  lemma AcceptsIffDerivable(input: seq<Token>)
    requires NoEnd(input)
    ensures Valid(Initial(input))
    ensures Run(Initial(input)).Accepted? <==> Derivable(input)
  {
    if Derivable(input) {
      var t: Tree :| Derivation(t) && Root(t) == INPUT && Yield(t) == input;
      AcceptsDerivable(t);
    }
    if Run(Initial(input)).Accepted? {
      RunSound(Initial(input));
    }
  }
}
