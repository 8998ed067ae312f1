/**
 Which of a text's derivations `yyparse` of compiler/lab3/y.tab.c finds: the one in which no
 operand is weaker than the declared precedences and associativities allow without parentheses.
 There is exactly one for every text of the language.
 */
module CalcNeat {
  import opened LalrTables
  import opened CalcGrammar
  import opened CalcParser
  import opened CalcRuns
  import opened CalcComplete

  // ----- Neat derivations -----

  /** Binding strength of what a rule builds; numbers and parentheses bind tightest. */
  function RulePrec(r: nat): nat {
    if r == 7 || r == 8 then 1 else if r == 9 || r == 10 then 2 else if r == 11 then 4 else if r == 12 then NEG_PREC else 5
  }

  function TreePrec(t: Tree): nat { if t.Node? then RulePrec(t.rule) else 5 }

  /** The weakest left operand of an operator token; 0 for other tokens. */
  function LeftNeed(tok: nat): nat { if tok == CARET then 5 else OpPrec(tok) }

  /** The weakest right operand of a binary rule. */
  function RightNeed(r: nat): nat { if r == 11 then 4 else RulePrec(r) + 1 }

  predicate IsNeg(t: Tree) { t.Node? && t.rule == 12 }

  /** Strong enough, or a negation: what follows a prefix or infix operator may always start with a minus sign. */
  predicate Bindable(need: nat, t: Tree) { need <= TreePrec(t) || IsNeg(t) }

  predicate NeatHere(r: nat, kids: seq<Tree>) {
    && (7 <= r <= 11 && |kids| == 3 ==> LeftNeed(Rhs(r)[1]) <= TreePrec(kids[0]) && Bindable(RightNeed(r), kids[2]))
    && (r == 12 && |kids| == 2 ==> Bindable(NEG_PREC, kids[1]))
  }

  ghost predicate Neat(t: Tree) {
    t.Node? ==> NeatHere(t.rule, t.kids) && forall i :: 0 <= i < |t.kids| ==> Neat(t.kids[i])
  }

  // ----- Every stack holds neat derivations -----

  ghost predicate AllNeat(nodes: seq<Tree>) { forall i :: 0 <= i < |nodes| ==> Neat(nodes[i]) }

  /** Every stacked operand may follow the state below it. */
  ghost predicate Placed(ss: seq<nat>, nodes: seq<Tree>)
    requires |ss| == |nodes| + 1
  {
    forall i, j :: 0 <= i < |nodes| && j == i + 1 && AfterExp(ss[j]) ==> Bindable(Need(ss[i]), nodes[i])
  }

  /** Every stacked operand may precede the operator above it. */
  ghost predicate LeftsOk(ss: seq<nat>, nodes: seq<Tree>)
    requires |ss| == |nodes| + 1
  {
    forall i, j, k :: 0 <= i && j == i + 1 && k == j + 1 && k < |ss| && AfterExp(ss[j]) && 11 <= ss[k] <= 15 ==>
      LeftNeed(Access(ss[k])) <= TreePrec(nodes[i])
  }

  /** An operand on top may precede the lookahead token. */
  predicate Ahead(ss: seq<nat>, nodes: seq<Tree>, tok: nat)
    requires |ss| == |nodes| + 1
  {
    AfterExp(Top(ss)) && nodes != [] ==> LeftNeed(tok) <= TreePrec(nodes[|nodes| - 1])
  }

  ghost predicate NeatStack(c: Config) {
    && |c.states| == |c.nodes| + 1
    && AllNeat(c.nodes) && Placed(c.states, c.nodes) && LeftsOk(c.states, c.nodes)
    && Ahead(c.states, c.nodes, Sym(Look(c.rest)))
  }

  /** Replacing the top of a stack by one node. */
  lemma PushNeat(ss: seq<nat>, nodes: seq<Tree>, keep: nat, q: nat, node: Tree)
    requires |ss| == |nodes| + 1 && keep <= |nodes| && AllNeat(nodes) && Placed(ss, nodes) && LeftsOk(ss, nodes) &&
      Neat(node)
    requires AfterExp(q) ==> Bindable(Need(ss[keep]), node)
    requires 11 <= q <= 15 && keep > 0 && AfterExp(ss[keep]) ==> LeftNeed(Access(q)) <= TreePrec(nodes[keep - 1])
    ensures var ss', nodes' := ss[..keep + 1] + [q], nodes[..keep] + [node];
            AllNeat(nodes') && Placed(ss', nodes') && LeftsOk(ss', nodes')
  {
    var ss', nodes' := ss[..keep + 1] + [q], nodes[..keep] + [node];
    assert forall i :: 0 <= i <= keep ==> ss'[i] == ss[i];
    assert forall i :: 0 <= i < keep ==> nodes'[i] == nodes[i];
  }

  lemma ShiftKeepsNeat(c: Config, q: nat)
    requires Valid(c) && NeatStack(c) && Top(c.states) != YYFINAL &&
      Action(Top(c.states), Sym(Look(c.rest))) == Shift(q)
    ensures NeatStack(Shifted(c, q))
  {
    var n := |c.nodes|;
    ActionMeaning(Top(c.states), Sym(Look(c.rest)));
    assert c.states[..n + 1] == c.states && c.nodes[..n] == c.nodes;
    PushNeat(c.states, c.nodes, n, q, Leaf(Look(c.rest)));
  }

  /** The states around an operator whose rule is reduced before `tok`. */
  lemma OperatorStates(p: nat, ql: nat, qo: nat, qr: nat, r: nat, tok: nat)
    requires Edge(p, ql) && Edge(ql, qo) && Edge(qo, qr) && AfterExp(ql) && 7 <= r <= 11 && ReducesBy(qr, r)
    requires qr < YYNSTATES && tok < YYNTOKENS && Action(qr, tok) == Reduce(r)
    ensures AfterExp(qr) && 11 <= qo <= 15 && Access(qo) == Rhs(r)[1] && Need(qo) == RightNeed(r)
    ensures Need(p) <= RulePrec(r) && LeftNeed(tok) <= RulePrec(r)
  {
  }

  /** The node that a binary reduction builds: its operands, its place, and the token behind it. */
  lemma BinaryIsNeat(c: Config, r: nat, keep: nat, tok: nat)
    requires IsPath(c.states) && NeatStack(c) && 7 <= r <= 11 && keep + 3 == |c.nodes|
    requires Access(c.states[keep + 1]) == EXP && ReducesBy(Top(c.states), r) && tok < YYNTOKENS
    requires Action(Top(c.states), tok) == Reduce(r)
    ensures NeatHere(r, c.nodes[keep..]) && Need(c.states[keep]) <= RulePrec(r) && LeftNeed(tok) <= RulePrec(r)
  {
    var ss, nodes, kids := c.states, c.nodes, c.nodes[keep..];
    var l, o, e := keep + 1, keep + 2, keep + 3;
    assert Edge(ss[keep], ss[l]) && Edge(ss[l], ss[o]) && Edge(ss[o], ss[e]) && ss[e] == Top(ss);
    OperatorStates(ss[keep], ss[l], ss[o], ss[e], r, tok);
    assert kids[0] == nodes[keep] && kids[2] == nodes[o];
    assert LeftNeed(Access(ss[o])) <= TreePrec(nodes[keep]);
    assert Bindable(Need(ss[o]), nodes[o]);
  }

  lemma UnaryIsNeat(c: Config, r: nat, keep: nat, tok: nat)
    requires IsPath(c.states) && Labelled(c.states, c.nodes) && NeatStack(c) && IsRule(r) && !(7 <= r <= 11) &&
      keep + |Rhs(r)| == |c.nodes|
    requires ReducesBy(Top(c.states), r) && tok < YYNTOKENS && Action(Top(c.states), tok) == Reduce(r)
    ensures NeatHere(r, c.nodes[keep..])
    ensures Lhs(r) == EXP ==> Bindable(Need(c.states[keep]), Node(r, c.nodes[keep..])) && LeftNeed(tok) <= RulePrec(r)
  {
    var n := |c.nodes|;
    if r == 12 {
      assert Edge(c.states[n - 1], c.states[n]) && Top(c.states) == c.states[n] == 9;
      assert c.nodes[keep..][1] == c.nodes[n - 1];
      assert Bindable(Need(c.states[n - 1]), c.nodes[n - 1]);
    }
  }

  lemma BinaryNode(c: Config, r: nat, keep: nat, tok: nat)
    requires IsPath(c.states) && NeatStack(c) && 7 <= r <= 11 && keep + 3 == |c.nodes|
    requires ReducesBy(Top(c.states), r) && tok < YYNTOKENS && Action(Top(c.states), tok) == Reduce(r)
    ensures NeatHere(r, c.nodes[keep..]) && Need(c.states[keep]) <= RulePrec(r) && LeftNeed(tok) <= RulePrec(r)
  {
    BinarySpells(c.states, r);
    assert Access(c.states[|c.states| - |Rhs(r)| + 0]) == Rhs(r)[0];
    BinaryIsNeat(c, r, keep, tok);
  }

  lemma KidsAreNeat(nodes: seq<Tree>, keep: nat)
    requires AllNeat(nodes) && keep <= |nodes|
    ensures AllNeat(nodes[keep..])
  {
    forall i | 0 <= i < |nodes| - keep ensures Neat(nodes[keep..][i]) { assert nodes[keep..][i] == nodes[keep + i]; }
  }

  lemma NodeIsNeat(c: Config, r: nat, keep: nat, tok: nat)
    requires IsPath(c.states) && Labelled(c.states, c.nodes) && NeatStack(c) && IsRule(r) &&
      keep + |Rhs(r)| == |c.nodes|
    requires ReducesBy(Top(c.states), r) && tok < YYNTOKENS && Action(Top(c.states), tok) == Reduce(r)
    ensures Neat(Node(r, c.nodes[keep..]))
    ensures Lhs(r) == EXP ==> Bindable(Need(c.states[keep]), Node(r, c.nodes[keep..])) && LeftNeed(tok) <= RulePrec(r)
  {
    KidsAreNeat(c.nodes, keep);
    if 7 <= r <= 11 { BinaryNode(c, r, keep, tok); } else { UnaryIsNeat(c, r, keep, tok); }
  }

  lemma GotoKinds(p: nat, lhs: nat)
    requires HasGoto(p, lhs)
    ensures var q := Goto(p, lhs); (AfterExp(q) ==> lhs == EXP) && !(11 <= q <= 15)
  {
  }

  lemma FoldedAhead(ss: seq<nat>, q: nat, nodes: seq<Tree>, node: Tree, tok: nat)
    requires |ss| == |nodes| + 1 && (AfterExp(q) ==> LeftNeed(tok) <= TreePrec(node))
    ensures Ahead(ss + [q], nodes + [node], tok)
  {
  }

  lemma ReduceKeepsNeat(c: Config, r: nat)
    requires Valid(c) && NeatStack(c) && Top(c.states) != YYFINAL && ReducesBy(Top(c.states), r)
    requires Action(Top(c.states), Sym(Look(c.rest))) == Reduce(r)
    ensures NeatStack(Reduced(c, r))
  {
    var keep, q, node := ReducedParts(c, r);
    GotoKinds(c.states[keep], Lhs(r));
    NodeIsNeat(c, r, keep, Sym(Look(c.rest)));
    PushNeat(c.states, c.nodes, keep, q, node);
    FoldedAhead(c.states[..keep + 1], q, c.nodes[..keep], node, Sym(Look(c.rest)));
  }

  lemma {:induction false} RunIsNeat(c: Config)
    requires Valid(c) && NeatStack(c)
    ensures Run(c).Accepted? ==> AllNeat(Run(c).nodes)
    decreases |c.rest|, Measure(c.states)
  {
    StepKeeps(c);
    StepDecreases(c);
    if Step(c).Next? {
      ActionMeaning(Top(c.states), Sym(Look(c.rest)));
      match Action(Top(c.states), Sym(Look(c.rest)))
      case Shift(q) => ShiftKeepsNeat(c, q); RunIsNeat(Shifted(c, q));
      case Reduce(r) => ReduceKeepsNeat(c, r); RunIsNeat(Reduced(c, r));
    }
  }

  /** Whatever is accepted is parsed to a neat derivation of it. */
  lemma AcceptedIsNeat(input: seq<Token>)
    requires NoEnd(input)
    ensures Valid(Initial(input))
    ensures var o := Run(Initial(input));
            o.Accepted? ==>
              && |o.nodes| == 2 && Derivation(o.nodes[0]) && Root(o.nodes[0]) == INPUT
              && Yield(o.nodes[0]) == input && Neat(o.nodes[0])
  {
    RunSound(Initial(input));
    RunIsNeat(Initial(input));
    assert Yields([]) + input == input;
  }

  // ----- Every neat derivation is the one that is found -----

  /** Where an operator may follow, it is shifted, and its rule is reduced before a token that does not bind tighter. */
  lemma OperatorSteps(p: nat, r: nat, look: nat)
    requires ExpectsExp(p) && 7 <= r <= 11 && Need(p) <= RulePrec(r) && look < YYNTOKENS &&
      LeftNeed(look) <= RulePrec(r)
    ensures var tok := Rhs(r)[1];
            var q := OpState(tok);
            && Action(Goto(p, EXP), tok) == Shift(q) && Goto(p, EXP) != YYFINAL
            && ExpectsExp(q) && Goto(q, EXP) == q + 7 && Need(q) == RightNeed(r)
            && Action(q + 7, look) == Reduce(r)
  {
  }

  /** Operands of a neat node may stand where the node stands. */
  lemma OperandsFit(p: nat, r: nat, kids: seq<Tree>, look: nat)
    requires 7 <= r <= 11 && |kids| == 3 && NeatHere(r, kids) && Need(p) <= RulePrec(r) && LeftNeed(look) <= RulePrec(r)
    ensures Bindable(Need(p), kids[0]) && LeftNeed(Rhs(r)[1]) <= TreePrec(kids[0])
    ensures Bindable(RightNeed(r), kids[2]) && LeftNeed(look) <= TreePrec(kids[2])
  {
  }

  lemma {:induction false} ParseNeat(f: EndingFn, ss: seq<nat>, nodes: seq<Tree>, t: Tree, rest: seq<Token>)
    requires IsEnding(f) && f(ss, nodes, Yield(t) + rest) != Stuck && |ss| == |nodes| + 1 && ExpectsExp(Top(ss))
    requires Derivation(t) && Root(t) == EXP && Neat(t)
    requires Bindable(Need(Top(ss)), t) && LeftNeed(Sym(Look(rest))) <= TreePrec(t)
    ensures f(ss, nodes, Yield(t) + rest) == f(ss + [Goto(Top(ss), EXP)], nodes + [t], rest)
    decreases t, 1
  {
    if t.rule == 6 {
      NumberParts(t);
      ShiftRun(f, ss, nodes, t.kids[0].tok, rest, 3);
      ReduceRun(f, ss, nodes, [3], t.kids, rest, 6);
    } else if t.rule == 12 {
      ParseNeatNeg(f, ss, nodes, t, rest);
    } else if t.rule == 13 {
      ParseNeatParens(f, ss, nodes, t, rest);
    } else {
      ParseNeatBinary(f, ss, nodes, t, rest);
    }
  }

  lemma NumberParts(t: Tree)
    requires Derivation(t) && t.Node? && t.rule == 6
    ensures |t.kids| == 1 && t.kids[0].Leaf? && t.kids[0].tok.Num? && Yield(t) == [t.kids[0].tok] &&
      t.kids == [Leaf(t.kids[0].tok)]
  {
    var k := t.kids;
    assert Root(k[0]) == NUM && k == [k[0]];
    YieldsTwo(k[0], k[0]);
  }

  lemma {:induction false} ParseNeatNeg(f: EndingFn, ss: seq<nat>, nodes: seq<Tree>, t: Tree, rest: seq<Token>)
    requires IsEnding(f) && f(ss, nodes, Yield(t) + rest) != Stuck && |ss| == |nodes| + 1 && ExpectsExp(Top(ss))
    requires Derivation(t) && t.Node? && t.rule == 12 && Neat(t) && LeftNeed(Sym(Look(rest))) <= NEG_PREC
    ensures f(ss, nodes, Yield(t) + rest) == f(ss + [Goto(Top(ss), EXP)], nodes + [t], rest)
    decreases t, 0
  {
    var k := t.kids;
    NegParts(t, rest);
    ShiftRun(f, ss, nodes, Minus, Yield(k[1]) + rest, 4);
    ParseNeat(f, ss + [4], nodes + [Leaf(Minus)], k[1], rest);
    assert ss + [4] + [9] == ss + [4, 9] && nodes + [Leaf(Minus)] + [k[1]] == nodes + k;
    ReduceRun(f, ss, nodes, [4, 9], k, rest, 12);
  }

  lemma {:induction false} ParseNeatParens(f: EndingFn, ss: seq<nat>, nodes: seq<Tree>, t: Tree, rest: seq<Token>)
    requires IsEnding(f) && f(ss, nodes, Yield(t) + rest) != Stuck && |ss| == |nodes| + 1 && ExpectsExp(Top(ss))
    requires Derivation(t) && t.Node? && t.rule == 13 && Neat(t)
    ensures f(ss, nodes, Yield(t) + rest) == f(ss + [Goto(Top(ss), EXP)], nodes + [t], rest)
    decreases t, 0
  {
    var k, rest1 := t.kids, [RParen] + rest;
    ParenParts(t, rest);
    ShiftRun(f, ss, nodes, LParen, Yield(k[1]) + rest1, 6);
    ParseNeat(f, ss + [6], nodes + [Leaf(LParen)], k[1], rest1);
    ShiftRun(f, ss + [6] + [10], nodes + [Leaf(LParen)] + [k[1]], RParen, rest, 17);
    assert ss + [6] + [10] + [17] == ss + [6, 10, 17];
    assert nodes + [Leaf(LParen)] + [k[1]] + [Leaf(RParen)] == nodes + k;
    ReduceRun(f, ss, nodes, [6, 10, 17], k, rest, 13);
  }

  lemma {:induction false} ParseNeatBinary(f: EndingFn, ss: seq<nat>, nodes: seq<Tree>, t: Tree, rest: seq<Token>)
    requires IsEnding(f) && f(ss, nodes, Yield(t) + rest) != Stuck && |ss| == |nodes| + 1 && ExpectsExp(Top(ss))
    requires Derivation(t) && t.Node? && 7 <= t.rule <= 11 && Neat(t)
    requires Need(Top(ss)) <= RulePrec(t.rule) && LeftNeed(Sym(Look(rest))) <= RulePrec(t.rule)
    ensures f(ss, nodes, Yield(t) + rest) == f(ss + [Goto(Top(ss), EXP)], nodes + [t], rest)
    decreases t, 0
  {
    var k, r := t.kids, t.rule;
    BinaryParts(t, rest);
    var tok := k[1].tok;
    OperatorSteps(Top(ss), r, Sym(Look(rest)));
    OperandsFit(Top(ss), r, k, Sym(Look(rest)));
    var q, q' := Goto(Top(ss), EXP), OpState(Sym(tok));
    ParseNeat(f, ss, nodes, k[0], [tok] + (Yield(k[2]) + rest));
    ShiftRun(f, ss + [q], nodes + [k[0]], tok, Yield(k[2]) + rest, q');
    ParseNeat(f, ss + [q] + [q'], nodes + [k[0]] + [Leaf(tok)], k[2], rest);
    assert ss + [q] + [q'] + [q' + 7] == ss + [q, q', q' + 7];
    assert nodes + [k[0]] + [Leaf(tok)] + [k[2]] == nodes + k;
    ReduceRun(f, ss, nodes, [q, q', q' + 7], k, rest, r);
  }

  lemma ParseNeatShown(f: EndingFn, t: Tree, e: Tree, rest: seq<Token>)
    requires IsEnding(f) && f([0, 1], [t], Yield(e) + ([Newline] + rest)) != Stuck
    requires Derivation(e) && Root(e) == EXP && Neat(e)
    ensures f([0, 1], [t], Yield(e) + ([Newline] + rest)) == f([0, 1] + [7], [t] + [Node(5, [e, Leaf(Newline)])], rest)
  {
    var ss, nodes, k := [0, 1], [t], [e, Leaf(Newline)];
    ParseNeat(f, ss, nodes, e, [Newline] + rest);
    ShiftRun(f, ss + [8], nodes + [e], Newline, rest, 16);
    assert ss + [8] + [16] == ss + [8, 16] && nodes + [e] + [Leaf(Newline)] == nodes + k;
    ReduceRun(f, ss, nodes, [8, 16], k, rest, 5);
  }

  lemma ParseNeatLine(f: EndingFn, t: Tree, line: Tree, rest: seq<Token>)
    requires IsEnding(f) && f([0, 1], [t], Yield(line) + rest) != Stuck
    requires Derivation(line) && Root(line) == LINE && Neat(line)
    ensures f([0, 1], [t], Yield(line) + rest) == f([0, 1], [Node(3, [t, line])], rest)
  {
    LineParts(line, rest);
    if line.rule == 4 {
      ShiftRun(f, [0, 1], [t], Newline, rest, 5);
      ReduceRun(f, [0, 1], [t], [5], [Leaf(Newline)], rest, 4);
    } else {
      ParseNeatShown(f, t, line.kids[0], rest);
    }
    JoinLine(f, t, line, rest);
  }

  lemma {:induction false} ParseNeatInput(f: EndingFn, t: Tree, rest: seq<Token>)
    requires IsEnding(f) && f([0], [], Yield(t) + rest) != Stuck
    requires Derivation(t) && Root(t) == INPUT && Neat(t)
    ensures f([0], [], Yield(t) + rest) == f([0, 1], [t], rest)
    decreases t
  {
    if t.rule == 2 {
      var ss: seq<nat>, nodes: seq<Tree> := [0], [];
      assert t == Node(2, []) && Yield(t) == [] && [] + rest == rest;
      assert ss + [] == ss && nodes + [] == nodes;
      ReduceRun(f, ss, nodes, [], [], rest, 2);
      assert ss + [1] == [0, 1] && nodes + [t] == [t];
    } else {
      var k := t.kids;
      InputParts(t, rest);
      ParseNeatInput(f, k[0], Yield(k[1]) + rest);
      ParseNeatLine(f, k[0], k[1], rest);
      assert t == Node(3, [k[0], k[1]]);
    }
  }

  /** Parsing the text of a neat derivation finds that derivation. */
  lemma NeatIsFound(t: Tree)
    requires Derivation(t) && Root(t) == INPUT && Neat(t)
    ensures Valid(Initial(Yield(t))) && Run(Initial(Yield(t))) == Accepted([t, Leaf(End)], Lines(t))
  {
    DerivationHasNoEnd(t);
    var f := StartRun(Yield(t));
    assert Yield(t) + [] == Yield(t);
    ParseNeatInput(f, t, []);
    AcceptRun(f, t);
  }

  /** The tree that an accepted parse builds is the text's only neat derivation. */
  lemma FindsTheNeatDerivation(input: seq<Token>, t: Tree)
    requires NoEnd(input)
    ensures Valid(Initial(input))
    ensures (Derivation(t) && Root(t) == INPUT && Yield(t) == input && Neat(t)) <==>
            (Run(Initial(input)).Accepted? && Run(Initial(input)).nodes == [t, Leaf(End)])
  {
    AcceptedIsNeat(input);
    if Derivation(t) && Root(t) == INPUT && Yield(t) == input && Neat(t) { NeatIsFound(t); }
  }
}
