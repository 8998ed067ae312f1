/**
 `yyparse` of compiler/lab3/y.tab.c: the shift/reduce loop as a step function over
 configurations, its invariants, and soundness against the grammar.
 */
module CalcParser {
  import opened LalrTables
  import opened CalcGrammar

  // ----- The state stack is a path of the automaton -----

  /** The states with a transition into `q`. */
  function Preds(q: nat): set<nat> {
    if q == 1 then {0}
    else if q == 2 || q == 5 || q == 7 || q == 8 then {1}
    else if q == 3 || q == 4 || q == 6 then OPERAND_STATES
    else if q == 9 then {4}
    else if q == 10 then {6}
    else if 18 <= q <= 22 then {q - 7}
    else if q == 16 then {8}
    else if q == 17 then {10}
    else if q == 11 || q == 12 then {8, 10}
    else if q == 13 || q == 14 then {8, 10, 18, 19}
    else if q == 15 then {8, 9, 10, 18, 19, 20, 21, 22}
    else {}
  }

  predicate Edge(p: nat, q: nat) { p in Preds(q) }

  /** The accessing symbol `yystos` of a state. */
  function Access(q: nat): nat {
    if q == 1 then INPUT else if q == 7 then LINE
    else if q == 3 then NUM else if q == 4 || q == 11 then MINUS
    else if q == 5 || q == 16 then NEWLINE
    else if q == 6 then LPAREN else if q == 17 then RPAREN
    else if q == 12 then PLUS else if q == 13 then TIMES else if q == 14 then DIVIDE
    else if q == 15 then CARET
    else if AfterExp(q) then EXP
    else END
  }

  lemma TablesEncodeAccess(q: nat)
    requires q < YYNSTATES
    ensures YYSTOS[q] == Access(q)
  {
  }

  ghost predicate IsPath(ss: seq<nat>) {
    && |ss| > 0 && ss[0] == 0
    && (forall i :: 0 <= i < |ss| ==> ss[i] < YYNSTATES)
    && (forall i, j :: 0 <= i < j < |ss| && j == i + 1 ==> Edge(ss[i], ss[j]))
  }

  // ----- Configurations -----

  /** `nodes` holds the derivation of each stacked symbol; `out` the printed expressions. */
  datatype Config = Config(states: seq<nat>, nodes: seq<Tree>, rest: seq<Token>, out: seq<Tree>)

  datatype StepResult = Next(c: Config) | Accept | Abort

  datatype Outcome = Accepted(nodes: seq<Tree>, out: seq<Tree>) | Rejected(out: seq<Tree>)

  function Look(rest: seq<Token>): Token { if rest == [] then End else rest[0] }

  function Tail(rest: seq<Token>): seq<Token> { if rest == [] then [] else rest[1..] }

  function Top(ss: seq<nat>): nat
    requires |ss| > 0
  { ss[|ss| - 1] }

  /** Each stacked node is a derivation of the accessing symbol of its state. */
  ghost predicate Labelled(ss: seq<nat>, nodes: seq<Tree>) {
    && |ss| == |nodes| + 1
    && forall i :: 0 <= i < |nodes| ==> Derivation(nodes[i]) && Root(nodes[i]) == Access(ss[i + 1])
  }

  lemma LabelledSnoc(ss: seq<nat>, nodes: seq<Tree>, n: nat, q: nat, node: Tree)
    requires Labelled(ss, nodes) && n <= |nodes| && Derivation(node) && Root(node) == Access(q)
    ensures Labelled(ss[..n + 1] + [q], nodes[..n] + [node])
  {
  }

  lemma PathSnoc(ss: seq<nat>, n: nat, q: nat)
    requires IsPath(ss) && n < |ss| && q < YYNSTATES && Edge(ss[n], q)
    ensures IsPath(ss[..n + 1] + [q])
  {
  }

  ghost predicate Valid(c: Config) {
    && IsPath(c.states)
    && Labelled(c.states, c.nodes)
    && c.out == LinesAll(c.nodes)
    && (forall i :: 0 <= i < |c.rest| ==> !c.rest[i].End?)
    && (Top(c.states) == YYFINAL ==> c.rest == [])
  }

  function Initial(input: seq<Token>): Config { Config([0], [], input, []) }

  // ----- Reductions never underflow and always find their right-hand side -----

  /** The rule a state can reduce by, 0 if there is none. */
  function ReduceRule(q: nat): nat {
    if q == 0 then 2 else if q == 3 then 6 else if q == 5 then 4 else if q == 7 then 3
    else if q == 16 then 5 else if q == 17 then 13
    else if AfterExp(q) && q != 8 && q != 10 then RuleOf(q)
    else 0
  }

  predicate ReducesBy(q: nat, r: nat) { r != 0 && ReduceRule(q) == r }

  /** The top of a path of the automaton is `syms`, above a state with a transition on `lhs`. */
  ghost predicate EndsWith(ss: seq<nat>, syms: seq<nat>, lhs: nat) {
    && |syms| < |ss|
    && (forall i :: 0 <= i < |syms| ==> Access(ss[|ss| - |syms| + i]) == syms[i])
    && HasGoto(ss[|ss| - 1 - |syms|], lhs)
  }

  /** On every path ending in a reducing state, the rule's right-hand side is on top and a goto exists below it. */
  lemma PathSpellsRhs(ss: seq<nat>, r: nat)
    requires IsPath(ss) && ReducesBy(Top(ss), r)
    ensures IsRule(r) && EndsWith(ss, Rhs(r), Lhs(r))
    ensures r == 2 ==> ss == [0]
  {
    var n := |ss|;
    assert n > 1 ==> Edge(ss[n - 2], ss[n - 1]);
    if 7 <= r <= 11 {
      BinarySpells(ss, r);
    } else if r == 13 {
      assert Edge(ss[n - 3], ss[n - 2]) && Edge(ss[n - 4], ss[n - 3]);
    } else if r == 3 || r == 5 || r == 12 {
      PairSpells(ss, r);
    }
  }

  lemma PairSpells(ss: seq<nat>, r: nat)
    requires IsPath(ss) && ReducesBy(Top(ss), r) && (r == 3 || r == 5 || r == 12)
    ensures EndsWith(ss, Rhs(r), Lhs(r))
  {
    var n := |ss|;
    assert n > 1 && Edge(ss[n - 2], ss[n - 1]);
    assert n > 2 && Edge(ss[n - 3], ss[n - 2]);
    assert Rhs(r) == [Access(ss[n - 2]), Access(ss[n - 1])];
  }

  lemma BinarySpells(ss: seq<nat>, r: nat)
    requires IsPath(ss) && ReducesBy(Top(ss), r) && 7 <= r <= 11
    ensures EndsWith(ss, Rhs(r), EXP)
  {
    var n := |ss|;
    assert 18 <= ss[n - 1] <= 22;
    assert n > 1 && Edge(ss[n - 2], ss[n - 1]);
    assert n > 2 && Edge(ss[n - 3], ss[n - 2]);
    assert AfterExp(ss[n - 3]);
    assert n > 3 && Edge(ss[n - 4], ss[n - 3]);
    OperandBelow(ss[n - 4], ss[n - 3]);
    assert Rhs(r) == [EXP, Access(ss[n - 2]), EXP];
  }

  lemma OperandBelow(p: nat, q: nat)
    requires Edge(p, q) && AfterExp(q)
    ensures ExpectsExp(p) && Access(q) == EXP
  {
  }

  lemma GotoEdge(p: nat, lhs: nat)
    requires HasGoto(p, lhs)
    ensures Edge(p, Goto(p, lhs)) && Access(Goto(p, lhs)) == lhs && Goto(p, lhs) != YYFINAL
  {
  }

  // ----- Termination measure: token weights shrink at every reduction -----

  function SymWeight(s: nat): nat {
    if s == INPUT || s == END then 0 else if s == EXP || s == LINE then 1 else 2
  }

  function Weight(ss: seq<nat>): nat {
    if ss == [] then 0 else Weight(ss[..|ss| - 1]) + SymWeight(Access(ss[|ss| - 1]))
  }

  function Measure(ss: seq<nat>): nat
    requires |ss| > 0
  {
    if Top(ss) == YYFINAL then 0 else if |ss| == 1 then 2 else 1 + Weight(ss)
  }

  lemma {:induction false} WeightConcat(a: seq<nat>, b: seq<nat>)
    ensures Weight(a + b) == Weight(a) + Weight(b)
    decreases |b|
  {
    if b == [] {
      assert a + b == a;
    } else {
      assert (a + b)[..|a + b| - 1] == a + b[..|b| - 1];
      WeightConcat(a, b[..|b| - 1]);
    }
  }

  /** Every right-hand side outweighs its left-hand side, except the empty one. */
  lemma RhsOutweighs(suffix: seq<nat>, r: nat)
    requires IsRule(r) && r != 2 && |suffix| == |Rhs(r)|
    requires forall i :: 0 <= i < |suffix| ==> Access(suffix[i]) == Rhs(r)[i]
    ensures Weight(suffix) > SymWeight(Lhs(r))
  {
    var k := |suffix|;
    assert Access(suffix[k - 1]) == Rhs(r)[k - 1];
    if k > 1 {
      assert Access(suffix[..k - 1][k - 2]) == Rhs(r)[k - 2];
    }
  }

  function Reduced(c: Config, r: nat): Config
    requires IsPath(c.states) && |c.states| == |c.nodes| + 1 && ReducesBy(Top(c.states), r)
  {
    PathSpellsRhs(c.states, r);
    var keep := |c.nodes| - |Rhs(r)|;
    Config(c.states[..keep + 1] + [Goto(c.states[keep], Lhs(r))],
           c.nodes[..keep] + [Node(r, c.nodes[keep..])],
           c.rest,
           if r == 5 then c.out + [c.nodes[keep]] else c.out)
  }

  function Shifted(c: Config, q: nat): Config {
    Config(c.states + [q], c.nodes + [Leaf(Look(c.rest))], Tail(c.rest), c.out)
  }

  /** What a shift or reduce action means in terms of the automaton's transitions. */
  lemma ActionMeaning(q: nat, tok: nat)
    requires q < YYNSTATES && tok < YYNTOKENS && q != YYFINAL
    ensures match Action(q, tok)
            case Shift(q') => q' < YYNSTATES && Edge(q, q') && Access(q') == tok &&
                (tok == END ==> q == 1 && q' == YYFINAL)
            case Reduce(r) => ReducesBy(q, r)
            case Error => true
  {
  }

  lemma ShiftedStacks(c: Config, q: nat)
    requires IsPath(c.states) && Labelled(c.states, c.nodes)
    requires q < YYNSTATES && Edge(Top(c.states), q) && Access(q) == Sym(Look(c.rest))
    ensures IsPath(Shifted(c, q).states) && Labelled(Shifted(c, q).states, Shifted(c, q).nodes)
  {
    assert c.states[..|c.nodes| + 1] == c.states && c.nodes[..|c.nodes|] == c.nodes;
    PathSnoc(c.states, |c.nodes|, q);
    LabelledSnoc(c.states, c.nodes, |c.nodes|, q, Leaf(Look(c.rest)));
  }

  /** Shifting reads no end marker from the text, and reaches the final state only at its end. */
  lemma ShiftedRest(rest: seq<Token>, p: nat, q: nat)
    requires (forall i :: 0 <= i < |rest| ==> !rest[i].End?) && Edge(p, q) && Access(q) == Sym(Look(rest))
    ensures forall i :: 0 <= i < |Tail(rest)| ==> !Tail(rest)[i].End?
    ensures q == YYFINAL ==> Tail(rest) == []
    ensures (if Look(rest).End? then [] else [Look(rest)]) + Tail(rest) == rest
  {
    if rest != [] { assert rest == [rest[0]] + rest[1..]; }
  }

  lemma ShiftedValid(c: Config, q: nat)
    requires Valid(c) && q < YYNSTATES && Edge(Top(c.states), q) && Access(q) == Sym(Look(c.rest))
    ensures Valid(Shifted(c, q))
    ensures Yields(Shifted(c, q).nodes) + Shifted(c, q).rest == Yields(c.nodes) + c.rest
  {
    ShiftedStacks(c, q);
    LeafAdds(c.nodes, Look(c.rest));
    ShiftedRest(c.rest, Top(c.states), q);
    Assoc(Yields(c.nodes), if Look(c.rest).End? then [] else [Look(c.rest)], Tail(c.rest));
  }

  lemma LeafAdds(nodes: seq<Tree>, tok: Token)
    ensures LinesAll(nodes + [Leaf(tok)]) == LinesAll(nodes)
    ensures Yields(nodes + [Leaf(tok)]) == Yields(nodes) + (if tok.End? then [] else [tok])
  {
    LinesSnoc(nodes, Leaf(tok));
    YieldsSnoc(nodes, Leaf(tok));
    assert LinesAll(nodes) + [] == LinesAll(nodes);
  }

  lemma ReducedMeasure(ss: seq<nat>, r: nat, goto: nat)
    requires IsPath(ss) && ReducesBy(Top(ss), r)
    requires IsRule(r) && |Rhs(r)| < |ss| && HasGoto(ss[|ss| - 1 - |Rhs(r)|], Lhs(r))
    requires goto == Goto(ss[|ss| - 1 - |Rhs(r)|], Lhs(r))
    ensures Measure(ss[..|ss| - |Rhs(r)|] + [goto]) < Measure(ss)
  {
    PathSpellsRhs(ss, r);
    if r == 2 {
      assert ss == [0] && ss[..1] == [0] && [0] + [goto] == [0, goto] && [0, goto][..1] == [0] && [0][..0] == [];
    } else {
      var base, suffix := ss[..|ss| - |Rhs(r)|], ss[|ss| - |Rhs(r)|..];
      RhsOutweighs(suffix, r);
      Lighter(base, suffix, goto);
      assert ss == base + suffix;
    }
  }

  lemma Lighter(base: seq<nat>, suffix: seq<nat>, q: nat)
    requires Weight(suffix) > SymWeight(Access(q))
    ensures Weight(base + [q]) < Weight(base + suffix)
  {
    WeightConcat(base, suffix);
    WeightConcat(base, [q]);
    assert [q][..0] == [];
  }

  /** Folding the top nodes into one keeps the derived tokens, and adds a line exactly for rule 5. */
  lemma ReducedNodes(nodes: seq<Tree>, keep: nat, r: nat)
    requires keep <= |nodes| && Derivation(Node(r, nodes[keep..]))
    ensures Yields(nodes[..keep] + [Node(r, nodes[keep..])]) == Yields(nodes)
    ensures LinesAll(nodes[..keep] + [Node(r, nodes[keep..])])
            == LinesAll(nodes) + (if r == 5 then [nodes[keep]] else [])
  {
    var kids := nodes[keep..];
    assert nodes == nodes[..keep] + kids;
    FoldedYields(nodes[..keep], kids, r);
    FoldedLines(nodes[..keep], kids, r);
  }

  lemma FoldedYields(below: seq<Tree>, kids: seq<Tree>, r: nat)
    ensures Yields(below + [Node(r, kids)]) == Yields(below + kids)
  {
    YieldsConcat(below, kids);
    YieldsSnoc(below, Node(r, kids));
  }

  lemma FoldedLines(below: seq<Tree>, kids: seq<Tree>, r: nat)
    requires Derivation(Node(r, kids))
    ensures LinesAll(below + [Node(r, kids)]) == LinesAll(below + kids) + (if r == 5 then [kids[0]] else [])
  {
    LinesConcat(below, kids);
    LinesSnoc(below, Node(r, kids));
    NoLinesBelow(kids, r);
    Assoc(LinesAll(below), LinesAll(kids), if r == 5 then [kids[0]] else []);
  }

  lemma ReducedDerivation(c: Config, r: nat, keep: nat)
    requires Labelled(c.states, c.nodes) && IsRule(r) && keep + |Rhs(r)| == |c.nodes|
    requires EndsWith(c.states, Rhs(r), Lhs(r))
    ensures Derivation(Node(r, c.nodes[keep..]))
  {
    var kids, syms := c.nodes[keep..], Rhs(r);
    forall i | 0 <= i < |kids| ensures Root(kids[i]) == syms[i] && Derivation(kids[i]) {
      assert kids[i] == c.nodes[keep + i];
      assert Access(c.states[|c.states| - |syms| + i]) == syms[i];
    }
  }

  /** What a reduction does, in parts. */
  lemma ReducedParts(c: Config, r: nat) returns (keep: nat, q: nat, node: Tree)
    requires IsPath(c.states) && Labelled(c.states, c.nodes) && ReducesBy(Top(c.states), r)
    ensures IsRule(r) && keep + |Rhs(r)| == |c.nodes| && HasGoto(c.states[keep], Lhs(r)) &&
      q == Goto(c.states[keep], Lhs(r))
    ensures keep <= |c.nodes| && q < YYNSTATES && Edge(c.states[keep], q) && q != YYFINAL
    ensures node == Node(r, c.nodes[keep..]) && Derivation(node) && Root(node) == Access(q)
    ensures Reduced(c, r) == Config(c.states[..keep + 1] + [q], c.nodes[..keep] + [node], c.rest,
                                    if r == 5 then c.out + [c.nodes[keep]] else c.out)
  {
    PathSpellsRhs(c.states, r);
    keep := |c.nodes| - |Rhs(r)|;
    q := Goto(c.states[keep], Lhs(r));
    node := Node(r, c.nodes[keep..]);
    ReducedDerivation(c, r, keep);
    GotoEdge(c.states[keep], Lhs(r));
  }

  lemma ReducedValid(c: Config, r: nat)
    requires Valid(c) && Top(c.states) != YYFINAL && ReducesBy(Top(c.states), r)
    ensures Valid(Reduced(c, r))
    ensures Yields(Reduced(c, r).nodes) == Yields(c.nodes)
  {
    var keep, q, node := ReducedParts(c, r);
    PathSnoc(c.states, keep, q);
    LabelledSnoc(c.states, c.nodes, keep, q, node);
    ReducedNodes(c.nodes, keep, r);
  }

  /** Only `input` and `line` symbols hold printed lines. */
  lemma NoLinesBelow(kids: seq<Tree>, r: nat)
    requires Derivation(Node(r, kids))
    ensures Lines(Node(r, kids)) == LinesAll(kids) + (if r == 5 then [kids[0]] else [])
  {
    if r != 3 {
      RhsWithoutLines(r);
      NoLines(kids);
    }
  }

  lemma RhsWithoutLines(r: nat)
    requires IsRule(r) && r != 3
    ensures forall i :: 0 <= i < |Rhs(r)| ==> Rhs(r)[i] != INPUT && Rhs(r)[i] != LINE
  {
  }

  lemma {:induction false} NoLines(ts: seq<Tree>)
    requires forall i :: 0 <= i < |ts| ==> Root(ts[i]) != INPUT && Root(ts[i]) != LINE
    ensures LinesAll(ts) == []
  {
    if ts != [] { NoLines(ts[..|ts| - 1]); }
  }

  /** One turn of the loop between `yysetstate` and the next `yynewstate`. */
  function Step(c: Config): StepResult
    requires IsPath(c.states) && |c.states| == |c.nodes| + 1
  {
    var q := Top(c.states);
    if q == YYFINAL then Accept
    else
      ActionMeaning(q, Sym(Look(c.rest)));
      match Action(q, Sym(Look(c.rest)))
      case Shift(q') => Next(Shifted(c, q'))
      case Reduce(r) => Next(Reduced(c, r))
      case Error => Abort
  }

  /** Every step keeps the invariant and the tokens derived so far plus those unread. */
  lemma StepKeeps(c: Config)
    requires Valid(c)
    ensures Step(c).Next? ==> Valid(Step(c).c) && Yields(Step(c).c.nodes) + Step(c).c.rest == Yields(c.nodes) + c.rest
  {
    if Top(c.states) != YYFINAL {
      ActionMeaning(Top(c.states), Sym(Look(c.rest)));
      match Action(Top(c.states), Sym(Look(c.rest)))
      case Shift(q') => ShiftedValid(c, q');
      case Reduce(r) => ReducedValid(c, r);
      case Error =>
    }
  }

  /** Every step reads a token or makes the stack lighter. */
  lemma StepDecreases(c: Config)
    requires IsPath(c.states) && |c.states| == |c.nodes| + 1
    ensures Step(c).Next? ==>
              var d := Step(c).c;
              |d.rest| < |c.rest| || (d.rest == c.rest && Measure(d.states) < Measure(c.states))
  {
    if Top(c.states) != YYFINAL {
      ActionMeaning(Top(c.states), Sym(Look(c.rest)));
      match Action(Top(c.states), Sym(Look(c.rest)))
      case Shift(q') =>
        if c.rest == [] { assert q' == YYFINAL && Measure(c.states) >= 1; }
      case Reduce(r) =>
        PathSpellsRhs(c.states, r);
        ReducedMeasure(c.states, r, Goto(c.states[|c.nodes| - |Rhs(r)|], Lhs(r)));
      case Error =>
    }
  }

  function Run(c: Config): (o: Outcome)
    requires Valid(c)
    decreases |c.rest|, Measure(c.states)
  {
    StepKeeps(c);
    StepDecreases(c);
    match Step(c)
    case Next(d) => Run(d)
    case Accept => Accepted(c.nodes, c.out)
    case Abort => Rejected(c.out)
  }

  // ----- Soundness -----

  lemma {:induction false} RunSound(c: Config)
    requires Valid(c)
    ensures var o := Run(c);
            o.Accepted? ==>
              && |o.nodes| == 2 && Derivation(o.nodes[0]) && Root(o.nodes[0]) == INPUT
              && Yield(o.nodes[0]) == Yields(c.nodes) + c.rest
              && o.out == Lines(o.nodes[0])
    decreases |c.rest|, Measure(c.states)
  {
    StepKeeps(c);
    StepDecreases(c);
    match Step(c)
    case Next(d) => RunSound(d);
    case Accept => FinalShape(c);
    case Abort =>
  }

  lemma FinalStates(ss: seq<nat>)
    requires IsPath(ss) && Top(ss) == YYFINAL
    ensures ss == [0, 1, YYFINAL]
  {
    var n := |ss|;
    assert Edge(ss[n - 2], ss[n - 1]);
    assert ss[n - 2] == 1 && n > 2 && Edge(ss[n - 3], ss[n - 2]);
    assert n > 3 ==> Edge(ss[n - 4], ss[n - 3]);
  }

  /** At the final state the stack holds one `input` and the end marker, and no token is left. */
  lemma FinalShape(c: Config)
    requires Valid(c) && Top(c.states) == YYFINAL
    ensures |c.nodes| == 2 && Root(c.nodes[0]) == INPUT && Derivation(c.nodes[0])
    ensures Yields(c.nodes) == Yield(c.nodes[0]) && c.out == Lines(c.nodes[0])
  {
    FinalStates(c.states);
    var a, b := c.nodes[0], c.nodes[1];
    assert c.nodes == [a, b] && Root(b) == Access(2) == END;
    assert Yield(b) == [] && Lines(b) == [];
    YieldsTwo(a, b);
    LinesTwo(a, b);
  }
}
