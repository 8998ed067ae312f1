/**
 The loop of `yyparse` itself: it reads the compressed tables, keeps the state and
 value stacks, fetches a lookahead only when a state needs one, and runs the
 semantic actions.  It is proved to follow `CalcParser.Run` and to compute the
 values of the derivation trees that `Run` builds.
 */
module CalcLoop {
  import opened LalrTables
  import opened CalcGrammar
  import opened CalcParser
  import opened Wrappers

  /** `yyval` after the action of rule `r`, given the values of the right-hand side. */
  function SemanticAction(op: Arith, r: nat, rhs: seq<real>, garbage: real): real
    requires IsRule(r) && |rhs| == |Rhs(r)|
  {
    if r == 7 then op.add(rhs[0], rhs[2])
    else if r == 8 then op.sub(rhs[0], rhs[2])
    else if r == 9 then op.mul(rhs[0], rhs[2])
    else if r == 10 then op.div(rhs[0], rhs[2])
    else if r == 11 then op.pow(rhs[0], rhs[2])
    else if r == 12 then op.neg(rhs[1])
    else if r == 13 then rhs[1]
    else if r == 2 then garbage
    else rhs[0]
  }

  /** The value stack agrees with the derivations of the number and expression symbols. */
  ghost predicate ValuesMatch(op: Arith, nodes: seq<Tree>, vals: seq<real>) {
    && |vals| == |nodes|
    && forall i :: 0 <= i < |nodes| && HasValue(nodes[i]) ==> vals[i] == Value(op, nodes[i])
  }

  ghost predicate PrintedMatch(op: Arith, out: seq<Tree>, printed: seq<real>) {
    && |printed| == |out|
    && forall i :: 0 <= i < |out| ==> HasValue(out[i]) && Root(out[i]) == EXP && printed[i] == Value(op, out[i])
  }

  lemma ActionComputesValue(op: Arith, r: nat, kids: seq<Tree>, rhs: seq<real>, garbage: real)
    requires Derivation(Node(r, kids)) && ValuesMatch(op, kids, rhs)
    ensures HasValue(Node(r, kids)) ==> SemanticAction(op, r, rhs, garbage) == Value(op, Node(r, kids))
    ensures r == 5 ==> HasValue(kids[0]) && Root(kids[0]) == EXP && rhs[0] == Value(op, kids[0])
  {
    if r == 5 { assert Root(kids[0]) == EXP; }
    if r >= 6 {
      assert Root(kids[0]) == Rhs(r)[0];
      if r != 6 { assert Root(kids[1]) == Rhs(r)[1]; }
      if r != 6 && r != 12 { assert Root(kids[2]) == Rhs(r)[2]; }
    }
  }

  /** The unread tokens, given the lookahead already fetched. */
  function Unread(yychar: Option<Token>, later: seq<Token>): seq<Token> {
    match yychar
    case None => later
    case Some(t) => if t.End? then [] else [t] + later
  }

  /** The lookahead fields: nothing follows the end marker, and `yylval` is the value of a number. */
  predicate LexOk(yychar: Option<Token>, later: seq<Token>, yylval: real) {
    && (forall i :: 0 <= i < |later| ==> !later[i].End?)
    && (yychar.Some? ==> (yychar.value.End? ==> later == []) && (yychar.value.Num? ==> yylval == yychar.value.v))
  }

  /** `yybackup`: decide from the tables, fetching a token only if the state needs one. */
  method Decide(q: nat, yychar0: Option<Token>, later0: seq<Token>, yylval0: real)
    returns (act: Act, yychar: Option<Token>, later: seq<Token>, yylval: real)
    requires q < YYNSTATES && q != YYFINAL && LexOk(yychar0, later0, yylval0)
    ensures LexOk(yychar, later, yylval) && Unread(yychar, later) == Unread(yychar0, later0)
    ensures act == Action(q, Sym(Look(Unread(yychar0, later0))))
    ensures act.Shift? ==> yychar == Some(Look(Unread(yychar0, later0)))
  {
    yychar, later, yylval := yychar0, later0, yylval0;
    ghost var tok := Look(Unread(yychar, later));
    TablesEncodeActions(q, Sym(tok));
    act := DefaultAction(q);
    if YYPACT[q] != -9 {
      if yychar.None? {
        yychar, later := Some(Look(later)), Tail(later);
        if yychar.value.Num? { yylval := yychar.value.v; }
      }
      assert yychar.value == tok;
      act := TableAction(q, Sym(yychar.value));
    }
  }

  /** `yyr2[r]`. */
  method RhsLength(r: nat) returns (n: nat)
    requires IsRule(r)
    ensures n == |Rhs(r)|
  {
    TablesEncodeRules(r);
    n := YYR2[r];
  }

  /** The state to push after a reduction, from `yyr1`, `yypgoto`, `yydefgoto`, `yycheck` and `yytable`. */
  method GotoState(p: nat, r: nat) returns (q: nat)
    requires IsRule(r) && HasGoto(p, Lhs(r))
    ensures q == Goto(p, Lhs(r))
  {
    TablesEncodeRules(r);
    TablesEncodeGotos(p, Lhs(r));
    q := TableGoto(p, YYR1[r]);
  }

  /** `yyreduce`: run the action, pop the right-hand side, push the goto state. */
  method Reduction(op: Arith, r: nat, states0: seq<nat>, vals0: seq<real>, garbage: real, ghost c: Config)
    returns (states: seq<nat>, vals: seq<real>)
    requires IsPath(c.states) && Labelled(c.states, c.nodes) && c.states == states0 && ReducesBy(Top(states0), r)
    requires ValuesMatch(op, c.nodes, vals0)
    ensures states == Reduced(c, r).states
    ensures ValuesMatch(op, Reduced(c, r).nodes, vals)
  {
    ghost var _, q, node := ReducedParts(c, r);
    var yylen := RhsLength(r);
    var keep := |vals0| - yylen;
    ReduceMatches(op, c.nodes, vals0, keep, r, garbage);
    var yyval := SemanticAction(op, r, vals0[keep..], garbage);
    var goto := GotoState(states0[keep], r);
    states, vals := states0[..keep + 1] + [goto], vals0[..keep] + [yyval];
  }

  /** `yyerrlab1`: look for a state that can shift the error token; the whole stack is popped. */
  method Recover(states0: seq<nat>) returns (found: bool, states: seq<nat>)
    requires IsPath(states0)
    ensures !found && states == [0]
  {
    states := states0;
    while true
      invariant 0 < |states| <= |states0| && states == states0[..|states|]
      decreases |states|
    {
      var q := Top(states);
      if YYPACT[q] != -9 {
        NoErrorShift(q);
        var k := YYPACT[q] + YYTERROR;
        if 0 <= k <= YYLAST && YYCHECK[k] == YYTERROR && 0 < YYTABLE[k] {
          return true, states;
        }
      }
      if |states| == 1 { return false, states; }
      states := states[..|states| - 1];
    }
  }

  /** Carry out a shift or a reduction on both stacks. */
  method Act(op: Arith, act: Act, states0: seq<nat>, vals0: seq<real>, printed0: seq<real>,
             yychar0: Option<Token>, later: seq<Token>, yylval: real, garbage: real, ghost c: Config)
    returns (states: seq<nat>, vals: seq<real>, printed: seq<real>, yychar: Option<Token>)
    requires Valid(c) && c.states == states0 && Top(states0) != YYFINAL
    requires act == Action(Top(states0), Sym(Look(c.rest))) && act != Error
    requires c.rest == Unread(yychar0, later) && LexOk(yychar0, later, yylval)
    requires act.Shift? ==> yychar0 == Some(Look(c.rest))
    requires ValuesMatch(op, c.nodes, vals0) && PrintedMatch(op, c.out, printed0)
    ensures Step(c).Next?
    ensures states == Step(c).c.states && ValuesMatch(op, Step(c).c.nodes, vals)
    ensures PrintedMatch(op, Step(c).c.out, printed)
    ensures Step(c).c.rest == Unread(yychar, later) && LexOk(yychar, later, yylval)
  {
    ActionMeaning(Top(states0), Sym(Look(c.rest)));
    states, vals, printed, yychar := states0, vals0, printed0, yychar0;
    match act {
      case Shift(q) =>
        ShiftMatches(op, c.nodes, vals, Look(c.rest), yylval);
        states, vals, yychar := states + [q], vals + [yylval], None;
      case Reduce(r) =>
        if r == 5 {
          PrintMatches(op, c, vals);
          printed := printed + [vals[|vals| - 2]];
        }
        states, vals := Reduction(op, r, states, vals, garbage, c);
    }
  }

  method Yyparse(op: Arith, input: seq<Token>, garbage: real) returns (ok: bool, printed: seq<real>)
    requires forall i :: 0 <= i < |input| ==> !input[i].End?
    ensures Valid(Initial(input))
    ensures ok == Run(Initial(input)).Accepted?
    ensures PrintedMatch(op, Run(Initial(input)).out, printed)
  {
    var states: seq<nat>, vals: seq<real> := [0], [];
    var yychar: Option<Token>, later, yylval := None, input, garbage;
    printed := [];
    ghost var c := Initial(input);
    while true
      invariant Valid(c) && Run(c) == Run(Initial(input))
      invariant states == c.states && c.rest == Unread(yychar, later) && LexOk(yychar, later, yylval)
      invariant ValuesMatch(op, c.nodes, vals) && PrintedMatch(op, c.out, printed)
      decreases |c.rest|, Measure(c.states)
    {
      var q := Top(states);
      if q == YYFINAL {
        return true, printed;
      }
      var act;
      act, yychar, later, yylval := Decide(q, yychar, later, yylval);
      if act == Error {
        var found;
        found, states := Recover(states);
        return found, printed;
      }
      states, vals, printed, yychar := Act(op, act, states, vals, printed, yychar, later, yylval, garbage, c);
      StepKeeps(c);
      StepDecreases(c);
      c := Step(c).c;
    }
  }

  /** Rule 5 prints the value of the expression on the line. */
  lemma PrintMatches(op: Arith, c: Config, vals: seq<real>)
    requires IsPath(c.states) && Labelled(c.states, c.nodes) && ReducesBy(Top(c.states), 5)
    requires ValuesMatch(op, c.nodes, vals)
    ensures |vals| >= 2
    ensures Reduced(c, 5).out == c.out + [c.nodes[|vals| - 2]]
    ensures var e := c.nodes[|vals| - 2]; HasValue(e) && Root(e) == EXP && vals[|vals| - 2] == Value(op, e)
  {
    PathSpellsRhs(c.states, 5);
    var k := |vals| - 2;
    assert Access(c.states[k + 1]) == EXP && Root(c.nodes[k]) == EXP;
  }

  lemma ShiftMatches(op: Arith, nodes: seq<Tree>, vals: seq<real>, tok: Token, yylval: real)
    requires ValuesMatch(op, nodes, vals) && (tok.Num? ==> yylval == tok.v)
    ensures ValuesMatch(op, nodes + [Leaf(tok)], vals + [yylval])
  {
  }

  lemma ReduceMatches(op: Arith, nodes: seq<Tree>, vals: seq<real>, keep: nat, r: nat, garbage: real)
    requires ValuesMatch(op, nodes, vals) && keep <= |nodes| && Derivation(Node(r, nodes[keep..]))
    ensures ValuesMatch(op, nodes[..keep] + [Node(r, nodes[keep..])],
                        vals[..keep] + [SemanticAction(op, r, vals[keep..], garbage)])
    ensures r == 5 ==> HasValue(nodes[keep]) && Root(nodes[keep]) == EXP && vals[keep] == Value(op, nodes[keep])
  {
    ActionComputesValue(op, r, nodes[keep..], vals[keep..], garbage);
  }
}
