/**
 Runs of `yyparse` of compiler/lab3/y.tab.c on explicit stacks: what one shift or one reduction
 does to the way a parse ends.
 */
module CalcRuns {
  import opened LalrTables
  import opened CalcGrammar
  import opened CalcParser

  function At(ss: seq<nat>, nodes: seq<Tree>, rest: seq<Token>): Config {
    Config(ss, nodes, rest, LinesAll(nodes))
  }

  datatype Parse = Stuck | Ends(o: Outcome)

  /** How the parse ends from a stack and the unread tokens; `Stuck` for stacks the parser never builds. */
  ghost function Ending(ss: seq<nat>, nodes: seq<Tree>, rest: seq<Token>): Parse {
    if Valid(At(ss, nodes, rest)) then Ends(Run(At(ss, nodes, rest))) else Stuck
  }

  type EndingFn = (seq<nat>, seq<Tree>, seq<Token>) -> Parse

  /**
   `f` is `Ending`.  Only `Ending` triggers the definition, so that proofs about `f` need not unfold a whole parse.
   */
  ghost predicate IsEnding(f: EndingFn) {
    forall ss, nodes, rest {:trigger Ending(ss, nodes, rest)} :: f(ss, nodes, rest) == Ending(ss, nodes, rest)
  }

  lemma RunStep(c: Config)
    requires Valid(c) && Step(c).Next?
    ensures Valid(Step(c).c) && Run(c) == Run(Step(c).c)
  {
    StepKeeps(c);
    StepDecreases(c);
  }

  lemma ShiftRun(f: EndingFn, ss: seq<nat>, nodes: seq<Tree>, tok: Token, rest: seq<Token>, q: nat)
    requires IsEnding(f) && f(ss, nodes, [tok] + rest) != Stuck
    requires |ss| == |nodes| + 1 && Top(ss) < YYNSTATES && Top(ss) != YYFINAL
    requires Action(Top(ss), Sym(tok)) == Shift(q)
    ensures f(ss, nodes, [tok] + rest) == f(ss + [q], nodes + [Leaf(tok)], rest)
  {
    var c := At(ss, nodes, [tok] + rest);
    assert Ending(ss, nodes, [tok] + rest) != Stuck;
    assert Look(c.rest) == tok && Tail(c.rest) == rest;
    RunStep(c);
    LeafAdds(nodes, tok);
    assert Ending(ss + [q], nodes + [Leaf(tok)], rest) == Ends(Run(c));
  }

  lemma ReduceRun(f: EndingFn, ss: seq<nat>, nodes: seq<Tree>, suffix: seq<nat>, kids: seq<Tree>, rest: seq<Token>,
                  r: nat)
    requires IsEnding(f) && |ss| == |nodes| + 1 && |suffix| == |kids|
    requires f(ss + suffix, nodes + kids, rest) != Stuck
    requires Top(ss + suffix) < YYNSTATES && Top(ss + suffix) != YYFINAL
    requires Action(Top(ss + suffix), Sym(Look(rest))) == Reduce(r)
    requires IsRule(r) && |Rhs(r)| == |kids| && HasGoto(Top(ss), Lhs(r))
    ensures f(ss + suffix, nodes + kids, rest) == f(ss + [Goto(Top(ss), Lhs(r))], nodes + [Node(r, kids)], rest)
  {
    var c := At(ss + suffix, nodes + kids, rest);
    assert Ending(ss + suffix, nodes + kids, rest) != Stuck;
    RunStep(c);
    var keep := |nodes|;
    assert c.states[..keep + 1] == ss && c.states[keep] == Top(ss);
    assert c.nodes[..keep] == nodes && c.nodes[keep..] == kids;
    assert Step(c).c == At(ss + [Goto(Top(ss), Lhs(r))], nodes + [Node(r, kids)], rest);
    assert Ending(ss + [Goto(Top(ss), Lhs(r))], nodes + [Node(r, kids)], rest) == Ends(Run(c));
  }

  /** The weakest expression that may follow a state without parentheses. */
  function Need(q: nat): nat {
    if q == 11 || q == 12 then 2 else if q == 15 then 4 else if q == 4 || q == 13 || q == 14 then 3 else 0
  }

  lemma AcceptRun(f: EndingFn, t: Tree)
    requires IsEnding(f) && f([0, 1], [t], []) != Stuck
    ensures f([0, 1], [t], []) == Ends(Accepted([t, Leaf(End)], Lines(t)))
  {
    var c := At([0, 1], [t], []);
    assert Ending([0, 1], [t], []) != Stuck;
    RunStep(c);
    assert Step(c).c == Config([0, 1] + [2], [t] + [Leaf(End)], [], c.out);
    assert [t] + [Leaf(End)] == [t, Leaf(End)];
    LinesTwo(t, t);
  }

  /** How a whole parse of `input` ends, in terms of `Ending`. */
  lemma StartRun(input: seq<Token>) returns (f: EndingFn)
    requires NoEnd(input)
    ensures Valid(Initial(input)) && IsEnding(f) && f([0], [], input) == Ends(Run(Initial(input)))
  {
    f := (ss, nodes, rest) => Ending(ss, nodes, rest);
    assert Initial(input) == At([0], [], input);
    assert Ending([0], [], input) == Ends(Run(Initial(input)));
  }

  predicate NoEnd(ts: seq<Token>) { forall i :: 0 <= i < |ts| ==> !ts[i].End? }
}
