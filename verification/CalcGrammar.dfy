/**
 The calculator grammar of compiler/lab3/lab3_3150102210.y: tokens, rules,
 derivation trees, the tokens a tree derives and the value its semantic actions give.
 */
module CalcGrammar {
  import opened LalrTables

  datatype Token =
    | Num(v: real) | Minus | Plus | Times | Divide | Caret
    | Newline | LParen | RParen | Undef | End

  function Sym(t: Token): (s: nat)
    ensures s < YYNTOKENS
  {
    match t
    case Num(_) => NUM
    case Minus => MINUS
    case Plus => PLUS
    case Times => TIMES
    case Divide => DIVIDE
    case Caret => CARET
    case Newline => NEWLINE
    case LParen => LPAREN
    case RParen => RPAREN
    case Undef => UNDEF
    case End => END
  }

  /** Rule numbers 2 to 13 in the order of the grammar file. */
  predicate IsRule(r: nat) { 2 <= r <= 13 }

  function Lhs(r: nat): nat {
    if r <= 3 then INPUT else if r <= 5 then LINE else EXP
  }

  function Rhs(r: nat): seq<nat>
    requires IsRule(r)
  {
    if r == 2 then []
    else if r == 3 then [INPUT, LINE]
    else if r == 4 then [NEWLINE]
    else if r == 5 then [EXP, NEWLINE]
    else if r == 6 then [NUM]
    else if r == 7 then [EXP, PLUS, EXP]
    else if r == 8 then [EXP, MINUS, EXP]
    else if r == 9 then [EXP, TIMES, EXP]
    else if r == 10 then [EXP, DIVIDE, EXP]
    else if r == 11 then [EXP, CARET, EXP]
    else if r == 12 then [MINUS, EXP]
    else [LPAREN, EXP, RPAREN]
  }

  /** `yyr1` and `yyr2` describe the grammar's rules. */
  lemma TablesEncodeRules(r: nat)
    requires IsRule(r)
    ensures YYR1[r] == Lhs(r) && YYR2[r] == |Rhs(r)|
  {
  }

  // ----- Derivation trees -----

  datatype Tree = Leaf(tok: Token) | Node(rule: nat, kids: seq<Tree>)

  function Root(t: Tree): nat {
    match t
    case Leaf(tok) => Sym(tok)
    case Node(r, _) => Lhs(r)
  }

  /** Every node applies a rule of the grammar. */
  ghost predicate Derivation(t: Tree) {
    t.Node? ==>
      && IsRule(t.rule)
      && |t.kids| == |Rhs(t.rule)|
      && forall i :: 0 <= i < |t.kids| ==> Root(t.kids[i]) == Rhs(t.rule)[i] && Derivation(t.kids[i])
  }

  /** The tokens a tree derives; the end marker is not part of the text. */
  function Yield(t: Tree): seq<Token>
    decreases t, 1
  {
    match t
    case Leaf(tok) => if tok.End? then [] else [tok]
    case Node(_, kids) => Yields(kids)
  }

  function Yields(ts: seq<Tree>): seq<Token>
    decreases ts, 0
  {
    if ts == [] then [] else Yields(ts[..|ts| - 1]) + Yield(ts[|ts| - 1])
  }

  lemma Assoc<T>(a: seq<T>, b: seq<T>, c: seq<T>)
    ensures a + b + c == a + (b + c)
  {
  }

  lemma YieldsSnoc(ts: seq<Tree>, t: Tree)
    ensures Yields(ts + [t]) == Yields(ts) + Yield(t)
  {
    assert (ts + [t])[..|ts|] == ts;
  }

  lemma {:induction false} YieldsConcat(a: seq<Tree>, b: seq<Tree>)
    ensures Yields(a + b) == Yields(a) + Yields(b)
    decreases |b|
  {
    if b == [] {
      assert a + b == a && Yields(a) + [] == Yields(a);
    } else {
      var front, last := b[..|b| - 1], b[|b| - 1];
      assert b == front + [last] && a + b == (a + front) + [last];
      YieldsConcat(a, front);
      YieldsSnoc(a + front, last);
      YieldsSnoc(front, last);
      Assoc(Yields(a), Yields(front), Yield(last));
    }
  }

  lemma YieldsTwo(a: Tree, b: Tree)
    ensures Yields([a]) == Yield(a) && Yields([a, b]) == Yield(a) + Yield(b)
  {
    assert [] + [a] == [a] && [a] + [b] == [a, b] && [] + Yield(a) == Yield(a);
    YieldsSnoc([], a);
    YieldsSnoc([a], b);
  }

  /** The expressions on the lines below a tree, in the order in which they are printed. */
  function Lines(t: Tree): seq<Tree>
    decreases t, 1
  {
    if t.Node? && t.rule == 3 then LinesAll(t.kids)
    else if t.Node? && t.rule == 5 && |t.kids| == 2 then [t.kids[0]]
    else []
  }

  function LinesAll(ts: seq<Tree>): seq<Tree>
    decreases ts, 0
  {
    if ts == [] then [] else LinesAll(ts[..|ts| - 1]) + Lines(ts[|ts| - 1])
  }

  lemma LinesSnoc(ts: seq<Tree>, t: Tree)
    ensures LinesAll(ts + [t]) == LinesAll(ts) + Lines(t)
  {
    assert (ts + [t])[..|ts|] == ts;
  }

  lemma {:induction false} LinesConcat(a: seq<Tree>, b: seq<Tree>)
    ensures LinesAll(a + b) == LinesAll(a) + LinesAll(b)
    decreases |b|
  {
    if b == [] {
      assert a + b == a && LinesAll(a) + [] == LinesAll(a);
    } else {
      var front, last := b[..|b| - 1], b[|b| - 1];
      assert b == front + [last] && a + b == (a + front) + [last];
      LinesConcat(a, front);
      LinesSnoc(a + front, last);
      LinesSnoc(front, last);
      Assoc(LinesAll(a), LinesAll(front), Lines(last));
    }
  }

  lemma LinesTwo(a: Tree, b: Tree)
    ensures LinesAll([a]) == Lines(a) && LinesAll([a, b]) == Lines(a) + Lines(b)
  {
    assert [] + [a] == [a] && [a] + [b] == [a, b] && [] + Lines(a) == Lines(a);
    LinesSnoc([], a);
    LinesSnoc([a], b);
  }

  // ----- Values -----

  /** The arithmetic of the semantic actions, left abstract. */
  datatype Arith = Arith(
    add: (real, real) -> real, sub: (real, real) -> real, mul: (real, real) -> real,
    div: (real, real) -> real, pow: (real, real) -> real, neg: real -> real)

  ghost predicate HasValue(t: Tree) {
    Derivation(t) && (Root(t) == EXP || Root(t) == NUM)
  }

  /** The value `$$` of a number token or an expression. */
  ghost function Value(op: Arith, t: Tree): real
    requires HasValue(t)
    decreases t
  {
    match t
    case Leaf(tok) => tok.v
    case Node(r, k) =>
      if r == 6 then Value(op, k[0])
      else if r == 7 then op.add(Value(op, k[0]), Value(op, k[2]))
      else if r == 8 then op.sub(Value(op, k[0]), Value(op, k[2]))
      else if r == 9 then op.mul(Value(op, k[0]), Value(op, k[2]))
      else if r == 10 then op.div(Value(op, k[0]), Value(op, k[2]))
      else if r == 11 then op.pow(Value(op, k[0]), Value(op, k[2]))
      else if r == 12 then op.neg(Value(op, k[1]))
      else Value(op, k[1])
  }
}
