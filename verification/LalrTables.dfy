/**
 The compressed bison tables of the desk calculator (compiler/lab3/y.tab.c) and
 the two lookups that `yyparse` performs on them.  The rest of the development
 reasons about the uncompressed automaton `Action`/`Goto`, whose shift/reduce
 choices are spelled out through the precedence declarations of the grammar;
 `TablesEncodeActions` and `TablesEncodeGotos` show that the tables are exactly
 that automaton.
 */
module LalrTables {

  const YYPACT: seq<int> := [
    -9, 12, -9, -9, 2, -9, 2, -9, 29, -8,
    20, 2, 2, 2, 2, 2, -9, -9, 11, 11,
    -8, -8, -8]

  const YYDEFACT: seq<nat> := [
    2, 0, 1, 6, 0, 4, 0, 3, 0, 12,
    0, 0, 0, 0, 0, 0, 5, 13, 8, 7,
    9, 10, 11]

  const YYPGOTO: seq<int> := [-9, -9, -9, -4]

  const YYDEFGOTO: seq<int> := [-1, 1, 7, 8]

  const YYTABLE: seq<nat> := [
    9, 15, 10, 0, 0, 3, 4, 18, 19, 20,
    21, 22, 2, 6, 0, 3, 4, 13, 14, 0,
    15, 0, 5, 6, 11, 12, 13, 14, 0, 15,
    0, 0, 17, 11, 12, 13, 14, 0, 15, 16]

  const YYCHECK: seq<int> := [
    4, 9, 6, -1, -1, 3, 4, 11, 12, 13,
    14, 15, 0, 11, -1, 3, 4, 6, 7, -1,
    9, -1, 10, 11, 4, 5, 6, 7, -1, 9,
    -1, -1, 12, 4, 5, 6, 7, -1, 9, 10]

  const YYSTOS: seq<nat> := [
    0, 14, 0, 3, 4, 10, 11, 15, 16, 16,
    16, 4, 5, 6, 7, 9, 10, 12, 16, 16,
    16, 16, 16]

  const YYR1: seq<nat> := [0, 13, 14, 14, 15, 15, 16, 16, 16, 16, 16, 16, 16, 16]

  const YYR2: seq<nat> := [0, 2, 0, 2, 1, 2, 1, 3, 3, 3, 3, 3, 2, 3]

  const YYFINAL: nat := 2
  const YYLAST: nat := 39
  const YYNTOKENS: nat := 13
  const YYNSTATES: nat := 23
  const YYTERROR: nat := 1

  // Internal symbol numbers.
  const END: nat := 0
  const UNDEF: nat := 2
  const NUM: nat := 3
  const MINUS: nat := 4
  const PLUS: nat := 5
  const TIMES: nat := 6
  const DIVIDE: nat := 7
  const CARET: nat := 9
  const NEWLINE: nat := 10
  const LPAREN: nat := 11
  const RPAREN: nat := 12
  const INPUT: nat := 14
  const LINE: nat := 15
  const EXP: nat := 16

  datatype Act = Shift(state: nat) | Reduce(rule: nat) | Error

  /** The default action of a state: label `yydefault`. */
  function DefaultAction(q: nat): Act
    requires q < YYNSTATES
  {
    if YYDEFACT[q] == 0 then Error else Reduce(YYDEFACT[q])
  }

  /** The cell of the compressed table at row offset `base` and column `tok`; -1 when it belongs to another row. */
  function Cell(base: int, tok: nat): int {
    var k := base + tok;
    if k < 0 || YYLAST < k || YYCHECK[k] != tok then -1 else YYTABLE[k]
  }

  /** What `yybackup` decides from the tables for a lookahead token. */
  function TableAction(q: nat, tok: nat): Act
    requires q < YYNSTATES && tok < YYNTOKENS
  {
    if YYPACT[q] == -9 || Cell(YYPACT[q], tok) < 0 then DefaultAction(q)
    else if Cell(YYPACT[q], tok) == 0 then Reduce(0)
    else Shift(Cell(YYPACT[q], tok))
  }

  /** The state pushed after reducing to nonterminal `lhs` on top of state `p`. */
  function TableGoto(p: nat, lhs: nat): int
    requires p < YYNSTATES && YYNTOKENS <= lhs <= EXP
  {
    var k := YYPGOTO[lhs - YYNTOKENS] + p;
    if 0 <= k <= YYLAST && YYCHECK[k] == p then YYTABLE[k]
    else YYDEFGOTO[lhs - YYNTOKENS]
  }

  // ----- The automaton, with its conflicts resolved by declared precedence -----

  /** Binding strength of an operator token (0 for every other token). */
  function OpPrec(tok: nat): nat {
    if tok == MINUS || tok == PLUS then 1
    else if tok == TIMES || tok == DIVIDE then 2
    else if tok == CARET then 4
    else 0
  }

  const NEG_PREC: nat := 3

  /** States that end an operand: the top stack symbol is `exp`. */
  predicate AfterExp(q: nat) {
    q == 8 || q == 9 || q == 10 || 18 <= q <= 22
  }

  /** Precedence of the rule that an after-operand state could reduce by. */
  function Level(q: nat): nat {
    if q == 18 || q == 19 then 1
    else if q == 20 || q == 21 then 2
    else if q == 9 then NEG_PREC
    else if q == 22 then 4
    else 0
  }

  /** The rule an after-operand state reduces by (8 and 10 have none). */
  function RuleOf(q: nat): nat {
    if q == 18 then 8 else if q == 19 then 7 else if q == 20 then 9
    else if q == 21 then 10 else if q == 22 then 11 else 12
  }

  /** States in which an operand must come next. */
  predicate ExpectsExp(q: nat) { q in OPERAND_STATES }

  const OPERAND_STATES: set<nat> := {1, 4, 6, 11, 12, 13, 14, 15}

  /** The state entered by shifting a binary operator. */
  function OpState(tok: nat): nat {
    if tok == MINUS then 11 else if tok == PLUS then 12 else if tok == TIMES then 13
    else if tok == DIVIDE then 14 else 15
  }

  /** Shift/reduce choice: `%left` reduces on equal precedence, `%right '^'` shifts. */
  predicate Shifts(q: nat, tok: nat) {
    OpPrec(tok) > Level(q) || (tok == CARET && q == 22)
  }

  function Operand(tok: nat): Act {
    if tok == NUM then Shift(3) else if tok == MINUS then Shift(4)
    else if tok == LPAREN then Shift(6) else Error
  }

  function Action(q: nat, tok: nat): Act
    requires q < YYNSTATES && tok < YYNTOKENS
  {
    if AfterExp(q) then
      if Shifts(q, tok) then Shift(OpState(tok))
      else if q == 8 then if tok == NEWLINE then Shift(16) else Error
      else if q == 10 then if tok == RPAREN then Shift(17) else Error
      else Reduce(RuleOf(q))
    else if q == 1 then
      if tok == END then Shift(2) else if tok == NEWLINE then Shift(5) else Operand(tok)
    else if ExpectsExp(q) then Operand(tok)
    else if q == 0 then Reduce(2)
    else if q == 2 then Reduce(1)
    else if q == 3 then Reduce(6)
    else if q == 5 then Reduce(4)
    else if q == 7 then Reduce(3)
    else if q == 16 then Reduce(5)
    else Reduce(13)
  }

  /** Whether the automaton has a transition on nonterminal `lhs` from `p`. */
  predicate HasGoto(p: nat, lhs: nat) { p in GotoStates(lhs) }

  function GotoStates(lhs: nat): set<nat> {
    if lhs == INPUT then {0} else if lhs == LINE then {1} else if lhs == EXP then OPERAND_STATES else {}
  }

  function Goto(p: nat, lhs: nat): (q: nat)
    requires HasGoto(p, lhs)
    ensures q < YYNSTATES && YYSTOS[q] == lhs
  {
    if lhs == INPUT then 1 else if lhs == LINE then 7
    else if p == 1 then 8 else if p == 4 then 9 else if p == 6 then 10
    else p + 7
  }

  /** The decoded tables are the automaton above, for every state and every token. */
  lemma TablesEncodeActions(q: nat, tok: nat)
    requires q < YYNSTATES && tok < YYNTOKENS
    ensures TableAction(q, tok) == Action(q, tok)
  {
    if q == 8 || q == 10 { AfterOperandRows(q, tok); }
    else if q == 18 || q == 19 { SumRows(q, tok); }
    else if q == 9 || 20 <= q { TightRows(q, tok); }
    else if ExpectsExp(q) { OperandRows(q, tok); }
    else { assert YYPACT[q] == -9; }
  }

  lemma AfterOperandRows(q: nat, tok: nat)
    requires tok < YYNTOKENS && (q == 8 || q == 10)
    ensures TableAction(q, tok) == Action(q, tok)
  {
    if q == 8 {
      assert YYPACT[q] == 29 && YYDEFACT[q] == 0;
      assert Cell(29, tok) == if OpPrec(tok) > 0 then OpState(tok) else if tok == NEWLINE then 16 else -1;
    } else {
      assert YYPACT[q] == 20 && YYDEFACT[q] == 0;
      assert Cell(20, tok) == if OpPrec(tok) > 0 then OpState(tok) else if tok == RPAREN then 17 else -1;
    }
  }

  lemma SumRows(q: nat, tok: nat)
    requires tok < YYNTOKENS && (q == 18 || q == 19)
    ensures TableAction(q, tok) == Action(q, tok)
  {
    assert YYPACT[q] == 11 && YYDEFACT[q] == RuleOf(q);
    assert Cell(11, tok) == if OpPrec(tok) > 1 then OpState(tok) else -1;
  }

  lemma TightRows(q: nat, tok: nat)
    requires tok < YYNTOKENS && (q == 9 || 20 <= q <= 22)
    ensures TableAction(q, tok) == Action(q, tok)
  {
    assert YYPACT[q] == -8 && YYDEFACT[q] == RuleOf(q);
    assert Cell(-8, tok) == if tok == CARET then 15 else -1;
  }

  lemma OperandRows(q: nat, tok: nat)
    requires q < YYNSTATES && tok < YYNTOKENS && ExpectsExp(q)
    ensures TableAction(q, tok) == Action(q, tok)
  {
    if q == 1 {
      StartRow(tok);
    } else {
      assert YYPACT[q] == 2 && YYDEFACT[q] == 0;
      OperandCells(tok);
    }
  }

  lemma OperandCells(tok: nat)
    requires tok < YYNTOKENS
    ensures Cell(2, tok) == if tok == NUM then 3 else if tok == MINUS then 4 else if tok == LPAREN then 6 else -1
  {
  }

  lemma StartRow(tok: nat)
    requires tok < YYNTOKENS
    ensures TableAction(1, tok) == Action(1, tok)
  {
    assert YYPACT[1] == 12 && YYDEFACT[1] == 0;
    assert Cell(12, tok) == if tok == END then 2 else if tok == NUM then 3 else if tok == MINUS then 4
                            else if tok == NEWLINE then 5 else if tok == LPAREN then 6 else -1;
  }

  /** The decoded goto table, on every transition the automaton has. */
  lemma TablesEncodeGotos(p: nat, lhs: nat)
    requires HasGoto(p, lhs)
    ensures TableGoto(p, lhs) == Goto(p, lhs)
  {
    if lhs == EXP { assert YYPGOTO[lhs - YYNTOKENS] == -4; }
  }

  /** No state can shift the error token, so error recovery pops everything and aborts. */
  lemma NoErrorShift(q: nat)
    requires q < YYNSTATES && YYPACT[q] != -9
    ensures var k := YYPACT[q] + YYTERROR;
            !(0 <= k <= YYLAST && YYCHECK[k] == YYTERROR && 0 < YYTABLE[k])
  {
    assert forall k :: 0 <= k <= YYLAST ==> YYCHECK[k] != YYTERROR;
  }
}
