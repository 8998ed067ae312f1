/**
 Subset construction of compiler/Homework_2_5_b.java: `getMove`, `getEClosure` and the
 worklist of `solve`, for an arbitrary finite automaton instead of the built-in one.
 The automaton's meaning is given by labelled paths, independently of any set computation.
 */
module SubsetConstruction {
  import opened Wrappers

  /** The label 0 marks an epsilon edge. */
  const EPS: char := '\0'

  datatype Edge = Edge(start: int, end: int, value: char)

  type Graph = map<int, seq<Edge>>

  datatype Row = Row(state: set<int>, input: char, another: set<int>)

  /** The edges listed for a state; a state that is not a key has none. */
  function Out(g: Graph, q: int): seq<Edge> { if q in g then g[q] else [] }

  // ----- Meaning: paths and the words they spell -----

  ghost predicate IsPath(g: Graph, p: int, es: seq<Edge>, q: int)
    decreases |es|
  {
    if es == [] then p == q else es[0] in Out(g, p) && IsPath(g, es[0].end, es[1..], q)
  }

  function Label(e: Edge): seq<char> { if e.value == EPS then [] else [e.value] }

  function Spell(es: seq<Edge>): seq<char> {
    if es == [] then [] else Label(es[0]) + Spell(es[1..])
  }

  /** State `q` can be reached from a state of `from` on the word `w`. */
  ghost predicate Reaches(g: Graph, from: set<int>, w: seq<char>, q: int) {
    exists p, es :: p in from && IsPath(g, p, es, q) && Spell(es) == w
  }

  // ----- Specification of the two set operations -----

  ghost function Targets(g: Graph): set<int> {
    set k, i | k in g && 0 <= i < |g[k]| :: g[k][i].end
  }

  ghost predicate MovesTo(g: Graph, from: set<int>, c: char, q: int) {
    exists p, e :: p in from && e in Out(g, p) && e.value == c && e.end == q
  }

  ghost function Move(g: Graph, from: set<int>, c: char): set<int> {
    set q | q in Targets(g) && MovesTo(g, from, c, q)
  }

  ghost function Closure(g: Graph, from: set<int>): set<int> {
    set q | q in from + Targets(g) && Reaches(g, from, [], q)
  }

  ghost function Next(g: Graph, from: set<int>, c: char): set<int> { Closure(g, Move(g, from, c)) }

  lemma EdgeTarget(g: Graph, p: int, e: Edge)
    requires e in Out(g, p)
    ensures e.end in Targets(g)
  {
  }

  lemma {:induction false} PathTarget(g: Graph, p: int, es: seq<Edge>, q: int)
    requires IsPath(g, p, es, q)
    ensures q == p || q in Targets(g)
    decreases |es|
  {
    if es != [] {
      EdgeTarget(g, p, es[0]);
      PathTarget(g, es[0].end, es[1..], q);
    }
  }

  lemma InMove(g: Graph, from: set<int>, c: char, q: int)
    ensures q in Move(g, from, c) <==> MovesTo(g, from, c, q)
  {
  }

  lemma InClosure(g: Graph, from: set<int>, q: int)
    ensures q in Closure(g, from) <==> Reaches(g, from, [], q)
  {
    if Reaches(g, from, [], q) {
      var p, es :| p in from && IsPath(g, p, es, q) && Spell(es) == [];
      PathTarget(g, p, es, q);
    }
  }

  // ----- The methods -----

  ghost predicate EpsEdge(g: Graph, p: int, q: int) {
    exists e :: e in Out(g, p) && e.value == EPS && e.end == q
  }

  ghost predicate EpsClosed(g: Graph, s: set<int>) {
    forall p, q {:trigger EpsEdge(g, p, q)} :: p in s && EpsEdge(g, p, q) ==> q in s
  }

  /** A set closed under epsilon edges contains whatever epsilon paths reach. */
  lemma {:induction false} ClosedAbsorbs(g: Graph, s: set<int>, p: int, es: seq<Edge>, q: int)
    requires EpsClosed(g, s) && p in s && IsPath(g, p, es, q) && Spell(es) == []
    ensures q in s
    decreases |es|
  {
    if es != [] {
      assert es[0].value == EPS && EpsEdge(g, p, es[0].end);
      ClosedAbsorbs(g, s, es[0].end, es[1..], q);
    }
  }

  lemma ClosedSetIsClosure(g: Graph, from: set<int>, s: set<int>)
    requires from <= s && EpsClosed(g, s)
    requires forall q {:trigger Reaches(g, from, [], q)} :: q in s ==> Reaches(g, from, [], q)
    ensures s == Closure(g, from)
  {
    forall q ensures q in s <==> q in Closure(g, from) {
      InClosure(g, from, q);
      if Reaches(g, from, [], q) {
        var p, es :| p in from && IsPath(g, p, es, q) && Spell(es) == [];
        ClosedAbsorbs(g, s, p, es, q);
      }
    }
  }

  lemma Assoc<T>(a: seq<T>, b: seq<T>, c: seq<T>)
    ensures a + b + c == a + (b + c)
  {
  }

  lemma {:induction false} SpellConcat(a: seq<Edge>, b: seq<Edge>)
    ensures Spell(a + b) == Spell(a) + Spell(b)
    decreases |a|
  {
    if a == [] {
      assert a + b == b;
    } else {
      SpellConcat(a[1..], b);
      assert (a + b)[0] == a[0] && (a + b)[1..] == a[1..] + b;
      Assoc(Label(a[0]), Spell(a[1..]), Spell(b));
    }
  }

  lemma {:induction false} PathConcat(g: Graph, p: int, a: seq<Edge>, q: int, b: seq<Edge>, r: int)
    requires IsPath(g, p, a, q) && IsPath(g, q, b, r)
    ensures IsPath(g, p, a + b, r)
    decreases |a|
  {
    if a == [] {
      assert a + b == b;
    } else {
      PathConcat(g, a[0].end, a[1..], q, b, r);
      assert (a + b)[0] == a[0] && (a + b)[1..] == a[1..] + b;
    }
  }

  lemma OneEdge(g: Graph, p: int, e: Edge)
    requires e in Out(g, p)
    ensures IsPath(g, p, [e], e.end) && Spell([e]) == Label(e)
  {
    assert [e][1..] == [] && IsPath(g, e.end, [], e.end);
  }

  lemma ReachesByEps(g: Graph, from: set<int>, q: int, e: Edge)
    requires Reaches(g, from, [], q) && e in Out(g, q) && e.value == EPS
    ensures Reaches(g, from, [], e.end)
  {
    var p, es :| p in from && IsPath(g, p, es, q) && Spell(es) == [];
    OneEdge(g, q, e);
    PathConcat(g, p, es, q, [e], e.end);
    SpellConcat(es, [e]);
  }

  /** The elements of a set in some order. */
  method Elements(s: set<int>) returns (xs: seq<int>)
    ensures forall x :: x in xs <==> x in s
  {
    xs := [];
    var rest := s;
    while rest != {}
      invariant rest <= s
      invariant forall x :: x in xs <==> x in s && x !in rest
    {
      assert (forall y :: y !in rest) ==> rest == {};
      var x :| x in rest;
      xs, rest := xs + [x], rest - {x};
    }
  }

  method GetMove(g: Graph, states: set<int>, input: char) returns (moveSet: set<int>)
    ensures moveSet == Move(g, states, input)
  {
    moveSet := {};
    var todo := Elements(states);
    for i := 0 to |todo|
      invariant moveSet == Move(g, set k | 0 <= k < i :: todo[k], input)
    {
      ghost var done, more := (set k | 0 <= k < i :: todo[k]), (set k | 0 <= k < i + 1 :: todo[k]);
      assert more == done + {todo[i]};
      var edges := Out(g, todo[i]);
      for j := 0 to |edges|
        invariant forall q :: q in moveSet <==>
          MovesTo(g, done, input, q) || exists e :: e in edges[..j] && e.value == input && e.end == q
      {
        assert edges[..j + 1] == edges[..j] + [edges[j]];
        if edges[j].value == input { moveSet := moveSet + {edges[j].end}; }
      }
      assert edges[..|edges|] == edges;
      forall q ensures q in moveSet <==> q in Move(g, more, input) { InMove(g, more, input, q); }
    }
    ghost var all := set k | 0 <= k < |todo| :: todo[k];
    forall x ensures x in all <==> x in states { assert x in todo <==> x in all; }
    assert all == states;
  }

  /**
   Every epsilon edge out of a closed-over state stays inside `closure`; `stack` holds the states not yet expanded.
   */
  ghost predicate Explored(g: Graph, closure: set<int>, stack: seq<int>) {
    forall p, q {:trigger EpsEdge(g, p, q)} :: p in closure && p !in stack && EpsEdge(g, p, q) ==> q in closure
  }

  /** What the closure computation knows between two pops of its stack. */
  ghost predicate Growing(g: Graph, states: set<int>, closure: set<int>, stack: seq<int>) {
    && states <= closure <= states + Targets(g)
    && (forall q {:trigger Reaches(g, states, [], q)} :: q in closure ==> Reaches(g, states, [], q))
    && (forall x :: x in stack ==> x in closure)
  }

  lemma AddState(g: Graph, states: set<int>, closure: set<int>, stack: seq<int>, s: int, e: Edge)
    requires Growing(g, states, closure, stack) && s in closure && Explored(g, closure, stack + [s])
    requires e in Out(g, s) && e.value == EPS
    ensures Growing(g, states, closure + {e.end}, stack + [e.end])
    ensures Explored(g, closure + {e.end}, stack + [e.end] + [s])
  {
    EdgeTarget(g, s, e);
    ReachesByEps(g, states, s, e);
  }

  /** Once all epsilon edges of the popped state stay inside, it counts as explored. */
  lemma PopIsExplored(g: Graph, closure: set<int>, stack: seq<int>, s: int)
    requires Explored(g, closure, stack + [s])
    requires forall k :: 0 <= k < |Out(g, s)| && Out(g, s)[k].value == EPS ==> Out(g, s)[k].end in closure
    ensures Explored(g, closure, stack)
  {
    forall p, q | p in closure && p !in stack && EpsEdge(g, p, q) ensures q in closure {
      if p == s {
        var e :| e in Out(g, s) && e.value == EPS && e.end == q;
      } else {
        assert p !in stack + [s];
      }
    }
  }

  /** One edge of a popped state `s`. */
  method Scan(g: Graph, ghost states: set<int>, ghost s: int, e: Edge, closure0: set<int>, stack0: seq<int>)
    returns (closure: set<int>, stack: seq<int>)
    requires Growing(g, states, closure0, stack0) && s in closure0 && Explored(g, closure0, stack0 + [s]) &&
      e in Out(g, s)
    ensures Growing(g, states, closure, stack) && Explored(g, closure, stack + [s])
    ensures closure0 <= closure && (closure == closure0 ==> stack == stack0) && (e.value == EPS ==> e.end in closure)
  {
    closure, stack := closure0, stack0;
    if e.value == EPS && e.end !in closure {
      AddState(g, states, closure, stack, s, e);
      closure := closure + {e.end};
      stack := stack + [e.end];
    }
  }

  /** The loop over the edges of a popped state `s`. */
  method Expand(g: Graph, ghost states: set<int>, s: int, closure0: set<int>, stack0: seq<int>)
    returns (closure: set<int>, stack: seq<int>)
    requires Growing(g, states, closure0, stack0) && s in closure0 && Explored(g, closure0, stack0 + [s])
    ensures Growing(g, states, closure, stack) && Explored(g, closure, stack)
    ensures closure0 <= closure && (closure == closure0 ==> stack == stack0)
  {
    closure, stack := closure0, stack0;
    var edges := Out(g, s);
    for i := 0 to |edges|
      invariant Growing(g, states, closure, stack) && closure0 <= closure && (closure == closure0 ==> stack == stack0)
      invariant Explored(g, closure, stack + [s])
      invariant forall k :: 0 <= k < i && edges[k].value == EPS ==> edges[k].end in closure
    {
      closure, stack := Scan(g, states, s, edges[i], closure, stack);
    }
    PopIsExplored(g, closure, stack, s);
  }

  method GetEClosure(g: Graph, states: set<int>) returns (closure: set<int>)
    ensures closure == Closure(g, states)
  {
    closure := states;
    var stack := Elements(states);
    forall q | q in states ensures Reaches(g, states, [], q) { assert IsPath(g, q, [], q); }
    while stack != []
      invariant Growing(g, states, closure, stack) && Explored(g, closure, stack)
      decreases states + Targets(g) - closure, |stack|
    {
      var s := stack[|stack| - 1];
      assert stack == stack[..|stack| - 1] + [s];
      ghost var before := closure;
      closure, stack := Expand(g, states, s, closure, stack[..|stack| - 1]);
      assert closure != before ==> states + Targets(g) - closure < states + Targets(g) - before;
    }
    ClosedSetIsClosure(g, states, closure);
  }

  // ----- The worklist -----

  predicate Letter(c: char) { c == 'a' || c == 'b' }

  ghost predicate HasRow(table: seq<Row>, t: set<int>, c: char) {
    exists i :: 0 <= i < |table| && table[i].state == t && table[i].input == c
  }

  /** Rows hold the automaton's moves, and marked states have a row for each letter. */
  ghost predicate TableOk(g: Graph, table: seq<Row>, marked: set<set<int>>, unmarked: set<set<int>>) {
    && (forall i :: 0 <= i < |table| ==>
          && Letter(table[i].input) && table[i].state in marked
          && table[i].another == Next(g, table[i].state, table[i].input)
          && (table[i].another in marked || table[i].another in unmarked))
    && (forall t, c :: t in marked && Letter(c) ==> HasRow(table, t, c))
  }

  /** Subsets of the states that can occur. */
  ghost function Universe(g: Graph): set<int> { {1} + Targets(g) }

  ghost function Subsets(u: set<int>): set<set<int>> { set s | s <= u }

  /** `getEClosure(getMove(t, c))`. */
  method Successor(g: Graph, t: set<int>, c: char) returns (u: set<int>)
    ensures u == Next(g, t, c) && u <= Universe(g)
  {
    var m := GetMove(g, t, c);
    u := GetEClosure(g, m);
  }

  class Solver {
    const graph: Graph
    var transitionTable: seq<Row>
    var dStates: set<set<int>>
    var recordedState: set<set<int>>

    ghost predicate Valid()
      reads this
    {
      && TableOk(graph, transitionTable, recordedState, dStates)
      && forall t :: t in dStates || t in recordedState ==> t <= Universe(graph)
    }

    constructor (graph: Graph)
      ensures Valid() && this.graph == graph && transitionTable == [] && dStates == {} && recordedState == {}
    {
      this.graph := graph;
      transitionTable, dStates, recordedState := [], {}, {};
    }

    method Solve()
      requires Valid()
      modifies this`transitionTable, this`dStates, this`recordedState
      ensures Valid() && dStates == {} && {1} in recordedState
      ensures old(transitionTable) <= transitionTable && old(recordedState) <= recordedState
    {
      dStates := dStates + {{1}};
      while dStates != {}
        invariant Valid() && ({1} in dStates || {1} in recordedState)
        invariant old(transitionTable) <= transitionTable && old(recordedState) <= recordedState
        decreases Subsets(Universe(graph)) - recordedState, dStates
      {
        ghost var table, marked, work := transitionTable, recordedState, dStates;
        assert (forall y :: y !in dStates) ==> dStates == {};
        var t :| t in dStates;
        Visit(t);
        VisitKeepsTable(graph, table, marked, work, t);
        VisitMakesProgress(graph, table, marked, work, t);
      }
    }

    /** The loop body: mark `t`, list its successors, and queue those not yet marked. */
    method Visit(t: set<int>)
      modifies this`transitionTable, this`dStates, this`recordedState
      ensures transitionTable == old(transitionTable) + [Row(t, 'a', Next(graph, t, 'a')), Row(t, 'b', Next(graph, t, 'b'))]
      ensures recordedState == old(recordedState) + {t}
      ensures dStates == Visited(graph, old(recordedState), old(dStates), t)
      ensures forall u :: u in dStates ==> u in old(dStates) || u <= Universe(graph)
    {
      dStates := dStates - {t};
      recordedState := recordedState + {t};
      // a
      var u1 := Successor(graph, t, 'a');
      if u1 !in recordedState { dStates := dStates + {u1}; }
      transitionTable := transitionTable + [Row(t, 'a', u1)];
      // b
      var u2 := Successor(graph, t, 'b');
      if u2 !in recordedState { dStates := dStates + {u2}; }
      transitionTable := transitionTable + [Row(t, 'b', u2)];
    }
  }

  function AddUnlessMarked(work: set<set<int>>, marked: set<set<int>>, u: set<int>): set<set<int>> {
    if u in marked then work else work + {u}
  }

  /** The worklist after visiting `t`. */
  ghost function Visited(g: Graph, marked: set<set<int>>, work: set<set<int>>, t: set<int>): set<set<int>> {
    AddUnlessMarked(AddUnlessMarked(work - {t}, marked + {t}, Next(g, t, 'a')), marked + {t}, Next(g, t, 'b'))
  }

  lemma VisitKeepsTable(g: Graph, table: seq<Row>, marked: set<set<int>>, work: set<set<int>>, t: set<int>)
    requires TableOk(g, table, marked, work) && t in work
    ensures TableOk(g, table + [Row(t, 'a', Next(g, t, 'a')), Row(t, 'b', Next(g, t, 'b'))],
                    marked + {t}, Visited(g, marked, work, t))
  {
    var more := table + [Row(t, 'a', Next(g, t, 'a')), Row(t, 'b', Next(g, t, 'b'))];
    var n := |table|;
    assert more[n] == Row(t, 'a', Next(g, t, 'a')) && more[n + 1] == Row(t, 'b', Next(g, t, 'b'));
    forall x, c | x in marked + {t} && Letter(c) ensures HasRow(more, x, c) {
      if x != t {
        assert HasRow(table, x, c);
        var i :| 0 <= i < n && table[i].state == x && table[i].input == c;
        assert more[i] == table[i];
      }
    }
  }

  /** Visiting either marks a new set of states or only shrinks the worklist. */
  lemma VisitMakesProgress(g: Graph, table: seq<Row>, marked: set<set<int>>, work: set<set<int>>, t: set<int>)
    requires TableOk(g, table, marked, work) && t in work && t <= Universe(g)
    ensures t !in marked ==> Subsets(Universe(g)) - (marked + {t}) < Subsets(Universe(g)) - marked
    ensures t in marked ==> Visited(g, marked, work, t) < work
  {
    if t in marked {
      assert marked + {t} == marked;
      forall c | Letter(c) ensures Next(g, t, c) in marked || Next(g, t, c) in work - {t} {
        assert HasRow(table, t, c);
        var i :| 0 <= i < |table| && table[i].state == t && table[i].input == c;
      }
      assert Letter('a') && Letter('b');
    } else {
      assert t in Subsets(Universe(g)) - marked;
    }
  }

  // ----- What the table computes -----

  ghost predicate Word(w: seq<char>) { forall i :: 0 <= i < |w| ==> Letter(w[i]) }

  /** The successor listed for `(t, c)`: the first such row. */
  function Lookup(table: seq<Row>, t: set<int>, c: char): Option<set<int>> {
    if table == [] then None
    else if table[0].state == t && table[0].input == c then Some(table[0].another)
    else Lookup(table[1..], t, c)
  }

  function Follow(table: seq<Row>, t: set<int>, w: seq<char>): Option<set<int>>
    decreases |w|
  {
    if w == [] then Some(t)
    else match Lookup(table, t, w[0])
         case None => None
         case Some(u) => Follow(table, u, w[1..])
  }

  /** The finished table: nothing left to visit. */
  ghost predicate Finished(g: Graph, table: seq<Row>, marked: set<set<int>>) {
    TableOk(g, table, marked, {}) && {1} in marked
  }

  /** Deterministic: rows for the same state and letter agree.  Total: every marked state has one for each letter. */
  lemma TableIsDeterministicAndTotal(g: Graph, table: seq<Row>, marked: set<set<int>>, i: nat, j: nat, t: set<int>,
                                     c: char)
    requires Finished(g, table, marked)
    ensures i < |table| && j < |table| && table[i].state == table[j].state && table[i].input == table[j].input ==>
      table[i] == table[j]
    ensures t in marked && Letter(c) ==> Lookup(table, t, c) == Some(Next(g, t, c)) && Next(g, t, c) in marked
  {
    if t in marked && Letter(c) {
      assert HasRow(table, t, c);
      var k :| 0 <= k < |table| && table[k].state == t && table[k].input == c;
      LookupFinds(g, table, t, c, k);
    }
  }

  lemma {:induction false} LookupFinds(g: Graph, table: seq<Row>, t: set<int>, c: char, k: nat)
    requires k < |table| && table[k].state == t && table[k].input == c
    requires forall i :: 0 <= i < |table| ==> table[i].another == Next(g, table[i].state, table[i].input)
    ensures Lookup(table, t, c) == Some(Next(g, t, c))
  {
    if !(table[0].state == t && table[0].input == c) { LookupFinds(g, table[1..], t, c, k - 1); }
  }

  /** The set of states reached by repeated `Next`. */
  ghost function Delta(g: Graph, t: set<int>, w: seq<char>): set<int>
    decreases |w|
  {
    if w == [] then t else Delta(g, Next(g, t, w[0]), w[1..])
  }

  lemma {:induction false} FollowIsDelta(g: Graph, table: seq<Row>, marked: set<set<int>>, t: set<int>, w: seq<char>)
    requires Finished(g, table, marked) && t in marked && Word(w)
    ensures Follow(table, t, w) == Some(Delta(g, t, w))
    decreases |w|
  {
    if w != [] {
      TableIsDeterministicAndTotal(g, table, marked, 0, 0, t, w[0]);
      FollowIsDelta(g, table, marked, Next(g, t, w[0]), w[1..]);
    }
  }

  // ----- Language equality -----

  /** A path out of a closed set that spells `[c] + w` leaves it by a `c`-move and goes on to spell `w`. */
  lemma {:induction false} SplitPath(g: Graph, s: set<int>, p: int, es: seq<Edge>, c: char, w: seq<char>, q: int)
    requires EpsClosed(g, s) && p in s && IsPath(g, p, es, q) && Spell(es) == [c] + w && c != EPS
    ensures Reaches(g, Move(g, s, c), w, q)
    decreases |es|
  {
    var e := es[0];
    if e.value == EPS {
      assert Spell(es) == Spell(es[1..]) && EpsEdge(g, p, e.end);
      SplitPath(g, s, e.end, es[1..], c, w, q);
    } else {
      assert Spell(es) == [e.value] + Spell(es[1..]);
      assert e.value == Spell(es)[0] == c && Spell(es[1..]) == Spell(es)[1..] == w;
      InMove(g, s, c, e.end);
    }
  }

  lemma ClosureIsClosed(g: Graph, from: set<int>)
    ensures EpsClosed(g, Closure(g, from)) && from <= Closure(g, from)
  {
    forall p, q | p in Closure(g, from) && EpsEdge(g, p, q) ensures q in Closure(g, from) {
      var e :| e in Out(g, p) && e.value == EPS && e.end == q;
      InClosure(g, from, p);
      ReachesByEps(g, from, p, e);
      InClosure(g, from, q);
    }
    forall p | p in from ensures p in Closure(g, from) {
      assert IsPath(g, p, [], p) && Spell([]) == [];
      InClosure(g, from, p);
    }
  }

  lemma ReachIntoNext(g: Graph, s: set<int>, c: char, w: seq<char>, q: int)
    requires EpsClosed(g, s) && c != EPS && Reaches(g, s, [c] + w, q)
    ensures Reaches(g, Next(g, s, c), w, q)
  {
    var p, es :| p in s && IsPath(g, p, es, q) && Spell(es) == [c] + w;
    SplitPath(g, s, p, es, c, w, q);
    var y, rest :| y in Move(g, s, c) && IsPath(g, y, rest, q) && Spell(rest) == w;
    ClosureIsClosed(g, Move(g, s, c));
    assert y in Next(g, s, c);
  }

  /** A state of `Next` is reached by a `c`-edge and then epsilon edges. */
  lemma NextSource(g: Graph, s: set<int>, c: char, z: int) returns (p: int, e: Edge, eps: seq<Edge>)
    requires z in Next(g, s, c)
    ensures p in s && e in Out(g, p) && e.value == c && IsPath(g, e.end, eps, z) && Spell(eps) == []
  {
    InClosure(g, Move(g, s, c), z);
    var y: int;
    y, eps :| y in Move(g, s, c) && IsPath(g, y, eps, z) && Spell(eps) == [];
    InMove(g, s, c, y);
    p, e :| p in s && e in Out(g, p) && e.value == c && e.end == y;
  }

  lemma ThroughNext(g: Graph, p: int, e: Edge, eps: seq<Edge>, z: int, rest: seq<Edge>, q: int) returns (es: seq<Edge>)
    requires e in Out(g, p) && IsPath(g, e.end, eps, z) && Spell(eps) == [] && IsPath(g, z, rest, q)
    ensures IsPath(g, p, es, q) && Spell(es) == Label(e) + Spell(rest)
  {
    var tail := eps + rest;
    PathConcat(g, e.end, eps, z, rest, q);
    SpellConcat(eps, rest);
    assert Spell(tail) == Spell(rest);
    es := [e] + tail;
    assert es[0] == e && es[1..] == tail;
  }

  lemma ReachFromNext(g: Graph, s: set<int>, c: char, w: seq<char>, q: int)
    requires c != EPS && Reaches(g, Next(g, s, c), w, q)
    ensures Reaches(g, s, [c] + w, q)
  {
    var z, rest :| z in Next(g, s, c) && IsPath(g, z, rest, q) && Spell(rest) == w;
    var p, e, eps := NextSource(g, s, c, z);
    var es := ThroughNext(g, p, e, eps, z, rest, q);
  }

  /** From a closed set, one more letter: what is reachable on `[c] + w` is what is reachable on `w` after `Next`. */
  lemma ReachAfterLetter(g: Graph, s: set<int>, c: char, w: seq<char>, q: int)
    requires EpsClosed(g, s) && c != EPS
    ensures Reaches(g, s, [c] + w, q) <==> Reaches(g, Next(g, s, c), w, q)
  {
    if Reaches(g, s, [c] + w, q) { ReachIntoNext(g, s, c, w, q); }
    if Reaches(g, Next(g, s, c), w, q) { ReachFromNext(g, s, c, w, q); }
  }

  lemma {:induction false} DeltaIsReach(g: Graph, s: set<int>, w: seq<char>, q: int)
    requires EpsClosed(g, s) && Word(w)
    ensures q in Delta(g, s, w) <==> Reaches(g, s, w, q)
    decreases |w|
  {
    if w == [] {
      if q in s { assert IsPath(g, q, [], q) && Spell([]) == []; }
      if Reaches(g, s, w, q) {
        var p, es :| p in s && IsPath(g, p, es, q) && Spell(es) == [];
        ClosedAbsorbs(g, s, p, es, q);
      }
    } else {
      assert w == [w[0]] + w[1..];
      ReachAfterLetter(g, s, w[0], w[1..], q);
      ClosureIsClosed(g, Move(g, s, w[0]));
      DeltaIsReach(g, Next(g, s, w[0]), w[1..], q);
    }
  }

  /** The seed `{1}` needs no closing: no epsilon edge leads out of state 1. */
  predicate StartIsClosed(g: Graph) {
    forall e :: e in Out(g, 1) && e.value == EPS ==> e.end == 1
  }

  /** The table recognises what the automaton does: on every word it leads to exactly the reachable states. */
  ghost predicate Exact(g: Graph, table: seq<Row>) {
    forall w :: Word(w) ==> ExactOn(g, table, w)
  }

  ghost predicate ExactOn(g: Graph, table: seq<Row>, w: seq<char>) {
    var r := Follow(table, {1}, w);
    r.Some? && forall q :: q in r.value <==> Reaches(g, {1}, w, q)
  }

  /** `solve`'s table is exact on every word if and only if the unclosed seed was already closed. */
  lemma TableIsExactIff(g: Graph, table: seq<Row>, marked: set<set<int>>)
    requires Finished(g, table, marked)
    ensures Exact(g, table) <==> StartIsClosed(g)
  {
    if StartIsClosed(g) {
      assert EpsClosed(g, {1});
      forall w | Word(w) ensures ExactOn(g, table, w) {
        FollowIsDelta(g, table, marked, {1}, w);
        forall q ensures q in Delta(g, {1}, w) <==> Reaches(g, {1}, w, q) { DeltaIsReach(g, {1}, w, q); }
      }
    }
    if Exact(g, table) {
      assert Word([]) && ExactOn(g, table, []);
      forall e | e in Out(g, 1) && e.value == EPS ensures e.end == 1 {
        OneEdge(g, 1, e);
        assert Reaches(g, {1}, [], e.end);
      }
    }
  }
}
