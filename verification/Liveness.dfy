/**
 The in-place liveness iteration of compiler/Homework_10_1_b.java, for an arbitrary
 control-flow graph on nodes `1..n`: each round overwrites `in[i]` from the old `out[i]`
 and `out[i]` from whatever the successors' `in` hold at that moment, until a round
 changes nothing.
 */
module Liveness {
  import opened Wrappers

  type Vars = set<char>

  datatype Flow = Flow(n: nat, succ: map<int, seq<int>>, use: map<int, seq<char>>, def: map<int, seq<char>>)

  predicate IsNode(f: Flow, i: int) { 1 <= i <= f.n }

  /** Every node has its three lists, and successors are nodes. */
  ghost predicate WellFormed(f: Flow) {
    forall i :: IsNode(f, i) ==>
      && i in f.succ && i in f.use && i in f.def
      && forall k :: 0 <= k < |f.succ[i]| ==> IsNode(f, f.succ[i][k])
  }

  // ----- Meaning: a use is reached before any definition -----

  /** `ps` walks the graph from its first node. */
  ghost predicate IsWalk(f: Flow, ps: seq<int>)
    requires WellFormed(f)
  {
    && |ps| > 0
    && (forall k :: 0 <= k < |ps| ==> IsNode(f, ps[k]))
    && (forall k, m :: 0 <= k < m < |ps| && m == k + 1 ==> ps[m] in f.succ[ps[k]])
  }

  /** The walk ends in a use of `v`, and no earlier node defines it. */
  ghost predicate Witness(f: Flow, ps: seq<int>, v: char)
    requires WellFormed(f)
  {
    && IsWalk(f, ps)
    && v in f.use[ps[|ps| - 1]]
    && forall k :: 0 <= k < |ps| - 1 ==> v !in f.def[ps[k]]
  }

  ghost predicate LiveIn(f: Flow, i: int, v: char)
    requires WellFormed(f)
  {
    exists ps :: Witness(f, ps, v) && ps[0] == i
  }

  // ----- The dataflow equations -----

  type Sets = map<int, Vars>

  ghost predicate Total(f: Flow, m: Sets) { forall i :: IsNode(f, i) ==> i in m }

  function ToSet(xs: seq<char>): Vars { set k | 0 <= k < |xs| :: xs[k] }

  lemma InToSet(xs: seq<char>, v: char)
    ensures v in ToSet(xs) <==> v in xs
  {
  }

  ghost function InOf(f: Flow, out: Sets, i: int): Vars
    requires WellFormed(f) && IsNode(f, i) && Total(f, out)
  { ToSet(f.use[i]) + (out[i] - ToSet(f.def[i])) }

  ghost function OutOf(f: Flow, inn: Sets, i: int): Vars
    requires WellFormed(f) && IsNode(f, i) && Total(f, inn)
  { set k, v | 0 <= k < |f.succ[i]| && v in inn[f.succ[i][k]] :: v }

  /** `in` and `out` satisfy both equations at every node. */
  ghost predicate Solution(f: Flow, inn: Sets, out: Sets)
    requires WellFormed(f)
  {
    && Total(f, inn) && Total(f, out)
    && forall i :: IsNode(f, i) ==> inn[i] == InOf(f, out, i) && out[i] == OutOf(f, inn, i)
  }

  // ----- What every update keeps -----

  /** Values only ever grow towards the equations, and only live variables are recorded. */
  ghost predicate Partial(f: Flow, inn: Sets, out: Sets)
    requires WellFormed(f)
  {
    && Total(f, inn) && Total(f, out)
    && (forall i {:trigger InOf(f, out, i)} :: IsNode(f, i) ==> inn[i] <= InOf(f, out, i))
    && (forall i {:trigger OutOf(f, inn, i)} :: IsNode(f, i) ==> out[i] <= OutOf(f, inn, i))
    && (forall i, v {:trigger LiveIn(f, i, v)} :: IsNode(f, i) && v in inn[i] ==> LiveIn(f, i, v))
  }

  /** A variable live after `i` and not defined by it is live before `i`. */
  lemma LiveBefore(f: Flow, i: int, s: int, v: char)
    requires WellFormed(f) && IsNode(f, i) && s in f.succ[i] && LiveIn(f, s, v) && v !in f.def[i]
    ensures LiveIn(f, i, v)
  {
    var ps :| Witness(f, ps, v) && ps[0] == s;
    var qs := [i] + ps;
    assert qs[|qs| - 1] == ps[|ps| - 1];
    assert forall k, m :: 0 <= k < m < |qs| && m == k + 1 ==> qs[m] in f.succ[qs[k]];
    assert Witness(f, qs, v) && qs[0] == i;
  }

  lemma UseIsLive(f: Flow, i: int, v: char)
    requires WellFormed(f) && IsNode(f, i) && v in f.use[i]
    ensures LiveIn(f, i, v)
  {
    assert Witness(f, [i], v) && [i][0] == i;
  }

  lemma InOfIsLive(f: Flow, inn: Sets, out: Sets, i: int, v: char)
    requires WellFormed(f) && Partial(f, inn, out) && IsNode(f, i) && v in InOf(f, out, i)
    ensures LiveIn(f, i, v)
  {
    InToSet(f.use[i], v);
    if v in f.use[i] {
      UseIsLive(f, i, v);
    } else {
      assert v in out[i] && v in OutOf(f, inn, i);
      var k :| 0 <= k < |f.succ[i]| && v in inn[f.succ[i][k]];
      assert f.succ[i][k] in f.succ[i];
      InToSet(f.def[i], v);
      LiveBefore(f, i, f.succ[i][k], v);
    }
  }

  /** Updating one node in place keeps `Partial`, and no set shrinks. */
  lemma UpdateKeeps(f: Flow, inn: Sets, out: Sets, i: int)
    requires WellFormed(f) && Partial(f, inn, out) && IsNode(f, i)
    ensures Partial(f, inn[i := InOf(f, out, i)], out[i := OutOf(f, inn, i)])
    ensures inn[i] <= InOf(f, out, i) && out[i] <= OutOf(f, inn, i)
  {
    var inn', out' := inn[i := InOf(f, out, i)], out[i := OutOf(f, inn, i)];
    forall j | IsNode(f, j) ensures inn'[j] <= InOf(f, out', j) && out'[j] <= OutOf(f, inn', j) {
      assert inn[j] <= InOf(f, out, j) && out[j] <= OutOf(f, inn, j);
      OutOfGrows(f, inn, inn', j);
    }
    forall j, v | IsNode(f, j) && v in inn'[j] ensures LiveIn(f, j, v) {
      if j == i { InOfIsLive(f, inn, out, i, v); }
    }
  }

  lemma OutOfGrows(f: Flow, inn: Sets, inn': Sets, j: int)
    requires WellFormed(f) && IsNode(f, j) && Total(f, inn) && Total(f, inn')
    requires forall k :: IsNode(f, k) ==> inn[k] <= inn'[k]
    ensures OutOf(f, inn, j) <= OutOf(f, inn', j)
  {
  }

  // ----- A solution is exactly liveness -----

  /** Whatever is live is in every solution. */
  lemma {:induction false} LiveInSolution(f: Flow, inn: Sets, out: Sets, ps: seq<int>, v: char)
    requires WellFormed(f) && Solution(f, inn, out) && Witness(f, ps, v)
    ensures v in inn[ps[0]]
    decreases |ps|
  {
    var i := ps[0];
    if |ps| == 1 {
      assert v in ToSet(f.use[i]);
    } else {
      assert Witness(f, ps[1..], v);
      LiveInSolution(f, inn, out, ps[1..], v);
      var k :| 0 <= k < |f.succ[i]| && f.succ[i][k] == ps[1];
      assert v in OutOf(f, inn, i);
      assert v !in ToSet(f.def[i]);
    }
  }

  /** A solution all of whose members are live is path liveness itself, and lies below every other solution. */
  lemma SolutionIsLiveness(f: Flow, inn: Sets, out: Sets)
    requires WellFormed(f) && Solution(f, inn, out) && Partial(f, inn, out)
    ensures forall i, v :: IsNode(f, i) ==> (v in inn[i] <==> LiveIn(f, i, v))
    ensures forall inn2, out2 :: Solution(f, inn2, out2) ==> Below(f, inn, inn2) && Below(f, out, out2)
  {
    forall i, v | IsNode(f, i) ensures v in inn[i] <==> LiveIn(f, i, v) {
      if LiveIn(f, i, v) {
        var ps :| Witness(f, ps, v) && ps[0] == i;
        LiveInSolution(f, inn, out, ps, v);
      }
    }
    forall inn2, out2 | Solution(f, inn2, out2) ensures Below(f, inn, inn2) && Below(f, out, out2) {
      forall i, v | IsNode(f, i) && v in inn[i] ensures v in inn2[i] {
        var ps :| Witness(f, ps, v) && ps[0] == i;
        LiveInSolution(f, inn2, out2, ps, v);
      }
      forall i | IsNode(f, i) ensures out[i] <= out2[i] { OutOfGrows(f, inn, inn2, i); }
    }
  }

  ghost predicate Below(f: Flow, a: Sets, b: Sets)
    requires Total(f, a) && Total(f, b)
  { forall i :: IsNode(f, i) ==> a[i] <= b[i] }

  // ----- The loop -----

  type OldSets = map<int, Option<Vars>>

  /** `isSame`: the last round left every set as it found it. */
  method IsSame(f: Flow, inn: Sets, out: Sets, oldIn: OldSets, oldOut: OldSets) returns (same: bool)
    requires Total(f, inn) && Total(f, out)
    requires forall i :: IsNode(f, i) ==> i in oldIn && i in oldOut
    ensures same <==> forall i :: IsNode(f, i) ==> oldIn[i] == Some(inn[i]) && oldOut[i] == Some(out[i])
  {
    for i := 1 to f.n + 1
      invariant forall k :: 1 <= k < i ==> oldIn[k] == Some(inn[k]) && oldOut[k] == Some(out[k])
    {
      if oldIn[i] != Some(inn[i]) || oldOut[i] != Some(out[i]) {
        assert IsNode(f, i);
        return false;
      }
    }
    same := true;
  }

  /** `diffSet`: copy the set and remove the listed elements one by one. */
  method DiffSet(s1: Vars, s2: seq<char>) returns (r: Vars)
    ensures r == s1 - ToSet(s2)
  {
    r := s1;
    for k := 0 to |s2|
      invariant r == s1 - ToSet(s2[..k])
    {
      assert s2[..k + 1] == s2[..k] + [s2[k]];
      assert ToSet(s2[..k + 1]) == ToSet(s2[..k]) + {s2[k]};
      r := r - {s2[k]};
    }
    assert s2[..|s2|] == s2;
  }

  /** The union of the successors' `in` sets. */
  method UnionOfSuccessors(f: Flow, inn: Sets, i: int) returns (r: Vars)
    requires WellFormed(f) && IsNode(f, i) && Total(f, inn)
    ensures r == OutOf(f, inn, i)
  {
    r := {};
    var ss := f.succ[i];
    for k := 0 to |ss|
      invariant forall v :: v in r <==> exists m :: 0 <= m < k && v in inn[ss[m]]
    {
      r := r + inn[ss[k]];
    }
  }

  /** All recorded facts, as one finite set: its complement shrinks when anything grows. */
  ghost function Facts(f: Flow, inn: Sets, out: Sets): set<(int, bool, char)>
    requires Total(f, inn) && Total(f, out)
  {
    (set i, v | 1 <= i <= f.n && v in inn[i] :: (i, true, v)) + (set i, v | 1 <= i <= f.n && v in out[i] :: (i, false, v))
  }

  ghost function AllVars(f: Flow): Vars
    requires WellFormed(f)
  { set i, k | 1 <= i <= f.n && 0 <= k < |f.use[i]| :: f.use[i][k] }

  ghost function AllFacts(f: Flow): set<(int, bool, char)>
    requires WellFormed(f)
  { set i, b, v | 1 <= i <= f.n && v in AllVars(f) :: (i, b, v) }

  lemma LiveIsUsed(f: Flow, i: int, v: char)
    requires WellFormed(f) && LiveIn(f, i, v)
    ensures v in AllVars(f)
  {
    var ps :| Witness(f, ps, v) && ps[0] == i;
    var j := ps[|ps| - 1];
    var k :| 0 <= k < |f.use[j]| && f.use[j][k] == v;
    assert IsNode(f, j);
  }

  lemma FactsBounded(f: Flow, inn: Sets, out: Sets)
    requires WellFormed(f) && Partial(f, inn, out)
    ensures Facts(f, inn, out) <= AllFacts(f)
  {
    forall i, v | IsNode(f, i) && v in inn[i] ensures v in AllVars(f) { LiveIsUsed(f, i, v); }
    forall i, v | IsNode(f, i) && v in out[i] ensures v in AllVars(f) {
      assert v in OutOf(f, inn, i);
      var k :| 0 <= k < |f.succ[i]| && v in inn[f.succ[i][k]];
      LiveIsUsed(f, f.succ[i][k], v);
    }
  }

  /** Growth somewhere means more facts. */
  lemma FactsGrow(f: Flow, inn: Sets, out: Sets, inn2: Sets, out2: Sets)
    requires Total(f, inn) && Total(f, out) && Total(f, inn2) && Total(f, out2)
    requires Below(f, inn, inn2) && Below(f, out, out2)
    requires exists i :: IsNode(f, i) && (inn[i] != inn2[i] || out[i] != out2[i])
    ensures Facts(f, inn, out) < Facts(f, inn2, out2)
  {
    var i :| IsNode(f, i) && (inn[i] != inn2[i] || out[i] != out2[i]);
    if inn[i] != inn2[i] {
      var v :| v in inn2[i] && v !in inn[i];
      assert (i, true, v) in Facts(f, inn2, out2) && (i, true, v) !in Facts(f, inn, out);
    } else {
      var v :| v in out2[i] && v !in out[i];
      assert (i, false, v) in Facts(f, inn2, out2) && (i, false, v) !in Facts(f, inn, out);
    }
  }

  /** Both equations hold at the nodes before `i`. */
  ghost predicate SolvedUpTo(f: Flow, i: int, inn: Sets, out: Sets)
    requires WellFormed(f) && Total(f, inn) && Total(f, out)
  {
    forall k :: 1 <= k < i && IsNode(f, k) ==> inn[k] == InOf(f, out, k) && out[k] == OutOf(f, inn, k)
  }

  ghost predicate Differs(f: Flow, inn0: Sets, out0: Sets, inn: Sets, out: Sets)
    requires Total(f, inn0) && Total(f, out0) && Total(f, inn) && Total(f, out)
  {
    exists k :: IsNode(f, k) && (inn[k] != inn0[k] || out[k] != out0[k])
  }

  /** A set that grew at one node stays grown. */
  lemma DifferenceStays(f: Flow, inn0: Sets, out0: Sets, inn: Sets, out: Sets, inn2: Sets, out2: Sets)
    requires Total(f, inn0) && Total(f, out0) && Total(f, inn) && Total(f, out) && Total(f, inn2) && Total(f, out2)
    requires Below(f, inn0, inn) && Below(f, out0, out) && Below(f, inn, inn2) && Below(f, out, out2)
    requires Differs(f, inn0, out0, inn, out)
    ensures Differs(f, inn0, out0, inn2, out2)
  {
    var k :| IsNode(f, k) && (inn[k] != inn0[k] || out[k] != out0[k]);
  }

  /** The loop body for one node: `in` from the current `out`, `out` from the successors' current `in`. */
  method Update(f: Flow, i: int, inn0: Sets, out0: Sets) returns (inn: Sets, out: Sets)
    requires WellFormed(f) && IsNode(f, i) && Total(f, inn0) && Total(f, out0)
    ensures inn == inn0[i := InOf(f, out0, i)] && out == out0[i := OutOf(f, inn0, i)]
  {
    var rest := DiffSet(out0[i], f.def[i]);
    var newIn := ToSet(f.use[i]) + rest;
    var newOut := UnionOfSuccessors(f, inn0, i);
    inn, out := inn0[i := newIn], out0[i := newOut];
  }

  /** One pass of the loop body over all nodes, in place. */
  method Round(f: Flow, inn0: Sets, out0: Sets)
    returns (inn: Sets, out: Sets, oldIn: OldSets, oldOut: OldSets, ghost quiet: bool)
    requires WellFormed(f) && Partial(f, inn0, out0)
    ensures Partial(f, inn, out) && Below(f, inn0, inn) && Below(f, out0, out)
    ensures forall i :: IsNode(f, i) ==>
      i in oldIn && oldIn[i] == Some(inn0[i]) && i in oldOut && oldOut[i] == Some(out0[i])
    ensures quiet ==> inn == inn0 && out == out0 && SolvedUpTo(f, f.n + 1, inn0, out0)
    ensures !quiet ==> Differs(f, inn0, out0, inn, out)
  {
    inn, out, quiet := inn0, out0, true;
    oldIn, oldOut := map[], map[];
    for i := 1 to f.n + 1
      invariant Partial(f, inn, out) && Progress(f, i, inn0, out0, inn, out, quiet)
      invariant forall k :: 1 <= k < i ==>
        k in oldIn && oldIn[k] == Some(inn0[k]) && k in oldOut && oldOut[k] == Some(out0[k])
    {
      assert IsNode(f, i);
      oldIn, oldOut := oldIn[i := Some(inn[i])], oldOut[i := Some(out[i])];
      UpdateKeeps(f, inn, out, i);
      quiet := RoundStep(f, i, inn0, out0, inn, out, quiet);
      inn, out := Update(f, i, inn, out);
    }
  }

  /** After the nodes before `i`: either nothing changed and their equations hold, or something grew. */
  ghost predicate Progress(f: Flow, i: int, inn0: Sets, out0: Sets, inn: Sets, out: Sets, quiet: bool)
    requires WellFormed(f) && Total(f, inn0) && Total(f, out0) && Total(f, inn) && Total(f, out)
  {
    && Below(f, inn0, inn) && Below(f, out0, out)
    && (forall k :: i <= k <= f.n && IsNode(f, k) ==> inn[k] == inn0[k] && out[k] == out0[k])
    && (quiet ==> inn == inn0 && out == out0 && SolvedUpTo(f, i, inn0, out0))
    && (!quiet ==> Differs(f, inn0, out0, inn, out))
  }

  lemma RoundStep(f: Flow, i: int, inn0: Sets, out0: Sets, inn: Sets, out: Sets, quiet: bool) returns (quiet': bool)
    requires WellFormed(f) && Total(f, inn0) && Total(f, out0) && Total(f, inn) && Total(f, out) && IsNode(f, i)
    requires Progress(f, i, inn0, out0, inn, out, quiet) && inn[i] <= InOf(f, out, i) && out[i] <= OutOf(f, inn, i)
    ensures Progress(f, i + 1, inn0, out0, inn[i := InOf(f, out, i)], out[i := OutOf(f, inn, i)], quiet')
  {
    var inn', out' := inn[i := InOf(f, out, i)], out[i := OutOf(f, inn, i)];
    quiet' := quiet && inn' == inn0 && out' == out0;
    if !quiet {
      DifferenceStays(f, inn0, out0, inn, out, inn', out');
    } else if !quiet' {
      assert inn' != inn0 ==> inn'[i] != inn0[i];
      assert out' != out0 ==> out'[i] != out0[i];
    }
  }

  /** The static initializer: empty sets, and no previous round. */
  method Start(f: Flow) returns (inn: Sets, out: Sets, same: bool)
    requires WellFormed(f)
    ensures Partial(f, inn, out) && (same ==> Solution(f, inn, out))
  {
    var oldIn: OldSets, oldOut: OldSets := map[], map[];
    inn, out := map[], map[];
    for i := 1 to f.n + 1
      invariant forall k :: 1 <= k < i ==> k in inn && inn[k] == {} && k in out && out[k] == {}
      invariant forall k :: 1 <= k < i ==> k in oldIn && oldIn[k] == None && k in oldOut && oldOut[k] == None
    {
      inn, out := inn[i := {}], out[i := {}];
      oldIn, oldOut := oldIn[i := None], oldOut[i := None];
    }
    same := IsSame(f, inn, out, oldIn, oldOut);
    assert f.n > 0 ==> IsNode(f, 1);
  }

  /** `main`: iterate rounds until `isSame`; the result is the least solution, which is path liveness. */
  method Analyse(f: Flow) returns (inn: Sets, out: Sets)
    requires WellFormed(f)
    ensures Solution(f, inn, out)
    ensures forall i, v :: IsNode(f, i) ==> (v in inn[i] <==> LiveIn(f, i, v))
    ensures forall inn2, out2 :: Solution(f, inn2, out2) ==> Below(f, inn, inn2) && Below(f, out, out2)
  {
    var same;
    inn, out, same := Start(f);
    while !same
      invariant Partial(f, inn, out)
      invariant same ==> Solution(f, inn, out)
      decreases AllFacts(f) - Facts(f, inn, out), !same
    {
      inn, out, same := Iterate(f, inn, out);
    }
    SolutionIsLiveness(f, inn, out);
  }

  /** One round and the test whether it changed anything. */
  method Iterate(f: Flow, inn0: Sets, out0: Sets) returns (inn: Sets, out: Sets, same: bool)
    requires WellFormed(f) && Partial(f, inn0, out0)
    ensures Partial(f, inn, out) && (same ==> Solution(f, inn, out))
    ensures AllFacts(f) - Facts(f, inn, out) <= AllFacts(f) - Facts(f, inn0, out0)
    ensures !same ==> AllFacts(f) - Facts(f, inn, out) < AllFacts(f) - Facts(f, inn0, out0)
  {
    var oldIn, oldOut;
    ghost var quiet;
    inn, out, oldIn, oldOut, quiet := Round(f, inn0, out0);
    same := IsSame(f, inn, out, oldIn, oldOut);
    RoundProgress(f, inn0, out0, inn, out, same);
  }

  lemma RoundProgress(f: Flow, inn0: Sets, out0: Sets, inn: Sets, out: Sets, same: bool)
    requires WellFormed(f) && Partial(f, inn, out) && Total(f, inn0) && Total(f, out0)
    requires Below(f, inn0, inn) && Below(f, out0, out)
    requires same <==> forall i :: IsNode(f, i) ==> inn0[i] == inn[i] && out0[i] == out[i]
    ensures AllFacts(f) - Facts(f, inn, out) <= AllFacts(f) - Facts(f, inn0, out0)
    ensures !same ==> AllFacts(f) - Facts(f, inn, out) < AllFacts(f) - Facts(f, inn0, out0)
  {
    FactsBounded(f, inn, out);
    if same {
      assert Facts(f, inn, out) == Facts(f, inn0, out0);
    } else {
      FactsGrow(f, inn0, out0, inn, out);
    }
  }
}
