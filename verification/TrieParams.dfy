/**
 The parameters that `getRoute` of go-gee-demo/gee-web/gee/router.go takes from a path: what they are
 bound to, and that a pattern filled with them is the path again.
 */
module TrieParams {
  import opened TrieRouter
  import opened TriePaths

  /** A part that binds a parameter: `:name`, or a star with a name. */
  predicate Binds(part: string) { Colon(part) || (Star(part) && |part| > 1) }

  function Name(part: string): string
    requires part != ""
  { part[1..] }

  /** What the part at position `i` stands for: its segment, or for a star all that are left. */
  function Bound(parts: seq<string>, segs: seq<string>, i: nat): string
    requires i < |parts| <= |segs|
  { if Colon(parts[i]) then segs[i] else JoinSlash(segs[i..]) }

  /** No binding part from `i + 1` up to `n` has the name of part `i`. */
  predicate LastOfName(parts: seq<string>, i: nat, n: nat)
    requires i < n <= |parts| && Binds(parts[i])
  { forall j :: i < j < n && Binds(parts[j]) ==> Name(parts[j]) != Name(parts[i]) }

  /** The names that the first `n` parts bind. */
  function Names(parts: seq<string>, n: nat): set<string>
    requires n <= |parts|
  { set i | 0 <= i < n && Binds(parts[i]) :: Name(parts[i]) }

  /** The first `n` parts bind exactly these names, each to what its last part stands for. */
  ghost predicate BoundBy(parts: seq<string>, segs: seq<string>, n: nat, params: map<string, string>)
    requires n <= |parts| <= |segs|
  {
    && params.Keys == Names(parts, n)
    && forall i :: 0 <= i < n && Binds(parts[i]) && LastOfName(parts, i, n) ==>
       params[Name(parts[i])] == Bound(parts, segs, i)
  }

  /** A star with a name is bound to a value that splits into exactly the segments that are left. */
  ghost predicate StarTakesTheRest(parts: seq<string>, segs: seq<string>, params: map<string, string>)
    requires |parts| <= |segs|
  {
    var n := |parts| - 1;
    parts != [] && Star(parts[n]) && |parts[n]| > 1 && NoSlashes(segs) ==>
      Name(parts[n]) in params && Split(params[Name(parts[n])]) == segs[n..]
  }

  lemma StarIsBound(parts: seq<string>, segs: seq<string>, params: map<string, string>)
    requires |parts| <= |segs| && BoundBy(parts, segs, |parts|, params)
    ensures StarTakesTheRest(parts, segs, params)
  {
    var n := |parts| - 1;
    if parts != [] && Star(parts[n]) && |parts[n]| > 1 && NoSlashes(segs) {
      SplitOfJoin(segs[n..]);
      assert LastOfName(parts, n, |parts|) && Name(parts[n]) in Names(parts, |parts|);
    }
  }

  lemma OneMoreName(parts: seq<string>, n: nat)
    requires n < |parts|
    ensures Names(parts, n + 1) == Names(parts, n) + (if Binds(parts[n]) then {Name(parts[n])} else {})
  {
  }

  lemma StillLast(parts: seq<string>, i: nat, n: nat)
    requires i < n < |parts| && Binds(parts[i]) && LastOfName(parts, i, n + 1)
    ensures LastOfName(parts, i, n) && (Binds(parts[n]) ==> Name(parts[n]) != Name(parts[i]))
  {
  }

  lemma BoundLater(parts: seq<string>, segs: seq<string>, n: nat, params: map<string, string>, i: nat)
    requires n < |parts| <= |segs| && BoundBy(parts, segs, n, params)
    requires i < n + 1 && Binds(parts[i]) && LastOfName(parts, i, n + 1)
    ensures var params' := if Binds(parts[n]) then params[Name(parts[n]) := Bound(parts, segs, n)] else params;
            Name(parts[i]) in params' && params'[Name(parts[i])] == Bound(parts, segs, i)
  {
    if i < n {
      StillLast(parts, i, n);
      assert Name(parts[i]) in Names(parts, n);
    }
  }

  lemma BindOne(parts: seq<string>, segs: seq<string>, n: nat, params: map<string, string>)
    requires n < |parts| <= |segs| && BoundBy(parts, segs, n, params)
    ensures BoundBy(parts, segs, n + 1, if Binds(parts[n]) then params[Name(parts[n]) := Bound(parts, segs, n)] else params)
  {
    OneMoreName(parts, n);
    var params' := if Binds(parts[n]) then params[Name(parts[n]) := Bound(parts, segs, n)] else params;
    assert params'.Keys == Names(parts, n + 1);
    forall i | 0 <= i < n + 1 && Binds(parts[i]) && LastOfName(parts, i, n + 1)
      ensures params'[Name(parts[i])] == Bound(parts, segs, i)
    {
      BoundLater(parts, segs, n, params, i);
    }
  }

  /** The loop of `getRoute` that fills the parameters. */
  method Bind(parts: seq<string>, searchParts: seq<string>) returns (params: map<string, string>)
    requires Segments(parts) && |parts| <= |searchParts|
    ensures BoundBy(parts, searchParts, |parts|, params)
    ensures StarTakesTheRest(parts, searchParts, params)
    ensures Rebuildable(parts) && Matches(parts, searchParts) ==>
      JoinSlash(Filled(parts, params)) == JoinSlash(searchParts)
  {
    params := map[];
    for index := 0 to |parts|
      invariant BoundBy(parts, searchParts, index, params)
    {
      var part := parts[index];
      BindOne(parts, searchParts, index, params);
      if part[0] == ':' { params := params[part[1..] := searchParts[index]]; }
      if part[0] == '*' && |part| > 1 {
        params := params[part[1..] := JoinSlash(searchParts[index..])];
        assert index + 1 == |parts|;
        break;
      }
    }
    StarIsBound(parts, searchParts, params);
    if Rebuildable(parts) && Matches(parts, searchParts) { FilledIsPath(parts, searchParts, params); }
  }

  /** The parameters are determined. */
  lemma BindingIsUnique(parts: seq<string>, segs: seq<string>, a: map<string, string>, b: map<string, string>)
    requires |parts| <= |segs| && BoundBy(parts, segs, |parts|, a) && BoundBy(parts, segs, |parts|, b)
    ensures a == b
  {
    forall name | name in Names(parts, |parts|) ensures a[name] == b[name] {
      var i :| 0 <= i < |parts| && Binds(parts[i]) && Name(parts[i]) == name;
      var k := LastWith(parts, i);
      assert a[Name(parts[k])] == Bound(parts, segs, k) == b[Name(parts[k])];
    }
  }

  lemma {:induction false} LastWith(parts: seq<string>, i: nat) returns (k: nat)
    requires i < |parts| && Binds(parts[i])
    ensures k < |parts| && Binds(parts[k]) && Name(parts[k]) == Name(parts[i]) && LastOfName(parts, k, |parts|)
    decreases |parts| - i
  {
    if j :| i < j < |parts| && Binds(parts[j]) && Name(parts[j]) == Name(parts[i]) {
      k := LastWith(parts, j);
    } else {
      k := i;
    }
  }

  // ----- Filling the pattern -----

  /** Names are distinct, and a star has one. */
  predicate Rebuildable(parts: seq<string>) {
    && (forall i, j :: 0 <= i < j < |parts| && Binds(parts[i]) && Binds(parts[j]) ==> Name(parts[i]) != Name(parts[j]))
    && (forall i :: 0 <= i < |parts| && Star(parts[i]) ==> Binds(parts[i]))
  }

  /** The pattern's parts with every parameter replaced by its value. */
  function Filled(parts: seq<string>, params: map<string, string>): seq<string>
    requires Names(parts, |parts|) <= params.Keys
  {
    seq(|parts|, i requires 0 <= i < |parts| => if Binds(parts[i]) then params[Name(parts[i])] else parts[i])
  }

  lemma {:induction false} MatchesAt(parts: seq<string>, segs: seq<string>, i: nat)
    requires Matches(parts, segs) && i < |parts|
    ensures |parts| <= |segs|
    ensures !Star(parts[i]) ==> Colon(parts[i]) || parts[i] == segs[i]
    ensures Star(parts[i]) ==> i == |parts| - 1
    ensures !Star(parts[|parts| - 1]) ==> |parts| == |segs|
    decreases |parts|
  {
    if !Star(parts[0]) && |parts| > 1 { MatchesAt(parts[1..], segs[1..], if i > 0 then i - 1 else 0); }
  }

  lemma {:induction false} JoinRest(a: seq<string>, b: seq<string>)
    requires b != []
    ensures JoinSlash(a + [JoinSlash(b)]) == JoinSlash(a + b)
    decreases |a|
  {
    if a == [] {
      assert a + b == b && a + [JoinSlash(b)] == [JoinSlash(b)];
    } else {
      JoinRest(a[1..], b);
      assert (a + b)[1..] == a[1..] + b && (a + [JoinSlash(b)])[1..] == a[1..] + [JoinSlash(b)];
    }
  }

  lemma FilledAt(parts: seq<string>, segs: seq<string>, params: map<string, string>, i: nat)
    requires Matches(parts, segs) && i < |parts| <= |segs| && BoundBy(parts, segs, |parts|, params) &&
      Rebuildable(parts)
    ensures Filled(parts, params)[i] == if Star(parts[i]) then JoinSlash(segs[i..]) else segs[i]
  {
    MatchesAt(parts, segs, i);
    if Binds(parts[i]) { assert LastOfName(parts, i, |parts|); }
  }

  lemma SameBut<T>(a: seq<T>, b: seq<T>, n: nat)
    requires n <= |b| && |a| == n + 1 && forall i :: 0 <= i < n ==> a[i] == b[i]
    ensures a == b[..n] + [a[n]]
    ensures |b| == n + 1 && a[n] == b[n] ==> a == b
  {
  }

  /** A matching pattern filled with its parameters is the path. */
  lemma FilledIsPath(parts: seq<string>, segs: seq<string>, params: map<string, string>)
    requires Matches(parts, segs) && |parts| <= |segs| && BoundBy(parts, segs, |parts|, params) && Rebuildable(parts)
    ensures JoinSlash(Filled(parts, params)) == JoinSlash(segs)
  {
    var filled := Filled(parts, params);
    if parts == [] {
      assert filled == segs;
    } else {
      var n := |parts| - 1;
      forall i | 0 <= i < n ensures filled[i] == segs[i] {
        MatchesAt(parts, segs, i);
        FilledAt(parts, segs, params, i);
      }
      SameBut(filled, segs, n);
      MatchesAt(parts, segs, n);
      FilledAt(parts, segs, params, n);
      if Star(parts[n]) { JoinPieces(segs, n); }
    }
  }

  lemma Pieces<T>(s: seq<T>, n: nat)
    requires n <= |s|
    ensures s[..n] + s[n..] == s
  {
  }

  lemma JoinPieces(segs: seq<string>, n: nat)
    requires n < |segs|
    ensures JoinSlash(segs[..n] + [JoinSlash(segs[n..])]) == JoinSlash(segs)
  {
    Pieces(segs, n);
    JoinRest(segs[..n], segs[n..]);
  }
}
