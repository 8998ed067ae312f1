/**
 When a search of the trie of go-gee-demo/gee-web/gee/trie.go finds only patterns that match the path, for
 registrations in any order, and which pattern it finds where several match.
 */
module TrieSound {
  import opened TrieRouter
  import opened TriePaths
  import opened Wrappers

  // ----- Registrations in any order -----

  /** A path to a node that a search can reach: nothing below a star. */
  predicate Live(q: seq<string>) { forall i :: 0 <= i < |q| - 1 ==> !Star(q[i]) }

  /** Part by part, `p` accepts everything the path `q` accepts. */
  predicate Covers(p: seq<string>, q: seq<string>) {
    |p| == |q| && forall i :: 0 <= i < |p| ==> Star(p[i]) || (!Star(q[i]) && (Colon(p[i]) || p[i] == q[i]))
  }

  /** A segment that no part of the trie or of `p` equals. */
  ghost predicate Fresh(t: Tree, f: string) {
    forall i :: 0 <= i < |t.children| ==> t.children[i].part != f && Fresh(t.children[i], f)
  }

  /** The most general path that `q` accepts, with `f` in the place of every parameter. */
  function Generic(q: seq<string>, f: string): seq<string> {
    if q == [] then []
    else if Star(q[0]) then [f, f]
    else [if Colon(q[0]) then f else q[0]] + Generic(q[1..], f)
  }

  /** The most general path of a live node leads the search to exactly that node. */
  lemma {:induction false} GenericFinds(t: Tree, q: seq<string>, f: string)
    requires Shaped(t) && !Star(t.part) && Live(q) && Fresh(t, f) && At(t, q) != ""
    ensures Search(t, Generic(q, f)) == Some(At(t, q))
    decreases |q|
  {
    if q != [] {
      var segs := Generic(q, f);
      var i := Child(t.children, q[0]);
      var c := t.children[i];
      forall j | 0 <= j < i ensures !Fits(t.children[j], segs[0]) { }
      forall j | 0 <= j < |t.children| && Fits(t.children[j], segs[0]) ensures j >= i { }
      if Star(q[0]) {
        assert q == [q[0]];
        assert At(t, q) == c.pattern;
      } else {
        assert segs[1..] == Generic(q[1..], f);
        GenericFinds(c, q[1..], f);
      }
      Among(t.children, segs);
    }
  }

  // All parts below these trees are at most this long.
  function Bound(cs: seq<Tree>): nat
    decreases cs
  {
    if cs == [] then 0
    else
      var below, beside := Bound(cs[0].children), Bound(cs[1..]);
      var here := |cs[0].part|;
      if here >= below && here >= beside then here else if below >= beside then below else beside
  }

  lemma {:induction false} BoundBounds(cs: seq<Tree>, i: nat)
    requires i < |cs|
    ensures |cs[i].part| <= Bound(cs) && Bound(cs[i].children) <= Bound(cs)
    decreases |cs|
  {
    if i > 0 { BoundBounds(cs[1..], i - 1); }
  }

  lemma {:induction false} LongIsFresh(t: Tree, f: string)
    requires |f| > Bound(t.children)
    ensures Fresh(t, f)
  {
    forall i | 0 <= i < |t.children| ensures t.children[i].part != f && Fresh(t.children[i], f) {
      BoundBounds(t.children, i);
      LongIsFresh(t.children[i], f);
    }
  }

  function Longest(p: seq<string>): (n: nat)
    ensures forall i :: 0 <= i < |p| ==> |p[i]| <= n
  {
    if p == [] then 0
    else
      var rest := Longest(p[1..]);
      assert forall i :: 0 < i < |p| ==> p[i] == p[1..][i - 1];
      if |p[0]| >= rest then |p[0]| else rest
  }

  lemma {:induction false} CoversMatches(p: seq<string>, q: seq<string>, segs: seq<string>)
    requires Segments(p) && Covers(p, q) && Matches(q, segs)
    ensures Matches(p, segs)
    decreases |p|
  {
    if p != [] && !Star(p[0]) {
      assert Segments(p[1..]);
      assert forall i :: 0 <= i < |p[1..]| ==> p[1..][i] == p[i + 1] && q[1..][i] == q[i + 1];
      CoversMatches(p[1..], q[1..], segs[1..]);
    }
  }

  lemma {:induction false} MatchesGeneric(p: seq<string>, q: seq<string>, f: string)
    requires |p| == |q| && Live(q) && f !in p && Matches(p, Generic(q, f))
    ensures Covers(p, q)
    decreases |p|
  {
    if p != [] && !Star(p[0]) && !Star(q[0]) {
      assert Generic(q, f)[1..] == Generic(q[1..], f);
      MatchesGeneric(p[1..], q[1..], f);
      assert forall i :: 1 <= i < |p| ==> p[i] == p[1..][i - 1] && q[i] == q[1..][i - 1];
    }
  }

  lemma {:induction false} AtDepth(t: Tree, q: seq<string>, depth: nat)
    requires DepthOk(t, depth) && At(t, q) != ""
    ensures |Parts(At(t, q))| == depth + |q|
    decreases |q|
  {
    if q != [] { AtDepth(t.children[Child(t.children, q[0])], q[1..], depth + 1); }
  }

  lemma {:induction false} MatchedIsLive(q: seq<string>, segs: seq<string>)
    requires Matches(q, segs)
    ensures Live(q)
  {
    if q != [] && !Star(q[0]) {
      MatchedIsLive(q[1..], segs[1..]);
      assert forall i :: 1 <= i < |q| ==> q[i] == q[1..][i - 1];
    }
  }

  /** What is found for a path matches it. */
  ghost predicate Sound(t: Tree) {
    forall path :: Search(t, Parts(path)).Some? ==> Matches(Parts(Search(t, Parts(path)).value), Parts(path))
  }

  /** The pattern kept at each live node covers the path that leads there. */
  ghost predicate Covered(t: Tree) {
    forall q :: Live(q) && At(t, q) != "" ==> Covers(Parts(At(t, q)), q)
  }

  lemma {:induction false} StoredSegments(t: Tree, q: seq<string>)
    requires Shaped(t) && SlashFree(t) && At(t, q) != ""
    ensures NoSlashes(q) && forall i :: 0 <= i < |q| ==> q[i] != ""
    decreases |q|
  {
    if q != [] {
      StoredSegments(t.children[Child(t.children, q[0])], q[1..]);
      assert forall i :: 1 <= i < |q| ==> q[i] == q[1..][i - 1];
    }
  }

  lemma {:induction false} GenericIsSendable(q: seq<string>, f: string)
    requires Sendable([f]) && NoSlashes(q) && forall i :: 0 <= i < |q| ==> q[i] != ""
    ensures Sendable(Generic(q, f))
  {
    assert [f][0] == f;
    if q != [] && !Star(q[0]) { GenericIsSendable(q[1..], f); }
  }

  /** A segment longer than all that occur. */
  function Xs(n: nat): (f: string)
    ensures |f| == n + 1 && Sendable([f])
  { seq(n + 1, _ => 'x') }

  lemma CoveredNode(patterns: seq<string>, q: seq<string>)
    requires Live(q) && At(Build(patterns), q) != "" && Sound(Build(patterns))
    ensures Covers(Parts(At(Build(patterns), q)), q)
  {
    var t := Build(patterns);
    var p := Parts(At(t, q));
    BuildShape(patterns);
    BuildDepth(patterns);
    AtDepth(t, q, 0);
    BuildSlashFree(patterns);
    StoredSegments(t, q);
    var f := Xs(Bound(t.children) + Longest(p));
    LongIsFresh(t, f);
    GenericFinds(t, q, f);
    GenericIsSendable(q, f);
    SentAsIs(Generic(q, f));
    assert Search(t, Parts("/" + JoinSlash(Generic(q, f)))).Some?;
    MatchesGeneric(p, q, f);
  }

  lemma SoundSearch(t: Tree, segs: seq<string>)
    requires Shaped(t) && t.part == "" && Covered(t) && Search(t, segs).Some?
    ensures Matches(Parts(Search(t, segs).value), segs)
  {
    var q := FoundMatches(t, segs);
    MatchedIsLive(q, segs);
    KeptAreSegments(Split(At(t, q)));
    CoversMatches(Parts(At(t, q)), q, segs);
  }

  /**
   For any registrations at all, clean or not: search results always match exactly if the pattern kept at
   each live node covers the path that leads there, so that no parameter was overwritten by something
   narrower.
   */
  lemma SoundIffCovered(patterns: seq<string>)
    ensures Sound(Build(patterns)) <==> Covered(Build(patterns))
  {
    var t := Build(patterns);
    BuildShape(patterns);
    if Sound(t) {
      forall q | Live(q) && At(t, q) != "" ensures Covers(Parts(At(t, q)), q) { CoveredNode(patterns, q); }
    }
    if Covered(t) {
      forall path | Search(t, Parts(path)).Some? ensures Matches(Parts(Search(t, Parts(path)).value), Parts(path)) {
        SoundSearch(t, Parts(path));
      }
    }
  }

  /** Whatever is registered after a parameter at the root, its node takes the pattern. */
  lemma CapturedByParameter(a: string, b: string)
    requires Colon(a) && '/' !in a && b != "" && '/' !in b
    ensures Build(["/" + a]) == Tree("", "", false, [Tree(a, "/" + a, true, [])])
    ensures Build(["/" + a, "/" + b]) == Tree("", "", false, [Tree(a, "/" + b, true, [])])
    ensures FirstFit(Build(["/" + a]).children, b) == 0
  {
    var p, q := "/" + a, "/" + b;
    PartsOfOne(a);
    PartsOfOne(b);
    assert [p, q][..1] == [p] && [p][..0] == [];
    var t := Build([p]);
    assert Build([]) == Root && t == Insert(Root, p, Parts(p));
    assert [a][1..] == [] && FirstFit(Root.children, a) == 0;
    assert Insert(Root, p, [a]).children == [Insert(Leaf(a), p, [])];
    assert Build([p, q]) == Insert(t, q, [b]);
    assert [b][1..] == [] && FirstFit(t.children, b) == 0;
    assert Insert(t, q, [b]).children == [Insert(t.children[0], q, [])];
  }

  /** A trie of one parameter accepts the paths of one segment. */
  lemma OneParameter(a: string, p: string, x: string, y: string)
    requires Colon(a) && p != ""
    ensures var t := Tree("", "", false, [Tree(a, p, true, [])]);
            Search(t, [x]) == Some(p) && Search(t, [x, y]) == None
  {
    var leaf := Tree(a, p, true, []);
    var t := Tree("", "", false, [leaf]);
    assert [x][1..] == [] && [x, y][1..] == [y] && [leaf][1..] == [];
    assert Search(leaf, []) == Some(p) && Search(leaf, [y]) == SearchChildren([], [y]) == None;
    assert SearchChildren([leaf], [x]) == Some(p);
    assert SearchChildren([], [x, y]) == None && SearchChildren([leaf], [x, y]) == None;
  }

  /**
   A literal captured by an earlier parameter takes over that parameter's paths: with `:a` and `b`, the path `/c`
   finds `/b`.
   */
  lemma CaptureBreaksMatching(a: string, b: string, c: string)
    requires Colon(a) && '/' !in a && Sendable([b, c]) && !Wild(b) && b != c
    ensures var ps := ["/" + a, "/" + b];
            !AllClean(ps) && Search(Build(ps), Parts("/" + c)) == Some("/" + b) && !Sound(Build(ps))
  {
    var ps := ["/" + a, "/" + b];
    assert [b, c][0] == b && [b, c][1] == c;
    CapturedByParameter(a, b);
    PartsOfOne(b);
    PartsOfOne(c);
    assert ps[..1] == ["/" + a] && !Clean(Build(["/" + a]), [b]);
    OneParameter(a, "/" + b, c, c);
    assert !Matches([b], [c]);
  }

  // ----- Which of several matching patterns is found -----

  /** Where the two paths first differ, `q` has a literal and `r` a parameter or a star. */
  predicate Prefers(q: seq<string>, r: seq<string>) {
    && q != [] && r != []
    && if q[0] == r[0] then Prefers(q[1..], r[1..]) else !Wild(q[0]) && Wild(r[0])
  }

  ghost predicate StoredMatch(t: Tree, segs: seq<string>, q: seq<string>) { Matches(q, segs) && At(t, q) != "" }

  /** A stored path that matches and is preferred to every other one. */
  ghost predicate Best(t: Tree, segs: seq<string>, q: seq<string>) {
    StoredMatch(t, segs, q) && forall r :: StoredMatch(t, segs, r) && r != q ==> Prefers(q, r)
  }

  /** A stored path that matches leads through a child whose own search succeeds. */
  lemma StoredChildFinds(t: Tree, segs: seq<string>, r: seq<string>) returns (j: nat)
    requires Shaped(t) && !Star(t.part) && segs != [] && StoredMatch(t, segs, r)
    ensures r != [] && j < |t.children| && t.children[j].part == r[0] && Fits(t.children[j], segs[0])
    ensures Search(t.children[j], segs[1..]).Some?
    ensures Star(r[0]) || StoredMatch(t.children[j], segs[1..], r[1..])
  {
    j := Child(t.children, r[0]);
    if !Star(r[0]) && Search(t.children[j], segs[1..]) == None { NothingMissed(t.children[j], segs[1..], r[1..]); }
  }

  lemma {:induction false} FoundIsBest(t: Tree, segs: seq<string>) returns (q: seq<string>)
    requires Shaped(t) && !Star(t.part) && Search(t, segs).Some?
    ensures At(t, q) == Search(t, segs).value && Best(t, segs, q)
    decreases |segs|
  {
    if segs == [] { return []; }
    Among(t.children, segs);
    var i :| 0 <= i < |t.children| && Fits(t.children[i], segs[0]) && Search(t.children[i], segs[1..]) == Search(t, segs) &&
      forall j :: 0 <= j < i && Fits(t.children[j], segs[0]) ==> Search(t.children[j], segs[1..]) == None;
    var c := t.children[i];
    assert Child(t.children, c.part) == i;
    if Star(c.part) {
      q := [c.part];
    } else {
      var rest := FoundIsBest(c, segs[1..]);
      q := [c.part] + rest;
      assert q[1..] == rest;
    }
    forall r | StoredMatch(t, segs, r) && r != q ensures Prefers(q, r) { BestThrough(t, segs, i, q, r); }
  }

  /** The best path through the first child that finds the segments is preferred to every other path. */
  lemma BestThrough(t: Tree, segs: seq<string>, i: nat, q: seq<string>, r: seq<string>)
    requires Shaped(t) && !Star(t.part) && segs != [] && i < |t.children| && Fits(t.children[i], segs[0])
    requires forall j :: 0 <= j < i && Fits(t.children[j], segs[0]) ==> Search(t.children[j], segs[1..]) == None
    requires q != [] && q[0] == t.children[i].part
    requires if Star(q[0]) then q[1..] == [] else Best(t.children[i], segs[1..], q[1..])
    requires StoredMatch(t, segs, r) && r != q
    ensures Prefers(q, r)
  {
    var j := StoredChildFinds(t, segs, r);
    if j == i {
      assert r == [r[0]] + r[1..] && q == [q[0]] + q[1..];
      assert !Star(q[0]) && StoredMatch(t.children[i], segs[1..], r[1..]);
    } else {
      assert i < j;
    }
  }

  lemma {:induction false} PrefersOneWay(q: seq<string>, r: seq<string>)
    requires Prefers(q, r)
    ensures !Prefers(r, q)
  {
    if q[0] == r[0] { PrefersOneWay(q[1..], r[1..]); }
  }

  /**
   A search finds exactly the pattern at the preferred path: literals win over parameters and stars, first segments
   first.
   */
  lemma FoundIffBest(t: Tree, segs: seq<string>, p: string)
    requires Shaped(t) && !Star(t.part)
    ensures Search(t, segs) == Some(p) <==> exists q :: Best(t, segs, q) && At(t, q) == p
  {
    if q :| Best(t, segs, q) && At(t, q) == p {
      if Search(t, segs) == None { NothingMissed(t, segs, q); }
      var found := FoundIsBest(t, segs);
      if found != q { PrefersOneWay(q, found); }
    }
    if Search(t, segs) == Some(p) {
      var q := FoundIsBest(t, segs);
    }
  }
}
