/**
 When a failed search of the trie of go-gee-demo/gee-web/gee/trie.go means that no registered
 pattern matches, for registrations in any order.  Segments and parameters that an earlier wild
 child captures lose nothing; a star that a parameter captures loses the longer paths, unless other
 wild nodes accept them.
 */
module TrieComplete {
  import opened TrieRouter
  import opened TriePaths
  import opened TrieSound
  import opened Wrappers

  // ----- Where registrations end up -----

  /** Walking the trie as `insert` does ends at a node with a pattern. */
  predicate Stored(t: Tree, parts: seq<string>)
    decreases |parts|
  {
    if parts == [] then t.pattern != ""
    else
      var i := FirstFit(t.children, parts[0]);
      i < |t.children| && Stored(t.children[i], parts[1..])
  }

  lemma {:induction false} InsertStores(t: Tree, pattern: string, parts: seq<string>)
    requires pattern != ""
    ensures Stored(Insert(t, pattern, parts), parts)
    decreases |parts|
  {
    if parts != [] {
      var i := FirstFit(t.children, parts[0]);
      var c := if i < |t.children| then t.children[i] else Leaf(parts[0]);
      InsertStores(c, pattern, parts[1..]);
      InsertHead(c, pattern, parts[1..]);
      SameFit(t, Insert(t, pattern, parts), parts[0]);
    }
  }

  lemma InsertHead(t: Tree, pattern: string, parts: seq<string>)
    ensures Insert(t, pattern, parts).part == t.part && Insert(t, pattern, parts).isWild == t.isWild
  {
  }

  /** Children keep their place: what fitted first still does. */
  lemma SameFit(t: Tree, u: Tree, part: string)
    requires |t.children| <= |u.children|
    requires forall i :: 0 <= i < |t.children| ==>
      u.children[i].part == t.children[i].part && u.children[i].isWild == t.children[i].isWild
    ensures var i := FirstFit(t.children, part);
            if i < |t.children| then FirstFit(u.children, part) == i
            else |u.children| > i && Fits(u.children[i], part) ==> FirstFit(u.children, part) == i
  {
    var i, j := FirstFit(t.children, part), FirstFit(u.children, part);
    assert forall k :: 0 <= k < i ==> !Fits(u.children[k], part);
  }

  lemma {:induction false} InsertKeepsStored(t: Tree, pattern: string, parts: seq<string>, q: seq<string>)
    requires Stored(t, q) && (pattern != "" || (parts == [] && q != []))
    ensures Stored(Insert(t, pattern, parts), q)
    decreases |q|
  {
    if parts != [] && q != [] {
      var i, j := FirstFit(t.children, parts[0]), FirstFit(t.children, q[0]);
      var u := Insert(t, pattern, parts);
      InsertHead(if i < |t.children| then t.children[i] else Leaf(parts[0]), pattern, parts[1..]);
      SameFit(t, u, q[0]);
      if i == j { InsertKeepsStored(t.children[j], pattern, parts[1..], q[1..]); }
    }
  }

  /** Every registered pattern with segments ends up at a node with a pattern. */
  lemma {:induction false} RegisteredIsStored(patterns: seq<string>, p: string)
    requires p in patterns && Parts(p) != []
    ensures Stored(Build(patterns), Parts(p))
  {
    var n := |patterns| - 1;
    var last := patterns[n];
    var t := Build(patterns[..n]);
    EmptyHasNoParts();
    if p == last {
      InsertStores(t, p, Parts(p));
    } else {
      assert p in patterns[..n];
      RegisteredIsStored(patterns[..n], p);
      InsertKeepsStored(t, last, Parts(last), Parts(p));
    }
  }

  lemma EmptyHasNoParts()
    ensures Parts("") == []
  {
    assert Split("") == [""];
    assert [""][1..] == [];
  }

  /** The root keeps the pattern registered last among those without segments. */
  lemma {:induction false} RootPattern(patterns: seq<string>)
    ensures Build(patterns).pattern == Registered(patterns, [])
  {
    if patterns != [] { RootPattern(patterns[..|patterns| - 1]); }
  }

  /** Star nodes have a pattern from the start, and only the root's can be cleared. */
  ghost predicate StarsStored(t: Tree) {
    (Star(t.part) ==> t.pattern != "") && forall i :: 0 <= i < |t.children| ==> StarsStored(t.children[i])
  }

  lemma {:induction false} InsertKeepsStars(t: Tree, pattern: string, parts: seq<string>)
    requires Segments(parts) && (pattern != "" || (parts == [] && !Star(t.part)))
    requires StarsStored(t) || (t.children == [] && (Star(t.part) ==> parts == []))
    ensures StarsStored(Insert(t, pattern, parts))
    decreases |parts|
  {
    if parts != [] {
      var i := FirstFit(t.children, parts[0]);
      assert Segments(parts[1..]);
      InsertKeepsStars(if i < |t.children| then t.children[i] else Leaf(parts[0]), pattern, parts[1..]);
    }
  }

  lemma {:induction false} BuildStars(patterns: seq<string>)
    ensures StarsStored(Build(patterns))
  {
    if patterns != [] {
      var n := |patterns| - 1;
      BuildStars(patterns[..n]);
      BuildShape(patterns[..n]);
      KeptAreSegments(Split(patterns[n]));
      EmptyHasNoParts();
      InsertKeepsStars(Build(patterns[..n]), patterns[n], Parts(patterns[n]));
    }
  }

  // ----- Nothing is lost except captured stars -----

  /** Inserting these parts takes a star into a parameter's node. */
  predicate Captured(t: Tree, parts: seq<string>)
    decreases |parts|
  {
    parts != [] &&
      var i := FirstFit(t.children, parts[0]);
      i < |t.children| && !Star(t.children[i].part) && (Star(parts[0]) || Captured(t.children[i], parts[1..]))
  }

  /** A child that fits and finds the rest is enough. */
  lemma ChildFinds(t: Tree, i: nat, segs: seq<string>)
    requires !Star(t.part) && segs != [] && i < |t.children| && Fits(t.children[i], segs[0])
    requires Search(t.children[i], segs[1..]).Some?
    ensures Search(t, segs).Some?
  {
    Among(t.children, segs);
  }

  lemma {:induction false} UncapturedIsFound(t: Tree, parts: seq<string>, segs: seq<string>)
    requires Shaped(t) && StarsStored(t) && !Star(t.part) && Stored(t, parts) && !Captured(t, parts)
    requires Matches(parts, segs)
    ensures Search(t, segs).Some?
    decreases |parts|
  {
    if parts != [] {
      var i := FirstFit(t.children, parts[0]);
      var c := t.children[i];
      assert Fits(c, segs[0]);
      if !Star(c.part) { UncapturedIsFound(c, parts[1..], segs[1..]); }
      ChildFinds(t, i, segs);
    }
  }

  // ----- When other nodes accept what a captured star loses -----

  /** The children that accept every segment that `part` accepts. */
  function Heirs(cs: seq<Tree>, part: string): seq<Tree> {
    if cs == [] then []
    else (if cs[0].isWild || (!Colon(part) && cs[0].part == part) then [cs[0]] else []) + Heirs(cs[1..], part)
  }

  function NextNodes(ts: seq<Tree>, part: string): seq<Tree> {
    if ts == [] then [] else Heirs(ts[0].children, part) + NextNodes(ts[1..], part)
  }

  predicate HasStar(ts: seq<Tree>) { exists i :: 0 <= i < |ts| && Star(ts[i].part) }

  predicate HasPattern(ts: seq<Tree>) { exists i :: 0 <= i < |ts| && ts[i].pattern != "" }

  function Mass(cs: seq<Tree>): nat
    decreases cs
  { if cs == [] then 0 else 1 + Mass(cs[0].children) + Mass(cs[1..]) }

  lemma {:induction false} MassConcat(a: seq<Tree>, b: seq<Tree>)
    ensures Mass(a + b) == Mass(a) + Mass(b)
    decreases |a|
  {
    if a == [] {
      assert a + b == b;
    } else {
      MassConcat(a[1..], b);
      assert (a + b)[0] == a[0] && (a + b)[1..] == a[1..] + b;
    }
  }

  lemma {:induction false} HeirsMass(cs: seq<Tree>, part: string)
    ensures Mass(Heirs(cs, part)) <= Mass(cs)
    decreases |cs|
  {
    if cs != [] {
      HeirsMass(cs[1..], part);
      assert Heirs(cs, part) == [cs[0]] + Heirs(cs[1..], part) || Heirs(cs, part) == Heirs(cs[1..], part);
      assert ([cs[0]] + Heirs(cs[1..], part))[1..] == Heirs(cs[1..], part);
    }
  }

  lemma {:induction false} NextMass(ts: seq<Tree>, part: string)
    ensures Mass(NextNodes(ts, part)) + |ts| <= Mass(ts)
    decreases |ts|
  {
    if ts != [] {
      NextMass(ts[1..], part);
      HeirsMass(ts[0].children, part);
      MassConcat(Heirs(ts[0].children, part), NextNodes(ts[1..], part));
    }
  }

  /** From these nodes every path of one segment or more is found: parameters with patterns, down to a star. */
  predicate TakesAnyTail(ts: seq<Tree>)
    decreases Mass(ts)
  {
    var ws := NextNodes(ts, ":");
    HasStar(ws) || (HasPattern(ws) && (NextMass(ts, ":"); ts != [] && TakesAnyTail(ws)))
  }

  /** From these nodes every path is found that goes along `prefix` and on. */
  predicate Absorbs(ts: seq<Tree>, prefix: seq<string>)
    decreases |prefix|
  {
    if prefix == [] then TakesAnyTail(ts)
    else
      var next := NextNodes(ts, prefix[0]);
      HasStar(next) || Absorbs(next, prefix[1..])
  }

  ghost predicate FoundIn(ts: seq<Tree>, segs: seq<string>) { exists i :: 0 <= i < |ts| && Search(ts[i], segs).Some? }

  /** Reachable nodes of a well-shaped trie, none of them a star. */
  ghost predicate Plain(ts: seq<Tree>) {
    forall i :: 0 <= i < |ts| ==> Shaped(ts[i]) && StarsStored(ts[i]) && !Star(ts[i].part)
  }

  lemma {:induction false} InHeirs(cs: seq<Tree>, part: string, c: Tree)
    ensures c in Heirs(cs, part) <==>
      exists i :: 0 <= i < |cs| && cs[i] == c && (c.isWild || (!Colon(part) && c.part == part))
    decreases |cs|
  {
    if cs != [] {
      InHeirs(cs[1..], part, c);
      assert forall i :: 0 < i < |cs| ==> cs[i] == cs[1..][i - 1];
      if i :| 0 <= i < |cs[1..]| && cs[1..][i] == c { assert cs[i + 1] == c; }
    }
  }

  lemma {:induction false} InNext(ts: seq<Tree>, part: string, c: Tree)
    ensures c in NextNodes(ts, part) <==> exists i :: 0 <= i < |ts| && c in Heirs(ts[i].children, part)
    decreases |ts|
  {
    if ts != [] {
      InNext(ts[1..], part, c);
      assert forall i :: 0 < i < |ts| ==> ts[i] == ts[1..][i - 1];
      if i :| 0 <= i < |ts[1..]| && c in Heirs(ts[1..][i].children, part) { assert ts[i + 1] == ts[1..][i]; }
    }
  }

  lemma NextIsShaped(ts: seq<Tree>, part: string, c: Tree)
    requires Plain(ts) && c in NextNodes(ts, part)
    ensures Shaped(c) && StarsStored(c)
  {
    InNext(ts, part, c);
    var i :| 0 <= i < |ts| && c in Heirs(ts[i].children, part);
    InHeirs(ts[i].children, part, c);
  }

  lemma NextIsPlain(ts: seq<Tree>, part: string)
    requires Plain(ts) && !HasStar(NextNodes(ts, part))
    ensures Plain(NextNodes(ts, part))
  {
    var next := NextNodes(ts, part);
    forall k | 0 <= k < |next| ensures Shaped(next[k]) && StarsStored(next[k]) { NextIsShaped(ts, part, next[k]); }
  }

  /** A heir accepts the segments that `part` accepts, so finding the rest there is enough. */
  lemma HeirFinds(ts: seq<Tree>, part: string, c: Tree, segs: seq<string>)
    requires Plain(ts) && c in NextNodes(ts, part) && segs != [] && (Colon(part) || part == segs[0])
    requires Search(c, segs[1..]).Some?
    ensures FoundIn(ts, segs)
  {
    InNext(ts, part, c);
    var i :| 0 <= i < |ts| && c in Heirs(ts[i].children, part);
    InHeirs(ts[i].children, part, c);
    var j :| 0 <= j < |ts[i].children| && ts[i].children[j] == c;
    ChildFinds(ts[i], j, segs);
  }

  lemma StarFinds(ts: seq<Tree>, part: string, segs: seq<string>)
    requires Plain(ts) && HasStar(NextNodes(ts, part)) && segs != [] && (Colon(part) || part == segs[0])
    ensures FoundIn(ts, segs)
  {
    var next := NextNodes(ts, part);
    var k :| 0 <= k < |next| && Star(next[k].part);
    NextIsShaped(ts, part, next[k]);
    HeirFinds(ts, part, next[k], segs);
  }

  lemma {:induction false} AnyTailFinds(ts: seq<Tree>, segs: seq<string>)
    requires Plain(ts) && TakesAnyTail(ts) && segs != []
    ensures FoundIn(ts, segs)
    decreases |segs|
  {
    var ws := NextNodes(ts, ":");
    if HasStar(ws) {
      StarFinds(ts, ":", segs);
    } else {
      NextIsPlain(ts, ":");
      var k: nat;
      if |segs| == 1 {
        k :| 0 <= k < |ws| && ws[k].pattern != "";
      } else {
        AnyTailFinds(ws, segs[1..]);
        k :| 0 <= k < |ws| && Search(ws[k], segs[1..]).Some?;
      }
      HeirFinds(ts, ":", ws[k], segs);
    }
  }

  lemma {:induction false} AbsorbsFinds(ts: seq<Tree>, prefix: seq<string>, star: string, segs: seq<string>)
    requires Plain(ts) && Absorbs(ts, prefix) && Star(star) && Matches(prefix + [star], segs)
    requires forall i :: 0 <= i < |prefix| ==> !Star(prefix[i])
    ensures FoundIn(ts, segs)
    decreases |prefix|
  {
    if prefix == [] {
      AnyTailFinds(ts, segs);
    } else {
      assert (prefix + [star])[1..] == prefix[1..] + [star];
      var next := NextNodes(ts, prefix[0]);
      if HasStar(next) {
        StarFinds(ts, prefix[0], segs);
      } else {
        NextIsPlain(ts, prefix[0]);
        AbsorbsFinds(next, prefix[1..], star, segs[1..]);
        var k :| 0 <= k < |next| && Search(next[k], segs[1..]).Some?;
        HeirFinds(ts, prefix[0], next[k], segs);
      }
    }
  }

  // ----- A path that is lost where they do not -----

  ghost predicate AllFresh(ts: seq<Tree>, f: string) { forall i :: 0 <= i < |ts| ==> Fresh(ts[i], f) }

  lemma NextIsFresh(ts: seq<Tree>, part: string, f: string)
    requires AllFresh(ts, f)
    ensures AllFresh(NextNodes(ts, part), f)
  {
    var next := NextNodes(ts, part);
    forall k | 0 <= k < |next| ensures Fresh(next[k], f) {
      InNext(ts, part, next[k]);
      var i :| 0 <= i < |ts| && next[k] in Heirs(ts[i].children, part);
      InHeirs(ts[i].children, part, next[k]);
    }
  }

  /** Only heirs fit the most general segment that `part` accepts. */
  lemma OnlyHeirsFind(ts: seq<Tree>, part: string, f: string, segs: seq<string>)
    requires Plain(ts) && AllFresh(ts, f) && segs != [] && segs[0] == (if Colon(part) then f else part)
    requires !FoundIn(NextNodes(ts, part), segs[1..])
    ensures !FoundIn(ts, segs)
  {
    if i :| 0 <= i < |ts| && Search(ts[i], segs).Some? {
      var t := ts[i];
      Among(t.children, segs);
      var j :| 0 <= j < |t.children| && Fits(t.children[j], segs[0]) && Search(t.children[j], segs[1..]).Some?;
      var c := t.children[j];
      InHeirs(t.children, part, c);
      InNext(ts, part, c);
    }
  }

  lemma {:induction false} SomeTailMissed(ts: seq<Tree>, f: string) returns (segs: seq<string>)
    requires Plain(ts) && AllFresh(ts, f) && !TakesAnyTail(ts) && Sendable([f])
    ensures segs != [] && !FoundIn(ts, segs) && Sendable(segs)
    decreases Mass(ts)
  {
    var ws := NextNodes(ts, ":");
    NextMass(ts, ":");
    NextIsPlain(ts, ":");
    NextIsFresh(ts, ":", f);
    assert [f][0] == f;
    if ts == [] { return [f]; }
    segs := [f];
    if HasPattern(ws) {
      var rest := SomeTailMissed(ws, f);
      segs := [f] + rest;
      assert segs[1..] == rest;
    }
    OnlyHeirsFind(ts, ":", f, segs);
  }

  lemma {:induction false} SomePathMissed(ts: seq<Tree>, prefix: seq<string>, star: string,
                                          f: string) returns (segs: seq<string>)
    requires Plain(ts) && AllFresh(ts, f) && !Absorbs(ts, prefix) && Star(star)
    requires Sendable(prefix) && Sendable([f])
    ensures Matches(prefix + [star], segs) && !FoundIn(ts, segs) && Sendable(segs)
    decreases |prefix|
  {
    assert [f][0] == f;
    if prefix == [] {
      segs := SomeTailMissed(ts, f);
    } else {
      NextIsPlain(ts, prefix[0]);
      NextIsFresh(ts, prefix[0], f);
      var rest := SomePathMissed(NextNodes(ts, prefix[0]), prefix[1..], star, f);
      segs := [if Colon(prefix[0]) then f else prefix[0]] + rest;
      assert segs[1..] == rest && (prefix + [star])[1..] == prefix[1..] + [star];
      OnlyHeirsFind(ts, prefix[0], f, segs);
    }
  }

  // ----- The exact condition -----

  /** A failed search means that no registered pattern matches. */
  ghost predicate Complete(patterns: seq<string>) {
    forall p, path :: p in patterns && Matches(Parts(p), Parts(path)) ==> Search(Build(patterns), Parts(path)).Some?
  }

  /** If patterns without segments were registered, the last of them was not the empty one. */
  ghost predicate RootKept(patterns: seq<string>) {
    (exists p :: p in patterns && Parts(p) == []) ==> Registered(patterns, []) != ""
  }

  /** What a captured star accepts is accepted elsewhere. */
  ghost predicate CapturesAbsorbed(patterns: seq<string>) {
    var t := Build(patterns);
    forall p :: p in patterns && Captured(t, Parts(p)) ==> Absorbs([t], Parts(p)[..|Parts(p)| - 1])
  }

  lemma {:induction false} CapturedEndsInStar(t: Tree, parts: seq<string>)
    requires Captured(t, parts) && Segments(parts)
    ensures parts != [] && Star(parts[|parts| - 1]) && parts == parts[..|parts| - 1] + [parts[|parts| - 1]]
    decreases |parts|
  {
    if !Star(parts[0]) {
      assert Segments(parts[1..]);
      CapturedEndsInStar(t.children[FirstFit(t.children, parts[0])], parts[1..]);
    }
  }

  lemma FoundWhenAbsorbed(patterns: seq<string>, p: string, segs: seq<string>)
    requires RootKept(patterns) && CapturesAbsorbed(patterns) && p in patterns && Matches(Parts(p), segs)
    ensures Search(Build(patterns), segs).Some?
  {
    var t, parts := Build(patterns), Parts(p);
    BuildShape(patterns);
    BuildStars(patterns);
    KeptAreSegments(Split(p));
    if parts == [] {
      RootPattern(patterns);
    } else if Captured(t, parts) {
      CapturedEndsInStar(t, parts);
      AbsorbsFinds([t], parts[..|parts| - 1], parts[|parts| - 1], segs);
    } else {
      RegisteredIsStored(patterns, p);
      UncapturedIsFound(t, parts, segs);
    }
  }

  lemma AbsorbedWhenComplete(patterns: seq<string>, p: string)
    requires Complete(patterns) && p in patterns && Captured(Build(patterns), Parts(p))
    ensures Absorbs([Build(patterns)], Parts(p)[..|Parts(p)| - 1])
  {
    var t, parts := Build(patterns), Parts(p);
    BuildShape(patterns);
    BuildStars(patterns);
    KeptAreSegments(Split(p));
    CapturedEndsInStar(t, parts);
    PartsHaveNoSlashes(p);
    if !Absorbs([t], parts[..|parts| - 1]) {
      var f := Xs(Bound(t.children));
      LongIsFresh(t, f);
      var segs := SomePathMissed([t], parts[..|parts| - 1], parts[|parts| - 1], f);
      SentAsIs(segs);
    }
  }

  /**
   For any registrations at all: a failed search for a path means that no registered pattern matches it exactly
   if the root was not cleared and other wild nodes accept what each captured star accepts.
   */
  lemma CompleteIff(patterns: seq<string>)
    ensures Complete(patterns) <==> RootKept(patterns) && CapturesAbsorbed(patterns)
  {
    if RootKept(patterns) && CapturesAbsorbed(patterns) {
      forall p, path | p in patterns &&
          Matches(Parts(p), Parts(path)) ensures Search(Build(patterns), Parts(path)).Some? {
        FoundWhenAbsorbed(patterns, p, Parts(path));
      }
    }
    if Complete(patterns) {
      RootPattern(patterns);
      forall p | p in patterns && Parts(p) == [] ensures Registered(patterns, []) != "" {
        assert Matches(Parts(p), Parts(p)) && Search(Build(patterns), Parts(p)).Some?;
      }
      forall p | p in patterns &&
          Captured(Build(patterns), Parts(p)) ensures Absorbs([Build(patterns)], Parts(p)[..|Parts(p)| - 1]) {
        AbsorbedWhenComplete(patterns, p);
      }
    }
  }

  /**
   A star captured by a parameter loses the paths that are longer than the parameter's: with `:a` and `*b`, the path
   `/x/y`.
   */
  lemma CapturedStarIsLost(a: string, b: string, x: string, y: string)
    requires Colon(a) && '/' !in a && Star(b) && '/' !in b && Sendable([x, y])
    ensures var ps, path := ["/" + a, "/" + b], "/" + JoinSlash([x, y]);
            Search(Build(ps), Parts(path)) == None && Matches(Parts("/" + b), Parts(path)) && !Complete(ps)
  {
    var ps := ["/" + a, "/" + b];
    CapturedByParameter(a, b);
    PartsOfOne(b);
    OneParameter(a, "/" + b, x, y);
    SentAsIs([x, y]);
    assert ps[1] == "/" + b && Matches([b], [x, y]);
  }

  /** Registering the empty pattern clears the root's route, although both registrations are clean. */
  lemma EmptyPatternClearsRoot()
    ensures var ps := ["/", ""];
            AllClean(ps) && Matches(Parts("/"), Parts("/")) && Search(Build(ps), Parts("/")) == None && !Complete(ps)
  {
    var ps := ["/", ""];
    EmptyHasNoParts();
    assert "/"[1..] == "";
    assert Split("/") == [""] + Split("") == ["", ""];
    assert ["", ""][1..] == [""] && [""][1..] == [];
    assert Parts("/") == [];
    assert ps[..1] == ["/"] && ["/"][..0] == [];
    assert Build([]) == Root && Build(["/"]) == Insert(Root, "/", []) && Build(ps) == Insert(Build(["/"]), "", []);
    assert Build(ps).pattern == "";
    assert AllClean([]) && AllClean(["/"]);
    assert "/" in ps && Matches(Parts("/"), Parts("/"));
  }

  /** A route registered as the empty pattern is not found, although it matches the root path. */
  lemma EmptyPatternIsNotFound()
    ensures AllClean([""]) && Matches(Parts(""), Parts("")) && Search(Build([""]), Parts("")) == None && !Complete([""])
  {
    EmptyHasNoParts();
    assert [""][..0] == [] && Build([""]) == Insert(Build([]), "", []);
    assert AllClean([]);
    assert "" in [""] && Matches(Parts(""), Parts(""));
  }
}
