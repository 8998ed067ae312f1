/**
 The route table of go-gee-demo/gee-web/gee/trie.go and router.go: patterns with `:name` and `*name`
 segments in a trie, and a search that backtracks over matching children.
 */
module TrieRouter {
  import opened Wrappers

  // ----- Segments -----

  predicate Colon(part: string) { part != "" && part[0] == ':' }

  predicate Star(part: string) { part != "" && part[0] == '*' }

  predicate Wild(part: string) { Colon(part) || Star(part) }

  /** `strings.Split(s, "/")`. */
  function Split(s: string): (r: seq<string>)
    ensures r != []
  {
    if s == [] then [""]
    else
      var rest := Split(s[1..]);
      if s[0] == '/' then [""] + rest else [[s[0]] + rest[0]] + rest[1..]
  }

  /** The non-empty items up to and including the first that starts with a star. */
  function Kept(items: seq<string>): seq<string> {
    if items == [] then []
    else if items[0] == "" then Kept(items[1..])
    else if Star(items[0]) then [items[0]]
    else [items[0]] + Kept(items[1..])
  }

  function Parts(pattern: string): seq<string> { Kept(Split(pattern)) }

  /** No empty segment, and a star segment only at the end. */
  predicate Segments(parts: seq<string>) {
    && (forall i :: 0 <= i < |parts| ==> parts[i] != "")
    && (forall i :: 0 <= i < |parts| - 1 ==> !Star(parts[i]))
  }

  lemma {:induction false} KeptAreSegments(items: seq<string>)
    ensures Segments(Kept(items))
  {
    if items != [] { KeptAreSegments(items[1..]); }
  }

  lemma {:induction false} KeptConcat(a: seq<string>, b: seq<string>)
    requires forall j :: 0 <= j < |a| ==> !Star(a[j])
    ensures Kept(a + b) == Kept(a) + Kept(b)
    decreases |a|
  {
    if a == [] {
      assert a + b == b;
    } else {
      KeptConcat(a[1..], b);
      assert (a + b)[0] == a[0] && (a + b)[1..] == a[1..] + b;
    }
  }

  /** `parsePattern`. */
  method ParsePattern(pattern: string) returns (parts: seq<string>)
    ensures parts == Parts(pattern) && Segments(parts)
  {
    var vs := Split(pattern);
    KeptAreSegments(vs);
    parts := [];
    for i := 0 to |vs|
      invariant parts == Kept(vs[..i])
      invariant forall j :: 0 <= j < i ==> !Star(vs[j])
    {
      KeptConcat(vs[..i], [vs[i]]);
      KeptConcat(vs[..i], vs[i..]);
      assert vs[..i + 1] == vs[..i] + [vs[i]] && vs == vs[..i] + vs[i..];
      if vs[i] != "" {
        parts := parts + [vs[i]];
        if Star(vs[i]) { return; }
      }
    }
    assert vs[..|vs|] == vs;
  }

  /** When a path with these segments fits a pattern with those parts. */
  predicate Matches(parts: seq<string>, segs: seq<string>) {
    if parts == [] then segs == []
    else if segs == [] then false
    else if Star(parts[0]) then |parts| == 1
    else (Colon(parts[0]) || parts[0] == segs[0]) && Matches(parts[1..], segs[1..])
  }

  // ----- The trie -----

  datatype Tree = Tree(part: string, pattern: string, isWild: bool, children: seq<Tree>)

  function Leaf(part: string): Tree { Tree(part, "", Wild(part), []) }

  const Root: Tree := Tree("", "", false, [])

  predicate Fits(child: Tree, part: string) { child.part == part || child.isWild }

  /** `matchFirstChild`, as a position; the number of children when there is none. */
  function FirstFit(cs: seq<Tree>, part: string): (i: nat)
    ensures i <= |cs| && (i < |cs| ==> Fits(cs[i], part))
    ensures forall j :: 0 <= j < i ==> !Fits(cs[j], part)
  {
    if cs == [] || Fits(cs[0], part) then 0 else 1 + FirstFit(cs[1..], part)
  }

  /** `insert`. */
  function Insert(t: Tree, pattern: string, parts: seq<string>): Tree
    decreases |parts|
  {
    if parts == [] then t.(pattern := pattern)
    else
      var i := FirstFit(t.children, parts[0]);
      if i < |t.children| then t.(children := t.children[i := Insert(t.children[i], pattern, parts[1..])])
      else t.(children := t.children + [Insert(Leaf(parts[0]), pattern, parts[1..])])
  }

  /** `search`: the pattern of the node it returns. */
  function Search(t: Tree, segs: seq<string>): Option<string>
    decreases |segs|, 1, 0
  {
    if segs == [] || Star(t.part) then if t.pattern == "" then None else Some(t.pattern)
    else SearchChildren(t.children, segs)
  }

  function SearchChildren(cs: seq<Tree>, segs: seq<string>): Option<string>
    requires segs != []
    decreases |segs|, 0, |cs|
  {
    if cs == [] then None
    else
      var found := if Fits(cs[0], segs[0]) then Search(cs[0], segs[1..]) else None;
      if found.Some? then found else SearchChildren(cs[1..], segs)
  }

  /** The trie after registering `patterns`, first to last. */
  function Build(patterns: seq<string>): Tree {
    if patterns == [] then Root
    else
      var last := patterns[|patterns| - 1];
      Insert(Build(patterns[..|patterns| - 1]), last, Parts(last))
  }

  // ----- Depth: why a found pattern never has more parts than the path has segments -----

  ghost predicate DepthOk(t: Tree, depth: nat) {
    && (t.pattern != "" ==> |Parts(t.pattern)| == depth)
    && (forall i :: 0 <= i < |t.children| ==> DepthOk(t.children[i], depth + 1))
  }

  lemma {:induction false} InsertKeepsDepth(t: Tree, pattern: string, parts: seq<string>, depth: nat)
    requires DepthOk(t, depth) && |Parts(pattern)| == depth + |parts|
    ensures DepthOk(Insert(t, pattern, parts), depth)
    decreases |parts|
  {
    if parts != [] {
      var i := FirstFit(t.children, parts[0]);
      InsertKeepsDepth(if i < |t.children| then t.children[i] else Leaf(parts[0]), pattern, parts[1..], depth + 1);
    }
  }

  lemma {:induction false} BuildDepth(patterns: seq<string>)
    ensures DepthOk(Build(patterns), 0)
  {
    if patterns != [] {
      var n := |patterns| - 1;
      BuildDepth(patterns[..n]);
      InsertKeepsDepth(Build(patterns[..n]), patterns[n], Parts(patterns[n]), 0);
    }
  }

  lemma {:induction false} FoundDepth(t: Tree, segs: seq<string>, depth: nat)
    requires DepthOk(t, depth) && Search(t, segs).Some?
    ensures var p := Search(t, segs).value; p != "" && depth <= |Parts(p)| <= depth + |segs|
    decreases |segs|, 1, 0
  {
    if segs != [] && !Star(t.part) { FoundDepthAmong(t.children, segs, depth + 1); }
  }

  lemma {:induction false} FoundDepthAmong(cs: seq<Tree>, segs: seq<string>, depth: nat)
    requires segs != [] && SearchChildren(cs, segs).Some?
    requires forall i :: 0 <= i < |cs| ==> DepthOk(cs[i], depth)
    ensures var p := SearchChildren(cs, segs).value; p != "" && depth <= |Parts(p)| < depth + |segs|
    decreases |segs|, 0, |cs|
  {
    if Fits(cs[0], segs[0]) && Search(cs[0], segs[1..]).Some? {
      FoundDepth(cs[0], segs[1..], depth);
    } else {
      FoundDepthAmong(cs[1..], segs, depth);
    }
  }

  // ----- Shape: children differ, and only the last one can be wild -----

  ghost predicate Shaped(t: Tree) {
    && t.isWild == Wild(t.part)
    && (forall i :: 0 <= i < |t.children| ==> Shaped(t.children[i]) && t.children[i].part != "")
    && (forall i, j :: 0 <= i < j < |t.children| ==> t.children[i].part != t.children[j].part && !t.children[i].isWild)
  }

  lemma ReplaceKeepsShape(t: Tree, i: nat, c: Tree)
    requires Shaped(t) && i < |t.children| && Shaped(c) && c.part == t.children[i].part
    ensures Shaped(t.(children := t.children[i := c]))
  {
    var cs := t.children[i := c];
    assert Shaped(t.children[i]);
    forall k | 0 <= k < |cs| ensures Shaped(cs[k]) && cs[k].part != "" && cs[k].isWild == t.children[k].isWild {
      assert Shaped(t.children[k]) && t.children[k].part != "";
    }
    forall j, k | 0 <= j < k < |cs| ensures cs[j].part != cs[k].part && !cs[j].isWild {
      assert t.children[j].part != t.children[k].part && !t.children[j].isWild;
    }
    var u := t.(children := cs);
    assert u.children == cs && Shaped(u);
  }

  /** A part that fits no child makes a child that differs from all of them, none of which is wild. */
  lemma AppendKeepsShape(t: Tree, c: Tree)
    requires Shaped(t) && Shaped(c) && c.part != "" && FirstFit(t.children, c.part) == |t.children|
    ensures Shaped(t.(children := t.children + [c]))
  {
    var cs, n := t.children + [c], |t.children|;
    forall k | 0 <= k < |cs| ensures Shaped(cs[k]) && cs[k].part != "" {
      if k < n { assert cs[k] == t.children[k] && Shaped(t.children[k]); }
    }
    forall j, k | 0 <= j < k < |cs| ensures cs[j].part != cs[k].part && !cs[j].isWild {
      assert cs[j] == t.children[j] && !Fits(t.children[j], c.part);
      if k < n { assert t.children[j].part != t.children[k].part; }
    }
    var u := t.(children := cs);
    assert u.children == cs && Shaped(u);
  }

  lemma {:induction false} InsertKeepsShape(t: Tree, pattern: string, parts: seq<string>)
    requires Shaped(t) && forall i :: 0 <= i < |parts| ==> parts[i] != ""
    ensures Shaped(Insert(t, pattern, parts)) && Insert(t, pattern, parts).part == t.part
    decreases |parts|
  {
    if parts != [] {
      var i := FirstFit(t.children, parts[0]);
      if i < |t.children| {
        InsertKeepsShape(t.children[i], pattern, parts[1..]);
        ReplaceKeepsShape(t, i, Insert(t.children[i], pattern, parts[1..]));
      } else {
        InsertKeepsShape(Leaf(parts[0]), pattern, parts[1..]);
        AppendKeepsShape(t, Insert(Leaf(parts[0]), pattern, parts[1..]));
      }
    } else {
      StoreKeepsShape(t, pattern);
    }
  }

  lemma StoreKeepsShape(t: Tree, pattern: string)
    requires Shaped(t)
    ensures Shaped(t.(pattern := pattern))
  {
    var u := t.(pattern := pattern);
    forall k | 0 <= k < |u.children| ensures Shaped(u.children[k]) && u.children[k].part != "" {
      assert Shaped(t.children[k]) && t.children[k].part != "";
    }
    assert Shaped(u);
  }

  lemma {:induction false} BuildShape(patterns: seq<string>)
    ensures Shaped(Build(patterns)) && Build(patterns).part == ""
  {
    if patterns != [] {
      var n := |patterns| - 1;
      BuildShape(patterns[..n]);
      KeptAreSegments(Split(patterns[n]));
      InsertKeepsShape(Build(patterns[..n]), patterns[n], Parts(patterns[n]));
    }
  }

  // ----- What is stored where -----

  function Child(cs: seq<Tree>, part: string): (i: nat)
    ensures i <= |cs| && (i < |cs| ==> cs[i].part == part)
    ensures forall j :: 0 <= j < i ==> cs[j].part != part
  {
    if cs == [] || cs[0].part == part then 0 else 1 + Child(cs[1..], part)
  }

  /** The pattern stored at the node whose path spells `q`, or the empty string. */
  function At(t: Tree, q: seq<string>): string
    decreases |q|
  {
    if q == [] then t.pattern
    else
      var i := Child(t.children, q[0]);
      if i < |t.children| then At(t.children[i], q[1..]) else ""
  }

  /** The insertion only steps into children that are equal to the inserted segment. */
  predicate Clean(t: Tree, parts: seq<string>)
    decreases |parts|
  {
    parts == [] ||
    var i := FirstFit(t.children, parts[0]);
    i == |t.children| || (t.children[i].part == parts[0] && Clean(t.children[i], parts[1..]))
  }

  lemma {:induction false} InsertAt(t: Tree, pattern: string, parts: seq<string>, q: seq<string>)
    requires Clean(t, parts)
    ensures At(Insert(t, pattern, parts), q) == if q == parts then pattern else At(t, q)
    decreases |parts|
  {
    if parts != [] && q != [] {
      assert q == parts <==> q[0] == parts[0] && q[1..] == parts[1..];
      var i := FirstFit(t.children, parts[0]);
      var child := if i < |t.children| then t.children[i] else Leaf(parts[0]);
      var cs := Insert(t, pattern, parts).children;
      InsertPart(child, pattern, parts[1..]);
      assert cs[i] == Insert(child, pattern, parts[1..]) && cs[i].part == parts[0];
      assert forall k :: 0 <= k < |cs| && k != i ==> cs[k] == t.children[k];
      if q[0] == parts[0] {
        InsertAt(child, pattern, parts[1..], q[1..]);
        assert Child(cs, q[0]) == i;
      } else {
        var j := Child(t.children, q[0]);
        assert Child(cs, q[0]) == if j < |t.children| then j else |cs|;
      }
    }
  }

  lemma InsertPart(t: Tree, pattern: string, parts: seq<string>)
    ensures Insert(t, pattern, parts).part == t.part
  {
  }

  // ----- What a search finds -----

  /** The first child that fits and whose own search succeeds decides. */
  lemma {:induction false} Among(cs: seq<Tree>, segs: seq<string>)
    requires segs != []
    ensures match SearchChildren(cs, segs)
            case None => forall i :: 0 <= i < |cs| && Fits(cs[i], segs[0]) ==> Search(cs[i], segs[1..]) == None
            case Some(p) =>
              exists i :: 0 <= i < |cs| && Fits(cs[i], segs[0]) && Search(cs[i], segs[1..]) == Some(p) &&
                forall j :: 0 <= j < i && Fits(cs[j], segs[0]) ==> Search(cs[j], segs[1..]) == None
    decreases |cs|
  {
    if cs != [] && !(Fits(cs[0], segs[0]) && Search(cs[0], segs[1..]).Some?) {
      Among(cs[1..], segs);
      match SearchChildren(cs[1..], segs)
      case None =>
        assert forall i :: 0 < i < |cs| ==> cs[i] == cs[1..][i - 1];
      case Some(p) =>
        var i :| 0 <= i < |cs[1..]| && Fits(cs[1..][i], segs[0]) && Search(cs[1..][i], segs[1..]) == Some(p) &&
          forall j :: 0 <= j < i && Fits(cs[1..][j], segs[0]) ==> Search(cs[1..][j], segs[1..]) == None;
        assert cs[i + 1] == cs[1..][i];
        assert forall j :: 0 < j < i + 1 ==> cs[j] == cs[1..][j - 1];
    }
  }

  /** A found pattern is stored at a path that matches. */
  lemma {:induction false} FoundMatches(t: Tree, segs: seq<string>) returns (q: seq<string>)
    requires Shaped(t) && !Star(t.part) && Search(t, segs).Some?
    ensures At(t, q) == Search(t, segs).value != "" && Matches(q, segs)
    decreases |segs|
  {
    if segs == [] { return []; }
    Among(t.children, segs);
    var i :| 0 <= i < |t.children| && Fits(t.children[i], segs[0]) && Search(t.children[i], segs[1..]) == Search(t, segs);
    var c := t.children[i];
    assert Child(t.children, c.part) == i;
    if Star(c.part) {
      q := [c.part];
    } else {
      var rest := FoundMatches(c, segs[1..]);
      q := [c.part] + rest;
      assert q[1..] == rest;
    }
  }

  /** If nothing is found, nothing is stored at any path that matches. */
  lemma {:induction false} NothingMissed(t: Tree, segs: seq<string>, q: seq<string>)
    requires Shaped(t) && !Star(t.part) && Search(t, segs) == None && Matches(q, segs)
    ensures At(t, q) == ""
    decreases |segs|
  {
    if segs == [] { return; }
    Among(t.children, segs);
    var i := Child(t.children, q[0]);
    if i < |t.children| {
      assert Fits(t.children[i], segs[0]);
      if !Star(q[0]) { NothingMissed(t.children[i], segs[1..], q[1..]); }
    }
  }

  // ----- Clean registrations -----

  /** The pattern registered last among those that parse to `q`. */
  function Registered(patterns: seq<string>, q: seq<string>): (p: string)
    ensures p != "" ==> p in patterns && Parts(p) == q
    ensures (forall p' :: p' in patterns && Parts(p') == q ==> p' == "") ==> p == ""
    ensures "" !in patterns && (exists p' :: p' in patterns && Parts(p') == q) ==> p != ""
  {
    if patterns == [] then ""
    else
      var n := |patterns| - 1;
      assert forall p' :: p' in patterns <==> p' in patterns[..n] || p' == patterns[n];
      if Parts(patterns[n]) == q then patterns[n] else Registered(patterns[..n], q)
  }

  ghost predicate AllClean(patterns: seq<string>) {
    patterns == [] ||
    var n := |patterns| - 1;
    AllClean(patterns[..n]) && Clean(Build(patterns[..n]), Parts(patterns[n]))
  }

  lemma {:induction false} BuildAt(patterns: seq<string>, q: seq<string>)
    requires AllClean(patterns)
    ensures At(Build(patterns), q) == Registered(patterns, q)
  {
    if patterns != [] {
      var n := |patterns| - 1;
      BuildAt(patterns[..n], q);
      InsertAt(Build(patterns[..n]), patterns[n], Parts(patterns[n]), q);
    }
  }

  /**
   After clean registrations a search returns a registered pattern that matches, and finds nothing exactly
   if no matching path is registered, or only the root, last as the empty string.
   */
  lemma CleanRoutesAreExact(patterns: seq<string>, segs: seq<string>)
    requires AllClean(patterns)
    ensures Search(Build(patterns), segs).Some? ==>
              var p := Search(Build(patterns), segs).value;
              p in patterns && p != "" && Matches(Parts(p), segs) && Registered(patterns, Parts(p)) == p
    ensures Search(Build(patterns), segs) == None <==> forall q :: Matches(q, segs) ==> Registered(patterns, q) == ""
  {
    var t := Build(patterns);
    BuildShape(patterns);
    match Search(t, segs)
    case Some(p) =>
      var q := FoundMatches(t, segs);
      BuildAt(patterns, q);
    case None =>
      forall q | Matches(q, segs) ensures Registered(patterns, q) == "" {
        NothingMissed(t, segs, q);
        BuildAt(patterns, q);
      }
  }

  /** Without the empty pattern: found exactly when some registered pattern matches. */
  lemma FoundIffRegistered(patterns: seq<string>, segs: seq<string>)
    requires AllClean(patterns) && "" !in patterns
    ensures Search(Build(patterns), segs).Some? <==> exists p :: p in patterns && Matches(Parts(p), segs)
  {
    CleanRoutesAreExact(patterns, segs);
    if Search(Build(patterns), segs) == None {
      forall p | p in patterns ensures !Matches(Parts(p), segs) {
        assert Registered(patterns, Parts(p)) != "";
      }
    }
  }
}
