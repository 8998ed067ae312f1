/**
 The trie of go-gee-demo/gee-web/gee/trie.go as linked nodes that `insert` updates in place, and the
 router of router.go on top of it, both tied to the trees of TrieRouter.
 */
module TrieNodes {
  import opened TrieRouter
  import opened TriePaths
  import opened TrieSound
  import opened TrieComplete
  import opened TrieParams
  import opened Wrappers

  class Node {
    var pattern: string
    const part: string
    var children: seq<Node>
    const isWild: bool
    ghost var repr: set<Node>

    ghost predicate Valid()
      reads this, repr
      decreases repr
    {
      && this in repr
      && (forall i :: 0 <= i < |children| ==>
            children[i] in repr && children[i].repr < repr && this !in children[i].repr && children[i].Valid())
      && (forall i, j :: 0 <= i < j < |children| ==> children[i].repr !! children[j].repr)
    }

    ghost function View(): (t: Tree)
      requires Valid()
      reads this, repr
      decreases repr
      ensures |t.children| == |children|
    {
      Tree(part, pattern, isWild,
           seq(|children|, i requires 0 <= i < |children| && Valid() reads this, repr => children[i].View()))
    }

    constructor (part: string, isWild: bool)
      ensures Valid() && fresh(repr) && View() == Tree(part, "", isWild, [])
    {
      this.part := part;
      this.isWild := isWild;
      pattern := "";
      children := [];
      repr := {this};
    }

    /** `matchFirstChild`, as a position. */
    method MatchFirstChild(part: string) returns (i: nat)
      requires Valid()
      ensures i == FirstFit(View().children, part)
    {
      i := 0;
      while i < |children|
        invariant i <= |children|
        invariant forall j :: 0 <= j < i ==> !Fits(View().children[j], part)
      {
        assert View().children[i] == children[i].View();
        if children[i].part == part || children[i].isWild { return; }
        i := i + 1;
      }
    }

    /** A new last child. */
    method Append(part: string)
      requires Valid() && part != ""
      modifies this
      ensures Valid() && fresh(repr - old(repr))
      ensures View() == old(View()).(children := old(View()).children + [Leaf(part)])
    {
      var child := new Node(part, part[0] == ':' || part[0] == '*');
      children := children + [child];
      repr := repr + child.repr;
      assert forall i :: 0 <= i < |children| - 1 ==> children[i].View() == old(children[i].View());
    }

    /** Inserts below one child and leaves the others alone. */
    method AddBelow(i: nat, pattern: string, parts: seq<string>, height: nat)
      requires Valid() && i < |children| && height <= |parts| && forall k :: 0 <= k < |parts| ==> parts[k] != ""
      modifies repr
      ensures Valid() && fresh(repr - old(repr))
      ensures View() == old(View()).(children :=
                          old(View()).children[i := Insert(old(View()).children[i], pattern, parts[height..])])
      decreases |parts| - height, 1
    {
      ghost var t := View();
      var child := children[i];
      child.Add(pattern, parts, height);
      assert forall j :: 0 <= j < |children| && j != i ==>
          children[j].repr !! old(child.repr) && children[j].Valid() && children[j].View() == old(children[j].View());
      repr := repr + child.repr;
      assert Valid();
      assert forall j :: 0 <= j < |children| && j != i ==> View().children[j] == t.children[j];
      assert View().children[i] == child.View();
      assert View().children == t.children[i := child.View()];
    }

    /** `insert`. */
    method Add(pattern: string, parts: seq<string>, height: nat)
      requires Valid() && height <= |parts| && forall k :: 0 <= k < |parts| ==> parts[k] != ""
      modifies repr
      ensures Valid() && fresh(repr - old(repr))
      ensures View() == Insert(old(View()), pattern, parts[height..])
      decreases |parts| - height, 0
    {
      if |parts| == height {
        this.pattern := pattern;
        return;
      }
      ghost var t := View();
      var i := MatchFirstChild(parts[height]);
      if i == |children| { Append(parts[height]); }
      AddBelow(i, pattern, parts, height + 1);
      assert parts[height..][1..] == parts[height + 1..];
    }

    /** `search`. */
    method Find(parts: seq<string>, height: nat) returns (n: Node?)
      requires Valid() && height <= |parts|
      ensures n == null <==> Search(View(), parts[height..]) == None
      ensures n != null ==> n in repr && Search(View(), parts[height..]) == Some(n.pattern)
      decreases |parts| - height
    {
      if |parts| == height || Star(part) {
        return if pattern == "" then null else this;
      }
      for i := 0 to |children|
        invariant Search(View(), parts[height..]) == SearchChildren(View().children[i..], parts[height..])
      {
        if children[i].part == parts[height] || children[i].isWild {
          n := children[i].Find(parts, height + 1);
          if n != null { return; }
        }
      }
      n := null;
    }
  }

  // ----- The router -----

  /** The router's entry for one HTTP method: no root until its first route. */
  class Router {
    var root: Node?
    ghost var registered: seq<string>

    ghost function Repr(): set<Node>
      reads this, root
    { if root == null then {} else root.repr }

    /** The trie is the one that the registrations so far build. */
    ghost predicate Valid()
      reads this, root, Repr()
    {
      if root == null then registered == [] else root.Valid() && root.View() == Build(registered)
    }

    constructor ()
      ensures Valid() && registered == [] && Repr() == {}
    {
      root, registered := null, [];
    }

    /** `addRoute`, without the handler it stores. */
    method AddRoute(pattern: string)
      requires Valid()
      modifies this, Repr()
      ensures Valid() && fresh(Repr() - old(Repr()))
      ensures registered == old(registered) + [pattern]
    {
      var parts := ParsePattern(pattern);
      if root == null { root := new Node("", false); }
      root.Add(pattern, parts, 0);
      assert parts[0..] == parts;
      assert (registered + [pattern])[..|registered|] == registered;
      registered := registered + [pattern];
    }

    /** `getRoute`; all segment positions it reads exist, whatever was registered. */
    method GetRoute(path: string) returns (n: Node?, params: map<string, string>)
      requires Valid()
      ensures var found := Search(Build(registered), Parts(path));
              if n == null then found == None && params == map[]
              else found == Some(n.pattern) && |Parts(n.pattern)| <= |Parts(path)| &&
                   BoundBy(Parts(n.pattern), Parts(path), |Parts(n.pattern)|, params) &&
                   StarTakesTheRest(Parts(n.pattern), Parts(path), params) && NoSlashes(Parts(path))
      ensures n != null && Rebuildable(Parts(n.pattern)) && Matches(Parts(n.pattern), Parts(path)) ==>
                JoinSlash(Filled(Parts(n.pattern), params)) == JoinSlash(Parts(path))
      ensures n != null && Covered(Build(registered)) ==> Matches(Parts(n.pattern), Parts(path))
      ensures n == null && RootKept(registered) && CapturesAbsorbed(registered) ==>
                forall p :: p in registered ==> !Matches(Parts(p), Parts(path))
      ensures AllClean(registered) && n != null ==> n.pattern in registered && Matches(Parts(n.pattern), Parts(path))
      ensures AllClean(registered) && "" !in registered && n == null ==>
                forall p :: p in registered ==> !Matches(Parts(p), Parts(path))
    {
      var searchParts := ParsePattern(path);
      Exactness(searchParts);
      params := map[];
      if root == null {
        NothingRegistered(searchParts);
        return null, map[];
      }
      n := root.Find(searchParts, 0);
      assert searchParts[0..] == searchParts;
      if n != null {
        var parts := ParsePattern(n.pattern);
        BuildDepth(registered);
        FoundDepth(Build(registered), searchParts, 0);
        PartsHaveNoSlashes(path);
        params := Bind(parts, searchParts);
      }
    }

    /** What the registrations imply for one search. */
    lemma Exactness(segs: seq<string>)
      ensures var found := Search(Build(registered), segs);
              && (found.Some? && Covered(Build(registered)) ==> Matches(Parts(found.value), segs))
              && (found.Some? && AllClean(registered) ==>
                 found.value in registered && Matches(Parts(found.value), segs))
              && (found.None? && RootKept(registered) && CapturesAbsorbed(registered) ==>
                    forall p :: p in registered ==> !Matches(Parts(p), segs))
              && (found.None? && AllClean(registered) && "" !in registered ==>
                    forall p :: p in registered ==> !Matches(Parts(p), segs))
    {
      var found := Search(Build(registered), segs);
      if found.Some? {
        BuildShape(registered);
        if Covered(Build(registered)) { SoundSearch(Build(registered), segs); }
        if AllClean(registered) { CleanRoutesAreExact(registered, segs); }
      } else {
        if RootKept(registered) && CapturesAbsorbed(registered) {
          forall p | p in registered ensures !Matches(Parts(p), segs) {
            if Matches(Parts(p), segs) { FoundWhenAbsorbed(registered, p, segs); }
          }
        }
        if AllClean(registered) && "" !in registered { FoundIffRegistered(registered, segs); }
      }
    }
  }

  lemma NothingRegistered(segs: seq<string>)
    ensures Search(Build([]), segs) == None
  {
  }
}
