/**
 Paths that clients send to the router of go-gee-demo/gee-web/gee/router.go, and the segments that
 `parsePattern` makes of them.
 */
module TriePaths {
  import opened TrieRouter

  /** `strings.Join(segs, "/")`. */
  function JoinSlash(segs: seq<string>): string {
    if segs == [] then "" else if |segs| == 1 then segs[0] else segs[0] + "/" + JoinSlash(segs[1..])
  }

  // ----- Segments that a path can carry -----

  /** Segments that come back as they are when joined and parsed. */
  predicate Sendable(segs: seq<string>) {
    forall i :: 0 <= i < |segs| ==> segs[i] != "" && '/' !in segs[i] && !Star(segs[i])
  }

  lemma {:induction false} SplitOfOne(part: string)
    requires '/' !in part
    ensures Split(part) == [part]
  {
    if part != [] {
      SplitOfOne(part[1..]);
      assert [part[0]] + part[1..] == part;
    }
  }

  lemma PartsOfOne(part: string)
    requires part != "" && '/' !in part
    ensures Parts("/" + part) == [part]
  {
    var s := "/" + part;
    assert s[1..] == part;
    SplitOfOne(part);
    assert Split(s) == [""] + [part];
    assert Split(s)[1..] == [part] && [part][1..] == [];
    assert Kept([part]) == [part];
  }

  lemma {:induction false} SplitAtSlash(part: string, rest: string)
    requires '/' !in part
    ensures Split(part + "/" + rest) == [part] + Split(rest)
  {
    var s := part + "/" + rest;
    if part == [] {
      assert s[1..] == rest;
    } else {
      SplitAtSlash(part[1..], rest);
      assert s[1..] == part[1..] + "/" + rest && s[0] == part[0];
      var more := Split(s[1..]);
      assert more[0] == part[1..] && more[1..] == Split(rest);
      assert [part[0]] + part[1..] == part;
    }
  }

  predicate NoSlashes(items: seq<string>) { forall i :: 0 <= i < |items| ==> '/' !in items[i] }

  /** Joining undoes splitting: segments without slashes come back, empty ones too. */
  lemma {:induction false} SplitOfJoin(segs: seq<string>)
    requires segs != [] && NoSlashes(segs)
    ensures Split(JoinSlash(segs)) == segs
    decreases |segs|
  {
    var first, later := segs[0], segs[1..];
    assert segs == [first] + later;
    if later == [] {
      SplitOfOne(first);
    } else {
      SplitOfJoin(later);
      SplitAtSlash(first, JoinSlash(later));
    }
  }

  lemma {:induction false} SendableIsKept(segs: seq<string>)
    requires Sendable(segs)
    ensures Kept(segs) == segs
  {
    if segs != [] {
      SendableIsKept(segs[1..]);
      assert segs == [segs[0]] + segs[1..];
    }
  }

  /** Every sequence of sendable segments is what a path beginning with a slash parses to. */
  lemma SentAsIs(segs: seq<string>)
    requires Sendable(segs)
    ensures Parts("/" + JoinSlash(segs)) == segs
  {
    var s := "/" + JoinSlash(segs);
    assert s[1..] == JoinSlash(segs);
    assert Split(s)[0] == "" && Split(s)[1..] == Split(JoinSlash(segs));
    SendableIsKept(segs);
    if segs == [] {
      assert [""][1..] == [] && Kept([""]) == Kept([]);
    } else {
      SplitOfJoin(segs);
    }
  }

  /** Splitting undoes joining as well. */
  lemma {:induction false} JoinOfSplit(s: string)
    ensures JoinSlash(Split(s)) == s
  {
    if s != [] {
      var rest := Split(s[1..]);
      JoinOfSplit(s[1..]);
      assert s == [s[0]] + s[1..];
      if s[0] == '/' {
        assert ([""] + rest)[1..] == rest;
      } else {
        assert ([[s[0]] + rest[0]] + rest[1..])[1..] == rest[1..];
      }
    }
  }

  /** Repeated slashes do not matter, and nothing after a star does. */
  lemma {:induction false} KeptIgnores(a: seq<string>, b: seq<string>)
    ensures Kept(a + [""] + b) == Kept(a + b)
    ensures forall star :: Star(star) && Sendable(a) ==> Kept(a + [star] + b) == a + [star]
    decreases |a|
  {
    if a == [] {
      assert a + [""] + b == [""] + b && a + b == b;
      forall star | Star(star) ensures Kept(a + [star] + b) == a + [star] { assert a + [star] + b == [star] + b; }
    } else {
      KeptIgnores(a[1..], b);
      assert a == [a[0]] + a[1..];
      assert a + [""] + b == [a[0]] + (a[1..] + [""] + b) && a + b == [a[0]] + (a[1..] + b);
      forall star | Star(star) && Sendable(a) ensures Kept(a + [star] + b) == a + [star] {
        assert a + [star] + b == [a[0]] + (a[1..] + [star] + b);
      }
    }
  }

  // ----- No part holds a slash -----

  lemma {:induction false} SplitHasNoSlashes(s: string)
    ensures NoSlashes(Split(s))
  {
    if s != [] { SplitHasNoSlashes(s[1..]); }
  }

  lemma {:induction false} KeptHasNoSlashes(items: seq<string>)
    requires NoSlashes(items)
    ensures NoSlashes(Kept(items))
  {
    if items != [] { KeptHasNoSlashes(items[1..]); }
  }

  ghost predicate SlashFree(t: Tree) {
    forall i :: 0 <= i < |t.children| ==> '/' !in t.children[i].part && SlashFree(t.children[i])
  }

  lemma {:induction false} InsertKeepsSlashFree(t: Tree, pattern: string, parts: seq<string>)
    requires SlashFree(t) && NoSlashes(parts)
    ensures SlashFree(Insert(t, pattern, parts)) && Insert(t, pattern, parts).part == t.part
    decreases |parts|
  {
    if parts != [] {
      var i := FirstFit(t.children, parts[0]);
      InsertKeepsSlashFree(if i < |t.children| then t.children[i] else Leaf(parts[0]), pattern, parts[1..]);
    }
  }

  lemma {:induction false} BuildSlashFree(patterns: seq<string>)
    ensures SlashFree(Build(patterns))
  {
    if patterns != [] {
      var n := |patterns| - 1;
      BuildSlashFree(patterns[..n]);
      PartsHaveNoSlashes(patterns[n]);
      InsertKeepsSlashFree(Build(patterns[..n]), patterns[n], Parts(patterns[n]));
    }
  }

  lemma PartsHaveNoSlashes(pattern: string)
    ensures NoSlashes(Parts(pattern))
  {
    SplitHasNoSlashes(pattern);
    KeptHasNoSlashes(Split(pattern));
  }
}
