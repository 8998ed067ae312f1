/**
 The consistent-hash ring of go-gee-demo/gee-cache/geecache/consistenthash/consistenthash.go.
 The hash is an arbitrary function to natural numbers; collisions are allowed.
 */
module ConsistentHash {

  /** `strconv.Itoa` for a non-negative replica number. */
  function Itoa(n: nat): string {
    if n < 10 then [('0' as int + n) as char] else Itoa(n / 10) + [('0' as int + n % 10) as char]
  }

  /** The number that decimal digits stand for. */
  function Decimal(s: string): int {
    if s == [] then 0 else 10 * Decimal(s[..|s| - 1]) + s[|s| - 1] as int - '0' as int
  }

  /** `Itoa` gives the decimal form, without leading zeros. */
  lemma {:induction false} ItoaIsDecimal(n: nat)
    ensures Itoa(n) != [] && Decimal(Itoa(n)) == n && (n > 0 ==> Itoa(n)[0] != '0')
    ensures forall i :: 0 <= i < |Itoa(n)| ==> '0' <= Itoa(n)[i] <= '9'
  {
    var last := ('0' as int + n % 10) as char;
    if n < 10 {
      assert Itoa(n) == [last] && [last][..0] == [];
    } else {
      ItoaIsDecimal(n / 10);
      assert Itoa(n)[..|Itoa(n)| - 1] == Itoa(n / 10);
    }
  }

  type Hash = string -> nat

  /** The ring position of a node's `i`-th replica. */
  function Point(h: Hash, node: string, i: nat): nat { h(Itoa(i) + node) }

  // ----- Rings as maps from points to nodes -----

  type Ring = map<nat, string>

  /** `first` is the first point at or after `x`, wrapping around to the smallest point. */
  ghost predicate IsFirst(points: set<nat>, x: nat, first: nat) {
    && first in points
    && if exists p :: p in points && p >= x
       then first >= x && forall p :: p in points && p >= x ==> first <= p
       else forall p :: p in points ==> first <= p
  }

  /** The node that owns position `x`: the one at the first point at or after it; an empty ring answers "". */
  ghost predicate Owns(r: Ring, x: nat, node: string) {
    if r.Keys == {} then node == "" else exists first :: IsFirst(r.Keys, x, first) && r[first] == node
  }

  lemma FirstIsUnique(points: set<nat>, x: nat, a: nat, b: nat)
    requires IsFirst(points, x, a) && IsFirst(points, x, b)
    ensures a == b
  {
  }

  /** Growing the ring moves the first point only onto a new point. */
  lemma FirstAfterGrowth(few: set<nat>, many: set<nat>, x: nat, a: nat, b: nat)
    requires few <= many && IsFirst(few, x, a) && IsFirst(many, x, b)
    ensures b == a || b !in few
  {
    assert a in many;
  }

  // ----- Sorting and searching (library calls of the source) -----

  ghost predicate Sorted(s: seq<nat>) { forall i, j :: 0 <= i < j < |s| ==> s[i] <= s[j] }

  function Insert(x: nat, s: seq<nat>): seq<nat> {
    if s == [] || x <= s[0] then [x] + s else [s[0]] + Insert(x, s[1..])
  }

  /** `sort.Ints`. */
  function SortInts(s: seq<nat>): seq<nat> { if s == [] then [] else Insert(s[0], SortInts(s[1..])) }

  lemma {:induction false} InsertKeeps(x: nat, s: seq<nat>)
    ensures multiset(Insert(x, s)) == multiset(s) + multiset{x}
  {
    if s != [] {
      assert s == [s[0]] + s[1..];
      if x > s[0] { InsertKeeps(x, s[1..]); }
    }
  }

  lemma ConsSorted(x: nat, t: seq<nat>)
    requires Sorted(t) && forall y :: y in t ==> x <= y
    ensures Sorted([x] + t)
  {
    var u := [x] + t;
    forall i, j | 0 <= i < j < |u| ensures u[i] <= u[j] {
      assert u[j] == t[j - 1] && t[j - 1] in t;
    }
  }

  lemma {:induction false} InsertSorts(x: nat, s: seq<nat>)
    requires Sorted(s)
    ensures Sorted(Insert(x, s))
    ensures forall y :: y in Insert(x, s) <==> y == x || y in s
  {
    if s != [] {
      assert s == [s[0]] + s[1..];
      if x > s[0] {
        InsertSorts(x, s[1..]);
        ConsSorted(s[0], Insert(x, s[1..]));
      } else {
        ConsSorted(x, s);
      }
    }
  }

  lemma {:induction false} SortIntsSorts(s: seq<nat>)
    ensures Sorted(SortInts(s)) && multiset(SortInts(s)) == multiset(s)
  {
    if s != [] {
      SortIntsSorts(s[1..]);
      InsertKeeps(s[0], SortInts(s[1..]));
      InsertSorts(s[0], SortInts(s[1..]));
      assert s == [s[0]] + s[1..];
    }
  }

  /** `sort.Search` for the first index whose element is at least `x`. */
  method Search(keys: seq<nat>, x: nat) returns (idx: nat)
    requires Sorted(keys)
    ensures idx <= |keys|
    ensures forall i :: 0 <= i < idx ==> keys[i] < x
    ensures forall i :: idx <= i < |keys| ==> keys[i] >= x
  {
    var lo, hi := 0, |keys|;
    while lo < hi
      invariant 0 <= lo <= hi <= |keys|
      invariant forall i :: 0 <= i < lo ==> keys[i] < x
      invariant forall i :: hi <= i < |keys| ==> keys[i] >= x
    {
      var m := (lo + hi) / 2;
      if keys[m] >= x { hi := m; } else { lo := m + 1; }
    }
    idx := lo;
  }

  // ----- The ring object -----

  /** The ring after adding one node: later writers win a collision. */
  function AddReplicas(r: Ring, h: Hash, node: string, n: nat): Ring {
    if n == 0 then r else AddReplicas(r, h, node, n - 1)[Point(h, node, n - 1) := node]
  }

  function AddNodes(r: Ring, h: Hash, nodes: seq<string>, replicas: nat): Ring {
    if nodes == [] then r
    else AddReplicas(AddNodes(r, h, nodes[..|nodes| - 1], replicas), h, nodes[|nodes| - 1], replicas)
  }

  /** The node that wins point `p`: the last added one with a replica there. */
  ghost predicate Wins(h: Hash, nodes: seq<string>, replicas: nat, p: nat, k: nat) {
    && k < |nodes| && HasPoint(h, nodes[k], replicas, p)
    && forall j :: k < j < |nodes| ==> !HasPoint(h, nodes[j], replicas, p)
  }

  /** One of the node's replicas hashes to `p`. */
  ghost predicate HasPoint(h: Hash, node: string, replicas: nat, p: nat) {
    exists i: nat :: i < replicas && h(Itoa(i) + node) == p
  }

  ghost predicate SomeHasPoint(h: Hash, nodes: seq<string>, replicas: nat, p: nat) {
    exists k :: 0 <= k < |nodes| && HasPoint(h, nodes[k], replicas, p)
  }

  lemma {:induction false} ReplicasAdded(r: Ring, h: Hash, node: string, n: nat, p: nat)
    ensures var s := AddReplicas(r, h, node, n);
            && (p in s <==> p in r || HasPoint(h, node, n, p))
            && (p in s ==> s[p] == if HasPoint(h, node, n, p) then node else r[p])
  {
    if n > 0 {
      ReplicasAdded(r, h, node, n - 1, p);
      assert HasPoint(h, node, n, p) <==> HasPoint(h, node, n - 1, p) || p == h(Itoa(n - 1) + node);
    }
  }

  lemma LastNode(h: Hash, nodes: seq<string>, replicas: nat, p: nat)
    requires nodes != []
    ensures var n := |nodes| - 1;
            && (SomeHasPoint(h, nodes, replicas, p) <==>
               SomeHasPoint(h, nodes[..n], replicas, p) || HasPoint(h, nodes[n], replicas, p))
            && (forall k: nat :: k < n && Wins(h, nodes, replicas, p, k) ==> Wins(h, nodes[..n], replicas, p, k))
  {
    var n := |nodes| - 1;
    assert forall k :: 0 <= k < n ==> nodes[..n][k] == nodes[k];
    if SomeHasPoint(h, nodes[..n], replicas, p) {
      var k :| 0 <= k < n && HasPoint(h, nodes[..n][k], replicas, p);
      assert HasPoint(h, nodes[k], replicas, p);
    }
    if SomeHasPoint(h, nodes, replicas, p) && !HasPoint(h, nodes[n], replicas, p) {
      var k :| 0 <= k < |nodes| && HasPoint(h, nodes[k], replicas, p);
      assert HasPoint(h, nodes[..n][k], replicas, p);
    }
  }

  /**
   The ring after adding nodes: the old points and the hash of every replica of every added node, each owned by
   the last added node with a replica there, and by its old owner if there is none.
   */
  lemma {:induction false} NodesAdded(r: Ring, h: Hash, nodes: seq<string>, replicas: nat, p: nat)
    ensures var s := AddNodes(r, h, nodes, replicas);
            && (p in s <==> p in r || SomeHasPoint(h, nodes, replicas, p))
            && (forall k: nat :: Wins(h, nodes, replicas, p, k) ==> p in s && s[p] == nodes[k])
            && (p in r && !SomeHasPoint(h, nodes, replicas, p) ==> s[p] == r[p])
    decreases |nodes|
  {
    if nodes != [] {
      var n := |nodes| - 1;
      NodesAdded(r, h, nodes[..n], replicas, p);
      ReplicasAdded(AddNodes(r, h, nodes[..n], replicas), h, nodes[n], replicas, p);
      LastNode(h, nodes, replicas, p);
    }
  }

  class Map {
    const hash: Hash
    const replicas: nat
    var keys: seq<nat>
    var hashMap: Ring

    /** The sorted keys list the ring's points, collisions repeated. */
    ghost predicate Valid()
      reads this
    { Sorted(keys) && forall p :: p in keys <==> p in hashMap }

    constructor (replicas: nat, hash: Hash)
      ensures Valid() && hashMap == map[] && this.hash == hash && this.replicas == replicas
    {
      this.replicas, this.hash := replicas, hash;
      keys, hashMap := [], map[];
    }

    method Add(nodes: seq<string>)
      requires Valid()
      modifies this`keys, this`hashMap
      ensures Valid() && hashMap == AddNodes(old(hashMap), hash, nodes, replicas)
      ensures forall p: nat :: p in hashMap <==>
                p in old(hashMap) || SomeHasPoint(hash, nodes, replicas, p)
      ensures forall p: nat, k: nat :: Wins(hash, nodes, replicas, p, k) ==>
                p in hashMap && hashMap[p] == nodes[k]
    {
      forall p: nat { NodesAdded(hashMap, hash, nodes, replicas, p); }
      for n := 0 to |nodes|
        invariant hashMap == AddNodes(old(hashMap), hash, nodes[..n], replicas)
        invariant forall p :: p in keys <==> p in hashMap
      {
        ghost var before := hashMap;
        for i := 0 to replicas
          invariant hashMap == AddReplicas(before, hash, nodes[n], i)
          invariant forall p :: p in keys <==> p in hashMap
        {
          var point := Point(hash, nodes[n], i);
          keys := keys + [point];
          hashMap := hashMap[point := nodes[n]];
        }
        assert nodes[..n + 1][..n] == nodes[..n];
      }
      assert nodes[..|nodes|] == nodes;
      SortIntsSorts(keys);
      ghost var unsorted := keys;
      keys := SortInts(keys);
      forall p ensures p in keys <==> p in hashMap {
        assert p in keys <==> p in multiset(keys);
        assert p in unsorted <==> p in multiset(unsorted);
      }
    }

    method Get(key: string) returns (node: string)
      requires Valid()
      ensures forall n :: Owns(hashMap, hash(key), n) <==> n == node
    {
      if |keys| == 0 {
        assert forall p :: p !in hashMap.Keys;
        forall n | Owns(hashMap, hash(key), n) ensures n == "" { OwnerIsUnique(hashMap, hash(key), n, ""); }
        return "";
      }
      var x := hash(key);
      var idx := Search(keys, x);
      var first := keys[idx % |keys|];
      assert first in keys;
      FirstFound(keys, hashMap.Keys, x, idx);
      node := hashMap[first];
      forall n | Owns(hashMap, x, n) ensures n == node { OwnerIsUnique(hashMap, x, n, node); }
    }
  }

  /** The searched index, taken modulo the length, is the first point. */
  lemma FirstFound(keys: seq<nat>, points: set<nat>, x: nat, idx: nat)
    requires Sorted(keys) && keys != [] && (forall p :: p in keys <==> p in points) && idx <= |keys|
    requires forall i :: 0 <= i < idx ==> keys[i] < x
    requires forall i :: idx <= i < |keys| ==> keys[i] >= x
    ensures IsFirst(points, x, keys[idx % |keys|])
  {
    var first := keys[idx % |keys|];
    assert first in keys;
    if idx < |keys| {
      assert idx % |keys| == idx && first in points && first >= x;
      forall p | p in points && p >= x ensures first <= p {
        var i :| 0 <= i < |keys| && keys[i] == p;
      }
    } else {
      forall p | p in points ensures first <= p && p < x {
        var i :| 0 <= i < |keys| && keys[i] == p;
      }
    }
  }

  // ----- Monotonicity -----

  /** Old points keep their node unless an added node took them over. */
  ghost predicate Extends(r: Ring, s: Ring, nodes: set<string>) {
    && r.Keys <= s.Keys
    && forall p :: p in s ==> s[p] in nodes || (p in r && s[p] == r[p])
  }

  lemma {:induction false} AddReplicasExtends(r: Ring, h: Hash, node: string, n: nat)
    ensures Extends(r, AddReplicas(r, h, node, n), {node})
  {
    if n > 0 { AddReplicasExtends(r, h, node, n - 1); }
  }

  lemma {:induction false} AddNodesExtends(r: Ring, h: Hash, nodes: seq<string>, replicas: nat)
    ensures Extends(r, AddNodes(r, h, nodes, replicas), set i | 0 <= i < |nodes| :: nodes[i])
    decreases |nodes|
  {
    if nodes != [] {
      var k := |nodes| - 1;
      AddNodesExtends(r, h, nodes[..k], replicas);
      AddReplicasExtends(AddNodes(r, h, nodes[..k], replicas), h, nodes[k], replicas);
      var all := set i | 0 <= i < |nodes| :: nodes[i];
      forall x | x in (set i | 0 <= i < k :: nodes[..k][i]) ensures x in all {
        var i :| 0 <= i < k && nodes[..k][i] == x;
        assert nodes[i] == x;
      }
      assert nodes[k] in all;
    }
  }

  lemma OwnerIsUnique(r: Ring, x: nat, a: string, b: string)
    requires Owns(r, x, a) && Owns(r, x, b)
    ensures a == b
  {
    if r.Keys != {} {
      var p :| IsFirst(r.Keys, x, p) && r[p] == a;
      var q :| IsFirst(r.Keys, x, q) && r[q] == b;
      FirstIsUnique(r.Keys, x, p, q);
    }
  }

  /**
   After adding nodes, a key's owner is its previous owner or one of the added nodes; on an empty ring that means an
   added node or none.
   */
  lemma OnlyMovesToNewNodes(r: Ring, h: Hash, nodes: seq<string>, replicas: nat, x: nat, before: string, after: string)
    requires Owns(r, x, before) && Owns(AddNodes(r, h, nodes, replicas), x, after)
    ensures after == before || after in nodes
  {
    var s := AddNodes(r, h, nodes, replicas);
    AddNodesExtends(r, h, nodes, replicas);
    if s.Keys != {} {
      var b :| IsFirst(s.Keys, x, b) && s[b] == after;
      if r.Keys != {} {
        var a :| IsFirst(r.Keys, x, a) && r[a] == before;
        FirstAfterGrowth(r.Keys, s.Keys, x, a, b);
      }
    }
  }
}
