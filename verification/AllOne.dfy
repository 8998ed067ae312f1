/**
 `AllOne` of kafka/src/main/java/com/example/springsourcecode/SpringSourceCodeApplication.java:
 a doubly linked list of buckets, one per count in use, that mirrors a plain counter map.
 */
module AllOne {

  // Integer.MAX_VALUE
  const MAX: int := 0x7fff_ffff

  // ----- The counter map -----

  function Incremented(s: map<string, int>, key: string): map<string, int> {
    s[key := if key in s then s[key] + 1 else 1]
  }

  function Decremented(s: map<string, int>, key: string): map<string, int> {
    if key !in s then s else if s[key] > 1 then s[key := s[key] - 1] else s - {key}
  }

  // ----- Buckets by count -----

  type Bags = map<int, set<string>>

  /** The buckets are exactly the level sets of the counter map, and only the two sentinels are empty. */
  ghost predicate Partition(b: Bags, s: map<string, int>) {
    && 0 in b && MAX in b
    && (forall c, k :: c in b ==> (k in b[c] <==> k in s && s[k] == c))
    && (forall k :: k in s ==> s[k] in b && 0 < s[k] < MAX)
    && (forall c :: c in b && c != 0 && c != MAX ==> b[c] != {})
  }

  function Entered(b: Bags, key: string, c: int): Bags {
    b[c := (if c in b then b[c] else {}) + {key}]
  }

  function Left(b: Bags, key: string, c: int): Bags
    requires c in b
  {
    if b[c] - {key} == {} then b - {c} else b[c := b[c] - {key}]
  }

  lemma PartitionNew(b: Bags, s: map<string, int>, key: string)
    requires Partition(b, s) && key !in s
    ensures Partition(Entered(b, key, 1), s[key := 1])
  {
  }

  lemma PartitionMove(b: Bags, s: map<string, int>, key: string, to: int)
    requires Partition(b, s) && key in s && to != s[key] && 0 < to < MAX
    ensures Partition(Left(Entered(b, key, to), key, s[key]), s[key := to])
  {
    var from := s[key];
    var rest := b[from] - {key};
    var after := Left(Entered(b, key, to), key, from);
    forall c, k | c in after ensures k in after[c] <==> k in s[key := to] && s[key := to][k] == c {
      if c != from && c != to { assert after[c] == b[c]; }
    }
    forall k | k in s && k != key ensures s[k] in after {
      if s[k] == from { assert k in rest; }
    }
  }

  lemma PartitionDrop(b: Bags, s: map<string, int>, key: string)
    requires Partition(b, s) && key in s
    ensures Partition(Left(b, key, s[key]), s - {key})
  {
    var rest := b[s[key]] - {key};
    forall k | k in s && k != key ensures s[k] in Left(b, key, s[key]) {
      if s[k] == s[key] { assert k in rest; }
    }
  }

  /** The buckets after `key` moved from count `from` to count `to`; 0 stands for no bucket. */
  function Moved(b: Bags, key: string, from: int, to: int): Bags
    requires from > 0 ==> from in b
  {
    var b' := if to > 0 then Entered(b, key, to) else b;
    if from > 0 then Left(b', key, from) else b'
  }

  /** Entering the new bucket and then leaving the old one follows any change of one count by one. */
  lemma MoveKeeps(b: Bags, s: map<string, int>, key: string, from: int, to: int)
    requires Partition(b, s) && from == if key in s then s[key] else 0
    requires 0 <= to < MAX && (to == from + 1 || to == from - 1)
    ensures Partition(Moved(b, key, from, to), if to == 0 then s - {key} else s[key := to])
  {
    if key !in s {
      PartitionNew(b, s, key);
    } else if to > 0 {
      PartitionMove(b, s, key, to);
    } else {
      PartitionDrop(b, s, key);
    }
  }

  /** The counter map forces the buckets. */
  lemma BucketsAreForced(b1: Bags, b2: Bags, s: map<string, int>)
    requires Partition(b1, s) && Partition(b2, s)
    ensures b1 == b2
  {
    forall c | c in b1 ensures c in b2 {
      if c != 0 && c != MAX { var k :| k in b1[c]; assert s[k] == c; }
    }
    forall c | c in b2 ensures c in b1 {
      if c != 0 && c != MAX { var k :| k in b2[c]; assert s[k] == c; }
    }
    forall c | c in b1 ensures b1[c] == b2[c] {
      forall k ensures k in b1[c] <==> k in b2[c] { assert k in b1[c] <==> k in s && s[k] == c; }
    }
  }

  // ----- The linked list -----

  class Entry {
    const refCnt: int
    var strs: set<string>
    var prev: Entry?
    var next: Entry?

    constructor (refCnt: int)
      ensures this.refCnt == refCnt && strs == {} && prev == null && next == null
    {
      this.refCnt := refCnt;
      strs := {};
      prev, next := null, null;
    }
  }

  predicate Sorted(nodes: seq<Entry>) {
    forall i, j :: 0 <= i < j < |nodes| ==> nodes[i].refCnt < nodes[j].refCnt
  }

  ghost predicate Chained(nodes: seq<Entry>)
    reads nodes`prev, nodes`next
  {
    && (forall i, j :: 0 <= i && j == i + 1 < |nodes| ==> nodes[i].next == nodes[j] && nodes[j].prev == nodes[i])
    && (|nodes| > 0 ==> nodes[0].prev == null && nodes[|nodes| - 1].next == null)
  }

  ghost predicate Indexed(index: map<int, Entry>, nodes: seq<Entry>) {
    && (forall c :: c in index ==> index[c] in nodes && index[c].refCnt == c)
    && (forall n :: n in nodes ==> n.refCnt in index && index[n.refCnt] == n)
  }

  ghost function Inserted(nodes: seq<Entry>, p: nat, e: Entry): seq<Entry>
    requires p <= |nodes|
  { nodes[..p] + [e] + nodes[p..] }

  ghost function Removed(nodes: seq<Entry>, p: nat): seq<Entry>
    requires p < |nodes|
  { nodes[..p] + nodes[p + 1..] }

  lemma InsertedMembers<T>(s: seq<T>, q: nat, e: T, n: T)
    requires q <= |s|
    ensures n in s[..q] + [e] + s[q..] <==> n in s || n == e
  {
    assert s == s[..q] + s[q..];
  }

  lemma InsertedIsSorted(nodes: seq<Entry>, q: nat, e: Entry)
    requires Sorted(nodes) && q <= |nodes|
    requires forall i :: 0 <= i < |nodes| ==> (i < q <==> nodes[i].refCnt < e.refCnt) && nodes[i].refCnt != e.refCnt
    ensures Sorted(Inserted(nodes, q, e))
  {
  }

  lemma InsertedIsIndexed(index: map<int, Entry>, nodes: seq<Entry>, q: nat, e: Entry)
    requires Indexed(index, nodes) && q <= |nodes| && e.refCnt !in index
    ensures Indexed(index[e.refCnt := e], Inserted(nodes, q, e))
    ensures forall n :: n in Inserted(nodes, q, e) <==> n in nodes || n == e
  {
    var after := Inserted(nodes, q, e);
    forall n ensures n in after <==> n in nodes || n == e { InsertedMembers(nodes, q, e, n); }
  }

  /** A count next to that of `nodes[p]` belongs directly behind or in front of it, strictly inside the list. */
  lemma FitsNextTo(index: map<int, Entry>, nodes: seq<Entry>, p: nat, e: Entry, q: nat)
    requires Sorted(nodes) && Indexed(index, nodes) && p < |nodes| && |nodes| >= 2
    requires nodes[0].refCnt == 0 && nodes[|nodes| - 1].refCnt == MAX && 0 < e.refCnt < MAX
    requires e.refCnt == nodes[p].refCnt + 1 || e.refCnt == nodes[p].refCnt - 1
    requires e.refCnt !in index && q == if e.refCnt > nodes[p].refCnt then p + 1 else p
    ensures 0 < q < |nodes|
    ensures Sorted(Inserted(nodes, q, e))
    ensures Indexed(index[e.refCnt := e], Inserted(nodes, q, e))
    ensures forall n :: n in Inserted(nodes, q, e) <==> n in nodes || n == e
  {
    forall i | 0 <= i < |nodes|
      ensures (i < q <==> nodes[i].refCnt < e.refCnt) && nodes[i].refCnt != e.refCnt
    {
      assert nodes[i] in nodes;
    }
    InsertedIsSorted(nodes, q, e);
    InsertedIsIndexed(index, nodes, q, e);
  }

  lemma RemovedMembers(nodes: seq<Entry>, p: nat, n: Entry)
    requires Sorted(nodes) && p < |nodes|
    ensures n in Removed(nodes, p) <==> n in nodes && n.refCnt != nodes[p].refCnt
  {
    assert nodes == nodes[..p] + [nodes[p]] + nodes[p + 1..];
    if n in nodes[..p] {
      var i :| 0 <= i < p && nodes[i] == n;
    }
    if n in nodes[p + 1..] {
      var i :| p < i < |nodes| && nodes[i] == n;
    }
  }

  lemma RemovedIsIndexed(index: map<int, Entry>, nodes: seq<Entry>, p: nat)
    requires Sorted(nodes) && Indexed(index, nodes) && p < |nodes|
    ensures Sorted(Removed(nodes, p))
    ensures Indexed(index - {nodes[p].refCnt}, Removed(nodes, p))
    ensures forall n :: n in Removed(nodes, p) <==> n in nodes && n.refCnt != nodes[p].refCnt
  {
    var after := Removed(nodes, p);
    forall n ensures n in after <==> n in nodes && n.refCnt != nodes[p].refCnt { RemovedMembers(nodes, p, n); }
  }

  /** From `head` to `tail`: strictly sorted, doubly linked, and found through the index. */
  ghost predicate IsList(index: map<int, Entry>, nodes: seq<Entry>, head: Entry, tail: Entry)
    reads nodes`prev, nodes`next
  {
    && |nodes| >= 2 && nodes[0] == head && nodes[|nodes| - 1] == tail
    && head.refCnt == 0 && tail.refCnt == MAX
    && Sorted(nodes) && Chained(nodes) && Indexed(index, nodes)
  }

  /** The pointer writes of `addNewEntry`: behind `origin`, or in front of it. */
  method LinkNextTo(entry: Entry, origin: Entry, ghost index: map<int, Entry>, ghost nodes: seq<Entry>,
                    ghost head: Entry, ghost tail: Entry)
    returns (ghost after: seq<Entry>)
    requires IsList(index, nodes, head, tail) && origin in nodes && entry !in nodes
    requires 0 < entry.refCnt < MAX && entry.refCnt !in index
    requires entry.refCnt == origin.refCnt + 1 || entry.refCnt == origin.refCnt - 1
    modifies entry`prev, entry`next, nodes`prev, nodes`next
    ensures IsList(index[entry.refCnt := entry], after, head, tail)
    ensures forall n :: n in after <==> n in nodes || n == entry
  {
    ghost var p :| 0 <= p < |nodes| && nodes[p] == origin;
    ghost var q := if origin.refCnt < entry.refCnt then p + 1 else p;
    FitsNextTo(index, nodes, p, entry, q);
    Relink(entry, origin, origin.refCnt < entry.refCnt, nodes, q);
    after := Inserted(nodes, q, entry);
  }

  method Relink(entry: Entry, origin: Entry, behind: bool, ghost nodes: seq<Entry>, ghost q: nat)
    requires Chained(nodes) && Sorted(nodes) && 0 < q < |nodes| && entry !in nodes
    requires origin == if behind then nodes[q - 1] else nodes[q]
    modifies entry`prev, entry`next, nodes`prev, nodes`next
    ensures Chained(Inserted(nodes, q, entry))
  {
    if behind {
      LinkBehind(entry, origin, nodes, q);
    } else {
      LinkBefore(entry, origin, nodes, q);
    }
  }

  method LinkBehind(entry: Entry, origin: Entry, ghost nodes: seq<Entry>, ghost q: nat)
    requires Chained(nodes) && Sorted(nodes) && 0 < q < |nodes| && entry !in nodes && origin == nodes[q - 1]
    modifies entry`prev, entry`next, nodes`prev, nodes`next
    ensures Chained(Inserted(nodes, q, entry))
  {
    assert nodes[q - 1].next == nodes[q];
    entry.prev := origin;
    entry.next := origin.next;
    origin.next.prev := entry;
    origin.next := entry;
  }

  method LinkBefore(entry: Entry, origin: Entry, ghost nodes: seq<Entry>, ghost q: nat)
    requires Chained(nodes) && Sorted(nodes) && 0 < q < |nodes| && entry !in nodes && origin == nodes[q]
    modifies entry`prev, entry`next, nodes`prev, nodes`next
    ensures Chained(Inserted(nodes, q, entry))
  {
    assert nodes[q - 1].next == nodes[q];
    entry.prev := origin.prev;
    entry.next := origin;
    origin.prev.next := entry;
    origin.prev := entry;
  }

  /** The pointer writes of `removeOldEntry`. */
  method Unlink(entry: Entry, ghost nodes: seq<Entry>, ghost p: nat)
    requires Chained(nodes) && Sorted(nodes) && 0 < p < |nodes| - 1 && entry == nodes[p]
    modifies nodes`prev, nodes`next
    ensures Chained(Removed(nodes, p))
  {
    assert nodes[p - 1].next == nodes[p] && nodes[p].next == nodes[p + 1];
    entry.prev.next := entry.next;
    entry.next.prev := entry.prev;
    entry.prev := null;
    entry.next := null;
  }

  method TakeOut(entry: Entry, ghost index: map<int, Entry>, ghost nodes: seq<Entry>, ghost head: Entry,
                 ghost tail: Entry)
    returns (ghost after: seq<Entry>)
    requires IsList(index, nodes, head, tail) && entry in nodes && entry != head && entry != tail
    modifies nodes`prev, nodes`next
    ensures IsList(index - {entry.refCnt}, after, head, tail)
    ensures forall n :: n in after <==> n in nodes && n.refCnt != entry.refCnt
  {
    ghost var p :| 0 <= p < |nodes| && nodes[p] == entry;
    RemovedIsIndexed(index, nodes, p);
    Unlink(entry, nodes, p);
    after := Removed(nodes, p);
  }

  class AllOne {
    var storage: map<string, int>
    var index: map<int, Entry>
    var head: Entry
    var tail: Entry
    ghost var nodes: seq<Entry>

    /** `nodes` is the list from `head` to `tail`: doubly linked, strictly sorted, and indexed by count. */
    ghost predicate Linked()
      reads this`index, this`head, this`tail, this`nodes, nodes`prev, nodes`next
    { IsList(index, nodes, head, tail) }

    ghost function Buckets(): Bags
      reads this`index, index.Values`strs
    { map c | c in index :: index[c].strs }

    ghost predicate Valid()
      reads this, nodes, index.Values
    { Linked() && Partition(Buckets(), storage) }

    constructor ()
      ensures Valid() && storage == map[]
      ensures fresh(nodes)
    {
      var h := new Entry(0);
      var t := new Entry(MAX);
      storage := map[];
      head, tail := h, t;
      nodes := [h, t];
      index := map[0 := h, MAX := t];
      new;
      head.next := tail;
      tail.prev := head;
    }

    method AddNewEntry(originRefCnt: int, newRefCnt: int) returns (entry: Entry)
      requires Linked() && originRefCnt in index && newRefCnt !in index
      requires newRefCnt == originRefCnt + 1 || newRefCnt == originRefCnt - 1
      requires 0 < newRefCnt < MAX
      modifies this`index, this`nodes, nodes`prev, nodes`next
      ensures Linked()
      ensures fresh(entry) && entry.refCnt == newRefCnt && entry.strs == {}
      ensures index == old(index)[newRefCnt := entry]
      ensures forall n :: n in nodes <==> n in old(nodes) || n == entry
    {
      entry := new Entry(newRefCnt);
      nodes := LinkNextTo(entry, index[originRefCnt], index, nodes, head, tail);
      index := index[newRefCnt := entry];
    }

    method RemoveOldEntry(refCnt: int)
      requires Linked() && refCnt != 0 && refCnt != MAX
      modifies this`index, this`nodes, nodes`prev, nodes`next
      ensures Linked()
      ensures index == old(index) - {refCnt} && Buckets() == old(Buckets()) - {refCnt}
      ensures forall n :: n in nodes <==> n in old(nodes) && n.refCnt != refCnt
    {
      if refCnt in index {
        var entry := index[refCnt];
        nodes := TakeOut(entry, index, nodes, head, tail);
        index := index - {refCnt};
      }
      assert Buckets() == old(Buckets()) - {refCnt};
    }

    /** Overwrites the keys of one bucket. */
    method SetKeys(entry: Entry, keys: set<string>)
      requires Linked() && entry in nodes
      modifies entry`strs
      ensures Linked() && Buckets() == old(Buckets())[entry.refCnt := keys]
    {
      entry.strs := keys;
      forall c | c in index && c != entry.refCnt ensures index[c].strs == old(index[c].strs) {
        assert index[c].refCnt == c;
      }
      assert Buckets() == old(Buckets())[entry.refCnt := keys];
    }

    /** The bucket for `newRefCnt`, made next to the one for `originRefCnt` if it is missing. */
    method BucketFor(originRefCnt: int, newRefCnt: int) returns (entry: Entry)
      requires Linked() && originRefCnt in index
      requires newRefCnt == originRefCnt + 1 || newRefCnt == originRefCnt - 1
      requires 0 < newRefCnt <= MAX
      modifies this`index, this`nodes, nodes`prev, nodes`next
      ensures Linked() && entry in nodes && entry.refCnt == newRefCnt
      ensures Buckets() == old(Buckets())[newRefCnt := entry.strs]
      ensures entry.strs == if newRefCnt in old(Buckets()) then old(Buckets())[newRefCnt] else {}
      ensures forall n :: n in nodes ==> n in old(nodes) || fresh(n)
    {
      if newRefCnt in index {
        entry := index[newRefCnt];
      } else {
        entry := AddNewEntry(originRefCnt, newRefCnt);
      }
    }

    /** `key` joins the bucket for `newRefCnt`. */
    method Enter(key: string, originRefCnt: int, newRefCnt: int)
      requires Linked() && originRefCnt in index
      requires newRefCnt == originRefCnt + 1 || newRefCnt == originRefCnt - 1
      requires 0 < newRefCnt <= MAX
      modifies this`index, this`nodes, nodes
      ensures Linked() && Buckets() == Entered(old(Buckets()), key, newRefCnt)
      ensures forall n :: n in nodes ==> n in old(nodes) || fresh(n)
    {
      var entry := BucketFor(originRefCnt, newRefCnt);
      SetKeys(entry, entry.strs + {key});
      assert Buckets() == Entered(old(Buckets()), key, newRefCnt);
    }

    /** `key` leaves the bucket for `refCnt`, which goes away with its last key. */
    method Leave(key: string, refCnt: int)
      requires Linked() && refCnt in index && refCnt != 0 && refCnt != MAX
      modifies this`index, this`nodes, nodes
      ensures Linked() && Buckets() == Left(old(Buckets()), key, refCnt)
      ensures forall n :: n in nodes ==> n in old(nodes)
    {
      ghost var b := Buckets();
      var rest := index[refCnt].strs - {key};
      SetKeys(index[refCnt], rest);
      if index[refCnt].strs == {} {
        RemoveOldEntry(refCnt);
        assert b[refCnt := rest] - {refCnt} == b - {refCnt};
      }
    }

    /**
     The list half of `inc` and `dec`: the count of `key` goes from `from` to `to`, where 0 stands for an
     absent key; `before` and `after` are the counter map around it.
     */
    method Move(key: string, from: int, to: int, ghost before: map<string, int>, ghost after: map<string, int>)
      requires Linked() && Partition(Buckets(), before)
      requires from == if key in before then before[key] else 0
      requires 0 <= to <= MAX && (to == from + 1 || to == from - 1)
      requires after == if to == 0 then before - {key} else before[key := to]
      modifies this`index, this`nodes, nodes
      ensures Linked() && Buckets() == Moved(old(Buckets()), key, from, to)
      ensures to < MAX ==> Partition(Buckets(), after)
      ensures forall n :: n in nodes ==> n in old(nodes) || fresh(n)
    {
      if to < MAX { MoveKeeps(Buckets(), before, key, from, to); }
      if to > 0 { Enter(key, from, to); }
      if from > 0 {
        assert from in Buckets();
        Leave(key, from);
      }
    }

    /** `inc`; a key that reaches Integer.MAX_VALUE lands in the sentinel at the end, and the promises end there. */
    method Inc(key: string)
      requires Valid()
      modifies this`storage, this`index, this`nodes, nodes
      ensures storage == Incremented(old(storage), key) && Linked()
      ensures Valid() <==> storage[key] < MAX
      ensures storage[key] == MAX ==> key in tail.strs
      ensures forall n :: n in nodes ==> n in old(nodes) || fresh(n)
    {
      var originRefCnt := if key in storage then storage[key] else 0;
      ghost var before, b := storage, Buckets();
      storage := storage[key := originRefCnt + 1];
      assert storage == Incremented(before, key) && Buckets() == b;
      Move(key, originRefCnt, originRefCnt + 1, before, storage);
      if originRefCnt + 1 == MAX { assert Buckets()[MAX] == tail.strs; }
    }

    /** `dec`. */
    method Dec(key: string)
      requires Valid()
      modifies this`storage, this`index, this`nodes, nodes
      ensures Valid() && storage == Decremented(old(storage), key)
      ensures forall n :: n in nodes ==> n in old(nodes) || fresh(n)
    {
      if key !in storage { return; }
      var originRefCnt := storage[key];
      var after := if originRefCnt > 1 then storage[key := originRefCnt - 1] else storage - {key};
      assert after == Decremented(storage, key);
      ghost var before, b := storage, Buckets();
      storage := after;
      assert Buckets() == b;
      Move(key, originRefCnt, originRefCnt - 1, before, after);
    }

    /** `getMaxKey`: any key of the largest count. */
    method GetMaxKey() returns (key: string)
      requires Valid()
      ensures if storage == map[] then key == "" else key in storage && forall k :: k in storage ==> storage[k] <= storage[key]
    {
      if storage == map[] { return ""; }
      EndsHoldKeys();
      key :| key in tail.prev.strs;
    }

    /** `getMinKey`: any key of the smallest count. */
    method GetMinKey() returns (key: string)
      requires Valid()
      ensures if storage == map[] then key == "" else key in storage && forall k :: k in storage ==> storage[key] <= storage[k]
    {
      if storage == map[] { return ""; }
      EndsHoldKeys();
      key :| key in head.next.strs;
    }

    /** With at least one key, the buckets next to the sentinels hold the keys of the largest and the smallest count. */
    lemma EndsHoldKeys()
      requires Valid() && storage != map[]
      ensures tail.prev != null && (exists k :: k in tail.prev.strs)
      ensures forall k, l :: k in tail.prev.strs && l in storage ==> k in storage && storage[l] <= storage[k]
      ensures head.next != null && (exists k :: k in head.next.strs)
      ensures forall k, l :: k in head.next.strs && l in storage ==> k in storage && storage[k] <= storage[l]
    {
      var n := |nodes|;
      var first, last := nodes[1], nodes[n - 2];
      assert head.next == first && nodes[n - 2].next == nodes[n - 1];
      var some :| some in storage;
      assert index[storage[some]] in nodes;
      forall l | l in storage ensures first.refCnt <= storage[l] <= last.refCnt {
        var e := index[storage[l]];
        var p :| 0 <= p < n && nodes[p] == e;
      }
      assert first in nodes && last in nodes;
      assert first.refCnt in Buckets() && last.refCnt in Buckets();
    }
  }
}
