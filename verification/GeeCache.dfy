/**
 The byte-weighted LRU cache of go-gee-demo/gee-cache/geecache/lru/lru.go and its
 read-through use by a group without peers (geecache.go, cache.go).  The recency list,
 front first, is the abstract state; `Cache` and `Group` update it in place.
 */
module GeeCache {
  import opened Wrappers

  type Key = string
  type Bytes = seq<int>

  datatype Entry = Entry(key: Key, value: Bytes)
  type Recency = seq<Entry>

  // ----- Specification on recency lists -----

  predicate Distinct(l: Recency) { forall i, j :: 0 <= i < j < |l| ==> l[i].key != l[j].key }

  predicate Has(l: Recency, k: Key) { exists i :: 0 <= i < |l| && l[i].key == k }

  function Without(l: Recency, k: Key): Recency {
    if l == [] then [] else if l[0].key == k then l[1..] else [l[0]] + Without(l[1..], k)
  }

  function Lookup(l: Recency, k: Key): Option<Bytes> {
    if l == [] then None else if l[0].key == k then Some(l[0].value) else Lookup(l[1..], k)
  }

  function Size(e: Entry): nat { |e.key| + |e.value| }

  function Weight(l: Recency): nat { if l == [] then 0 else Weight(l[..|l| - 1]) + Size(l[|l| - 1]) }

  /** The guard of the loop in `Add`, for any budget that a cache can be given; a budget of 0 is no budget. */
  predicate KeepsEvicting(l: Recency, max: int) { max != 0 && max < Weight(l) }

  /** Drop from the back as long as the loop of `Add` does. */
  function Evict(l: Recency, max: nat): Recency {
    if KeepsEvicting(l, max) then Evict(l[..|l| - 1], max) else l
  }

  /** The recency list after `Add`. */
  function Added(l: Recency, k: Key, v: Bytes, max: nat): Recency { Evict([Entry(k, v)] + Without(l, k), max) }

  /** The recency list after a hit. */
  function Touched(l: Recency, k: Key): Recency
    requires Lookup(l, k).Some?
  { [Entry(k, Lookup(l, k).value)] + Without(l, k) }

  lemma {:induction false} LookupHas(l: Recency, k: Key)
    ensures Lookup(l, k).Some? <==> Has(l, k)
    ensures Lookup(l, k).Some? ==> Entry(k, Lookup(l, k).value) in l
  {
    if l != [] {
      LookupHas(l[1..], k);
      if Has(l[1..], k) {
        var i :| 0 <= i < |l| - 1 && l[1..][i].key == k;
        assert l[i + 1].key == k;
      }
      if Has(l, k) && l[0].key != k {
        var i :| 0 <= i < |l| && l[i].key == k;
        assert l[1..][i - 1].key == k;
      }
    }
  }

  /** The rest of a list without its first entry: the same entries, and none with its key. */
  lemma RestOf(l: Recency, e: Entry)
    requires Distinct(l) && l != []
    ensures Distinct(l[1..]) && (e in l <==> e == l[0] || e in l[1..]) && (e in l[1..] ==> e.key != l[0].key)
  {
    assert l == [l[0]] + l[1..];
    if e in l[1..] { var i :| 0 <= i < |l| - 1 && l[i + 1] == e; }
  }

  lemma {:induction false} WithoutMembers(l: Recency, k: Key)
    requires Distinct(l)
    ensures Distinct(Without(l, k))
    ensures forall e :: e in Without(l, k) <==> e in l && e.key != k
  {
    if l != [] {
      forall e ensures e in Without(l, k) <==> e in l && e.key != k {
        RestOf(l, e);
        if l[0].key != k { WithoutMembers(l[1..], k); }
      }
      WithoutDistinct(l, k);
    }
  }

  lemma {:induction false} WithoutDistinct(l: Recency, k: Key)
    requires Distinct(l)
    ensures Distinct(Without(l, k)) && forall i :: 0 <= i < |Without(l, k)| ==> Without(l, k)[i] in l
  {
    if l != [] {
      if l[0].key == k {
        assert forall i :: 0 <= i < |l[1..]| ==> l[1..][i] == l[i + 1];
      } else {
        var m := Without(l[1..], k);
        WithoutDistinct(l[1..], k);
        forall i | 0 <= i < |m| ensures m[i] in l && m[i].key != l[0].key { RestOf(l, m[i]); }
      }
    }
  }

  lemma {:induction false} WithoutWeight(l: Recency, k: Key)
    ensures Weight(Without(l, k)) == Weight(l) - (if Lookup(l, k).Some? then |k| + |Lookup(l, k).value| else 0)
  {
    if l != [] {
      WeightFront(l);
      if l[0].key != k {
        WithoutWeight(l[1..], k);
        WeightFront(Without(l, k));
        assert Without(l, k)[1..] == Without(l[1..], k);
      }
    }
  }

  /** A key moved or added to the front: still distinct, and its weight follows. */
  lemma FrontSpec(l: Recency, k: Key, v: Bytes)
    requires Distinct(l)
    ensures var m := [Entry(k, v)] + Without(l, k);
            && Distinct(m)
            && (forall e :: e in m <==> e == Entry(k, v) || (e in l && e.key != k))
            && Weight(m) == Weight(l) + |v| + |k| - (if Lookup(l, k).Some? then |k| + |Lookup(l, k).value| else 0)
  {
    WithoutMembers(l, k);
    WithoutWeight(l, k);
    InFront(Entry(k, v), Without(l, k));
  }

  lemma InFront(e: Entry, w: Recency)
    requires Distinct(w) && forall x :: x in w ==> x.key != e.key
    ensures Distinct([e] + w) && Weight([e] + w) == Size(e) + Weight(w)
    ensures forall x :: x in [e] + w <==> x == e || x in w
  {
    var m := [e] + w;
    WeightFront(m);
    assert m[1..] == w;
    forall i, j | 0 <= i < j < |m| ensures m[i].key != m[j].key {
      assert m[j] == w[j - 1] && w[j - 1] in w;
    }
  }

  lemma {:induction false} WeightFront(l: Recency)
    requires l != []
    ensures Weight(l) == Size(l[0]) + Weight(l[1..])
    decreases |l|
  {
    if |l| > 1 {
      WeightFront(l[..|l| - 1]);
      assert l[..|l| - 1][1..] == l[1..][..|l| - 2];
    }
  }

  /**
   Eviction leaves the longest prefix of the recency list whose bytes are within the budget, and all of it for
   a budget of 0.
   */
  lemma {:induction false} EvictLeavesLongestFit(l: Recency, max: nat)
    ensures Evict(l, max) <= l && (max == 0 ==> Evict(l, max) == l)
    ensures max == 0 || Weight(Evict(l, max)) <= max
    ensures forall p :: p <= l && Weight(p) <= max ==> p <= Evict(l, max)
    ensures Evict(l, max) != l ==> max < Weight(l[..|Evict(l, max)| + 1])
    decreases |l|
  {
    if KeepsEvicting(l, max) {
      var shorter := l[..|l| - 1];
      EvictLeavesLongestFit(shorter, max);
      forall p | p <= l && Weight(p) <= max ensures p <= Evict(l, max) {
        assert p != l && p <= shorter;
      }
      var n := |Evict(l, max)|;
      if n + 1 < |l| { assert shorter[..n + 1] == l[..n + 1]; } else { assert l[..n + 1] == l; }
    }
  }

  /** Everything but the entry at `i`. */
  function Skip(l: Recency, i: nat): Recency
    requires i < |l|
  { l[..i] + l[i + 1..] }

  /** What `Add` leaves of the list that starts with the new entry: as long a prefix as the budget allows. */
  ghost predicate LongestWithin(m: Recency, front: Recency, max: nat) {
    && m <= front
    && (max == 0 ==> m == front)
    && (m != front ==> max < Weight(front[..|m| + 1]))
  }

  lemma {:induction false} WithoutAt(l: Recency, k: Key, i: nat)
    requires Distinct(l) && i < |l| && l[i].key == k
    ensures Without(l, k) == Skip(l, i) && Lookup(l, k) == Some(l[i].value)
  {
    if i > 0 {
      assert l[0].key != k && l[1..][i - 1] == l[i];
      WithoutAt(l[1..], k, i - 1);
      assert Skip(l, i) == [l[0]] + Skip(l[1..], i - 1);
    }
  }

  /** `Add` puts the entry in front, takes any older entry of its key out, and keeps what the budget allows. */
  lemma AddedSpec(l: Recency, k: Key, v: Bytes, max: nat)
    requires Distinct(l)
    ensures max == 0 || Weight(Added(l, k, v, max)) <= max
    ensures !Has(l, k) ==> LongestWithin(Added(l, k, v, max), [Entry(k, v)] + l, max)
    ensures forall i :: 0 <= i < |l| && l[i].key == k ==>
              LongestWithin(Added(l, k, v, max), [Entry(k, v)] + Skip(l, i), max)
  {
    EvictLeavesLongestFit([Entry(k, v)] + Without(l, k), max);
    LookupHas(l, k);
    if !Has(l, k) { NotThere(l, k); }
    forall i | 0 <= i < |l| && l[i].key == k
      ensures LongestWithin(Added(l, k, v, max), [Entry(k, v)] + Skip(l, i), max)
    {
      WithoutAt(l, k, i);
    }
  }

  /** The recency list after `n` calls of `RemoveOldest`. */
  function Dropped(l: Recency, n: nat): Recency { if n >= |l| then [] else l[..|l| - n] }

  /** The eviction loop ends exactly for budgets that are not negative: even an empty cache is over a negative one. */
  lemma AddEndsIff(l: Recency, max: int)
    ensures (exists n :: !KeepsEvicting(Dropped(l, n), max)) <==> max >= 0
  {
    if max >= 0 { assert !KeepsEvicting(Dropped(l, |l|), max); }
  }

  lemma DropLast(l: Recency)
    requires Distinct(l) && l != []
    ensures var m, kv := l[..|l| - 1], l[|l| - 1];
            Distinct(m) && forall e :: e in m <==> e in l && e.key != kv.key
  {
    var m, kv := l[..|l| - 1], l[|l| - 1];
    assert l == m + [kv];
    forall e | e in m ensures e.key != kv.key { var i :| 0 <= i < |m| && m[i] == e; }
  }

  // ----- The cache -----

  class Cache {
    const maxBytes: nat
    var usedBytes: int
    var list: Recency
    var cache: map<Key, Bytes>

    ghost predicate Valid()
      reads this
    {
      && Distinct(list) && usedBytes == Weight(list)
      && (forall e :: e in list ==> e.key in cache && cache[e.key] == e.value)
      && (forall k :: k in cache ==> Entry(k, cache[k]) in list)
    }

    constructor (maxBytes: nat)
      ensures Valid() && this.maxBytes == maxBytes && list == []
    {
      this.maxBytes := maxBytes;
      usedBytes, list, cache := 0, [], map[];
    }

    /** The index agrees with the list. */
    lemma Indexed(k: Key)
      requires Valid()
      ensures k in cache <==> Lookup(list, k).Some?
      ensures k in cache ==> cache[k] == Lookup(list, k).value
    {
      LookupHas(list, k);
      if Has(list, k) {
        var i :| 0 <= i < |list| && list[i].key == k;
        assert list[i] in list;
      }
    }

    method Get(key: Key) returns (value: Bytes, ok: bool)
      requires Valid()
      modifies this`list
      ensures Valid()
      ensures ok <==> Lookup(old(list), key).Some?
      ensures ok ==> value == Lookup(old(list), key).value && list == Touched(old(list), key)
      ensures ok <==> Has(old(list), key)
      ensures forall i :: 0 <= i < |old(list)| && old(list)[i].key == key ==>
                value == old(list)[i].value && list == [old(list)[i]] + Skip(old(list), i)
      ensures !ok ==> list == old(list)
    {
      Indexed(key);
      LookupHas(list, key);
      forall i | 0 <= i < |list| && list[i].key == key
        ensures Without(list, key) == Skip(list, i) && Lookup(list, key) == Some(list[i].value)
      {
        WithoutAt(list, key, i);
      }
      value, ok := [], false;
      if key in cache {
        FrontSpec(list, key, cache[key]);
        list := [Entry(key, cache[key])] + Without(list, key);   // MoveToFront
        value, ok := cache[key], true;
      }
    }

    method Add(key: Key, value: Bytes)
      requires Valid()
      modifies this`list, this`cache, this`usedBytes
      ensures Valid() && list == Added(old(list), key, value, maxBytes)
      ensures maxBytes == 0 || usedBytes <= maxBytes
      ensures !Has(old(list), key) ==> LongestWithin(list, [Entry(key, value)] + old(list), maxBytes)
      ensures forall i :: 0 <= i < |old(list)| && old(list)[i].key == key ==>
                LongestWithin(list, [Entry(key, value)] + Skip(old(list), i), maxBytes)
    {
      Indexed(key);
      FrontSpec(list, key, value);
      ghost var before := list;
      ghost var front := [Entry(key, value)] + Without(list, key);
      if key in cache {
        usedBytes := usedBytes + |value| - |cache[key]|;
      } else {
        usedBytes := usedBytes + |key| + |value|;
      }
      list, cache := [Entry(key, value)] + Without(list, key), cache[key := value];
      while maxBytes != 0 && maxBytes < usedBytes
        invariant Valid() && Evict(list, maxBytes) == Evict(front, maxBytes)
        decreases |list|
      {
        RemoveOldest();
      }
      AddedSpec(before, key, value, maxBytes);
    }

    method RemoveOldest()
      requires Valid()
      modifies this`list, this`cache, this`usedBytes
      ensures Valid() && list == (if old(list) == [] then [] else old(list)[..|old(list)| - 1])
    {
      if list != [] {
        var kv := list[|list| - 1];
        DropLast(list);
        list := list[..|list| - 1];
        cache := cache - {kv.key};
        usedBytes := usedBytes - (|kv.key| + |kv.value|);
      }
    }
  }

  // ----- Read-through groups -----

  /** The value or error that loading a key gives; the same for every call. */
  type Getter = Key -> Option<Bytes>

  datatype Reply = Value(bytes: Bytes) | KeyRequired | LoadFailed

  /** What `Group.Get` answers. */
  function Answer(l: Recency, getter: Getter, key: Key): Reply {
    if key == "" then KeyRequired
    else if Lookup(l, key).Some? then Value(Lookup(l, key).value)
    else match getter(key)
         case None => LoadFailed
         case Some(v) => Value(v)
  }

  /** The recency list after `Group.Get`. */
  function AfterGet(l: Recency, max: nat, getter: Getter, key: Key): Recency {
    if key == "" then l
    else if Lookup(l, key).Some? then Touched(l, key)
    else match getter(key)
         case None => l
         case Some(v) => Added(l, key, v, max)
  }

  /** A value that is loaded is cached exactly if its entry is within the budget on its own. */
  lemma LoadedIsCached(l: Recency, max: nat, getter: Getter, key: Key)
    requires Distinct(l) && key != "" && Lookup(l, key).None? && getter(key).Some?
    ensures var v := getter(key).value;
            Lookup(AfterGet(l, max, getter, key), key) == if max == 0 || |key| + |v| <= max then Some(v) else None
  {
    var v := getter(key).value;
    var e, m := [Entry(key, v)], AfterGet(l, max, getter, key);
    var front := e + Without(l, key);
    EvictLeavesLongestFit(front, max);
    assert e[..0] == [] && Weight(e) == Size(e[0]);
    if max == 0 || |key| + |v| <= max {
      assert e <= front && e <= m;
    } else if m != [] {
      WeightFront(m);
    }
  }

  class Group {
    const cacheBytes: nat
    const getter: Getter
    var lru: Cache?

    /** The recency list; empty until the first value is added. */
    ghost function View(): Recency
      reads this, lru
    { if lru == null then [] else lru.list }

    ghost predicate Valid()
      reads this, lru
    { lru != null ==> lru.Valid() && lru.maxBytes == cacheBytes }

    constructor (cacheBytes: nat, getter: Getter)
      ensures Valid() && View() == [] && this.cacheBytes == cacheBytes && this.getter == getter
    {
      this.cacheBytes, this.getter := cacheBytes, getter;
      lru := null;
    }

    method Get(key: Key) returns (r: Reply)
      requires Valid()
      modifies this, lru
      ensures Valid() && (lru == old(lru) || fresh(lru))
      ensures r == Answer(old(View()), getter, key)
      ensures View() == AfterGet(old(View()), cacheBytes, getter, key)
      ensures key != "" && Lookup(old(View()), key).None? && getter(key).Some? ==>
                (Lookup(View(), key) == Some(r.bytes) <==> cacheBytes == 0 || |key| + |r.bytes| <= cacheBytes)
    {
      if key == "" { return KeyRequired; }
      if lru != null {
        var v, ok := lru.Get(key);
        if ok { return Value(v); }
      }
      r := Load(key);
    }

    /** `load` without peers, `getLocally` and `populateCache`. */
    method Load(key: Key) returns (r: Reply)
      requires Valid() && key != "" && Lookup(View(), key).None?
      modifies this, lru
      ensures Valid() && (lru == old(lru) || fresh(lru))
      ensures r == Answer(old(View()), getter, key)
      ensures View() == AfterGet(old(View()), cacheBytes, getter, key)
      ensures getter(key).Some? ==>
                r == Value(getter(key).value) &&
                Lookup(View(), key) ==
                  if cacheBytes == 0 || |key| + |r.bytes| <= cacheBytes then Some(r.bytes) else None
    {
      if getter(key).Some? { LoadedIsCached(View(), cacheBytes, getter, key); }
      match getter(key) {
        case None => r := LoadFailed;
        case Some(bytes) =>
          if lru == null { lru := new Cache(cacheBytes); }
          lru.Add(key, bytes);
          r := Value(bytes);
      }
    }
  }

  // ----- Whole runs -----

  /** The recency list after a sequence of Gets. */
  function RunGets(l: Recency, max: nat, getter: Getter, keys: seq<Key>): Recency
    decreases |keys|
  {
    if keys == [] then l else RunGets(AfterGet(l, max, getter, keys[0]), max, getter, keys[1..])
  }

  /** Cached values are what the getter gives. */
  predicate Faithful(l: Recency, getter: Getter) {
    forall i :: 0 <= i < |l| ==> getter(l[i].key) == Some(l[i].value)
  }

  lemma AfterGetKeeps(l: Recency, max: nat, getter: Getter, key: Key)
    requires Distinct(l) && Faithful(l, getter)
    ensures var m := AfterGet(l, max, getter, key); Distinct(m) && Faithful(m, getter)
  {
    if Lookup(l, key).Some? { LookupFaithful(l, getter, key); }
    if key != "" && (Lookup(l, key).Some? || getter(key).Some?) {
      FrontFaithful(l, max, getter, key);
    }
  }

  lemma {:induction false} LookupFaithful(l: Recency, getter: Getter, key: Key)
    requires Faithful(l, getter) && Lookup(l, key).Some?
    ensures getter(key) == Lookup(l, key)
  {
    if l[0].key != key { LookupFaithful(l[1..], getter, key); }
  }

  lemma FrontFaithful(l: Recency, max: nat, getter: Getter, key: Key)
    requires Distinct(l) && Faithful(l, getter) && getter(key).Some?
    ensures var m := [Entry(key, getter(key).value)] + Without(l, key);
            Distinct(m) && Faithful(m, getter) && Distinct(Evict(m, max)) && Faithful(Evict(m, max), getter)
  {
    var m := [Entry(key, getter(key).value)] + Without(l, key);
    FrontSpec(l, key, getter(key).value);
    EvictLeavesLongestFit(m, max);
    forall i | 0 <= i < |m| ensures getter(m[i].key) == Some(m[i].value) {
      assert m[i] in m;
      if m[i].key != key {
        var j :| 0 <= j < |l| && l[j] == m[i];
      }
    }
  }

  /** Caching is invisible: in every state a run can reach, `Get` answers what the getter would. */
  lemma {:induction false} CachingIsTransparent(l: Recency, max: nat, getter: Getter, keys: seq<Key>, key: Key)
    requires Distinct(l) && Faithful(l, getter)
    ensures Answer(RunGets(l, max, getter, keys), getter, key)
            == (if key == "" then KeyRequired else match getter(key) case None => LoadFailed case Some(v) => Value(v))
    decreases |keys|
  {
    if keys == [] {
      if Lookup(l, key).Some? { LookupFaithful(l, getter, key); }
    } else {
      AfterGetKeeps(l, max, getter, keys[0]);
      CachingIsTransparent(AfterGet(l, max, getter, keys[0]), max, getter, keys[1..], key);
    }
  }

  /** A budget that is at least as large; 0 is the largest. */
  predicate NoSmaller(m2: nat, m1: nat) { m2 == 0 || (m1 != 0 && m1 <= m2) }

  lemma {:induction false} PrefixLookup(a: Recency, b: Recency, k: Key)
    requires a <= b && Lookup(a, k).Some?
    ensures Lookup(b, k) == Lookup(a, k)
  {
    if a[0].key != k {
      assert a[1..] <= b[1..];
      PrefixLookup(a[1..], b[1..], k);
    }
  }

  /** Removing a key keeps one list a prefix of the other, whether or not the shorter one has it. */
  lemma {:induction false} PrefixWithout(a: Recency, b: Recency, k: Key)
    requires a <= b
    ensures Lookup(a, k).Some? || Lookup(b, k).Some? ==> (Lookup(a, k).None? ==> a <= Without(b, k))
    ensures Lookup(a, k).Some? ==> Without(a, k) <= Without(b, k)
    ensures Lookup(b, k).None? ==> Without(a, k) == a && Without(b, k) == b
    decreases |b|
  {
    if b != [] {
      if a == [] {
        if b[0].key != k { PrefixWithout([], b[1..], k); }
      } else {
        assert a[1..] <= b[1..];
        PrefixWithout(a[1..], b[1..], k);
      }
    }
  }

  /** One common Get keeps the smaller cache's recency list a prefix of the larger's. */
  lemma GetKeepsInclusion(l1: Recency, l2: Recency, m1: nat, m2: nat, getter: Getter, key: Key)
    requires l1 <= l2 && NoSmaller(m2, m1) && Faithful(l2, getter)
    ensures AfterGet(l1, m1, getter, key) <= AfterGet(l2, m2, getter, key)
  {
    PrefixWithout(l1, l2, key);
    if key == "" {
    } else if Lookup(l1, key).Some? {
      PrefixLookup(l1, l2, key);
    } else if Lookup(l2, key).Some? {
      var v := Lookup(l2, key).value;
      LookupFaithful(l2, getter, key);
      NotThere(l1, key);
      EvictLeavesLongestFit([Entry(key, v)] + l1, m1);
    } else if getter(key).Some? {
      var e := [Entry(key, getter(key).value)];
      var p := Evict(e + l1, m1);
      EvictLeavesLongestFit(e + l1, m1);
      EvictLeavesLongestFit(e + l2, m2);
      assert p <= e + l2 && (m2 == 0 || Weight(p) <= m2);
    }
  }

  lemma {:induction false} NotThere(l: Recency, k: Key)
    requires Lookup(l, k).None?
    ensures Without(l, k) == l
  {
    if l != [] { NotThere(l[1..], k); }
  }

  /** LRU inclusion: for every common sequence of Gets, the smaller group's list is a prefix of the larger group's. */
  lemma {:induction false} Inclusion(l1: Recency, l2: Recency, m1: nat, m2: nat, getter: Getter, keys: seq<Key>)
    requires l1 <= l2 && NoSmaller(m2, m1) && Distinct(l2) && Faithful(l2, getter)
    ensures RunGets(l1, m1, getter, keys) <= RunGets(l2, m2, getter, keys)
    decreases |keys|
  {
    if keys != [] {
      GetKeepsInclusion(l1, l2, m1, m2, getter, keys[0]);
      AfterGetKeeps(l2, m2, getter, keys[0]);
      Inclusion(AfterGet(l1, m1, getter, keys[0]), AfterGet(l2, m2, getter, keys[0]), m1, m2, getter, keys[1..]);
    }
  }

  /** Hence a hit in the smaller group is a hit in the larger one. */
  lemma HitsAreMonotone(m1: nat, m2: nat, getter: Getter, keys: seq<Key>, key: Key)
    requires NoSmaller(m2, m1)
    ensures Lookup(RunGets([], m1, getter, keys), key).Some? ==> Lookup(RunGets([], m2, getter, keys), key).Some?
  {
    Inclusion([], [], m1, m2, getter, keys);
    if Lookup(RunGets([], m1, getter, keys), key).Some? {
      PrefixLookup(RunGets([], m1, getter, keys), RunGets([], m2, getter, keys), key);
    }
  }
}
