/**
 The lock-free single-producer multi-consumer queue of opencode-demo2/include/SPMCQueue.h
 as an interleaved step system: one event is one atomic load, store or
 compare-and-swap of the producer or of one consumer, under sequential consistency.

 `log` is the publication order, `owner` records which consumer's compare-and-swap
 took a slot, `pops[c]` what consumer `c` returned so far, and `misses` one entry per
 `try_pop` that returned false; the algorithm never reads these four.
 */
module SpmcQueue {
  import opened Wrappers

  /** Nothing is computed on elements. */
  type Item = int

  datatype Slot = Slot(seg: nat, idx: nat)

  datatype Entry = Entry(slot: Slot, item: Item)

  datatype Segment = Segment(writePos: nat, readPos: nat, next: Option<nat>, data: map<nat, Item>)

  /** Where the producer is inside `try_push`. */
  datatype Producer =
    | PIdle
    | PLoad(item: Item, t: nat)                // about to load write_pos of the tail it read
    | PLink(item: Item, t: nat, n: nat)        // about to CAS next_segment to the new segment
    | PTail(item: Item, n: nat)                // about to store tail_segment
    | PCount(item: Item, n: nat)               // about to bump total_segments
    | PWrite(item: Item, t: nat, w: nat)       // about to write the slot
    | PPublish(item: Item, t: nat, w: nat)     // about to store write_pos
    | PSize                                    // about to bump total_size

  /** Where a consumer is inside `try_pop`; `h` is its local head. */
  datatype Consumer =
    | CIdle
    | CRead(h: nat)                            // about to load read_pos
    | CWrite(h: nat, r: nat)                   // about to load write_pos
    | CNext(h: nat, w: nat, empty: bool)       // saw read_pos >= write_pos == w; about to load next_segment
    | CAdvance(h: nat, w: nat, n: nat)         // about to CAS head_segment from h to n
    | CReload                                  // about to reload head_segment
    | CClaim(h: nat, r: nat)                   // about to CAS read_pos from r to r + 1
    | CTake(h: nat, r: nat)                    // claimed; about to copy the element
    | CSize                                    // about to decrement total_size

  datatype State = State(
    segs: seq<Segment>, head: nat, tail: nat, totalSegments: nat, totalSize: nat,
    prod: Producer, cons: seq<Consumer>,
    log: seq<Entry>, owner: map<Slot, nat>, pops: seq<seq<Entry>>, misses: seq<bool>)

  datatype Event = Push(item: Item) | Produce | Consume(c: nat)

  const SIZE_MOD: nat := 0x1_0000_0000_0000_0000

  // ----- The steps -----

  function Fresh(): Segment { Segment(0, 0, None, map[]) }

  function Initial(consumers: nat): State {
    State([Fresh()], 0, 0, 1, 0, PIdle, seq(consumers, _ => CIdle),
          [], map[], seq(consumers, _ => []), [])
  }

  function WithSeg(s: State, i: nat, g: Segment): State
    requires i < |s.segs|
  { s.(segs := s.segs[i := g]) }

  function Publish(s: State, item: Item, t: nat, w: nat): State
    requires t < |s.segs|
  {
    WithSeg(s, t, s.segs[t].(writePos := w + 1)).(prod := PSize, log := s.log + [Entry(Slot(t, w), item)])
  }

  function ProducerStep(s: State, cap: nat): State {
    match s.prod
    case PIdle => s
    case PLoad(item, t) =>
      if t >= |s.segs| then s
      else if s.segs[t].writePos >= cap then
        s.(segs := s.segs + [Fresh()], prod := PLink(item, t, |s.segs|))
      else s.(prod := PWrite(item, t, s.segs[t].writePos))
    case PLink(item, t, n) =>
      if t >= |s.segs| then s
      else if s.segs[t].next.None? then
        WithSeg(s, t, s.segs[t].(next := Some(n))).(prod := PTail(item, n))
      else s.(prod := PIdle)
    case PTail(item, n) => s.(tail := n, prod := PCount(item, n))
    case PCount(item, n) => s.(totalSegments := s.totalSegments + 1, prod := PWrite(item, n, 0))
    case PWrite(item, t, w) =>
      if t >= |s.segs| then s
      else WithSeg(s, t, s.segs[t].(data := s.segs[t].data[w := item])).(prod := PPublish(item, t, w))
    case PPublish(item, t, w) =>
      if t >= |s.segs| then s else Publish(s, item, t, w)
    case PSize => s.(totalSize := (s.totalSize + 1) % SIZE_MOD, prod := PIdle)
  }

  /** Nothing is unread from the head segment onward. */
  predicate NothingUnread(s: State) {
    forall i :: s.head <= i < |s.segs| ==> s.segs[i].readPos >= s.segs[i].writePos
  }

  function To(s: State, c: nat, k: Consumer): State
    requires c < |s.cons|
  { s.(cons := s.cons[c := k]) }

  function ConsumerStep(s: State, c: nat): State
    requires c < |s.cons| && c < |s.pops|
  {
    match s.cons[c]
    case CIdle => To(s, c, CRead(s.head))
    case CRead(h) => if h >= |s.segs| then s else To(s, c, CWrite(h, s.segs[h].readPos))
    case CWrite(h, r) =>
      if h >= |s.segs| then s
      else if r >= s.segs[h].writePos then To(s, c, CNext(h, s.segs[h].writePos, NothingUnread(s)))
      else To(s, c, CClaim(h, r))
    case CNext(h, w, empty) =>
      if h >= |s.segs| then s
      else if s.segs[h].next.Some? then To(s, c, CAdvance(h, w, s.segs[h].next.value))
      else To(s, c, CIdle).(misses := s.misses + [empty])
    case CAdvance(h, w, n) =>
      if s.head == h then To(s, c, CRead(n)).(head := n) else To(s, c, CReload)
    case CReload => To(s, c, CRead(s.head))
    case CClaim(h, r) =>
      if h >= |s.segs| then s
      else if s.segs[h].readPos == r then
        To(WithSeg(s, h, s.segs[h].(readPos := r + 1)), c, CTake(h, r)).(owner := s.owner[Slot(h, r) := c])
      else To(s, c, CRead(h))
    case CTake(h, r) =>
      if h >= |s.segs| || r !in s.segs[h].data then s
      else To(s, c, CSize).(pops := s.pops[c := s.pops[c] + [Entry(Slot(h, r), s.segs[h].data[r])]])
    case CSize => To(s, c, CIdle).(totalSize := (s.totalSize + SIZE_MOD - 1) % SIZE_MOD)
  }

  /** An event of a thread that cannot take it leaves the state unchanged. */
  function Step(s: State, e: Event, cap: nat): State {
    match e
    case Push(item) => if s.prod.PIdle? then s.(prod := PLoad(item, s.tail)) else s
    case Produce => ProducerStep(s, cap)
    case Consume(c) => if c < |s.cons| && c < |s.pops| then ConsumerStep(s, c) else s
  }

  function Run(s: State, es: seq<Event>, cap: nat): State
    decreases |es|
  {
    if es == [] then s else Run(Step(s, es[0], cap), es[1..], cap)
  }

  // ----- The invariant -----

  /** Index of the last linked segment. */
  function Last(s: State): int { if s.prod.PLink? then |s.segs| - 2 else |s.segs| - 1 }

  predicate Before(a: Slot, b: Slot) { a.seg < b.seg || (a.seg == b.seg && a.idx < b.idx) }

  /** The segments form a chain in allocation order; all but the last are full. */
  ghost predicate Chained(s: State, cap: nat) {
    && cap > 0 && 0 <= s.head <= Last(s) < |s.segs|
    && (forall i :: 0 <= i < Last(s) ==> s.segs[i].next == Some(i + 1) && s.segs[i].writePos == cap)
    && (forall i :: Last(s) <= i < |s.segs| ==> s.segs[i].next == None && s.segs[i].writePos <= cap)
    && (forall i :: 0 <= i < |s.segs| ==> s.segs[i].readPos <= s.segs[i].writePos)
    && (s.prod.PLink? ==> s.segs[|s.segs| - 1] == Fresh())
  }

  /** The producer's local variables are consistent with the shared state. */
  ghost predicate ProducerOk(s: State, cap: nat)
    requires Chained(s, cap)
  {
    && s.tail == (if s.prod.PTail? then Last(s) - 1 else Last(s))
    && match s.prod
       case PLoad(_, t) => t == Last(s)
       case PLink(_, t, n) => t == Last(s) && n == |s.segs| - 1 && s.segs[t].writePos == cap
       case PTail(_, n) => n == Last(s) && s.segs[n].writePos == 0
       case PCount(_, n) => n == Last(s) && s.segs[n].writePos == 0
       case PWrite(_, t, w) => t == Last(s) && s.segs[t].writePos == w && w < cap
       case PPublish(item, t, w) =>
         t == Last(s) && s.segs[t].writePos == w && w < cap && w in s.segs[t].data && s.segs[t].data[w] == item
       case _ => true
  }

  predicate Published(s: State, x: Slot) { x.seg < |s.segs| && x.idx < s.segs[x.seg].writePos }

  predicate Taken(s: State, x: Slot) { x.seg < |s.segs| && x.idx < s.segs[x.seg].readPos }

  /** What the element array holds at a slot. */
  predicate Holds(s: State, e: Entry) {
    e.slot.seg < |s.segs| && e.slot.idx in s.segs[e.slot.seg].data && s.segs[e.slot.seg].data[e.slot.idx] == e.item
  }

  /** The log lists the published slots, each once, in segment order, with the elements they hold. */
  ghost predicate Logged(s: State) {
    && (forall i, j :: 0 <= i < j < |s.log| ==> Before(s.log[i].slot, s.log[j].slot))
    && (forall i :: 0 <= i < |s.log| ==> Published(s, s.log[i].slot) && Holds(s, s.log[i]))
    && (forall x: Slot :: Published(s, x) ==> exists i :: 0 <= i < |s.log| && s.log[i].slot == x)
  }

  /** A slot has an owner exactly when the read position has passed it. */
  ghost predicate Owned(s: State) {
    forall x: Slot :: x in s.owner <==> Taken(s, x)
  }

  /** The segment a consumer works on, or the shared head when it holds none. */
  function LocalHead(k: Consumer, head: nat): nat {
    if k.CIdle? || k.CReload? || k.CSize? then head else k.h
  }

  /** A consumer's local variables are consistent with the shared state. */
  ghost predicate LocalOk(s: State, c: nat)
    requires c < |s.cons|
  {
    && LocalHead(s.cons[c], s.head) <= s.head < |s.segs|
    && match s.cons[c]
       case CWrite(h, r) => r <= s.segs[h].readPos
       case CNext(h, w, empty) => w <= s.segs[h].readPos && (s.segs[h].next.None? ==> empty)
       case CAdvance(h, w, n) => w <= s.segs[h].readPos && s.segs[h].next == Some(n)
       case CClaim(h, r) => r < s.segs[h].writePos
       case CTake(h, r) => Slot(h, r) in s.owner && s.owner[Slot(h, r)] == c
       case _ => true
  }

  /** Everything a consumer returned was its own, holds the pushed element, and came in push order. */
  ghost predicate PopsOk(s: State, c: nat)
    requires c < |s.cons| && c < |s.pops|
  {
    var ps := s.pops[c];
    && (forall i, j :: 0 <= i < j < |ps| ==> Before(ps[i].slot, ps[j].slot))
    && (forall i :: 0 <= i < |ps| ==>
          && ps[i].slot in s.owner && s.owner[ps[i].slot] == c && ps[i] in s.log
          && ps[i].slot.seg <= LocalHead(s.cons[c], s.head)
          && (s.cons[c].CTake? ==> Before(ps[i].slot, Slot(s.cons[c].h, s.cons[c].r))))
  }

  /** Every owned slot has been returned by its owner or is about to be. */
  ghost predicate Delivered(s: State)
    requires |s.cons| == |s.pops|
  {
    forall x: Slot :: x in s.owner ==>
      && s.owner[x] < |s.cons|
      && (s.cons[s.owner[x]] == CTake(x.seg, x.idx) ||
         exists i :: 0 <= i < |s.pops[s.owner[x]]| && s.pops[s.owner[x]][i].slot == x)
  }

  ghost predicate Inv(s: State, cap: nat) {
    && Chained(s, cap) && ProducerOk(s, cap)
    && Logged(s) && Owned(s)
    && |s.cons| == |s.pops|
    && (forall c :: 0 <= c < |s.cons| ==> LocalOk(s, c) && PopsOk(s, c))
    && Delivered(s)
    && (forall i :: 0 <= i < |s.misses| ==> s.misses[i])
  }

  lemma InitialInv(consumers: nat, cap: nat)
    requires cap > 0
    ensures Inv(Initial(consumers), cap)
  {
  }

  // ----- Every step keeps the invariant -----

  /** What no step ever undoes. */
  ghost predicate Grows(s: State, t: State) {
    && |s.segs| <= |t.segs| && s.head <= t.head < |t.segs|
    && (forall i :: 0 <= i < |s.segs| ==>
          && s.segs[i].readPos <= t.segs[i].readPos && s.segs[i].writePos <= t.segs[i].writePos
          && (s.segs[i].next.Some? ==> t.segs[i].next == s.segs[i].next))
    && (forall x :: x in s.owner ==> x in t.owner && t.owner[x] == s.owner[x])
    && (forall i :: 0 <= i < |s.log| ==> s.log[i] in t.log)
  }

  /** A consumer that does not move stays consistent. */
  lemma OthersStable(s: State, t: State, c: nat)
    requires c < |s.cons| == |s.pops| && c < |t.cons| == |t.pops|
    requires LocalOk(s, c) && PopsOk(s, c) && Grows(s, t)
    requires t.cons[c] == s.cons[c] && t.pops[c] == s.pops[c]
    ensures LocalOk(t, c) && PopsOk(t, c)
  {
    forall i | 0 <= i < |s.pops[c]| ensures s.pops[c][i] in t.log {
      var p := s.pops[c][i];
      assert p in s.log;
      var k :| 0 <= k < |s.log| && s.log[k] == p;
    }
  }

  /** The producer's steps move no consumer. */
  lemma ConsumersStable(s: State, t: State)
    requires |s.cons| == |s.pops| && t.cons == s.cons && t.pops == s.pops && Grows(s, t)
    requires forall c :: 0 <= c < |s.cons| ==> LocalOk(s, c) && PopsOk(s, c)
    ensures forall c :: 0 <= c < |t.cons| ==> LocalOk(t, c) && PopsOk(t, c)
  {
    forall c | 0 <= c < |t.cons| ensures LocalOk(t, c) && PopsOk(t, c) {
      OthersStable(s, t, c);
    }
  }

  /** A step that publishes nothing and overwrites no published slot keeps the log. */
  lemma LoggedFrame(s: State, t: State)
    requires Logged(s) && t.log == s.log && |s.segs| <= |t.segs|
    requires forall i :: 0 <= i < |s.segs| ==>
      && t.segs[i].writePos == s.segs[i].writePos
      && forall j :: 0 <= j < s.segs[i].writePos && j in s.segs[i].data ==>
         j in t.segs[i].data && t.segs[i].data[j] == s.segs[i].data[j]
    requires forall i :: |s.segs| <= i < |t.segs| ==> t.segs[i].writePos == 0
    ensures Logged(t)
  {
    forall i | 0 <= i < |t.log| ensures Published(t, t.log[i].slot) && Holds(t, t.log[i]) {
      assert Published(s, s.log[i].slot) && Holds(s, s.log[i]);
    }
    forall x: Slot | Published(t, x) ensures exists i :: 0 <= i < |t.log| && t.log[i].slot == x {
      assert Published(s, x);
    }
  }

  lemma OwnedFrame(s: State, t: State)
    requires Owned(s) && t.owner == s.owner && |s.segs| <= |t.segs|
    requires forall i :: 0 <= i < |s.segs| ==> t.segs[i].readPos == s.segs[i].readPos
    requires forall i :: |s.segs| <= i < |t.segs| ==> t.segs[i].readPos == 0
    ensures Owned(t)
  {
    assert forall x: Slot :: Taken(t, x) <==> Taken(s, x);
  }

  /** Producer steps that leave the segments alone. */
  lemma QuietKeeps(s: State, t: State, cap: nat)
    requires Inv(s, cap) && Chained(t, cap) && ProducerOk(t, cap)
    requires t.segs == s.segs && t.head == s.head && t.cons == s.cons
    requires t.log == s.log && t.owner == s.owner && t.pops == s.pops && t.misses == s.misses
    ensures Inv(t, cap)
  {
    LoggedFrame(s, t);
    OwnedFrame(s, t);
    ConsumersStable(s, t);
  }

  lemma AllocateKeeps(s: State, cap: nat)
    requires Inv(s, cap) && s.prod.PLoad?
    ensures Inv(ProducerStep(s, cap), cap)
  {
    var t := ProducerStep(s, cap);
    if t.segs == s.segs {
      QuietKeeps(s, t, cap);
    } else {
      LoggedFrame(s, t);
      OwnedFrame(s, t);
      ConsumersStable(s, t);
    }
  }

  lemma LinkKeeps(s: State, cap: nat)
    requires Inv(s, cap) && s.prod.PLink?
    ensures Inv(ProducerStep(s, cap), cap)
  {
    var t := ProducerStep(s, cap);
    LoggedFrame(s, t);
    OwnedFrame(s, t);
    ConsumersStable(s, t);
  }

  lemma WriteKeeps(s: State, cap: nat)
    requires Inv(s, cap) && s.prod.PWrite?
    ensures Inv(ProducerStep(s, cap), cap)
  {
    var t := ProducerStep(s, cap);
    LoggedFrame(s, t);
    OwnedFrame(s, t);
    ConsumersStable(s, t);
  }

  /** Publishing keeps what was published, and comes after it. */
  lemma PublishOld(s: State, cap: nat, i: nat)
    requires Chained(s, cap) && ProducerOk(s, cap) && Logged(s) && s.prod.PPublish? && i < |s.log|
    ensures var t := ProducerStep(s, cap);
            Before(s.log[i].slot, Slot(s.prod.t, s.prod.w)) && Published(t, s.log[i].slot) && Holds(t, s.log[i])
  {
    assert Published(s, s.log[i].slot) && Holds(s, s.log[i]);
  }

  lemma PublishLogs(s: State, cap: nat)
    requires Chained(s, cap) && ProducerOk(s, cap) && Logged(s) && s.prod.PPublish?
    ensures Logged(ProducerStep(s, cap))
  {
    var t := ProducerStep(s, cap);
    var x := Slot(s.prod.t, s.prod.w);
    assert t.log == s.log + [Entry(x, s.prod.item)] && Published(t, x) && Holds(t, Entry(x, s.prod.item));
    forall i | 0 <= i < |s.log| ensures Before(s.log[i].slot, x) && Published(t, s.log[i].slot) && Holds(t, s.log[i]) {
      PublishOld(s, cap, i);
    }
    forall y: Slot | Published(t, y) ensures exists i :: 0 <= i < |t.log| && t.log[i].slot == y {
      if y == x {
        assert t.log[|s.log|].slot == y;
      } else {
        assert Published(s, y);
        var i :| 0 <= i < |s.log| && s.log[i].slot == y;
        assert t.log[i].slot == y;
      }
    }
  }

  lemma PublishKeeps(s: State, cap: nat)
    requires Inv(s, cap) && s.prod.PPublish?
    ensures Inv(ProducerStep(s, cap), cap)
  {
    var t := ProducerStep(s, cap);
    PublishLogs(s, cap);
    OwnedFrame(s, t);
    assert forall i :: 0 <= i < |s.log| ==> t.log[i] == s.log[i];
    ConsumersStable(s, t);
  }

  lemma ProducerKeeps(s: State, cap: nat)
    requires Inv(s, cap)
    ensures Inv(ProducerStep(s, cap), cap)
  {
    match s.prod
    case PLoad(_, _) => AllocateKeeps(s, cap);
    case PLink(_, _, _) => LinkKeeps(s, cap);
    case PWrite(_, _, _) => WriteKeeps(s, cap);
    case PPublish(_, _, _) => PublishKeeps(s, cap);
    case _ => QuietKeeps(s, ProducerStep(s, cap), cap);
  }

  // ----- Consumer steps -----

  lemma SharedFrame(s: State, t: State, cap: nat)
    requires Chained(s, cap) && ProducerOk(s, cap) && Logged(s) && Owned(s)
    requires t.segs == s.segs && s.head <= t.head <= Last(s) && t.tail == s.tail && t.prod == s.prod
    requires t.log == s.log && t.owner == s.owner
    ensures Chained(t, cap) && ProducerOk(t, cap) && Logged(t) && Owned(t)
  {
    LoggedFrame(s, t);
    OwnedFrame(s, t);
  }

  /** A consumer step that only moves its own program counter forward, and perhaps the head. */
  lemma MoveKeeps(s: State, t: State, c: nat, cap: nat)
    requires Inv(s, cap) && c < |s.cons| && |t.cons| == |s.cons|
    requires t.segs == s.segs && s.head <= t.head <= Last(s) && t.tail == s.tail && t.prod == s.prod
    requires t.log == s.log && t.owner == s.owner && t.pops == s.pops
    requires forall d :: 0 <= d < |s.cons| && d != c ==> t.cons[d] == s.cons[d]
    requires !s.cons[c].CTake? && !t.cons[c].CTake? && LocalOk(t, c)
    requires LocalHead(s.cons[c], s.head) <= LocalHead(t.cons[c], t.head)
    requires forall i :: 0 <= i < |t.misses| ==> t.misses[i]
    ensures Inv(t, cap)
  {
    SharedFrame(s, t, cap);
    assert PopsOk(s, c);
    forall d | 0 <= d < |t.cons| ensures LocalOk(t, d) && PopsOk(t, d) {
      if d != c { OthersStable(s, t, d); }
    }
  }

  lemma ClaimKeeps(s: State, c: nat, cap: nat)
    requires Inv(s, cap) && c < |s.cons| && s.cons[c].CClaim?
    ensures Inv(ConsumerStep(s, c), cap)
  {
    assert LocalOk(s, c);
    if s.segs[s.cons[c].h].readPos != s.cons[c].r {
      MoveKeeps(s, ConsumerStep(s, c), c, cap);
    } else {
      ClaimWins(s, c, cap);
    }
  }

  lemma ClaimWins(s: State, c: nat, cap: nat)
    requires Inv(s, cap) && c < |s.cons| && s.cons[c].CClaim? && LocalOk(s, c)
    requires s.segs[s.cons[c].h].readPos == s.cons[c].r
    ensures Inv(ConsumerStep(s, c), cap)
  {
    var t := ConsumerStep(s, c);
    ClaimShared(s, c, cap);
    ClaimDelivers(s, t, c, Slot(s.cons[c].h, s.cons[c].r));
    ClaimPops(s, c, cap);
    assert Grows(s, t);
    ClaimOthers(s, t, c);
  }

  lemma ClaimOthers(s: State, t: State, c: nat)
    requires c < |s.cons| == |s.pops| && t.pops == s.pops && |t.cons| == |s.cons| && Grows(s, t)
    requires forall d :: 0 <= d < |s.cons| && d != c ==> t.cons[d] == s.cons[d]
    requires forall d :: 0 <= d < |s.cons| ==> LocalOk(s, d) && PopsOk(s, d)
    ensures forall d :: 0 <= d < |t.cons| && d != c ==> LocalOk(t, d) && PopsOk(t, d)
  {
    forall d | 0 <= d < |t.cons| && d != c ensures LocalOk(t, d) && PopsOk(t, d) {
      OthersStable(s, t, d);
    }
  }

  /** A successful claim takes a slot that had no owner. */
  lemma ClaimShared(s: State, c: nat, cap: nat)
    requires Inv(s, cap) && c < |s.cons| && s.cons[c].CClaim? && LocalOk(s, c)
    requires s.segs[s.cons[c].h].readPos == s.cons[c].r
    ensures Slot(s.cons[c].h, s.cons[c].r) !in s.owner
    ensures var t := ConsumerStep(s, c);
            Chained(t, cap) && ProducerOk(t, cap) && Logged(t) && Owned(t)
  {
    var t := ConsumerStep(s, c);
    var x := Slot(s.cons[c].h, s.cons[c].r);
    assert !Taken(s, x);
    LoggedFrame(s, t);
    assert forall y: Slot :: Taken(t, y) <==> Taken(s, y) || y == x;
  }

  lemma ClaimDelivers(s: State, t: State, c: nat, x: Slot)
    requires c < |s.cons| == |s.pops| && t.pops == s.pops && t.cons == s.cons[c := CTake(x.seg, x.idx)]
    requires Delivered(s) && !s.cons[c].CTake? && t.owner == s.owner[x := c]
    ensures Delivered(t)
  {
  }

  /** A newly claimed slot lies after everything its consumer returned before. */
  lemma ClaimPops(s: State, c: nat, cap: nat)
    requires Inv(s, cap) && c < |s.cons| && s.cons[c].CClaim? && LocalOk(s, c)
    requires s.segs[s.cons[c].h].readPos == s.cons[c].r
    ensures LocalOk(ConsumerStep(s, c), c) && PopsOk(ConsumerStep(s, c), c)
  {
    var ps := s.pops[c];
    assert PopsOk(s, c);
    forall i | 0 <= i < |ps| ensures Before(ps[i].slot, Slot(s.cons[c].h, s.cons[c].r)) {
      assert ps[i].slot in s.owner && Taken(s, ps[i].slot);
    }
  }

  /** A claimed slot holds the logged element. */
  lemma TakeReads(s: State, c: nat, cap: nat) returns (e: Entry)
    requires Inv(s, cap) && c < |s.cons| && s.cons[c].CTake?
    ensures e in s.log && s.cons[c] == CTake(e.slot.seg, e.slot.idx)
    ensures ConsumerStep(s, c) == To(s, c, CSize).(pops := s.pops[c := s.pops[c] + [e]])
  {
    var CTake(h, r) := s.cons[c];
    var x := Slot(h, r);
    assert LocalOk(s, c);
    assert Taken(s, x) && Published(s, x);
    var k :| 0 <= k < |s.log| && s.log[k].slot == x;
    e := s.log[k];
    assert Holds(s, e);
  }

  lemma TakeKeeps(s: State, c: nat, cap: nat)
    requires Inv(s, cap) && c < |s.cons| && s.cons[c].CTake?
    ensures Inv(ConsumerStep(s, c), cap)
  {
    var t := ConsumerStep(s, c);
    var e := TakeReads(s, c, cap);
    SharedFrame(s, t, cap);
    assert LocalOk(s, c) && PopsOk(s, c);
    TakePops(s, t, c, e);
    forall d | 0 <= d < |t.cons| && d != c ensures LocalOk(t, d) && PopsOk(t, d) {
      OthersStable(s, t, d);
    }
    TakeDelivers(s, t, c, e.slot);
  }

  lemma TakePops(s: State, t: State, c: nat, e: Entry)
    requires c < |s.cons| == |s.pops| && |t.cons| == |t.pops| == |s.cons|
    requires LocalOk(s, c) && PopsOk(s, c) && s.cons[c] == CTake(e.slot.seg, e.slot.idx) && e in s.log
    requires t.segs == s.segs && t.head == s.head && t.owner == s.owner && t.log == s.log
    requires t.cons[c] == CSize && t.pops[c] == s.pops[c] + [e]
    ensures LocalOk(t, c) && PopsOk(t, c)
  {
  }

  lemma TakeDelivers(s: State, t: State, c: nat, x: Slot)
    requires c < |s.cons| == |s.pops| && |t.cons| == |t.pops| == |s.cons|
    requires Delivered(s) && s.cons[c] == CTake(x.seg, x.idx) && t.owner == s.owner
    requires forall d :: 0 <= d < |s.cons| && d != c ==> t.cons[d] == s.cons[d] && t.pops[d] == s.pops[d]
    requires s.pops[c] < t.pops[c] && t.pops[c][|s.pops[c]|].slot == x
    ensures Delivered(t)
  {
    forall y: Slot | y in t.owner
      ensures t.owner[y] < |t.cons|
      ensures t.cons[t.owner[y]] == CTake(y.seg, y.idx) ||
              exists i :: 0 <= i < |t.pops[t.owner[y]]| && t.pops[t.owner[y]][i].slot == y
    {
      var d := s.owner[y];
      if d == c {
        if y == x {
          assert t.pops[d][|s.pops[d]|].slot == y;
        } else {
          var i :| 0 <= i < |s.pops[d]| && s.pops[d][i].slot == y;
          assert t.pops[d][i].slot == y;
        }
      }
    }
  }

  lemma ConsumerKeeps(s: State, c: nat, cap: nat)
    requires Inv(s, cap) && c < |s.cons|
    ensures Inv(ConsumerStep(s, c), cap)
  {
    match s.cons[c]
    case CClaim(_, _) => ClaimKeeps(s, c, cap);
    case CTake(_, _) => TakeKeeps(s, c, cap);
    case CWrite(_, _) => LoadWriteKeeps(s, c, cap);
    case CNext(_, _, _) => LoadNextKeeps(s, c, cap);
    case CAdvance(_, _, _) => AdvanceKeeps(s, c, cap);
    case _ =>
      assert LocalOk(s, c);
      MoveKeeps(s, ConsumerStep(s, c), c, cap);
  }

  lemma LoadNextKeeps(s: State, c: nat, cap: nat)
    requires Inv(s, cap) && c < |s.cons| && s.cons[c].CNext?
    ensures Inv(ConsumerStep(s, c), cap)
  {
    assert LocalOk(s, c);
    MoveKeeps(s, ConsumerStep(s, c), c, cap);
  }

  lemma AdvanceKeeps(s: State, c: nat, cap: nat)
    requires Inv(s, cap) && c < |s.cons| && s.cons[c].CAdvance?
    ensures Inv(ConsumerStep(s, c), cap)
  {
    assert LocalOk(s, c);
    MoveKeeps(s, ConsumerStep(s, c), c, cap);
  }

  /** A consumer that finds the unlinked last segment drained sees nothing unread in the whole queue. */
  lemma LoadWriteKeeps(s: State, c: nat, cap: nat)
    requires Inv(s, cap) && c < |s.cons| && s.cons[c].CWrite?
    ensures Inv(ConsumerStep(s, c), cap)
  {
    var CWrite(h, r) := s.cons[c];
    assert LocalOk(s, c);
    if r >= s.segs[h].writePos && s.segs[h].next.None? {
      assert h == s.head == Last(s);
      assert NothingUnread(s);
    }
    MoveKeeps(s, ConsumerStep(s, c), c, cap);
  }

  lemma StepKeeps(s: State, e: Event, cap: nat)
    requires Inv(s, cap)
    ensures Inv(Step(s, e, cap), cap)
  {
    match e
    case Push(_) => QuietKeeps(s, Step(s, e, cap), cap);
    case Produce => ProducerKeeps(s, cap);
    case Consume(c) => if c < |s.cons| { ConsumerKeeps(s, c, cap); }
  }

  lemma {:induction false} RunKeeps(s: State, es: seq<Event>, cap: nat)
    requires Inv(s, cap)
    ensures Inv(Run(s, es, cap), cap)
    decreases |es|
  {
    if es != [] {
      StepKeeps(s, es[0], cap);
      RunKeeps(Step(s, es[0], cap), es[1..], cap);
    }
  }
}
