/**
 What the step system of `SpmcQueue` guarantees over whole runs: exactly-once delivery
 in push order, conservation, when elements can be stranded behind the head and when
 they cannot, and what `size()` means at rest.
 */
module SpmcTheorems {
  import opened SpmcQueue
  import opened Wrappers

  // ----- Exactly once, in push order -----

  /** For every schedule: pops return logged elements, in push order, and no slot is returned twice. */
  lemma ExactlyOnceInOrder(consumers: nat, es: seq<Event>, cap: nat)
    requires cap > 0
    ensures var s := Run(Initial(consumers), es, cap);
            && |s.pops| == |s.cons|
            && (forall c, i :: 0 <= c < |s.pops| && 0 <= i < |s.pops[c]| ==> s.pops[c][i] in s.log)
            && (forall c, i, j :: 0 <= c < |s.pops| && 0 <= i < j < |s.pops[c]| ==>
               Before(s.pops[c][i].slot, s.pops[c][j].slot))
            && (forall c, d :: 0 <= c < d < |s.pops| ==> DisjointSlots(s.pops[c], s.pops[d]))
  {
    InitialInv(consumers, cap);
    RunKeeps(Initial(consumers), es, cap);
    var s := Run(Initial(consumers), es, cap);
    forall c, i | 0 <= c < |s.pops| && 0 <= i < |s.pops[c]| ensures s.pops[c][i] in s.log { assert PopsOk(s, c); }
    forall c, i, j | 0 <= c < |s.pops| &&
        0 <= i < j < |s.pops[c]| ensures Before(s.pops[c][i].slot, s.pops[c][j].slot) {
      assert PopsOk(s, c);
    }
    forall c, d | 0 <= c < d < |s.pops| ensures DisjointSlots(s.pops[c], s.pops[d]) {
      assert PopsOk(s, c) && PopsOk(s, d);
    }
  }

  predicate DisjointSlots(a: seq<Entry>, b: seq<Entry>) {
    forall i, j :: 0 <= i < |a| && 0 <= j < |b| ==> a[i].slot != b[j].slot
  }

  /** `try_pop` answers false only if nothing was unread, from the head on, when it loaded `write_pos`. */
  lemma FalseMeansEmpty(consumers: nat, es: seq<Event>, cap: nat)
    requires cap > 0
    ensures var s := Run(Initial(consumers), es, cap);
            forall i :: 0 <= i < |s.misses| ==> s.misses[i]
  {
    InitialInv(consumers, cap);
    RunKeeps(Initial(consumers), es, cap);
  }

  // ----- The log is the push order -----

  function Items(log: seq<Entry>): seq<Item> { seq(|log|, i requires 0 <= i < |log| => log[i].item) }

  /** The element of the push in progress, until it is published. */
  function InProgress(p: Producer): seq<Item> { if p.PIdle? || p.PSize? then [] else [p.item] }

  /** A push starts only when the producer is between two of them. */
  function Starting(s: State, e: Event): seq<Item> { if e.Push? && s.prod.PIdle? then [e.item] else [] }

  function Started(s: State, es: seq<Event>, cap: nat): seq<Item>
    decreases |es|
  {
    if es == [] then [] else Starting(s, es[0]) + Started(Step(s, es[0], cap), es[1..], cap)
  }

  lemma ItemsSnoc(log: seq<Entry>, e: Entry)
    ensures Items(log + [e]) == Items(log) + [e.item]
  {
  }

  lemma QuietProducer(s: State, cap: nat)
    requires Chained(s, cap) && ProducerOk(s, cap) && !s.prod.PPublish?
    ensures var t := ProducerStep(s, cap); t.log == s.log && InProgress(t.prod) == InProgress(s.prod)
  {
  }

  lemma LogStep(s: State, e: Event, cap: nat)
    requires Chained(s, cap) && ProducerOk(s, cap)
    ensures var t := Step(s, e, cap);
            Items(t.log) + InProgress(t.prod) == Items(s.log) + InProgress(s.prod) + Starting(s, e)
  {
    var t := Step(s, e, cap);
    match e
    case Consume(c) => assert t.log == s.log && t.prod == s.prod;
    case Push(item) => assert t.log == s.log && InProgress(t.prod) == InProgress(s.prod) + Starting(s, e);
    case Produce =>
      if s.prod.PPublish? {
        assert t.log == s.log + [Entry(Slot(s.prod.t, s.prod.w), s.prod.item)] && t.prod == PSize;
        ItemsSnoc(s.log, Entry(Slot(s.prod.t, s.prod.w), s.prod.item));
      } else {
        QuietProducer(s, cap);
      }
  }

  lemma Regroup<T>(a: seq<T>, b: seq<T>, c: seq<T>, d: seq<T>)
    ensures a + b + c + d == a + b + (c + d)
  {
  }

  /**
   For every schedule, the published elements followed by the one in progress are the started pushes in order: no push
   fails.
   */
  lemma {:induction false} LogIsPushOrder(s: State, es: seq<Event>, cap: nat)
    requires Inv(s, cap)
    ensures var t := Run(s, es, cap);
            Items(t.log) + InProgress(t.prod) == Items(s.log) + InProgress(s.prod) + Started(s, es, cap)
    decreases |es|
  {
    if es != [] {
      var t := Step(s, es[0], cap);
      StepKeeps(s, es[0], cap);
      LogStep(s, es[0], cap);
      LogIsPushOrder(t, es[1..], cap);
      Regroup(Items(s.log), InProgress(s.prod), Starting(s, es[0]), Started(t, es[1..], cap));
    }
  }

  // ----- Conservation -----

  /** Published, not taken, in the head segment or later. */
  predicate Unread(s: State, x: Slot) { Published(s, x) && !Taken(s, x) && x.seg >= s.head }

  /** Published, not taken, in a segment that the head has passed. */
  predicate Stranded(s: State, x: Slot) { Published(s, x) && !Taken(s, x) && x.seg < s.head }

  /** Returned by some consumer. */
  predicate Popped(s: State, x: Slot) {
    exists c, i :: 0 <= c < |s.pops| && 0 <= i < |s.pops[c]| && s.pops[c][i].slot == x
  }

  predicate InFlight(s: State, x: Slot) {
    exists c :: 0 <= c < |s.cons| && s.cons[c] == CTake(x.seg, x.idx)
  }

  predicate Pushed(s: State, x: Slot) { exists i :: 0 <= i < |s.log| && s.log[i].slot == x }

  /**
   For every schedule, a pushed slot is popped, in flight, unread or stranded, and only pushed slots are; the classes
   are disjoint.
   */
  lemma Conservation(consumers: nat, es: seq<Event>, cap: nat, x: Slot)
    requires cap > 0
    ensures var s := Run(Initial(consumers), es, cap);
            && (Pushed(s, x) <==> Popped(s, x) || InFlight(s, x) || Unread(s, x) || Stranded(s, x))
            && !(Popped(s, x) && InFlight(s, x))
            && !((Popped(s, x) || InFlight(s, x)) && (Unread(s, x) || Stranded(s, x)))
            && !(Unread(s, x) && Stranded(s, x))
  {
    InitialInv(consumers, cap);
    RunKeeps(Initial(consumers), es, cap);
    Classes(Run(Initial(consumers), es, cap), cap, x);
  }

  lemma Classes(s: State, cap: nat, x: Slot)
    requires Inv(s, cap)
    ensures Pushed(s, x) <==> Published(s, x)
    ensures Taken(s, x) <==> Popped(s, x) || InFlight(s, x)
    ensures !(Popped(s, x) && InFlight(s, x))
    ensures Taken(s, x) ==> Published(s, x)
  {
    if Popped(s, x) {
      var c, i :| 0 <= c < |s.pops| && 0 <= i < |s.pops[c]| && s.pops[c][i].slot == x;
      assert PopsOk(s, c);
      if InFlight(s, x) {
        var d :| 0 <= d < |s.cons| && s.cons[d] == CTake(x.seg, x.idx);
        assert LocalOk(s, d);
      }
    }
    if InFlight(s, x) {
      var d :| 0 <= d < |s.cons| && s.cons[d] == CTake(x.seg, x.idx);
      assert LocalOk(s, d);
    }
    if Taken(s, x) {
      var c := s.owner[x];
      if s.cons[c] != CTake(x.seg, x.idx) {
        var i :| 0 <= i < |s.pops[c]| && s.pops[c][i].slot == x;
      }
    }
  }

  // ----- Stranding -----

  ghost predicate NoneStranded(s: State) {
    forall i :: 0 <= i < s.head && i < |s.segs| ==> s.segs[i].readPos >= s.segs[i].writePos
  }

  /** A consumer swings the head away from a segment that still has unread slots. */
  predicate Strands(s: State, e: Event) {
    && e.Consume? && e.c < |s.cons| && e.c < |s.pops|
    && s.cons[e.c].CAdvance? && s.cons[e.c].h == s.head < |s.segs|
    && s.segs[s.head].readPos < s.segs[s.head].writePos
  }

  /** The consumer about to swing the head loaded `write_pos` before the segment was full. */
  predicate Stale(s: State, e: Event, cap: nat) {
    e.Consume? && e.c < |s.cons| && s.cons[e.c].CAdvance? && s.cons[e.c].h == s.head && s.cons[e.c].w < cap
  }

  /**
   A step first strands an element exactly when it swings the head off an undrained segment, which needs a stale load.
   */
  lemma StrandsExactly(s: State, e: Event, cap: nat)
    requires Inv(s, cap) && NoneStranded(s)
    ensures NoneStranded(Step(s, e, cap)) <==> !Strands(s, e)
    ensures Strands(s, e) ==> Stale(s, e, cap)
  {
    if e.Consume? {
      if e.c < |s.cons| { ConsumerStrands(s, e.c, cap); }
    } else {
      ProducerBehind(s, e, cap);
    }
  }

  /** The producer never touches a segment that the head has passed. */
  lemma ProducerBehind(s: State, e: Event, cap: nat)
    requires Inv(s, cap) && !e.Consume?
    ensures var t := Step(s, e, cap);
            t.head == s.head && |s.segs| <= |t.segs| && forall i :: 0 <= i < s.head ==> t.segs[i] == s.segs[i]
  {
  }

  lemma ConsumerStrands(s: State, c: nat, cap: nat)
    requires Inv(s, cap) && NoneStranded(s) && c < |s.cons|
    ensures NoneStranded(ConsumerStep(s, c)) <==> !Strands(s, Consume(c))
    ensures Strands(s, Consume(c)) ==> Stale(s, Consume(c), cap)
  {
    var t := ConsumerStep(s, c);
    assert LocalOk(s, c);
    if s.cons[c].CAdvance? && s.cons[c].h == s.head {
      assert t.head == s.head + 1 && t.segs == s.segs;
      assert s.segs[s.head].next.Some? && s.segs[s.head].writePos == cap;
    } else {
      assert t.head == s.head && |t.segs| == |s.segs|;
      assert forall i :: 0 <= i < |s.segs| ==>
        t.segs[i].readPos >= s.segs[i].readPos && t.segs[i].writePos == s.segs[i].writePos;
    }
  }

  ghost predicate NeverStale(s: State, es: seq<Event>, cap: nat)
    decreases |es|
  {
    es != [] ==> !Stale(s, es[0], cap) && NeverStale(Step(s, es[0], cap), es[1..], cap)
  }

  /** A run in which no head swing relies on a stale `write_pos` strands nothing. */
  lemma {:induction false} FreshRunsStrandNothing(s: State, es: seq<Event>, cap: nat)
    requires Inv(s, cap) && NoneStranded(s) && NeverStale(s, es, cap)
    ensures NoneStranded(Run(s, es, cap))
    decreases |es|
  {
    if es != [] {
      StepKeeps(s, es[0], cap);
      StrandsExactly(s, es[0], cap);
      FreshRunsStrandNothing(Step(s, es[0], cap), es[1..], cap);
    }
  }

  // ----- Loading the three positions in one step -----

  /** A consumer at the top of its loop loads `read_pos`, `write_pos` and, if it needs it, `next_segment` at once. */
  function AtomicStep(s: State, e: Event, cap: nat): State {
    var t := Step(s, e, cap);
    if e.Consume? && e.c < |s.cons| && s.cons[e.c].CRead? then
      var u := Step(t, e, cap);
      if e.c < |u.cons| && u.cons[e.c].CNext? then Step(u, e, cap) else u
    else t
  }

  function AtomicRun(s: State, es: seq<Event>, cap: nat): State
    decreases |es|
  {
    if es == [] then s else AtomicRun(AtomicStep(s, es[0], cap), es[1..], cap)
  }

  /** Between atomic steps no consumer holds a stale position. */
  ghost predicate Fresh(s: State, cap: nat) {
    forall c :: 0 <= c < |s.cons| ==> FreshAt(s.cons[c], cap)
  }

  lemma AtomicStepKeeps(s: State, e: Event, cap: nat)
    requires Inv(s, cap) && NoneStranded(s) && Fresh(s, cap)
    ensures var t := AtomicStep(s, e, cap); Inv(t, cap) && NoneStranded(t) && Fresh(t, cap)
  {
    if e.Consume? && e.c < |s.cons| && s.cons[e.c].CRead? {
      LoadsKeep(s, e.c, cap);
      assert LocalOk(s, e.c);
      LoadsFresh(s, e.c, cap);
    } else {
      StepKeeps(s, e, cap);
      StrandsExactly(s, e, cap);
      PlainStepFresh(s, e, cap);
    }
  }

  predicate FreshAt(k: Consumer, cap: nat) {
    !k.CWrite? && !k.CNext? && (k.CAdvance? ==> k.w == cap)
  }

  lemma PlainStepFresh(s: State, e: Event, cap: nat)
    requires Fresh(s, cap) && !(e.Consume? && e.c < |s.cons| && s.cons[e.c].CRead?)
    ensures Fresh(Step(s, e, cap), cap)
  {
    var t := Step(s, e, cap);
    if e.Consume? && e.c < |s.cons| && e.c < |s.pops| {
      assert FreshAt(s.cons[e.c], cap);
      assert t.cons == s.cons[e.c := t.cons[e.c]] && FreshAt(t.cons[e.c], cap);
    } else {
      assert t.cons == s.cons;
    }
  }

  /** The three loads in one step: a consumer that goes on to swing the head saw a full segment. */
  lemma LoadsFresh(s: State, c: nat, cap: nat)
    requires Chained(s, cap) && Fresh(s, cap) && c < |s.cons| && c < |s.pops| && s.cons[c].CRead? &&
      s.cons[c].h <= s.head
    ensures Fresh(AtomicStep(s, Consume(c), cap), cap)
  {
    var g := s.segs[s.cons[c].h];
    var t := AtomicStep(s, Consume(c), cap);
    assert g.next.Some? ==> g.writePos == cap;
    assert t.cons == s.cons[c := t.cons[c]] && FreshAt(t.cons[c], cap);
  }

  lemma LoadsKeep(s: State, c: nat, cap: nat)
    requires Inv(s, cap) && NoneStranded(s) && c < |s.cons| && s.cons[c].CRead?
    ensures var t := AtomicStep(s, Consume(c), cap); Inv(t, cap) && NoneStranded(t)
  {
    ConsumerKeeps(s, c, cap);
    ConsumerStrands(s, c, cap);
    var t := ConsumerStep(s, c);
    ConsumerKeeps(t, c, cap);
    ConsumerStrands(t, c, cap);
    var u := ConsumerStep(t, c);
    if u.cons[c].CNext? {
      ConsumerKeeps(u, c, cap);
      ConsumerStrands(u, c, cap);
    }
  }

  lemma {:induction false} AtomicRunKeeps(s: State, es: seq<Event>, cap: nat)
    requires Inv(s, cap) && NoneStranded(s) && Fresh(s, cap)
    ensures var t := AtomicRun(s, es, cap); Inv(t, cap) && NoneStranded(t) && Fresh(t, cap)
    decreases |es|
  {
    if es != [] {
      AtomicStepKeeps(s, es[0], cap);
      AtomicRunKeeps(AtomicStep(s, es[0], cap), es[1..], cap);
    }
  }

  /** With atomic loads nothing is ever stranded: every pushed slot is popped, in flight, or unread from the head on. */
  lemma AtomicLoadsLoseNothing(consumers: nat, es: seq<Event>, cap: nat, x: Slot)
    requires cap > 0
    ensures var s := AtomicRun(Initial(consumers), es, cap);
            && !Stranded(s, x)
            && (Pushed(s, x) <==> Popped(s, x) || InFlight(s, x) || Unread(s, x))
  {
    InitialInv(consumers, cap);
    AtomicRunKeeps(Initial(consumers), es, cap);
    Classes(AtomicRun(Initial(consumers), es, cap), cap, x);
  }

  lemma {:induction false} RunConcat(s: State, a: seq<Event>, b: seq<Event>, cap: nat)
    ensures Run(s, a + b, cap) == Run(Run(s, a, cap), b, cap)
    decreases |a|
  {
    if a == [] {
      assert a + b == b;
    } else {
      assert (a + b)[0] == a[0] && (a + b)[1..] == a[1..] + b;
      RunConcat(Step(s, a[0], cap), a[1..], b, cap);
    }
  }

  lemma RunFew(s: State, e: Event, cap: nat)
    ensures Run(s, [e], cap) == Step(s, e, cap)
    ensures Run(s, [e, e], cap) == Step(Step(s, e, cap), e, cap)
    ensures Run(s, [e, e, e], cap) == Step(Step(Step(s, e, cap), e, cap), e, cap)
  {
    assert [e][1..] == [] && [e, e][1..] == [e] && [e, e, e][1..] == [e, e];
    var t := Step(s, e, cap);
    assert Run(t, [e], cap) == Step(t, e, cap);
    assert Run(Step(t, e, cap), [e], cap) == Step(Step(t, e, cap), e, cap);
    assert Run(t, [e, e], cap) == Step(Step(t, e, cap), e, cap);
  }

  /** Runs with atomic loads are runs of the queue. */
  lemma {:induction false} AtomicRunsAreRuns(s: State, es: seq<Event>, cap: nat) returns (fine: seq<Event>)
    ensures AtomicRun(s, es, cap) == Run(s, fine, cap)
    decreases |es|
  {
    if es == [] {
      fine := [];
    } else {
      var e := es[0];
      var first := [e];
      if e.Consume? && e.c < |s.cons| && s.cons[e.c].CRead? {
        var u := Step(Step(s, e, cap), e, cap);
        first := if e.c < |u.cons| && u.cons[e.c].CNext? then [e, e, e] else [e, e];
      }
      RunFew(s, e, cap);
      var rest := AtomicRunsAreRuns(AtomicStep(s, e, cap), es[1..], cap);
      RunConcat(s, first, rest, cap);
      fine := first + rest;
    }
  }
}
