/**
 The loss that `try_pop` allows: `write_pos` is loaded before `next_segment`, so a
 consumer can swing the head past a segment that filled up in between.  For every
 segment capacity a schedule loses a whole segment, and nothing can recover it.
 Also: what `size()` reports when no operation is in progress.
 */
module SpmcLoss {
  import opened SpmcQueue
  import opened SpmcTheorems
  import opened Wrappers

  // ----- Once passed by everyone, a segment is never read again -----

  /** No consumer works on a segment before `floor`. */
  ghost predicate AllFrom(s: State, floor: nat) {
    floor <= s.head && forall c :: 0 <= c < |s.cons| ==> LocalHead(s.cons[c], s.head) >= floor
  }

  /** Read positions before `floor` are the same in both states. */
  ghost predicate Frozen(s: State, t: State, floor: nat) {
    && floor <= |s.segs| && floor <= |t.segs|
    && forall i :: 0 <= i < floor ==> t.segs[i].readPos == s.segs[i].readPos
  }

  lemma AllFromStep(s: State, e: Event, cap: nat, floor: nat)
    requires Inv(s, cap) && AllFrom(s, floor)
    ensures AllFrom(Step(s, e, cap), floor) && Frozen(s, Step(s, e, cap), floor)
  {
    if e.Consume? {
      if e.c < |s.cons| {
        assert LocalOk(s, e.c);
        ConsumerFrom(s, e.c, cap, floor);
      }
    } else {
      ProducerBehind(s, e, cap);
    }
  }

  lemma ConsumerFrom(s: State, c: nat, cap: nat, floor: nat)
    requires Chained(s, cap) && |s.cons| == |s.pops| && c < |s.cons| && LocalOk(s, c) && AllFrom(s, floor)
    ensures AllFrom(ConsumerStep(s, c), floor) && Frozen(s, ConsumerStep(s, c), floor)
  {
    var t := ConsumerStep(s, c);
    if s.cons[c].CAdvance? {
      assert s.segs[s.cons[c].h].next == Some(s.cons[c].h + 1);
    }
    assert t.head >= s.head && t.cons == s.cons[c := t.cons[c]] && LocalHead(t.cons[c], t.head) >= floor;
    forall d | 0 <= d < |t.cons| ensures LocalHead(t.cons[d], t.head) >= floor {
      assert LocalHead(s.cons[d], s.head) >= floor;
    }
  }

  /** Read positions before the floor are frozen in every continuation. */
  lemma {:induction false} PassedIsFrozen(s: State, es: seq<Event>, cap: nat, floor: nat)
    requires Inv(s, cap) && AllFrom(s, floor)
    ensures Inv(Run(s, es, cap), cap) && Frozen(s, Run(s, es, cap), floor)
    decreases |es|
  {
    if es != [] {
      StepKeeps(s, es[0], cap);
      AllFromStep(s, es[0], cap, floor);
      PassedIsFrozen(Step(s, es[0], cap), es[1..], cap, floor);
    }
  }

  /** A slot stranded while every consumer is at or past the head is popped in no continuation. */
  lemma StrandedForGood(s: State, es: seq<Event>, cap: nat, x: Slot)
    requires Inv(s, cap) && AllFrom(s, s.head) && Stranded(s, x)
    ensures !Popped(Run(s, es, cap), x)
  {
    PassedIsFrozen(s, es, cap, s.head);
    Classes(Run(s, es, cap), cap, x);
  }

  // ----- The losing schedule -----

  const PUSH_ONE: seq<Event> := [Push(0), Produce, Produce, Produce, Produce]

  function Pushes(n: nat): seq<Event> { if n == 0 then [] else Pushes(n - 1) + PUSH_ONE }

  /** One consumer, idle producer, and `n` elements in the only segment, none of them read. */
  ghost predicate Filling(s: State, k: Consumer, n: nat) {
    && |s.segs| == 1 && s.segs[0].writePos == n && s.segs[0].readPos == 0 && s.segs[0].next.None?
    && s.head == 0 && s.tail == 0 && s.prod.PIdle? && s.cons == [k] && |s.pops| == 1
  }

  lemma PushOne(s: State, k: Consumer, n: nat, cap: nat)
    requires Filling(s, k, n) && n < cap
    ensures Filling(Run(s, PUSH_ONE, cap), k, n + 1)
  {
  }

  lemma RunThree(s: State, a: Event, b: Event, c: Event, cap: nat)
    ensures Run(s, [a, b, c], cap) == Step(Step(Step(s, a, cap), b, cap), c, cap)
  {
    assert [a, b, c][1..] == [b, c] && [b, c][1..] == [c] && [c][1..] == [];
    var t := Step(s, a, cap);
    assert Run(Step(t, b, cap), [c], cap) == Step(Step(t, b, cap), c, cap);
    assert Run(t, [b, c], cap) == Step(Step(t, b, cap), c, cap);
  }

  lemma {:induction false} FillSegment(s: State, k: Consumer, n: nat, cap: nat)
    requires Filling(s, k, 0) && n <= cap
    ensures Filling(Run(s, Pushes(n), cap), k, n)
  {
    if n > 0 {
      FillSegment(s, k, n - 1, cap);
      PushOne(Run(s, Pushes(n - 1), cap), k, n - 1, cap);
      RunConcat(s, Pushes(n - 1), PUSH_ONE, cap);
    }
  }

  /**
   The consumer sees an empty segment; then it fills and a second one is linked; then the consumer swings the head.
   */
  function LosingRun(cap: nat): seq<Event> {
    [Consume(0), Consume(0), Consume(0)] + (Pushes(cap) + ([Push(0), Produce, Produce] + [Consume(0), Consume(0)]))
  }

  lemma LosingRunStrands(cap: nat)
    requires cap > 0
    ensures var s := Run(Initial(1), LosingRun(cap), cap);
            Inv(s, cap) && AllFrom(s, s.head) && forall j :: 0 <= j < cap ==> Stranded(s, Slot(0, j))
  {
    var s0 := Initial(1);
    var k := CNext(0, 0, true);
    var c3, fill := [Consume(0), Consume(0), Consume(0)], Pushes(cap);
    var link, swing := [Push(0), Produce, Produce], [Consume(0), Consume(0)];
    RunThree(s0, Consume(0), Consume(0), Consume(0), cap);
    var s1 := Run(s0, c3, cap);
    assert Filling(s1, k, 0);
    FillSegment(s1, k, cap, cap);
    var s2 := Run(s1, fill, cap);
    RunThree(s2, Push(0), Produce, Produce, cap);
    var s3 := Run(s2, link, cap);
    LinkSecond(s2, k, cap);
    RunFew(s3, Consume(0), cap);
    SwingAway(s3, k, cap);
    RunConcat(s0, c3, fill + (link + swing), cap);
    RunConcat(s1, fill, link + swing, cap);
    RunConcat(s2, link, swing, cap);
    InitialInv(1, cap);
    RunKeeps(s0, LosingRun(cap), cap);
  }

  /** The consumer that saw the first segment empty moves the head to the second. */
  lemma SwingAway(s: State, k: Consumer, cap: nat)
    requires |s.segs| == 2 && s.segs[0].next == Some(1) && s.head == 0 && s.cons == [k] && |s.pops| == 1
    requires k.CNext? && k.h == 0
    ensures var t := Step(Step(s, Consume(0), cap), Consume(0), cap);
            t.segs == s.segs && t.head == 1 && t.cons == [CRead(1)]
  {
    var u := Step(s, Consume(0), cap);
    assert u.cons == [CAdvance(0, k.w, 1)] && u.head == 0;
  }

  lemma LinkSecond(s: State, k: Consumer, cap: nat)
    requires cap > 0 && Filling(s, k, cap)
    ensures var t := Step(Step(Step(s, Push(0), cap), Produce, cap), Produce, cap);
            && |t.segs| == 2 && t.segs[0].next == Some(1) && t.segs[0].writePos == cap && t.segs[0].readPos == 0
            && t.head == 0 && t.cons == [k] && |t.pops| == 1
  {
  }

  /** For every capacity some schedule loses a full segment: in no continuation is any of its elements popped. */
  lemma EveryCapacityCanLose(cap: nat, es: seq<Event>, j: nat)
    requires j < cap
    ensures var s := Run(Initial(1), LosingRun(cap), cap);
            Pushed(s, Slot(0, j)) && !Popped(Run(s, es, cap), Slot(0, j))
  {
    LosingRunStrands(cap);
    var s := Run(Initial(1), LosingRun(cap), cap);
    assert Stranded(s, Slot(0, j));
    Classes(s, cap, Slot(0, j));
    StrandedForGood(s, es, cap, Slot(0, j));
  }

  // ----- size() -----

  /** Consumers between their claim and their decrement of `total_size`. */
  function Owing(ks: seq<Consumer>): nat {
    if ks == [] then 0 else Owing(ks[..|ks| - 1]) + Owes(ks[|ks| - 1])
  }

  function Owes(k: Consumer): nat { if k.CTake? || k.CSize? then 1 else 0 }

  lemma {:induction false} OwingUpdate(ks: seq<Consumer>, c: nat, k: Consumer)
    requires c < |ks|
    ensures Owing(ks[c := k]) == Owing(ks) - Owes(ks[c]) + Owes(k)
  {
    var n := |ks| - 1;
    if c == n {
      assert ks[c := k][..n] == ks[..n];
    } else {
      assert ks[c := k][..n] == ks[..n][c := k];
      OwingUpdate(ks[..n], c, k);
    }
  }

  /** Pushed and counted, minus claimed and uncounted. */
  function Balance(s: State): int {
    |s.log| - (if s.prod.PSize? then 1 else 0) - |s.owner| + Owing(s.cons)
  }

  lemma ModSteps(x: int)
    ensures (x % SIZE_MOD + 1) % SIZE_MOD == (x + 1) % SIZE_MOD
    ensures (x % SIZE_MOD + SIZE_MOD - 1) % SIZE_MOD == (x - 1) % SIZE_MOD
  {
  }

  lemma BalanceStep(s: State, e: Event, cap: nat)
    requires Inv(s, cap) && s.totalSize == Balance(s) % SIZE_MOD
    ensures var t := Step(s, e, cap); t.totalSize == Balance(t) % SIZE_MOD
  {
    ModSteps(Balance(s));
    if e.Consume? {
      if e.c < |s.cons| { ConsumerBalance(s, e.c, cap); }
    } else {
      ProducerBalance(s, e, cap);
    }
  }

  lemma ProducerBalance(s: State, e: Event, cap: nat)
    requires !e.Consume?
    ensures var t := Step(s, e, cap);
            || (t.totalSize == s.totalSize && Balance(t) == Balance(s))
            || (t.totalSize == (s.totalSize + 1) % SIZE_MOD && Balance(t) == Balance(s) + 1)
  {
    var t := Step(s, e, cap);
    assert t.cons == s.cons && t.owner == s.owner;
  }

  lemma ConsumerBalance(s: State, c: nat, cap: nat)
    requires Inv(s, cap) && c < |s.cons|
    ensures var t := ConsumerStep(s, c);
            || (t.totalSize == s.totalSize && Balance(t) == Balance(s))
            || (t.totalSize == (s.totalSize + SIZE_MOD - 1) % SIZE_MOD && Balance(t) == Balance(s) - 1)
  {
    assert LocalOk(s, c);
    match s.cons[c]
    case CTake(_, _) => TakeBalance(s, c, cap);
    case CClaim(_, _) => ClaimBalance(s, c, cap);
    case _ => PlainBalance(s, c);
  }

  lemma PlainBalance(s: State, c: nat)
    requires c < |s.cons| && c < |s.pops| && !s.cons[c].CTake? && !s.cons[c].CClaim?
    ensures var t := ConsumerStep(s, c);
            || (t.totalSize == s.totalSize && Balance(t) == Balance(s))
            || (t.totalSize == (s.totalSize + SIZE_MOD - 1) % SIZE_MOD && Balance(t) == Balance(s) - 1)
  {
    PlainStep(s, c);
    OwingUpdate(s.cons, c, ConsumerStep(s, c).cons[c]);
  }

  /** A step without a claim in it pushes, claims and counts nothing, except that the last one counts. */
  lemma PlainStep(s: State, c: nat)
    requires c < |s.cons| && c < |s.pops| && !s.cons[c].CTake? && !s.cons[c].CClaim?
    ensures var t := ConsumerStep(s, c);
            && t.prod == s.prod && t.log == s.log && t.owner == s.owner && t.cons == s.cons[c := t.cons[c]]
            && Owes(t.cons[c]) == 0
            && t.totalSize == if s.cons[c].CSize? then (s.totalSize + SIZE_MOD - 1) % SIZE_MOD else s.totalSize
  {
  }

  lemma TakeBalance(s: State, c: nat, cap: nat)
    requires Inv(s, cap) && c < |s.cons| && s.cons[c].CTake?
    ensures var t := ConsumerStep(s, c); t.totalSize == s.totalSize && Balance(t) == Balance(s)
  {
    var entry := TakeReads(s, c, cap);
    OwingUpdate(s.cons, c, CSize);
  }

  lemma ClaimBalance(s: State, c: nat, cap: nat)
    requires Inv(s, cap) && c < |s.cons| && s.cons[c].CClaim? && LocalOk(s, c)
    ensures var t := ConsumerStep(s, c); t.totalSize == s.totalSize && Balance(t) == Balance(s)
  {
    ClaimOwner(s, c, cap);
    OwingUpdate(s.cons, c, ConsumerStep(s, c).cons[c]);
  }

  lemma ClaimOwner(s: State, c: nat, cap: nat)
    requires Inv(s, cap) && c < |s.cons| && s.cons[c].CClaim? && LocalOk(s, c)
    ensures var t := ConsumerStep(s, c);
            && t.totalSize == s.totalSize && |t.owner| - |s.owner| == Owes(t.cons[c]) && Owes(s.cons[c]) == 0
  {
  }

  lemma {:induction false} BalanceRun(s: State, es: seq<Event>, cap: nat)
    requires Inv(s, cap) && s.totalSize == Balance(s) % SIZE_MOD
    ensures var t := Run(s, es, cap); t.totalSize == Balance(t) % SIZE_MOD
    decreases |es|
  {
    if es != [] {
      StepKeeps(s, es[0], cap);
      BalanceStep(s, es[0], cap);
      BalanceRun(Step(s, es[0], cap), es[1..], cap);
    }
  }

  lemma {:induction false} NobodyOwes(ks: seq<Consumer>)
    requires forall c :: 0 <= c < |ks| ==> ks[c].CIdle?
    ensures Owing(ks) == 0
  {
    if ks != [] { NobodyOwes(ks[..|ks| - 1]); }
  }

  /** When no operation is in progress, `size()` is pushes minus claims, modulo the word size. */
  lemma SizeAtRest(consumers: nat, es: seq<Event>, cap: nat)
    requires cap > 0
    ensures var s := Run(Initial(consumers), es, cap);
            s.prod.PIdle? && (forall c :: 0 <= c < |s.cons| ==> s.cons[c].CIdle?) ==>
              s.totalSize == (|s.log| - |s.owner|) % SIZE_MOD
  {
    var i := Initial(consumers);
    InitialInv(consumers, cap);
    NobodyOwes(i.cons);
    BalanceRun(i, es, cap);
    var s := Run(i, es, cap);
    if forall c :: 0 <= c < |s.cons| ==> s.cons[c].CIdle? { NobodyOwes(s.cons); }
  }
}
