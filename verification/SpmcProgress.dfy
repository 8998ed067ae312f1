/**
 More about whole runs of the queue of `SpmcQueue`: exactly which runs strand nothing at any
 time, and why a consumer retries its claim only after another one succeeded.
 */
module SpmcProgress {
  import opened SpmcQueue
  import opened SpmcTheorems

  // ----- Runs that strand nothing -----

  /** Nothing is stranded now or after any step of the run. */
  ghost predicate NoneStrandedThroughout(s: State, es: seq<Event>, cap: nat)
    decreases |es|
  {
    NoneStranded(s) && (es != [] ==> NoneStrandedThroughout(Step(s, es[0], cap), es[1..], cap))
  }

  ghost predicate SomeStrands(s: State, es: seq<Event>, cap: nat)
    decreases |es|
  {
    es != [] && (Strands(s, es[0]) || SomeStrands(Step(s, es[0], cap), es[1..], cap))
  }

  /** A run strands nothing at any time if and only if no step swings the head off an undrained segment. */
  lemma {:induction false} RunStrandsExactly(s: State, es: seq<Event>, cap: nat)
    requires Inv(s, cap) && NoneStranded(s)
    ensures NoneStrandedThroughout(s, es, cap) <==> !SomeStrands(s, es, cap)
    decreases |es|
  {
    if es != [] {
      StepKeeps(s, es[0], cap);
      StrandsExactly(s, es[0], cap);
      if !Strands(s, es[0]) { RunStrandsExactly(Step(s, es[0], cap), es[1..], cap); }
    }
  }

  // ----- Failed claims -----

  /** Consumer `c` has loaded read position `r` of segment `h` and has not yet claimed the slot. */
  predicate Pursues(k: Consumer, h: nat, r: nat) { k == CWrite(h, r) || k == CClaim(h, r) }

  /** The slot that a consumer pursues is at or before the read position, and not its own. */
  ghost predicate Rivals(s: State) {
    forall c, h, r :: 0 <= c < |s.cons| && Pursues(s.cons[c], h, r) ==> RivalAt(s, c, h, r)
  }

  predicate RivalAt(s: State, c: nat, h: nat, r: nat) {
    h < |s.segs| && r <= s.segs[h].readPos && (Slot(h, r) in s.owner ==> s.owner[Slot(h, r)] != c)
  }

  /** Loading `read_pos` finds the slot at that position unclaimed. */
  lemma LoadIsUnclaimed(s: State, c: nat, h: nat, cap: nat)
    requires Inv(s, cap) && c < |s.cons| && s.cons[c] == CRead(h)
    ensures h < |s.segs|
    ensures var t := ConsumerStep(s, c);
            t.owner == s.owner && t.segs == s.segs && t.cons[c] == CWrite(h, s.segs[h].readPos)
            && Slot(h, s.segs[h].readPos) !in s.owner
  {
    assert LocalOk(s, c);
  }

  /** A step moves no read position back, and gives slots only to the consumer that moves. */
  lemma StepsForward(s: State, c: nat, d: nat, h: nat, r: nat)
    requires c < |s.cons| && c < |s.pops| && d != c && RivalAt(s, d, h, r)
    ensures RivalAt(ConsumerStep(s, c), d, h, r)
  {
  }

  lemma ConsumerRivals(s: State, c: nat, cap: nat)
    requires Inv(s, cap) && Rivals(s) && c < |s.cons|
    ensures Rivals(ConsumerStep(s, c))
  {
    var t := ConsumerStep(s, c);
    forall d, h, r | 0 <= d < |t.cons| && Pursues(t.cons[d], h, r) ensures RivalAt(t, d, h, r) {
      if d != c {
        assert t.cons[d] == s.cons[d] && Pursues(s.cons[d], h, r);
        StepsForward(s, c, d, h, r);
      } else {
        OwnRival(s, c, h, r, cap);
      }
    }
  }

  lemma OwnRival(s: State, c: nat, h: nat, r: nat, cap: nat)
    requires Inv(s, cap) && Rivals(s) && c < |s.cons| && Pursues(ConsumerStep(s, c).cons[c], h, r)
    ensures RivalAt(ConsumerStep(s, c), c, h, r)
  {
    var k := s.cons[c];
    if k.CRead? {
      LoadIsUnclaimed(s, c, k.h, cap);
    } else {
      assert Pursues(k, h, r);
    }
  }

  lemma ProducerForward(s: State, e: Event, cap: nat)
    requires !e.Consume?
    ensures var t := Step(s, e, cap);
            && t.cons == s.cons && t.owner == s.owner && |s.segs| <= |t.segs|
            && forall i :: 0 <= i < |s.segs| ==> t.segs[i].readPos == s.segs[i].readPos
  {
  }

  lemma StepKeepsRivals(s: State, e: Event, cap: nat)
    requires Inv(s, cap) && Rivals(s)
    ensures Rivals(Step(s, e, cap))
  {
    if e.Consume? {
      if e.c < |s.cons| { ConsumerRivals(s, e.c, cap); }
    } else {
      ProducerForward(s, e, cap);
    }
  }

  lemma {:induction false} RunKeepsRivals(s: State, es: seq<Event>, cap: nat)
    requires Inv(s, cap) && Rivals(s)
    ensures Inv(Run(s, es, cap), cap) && Rivals(Run(s, es, cap))
    decreases |es|
  {
    if es != [] {
      StepKeeps(s, es[0], cap);
      StepKeepsRivals(s, es[0], cap);
      RunKeepsRivals(Step(s, es[0], cap), es[1..], cap);
    }
  }

  /**
   In every run, a claim fails exactly if another consumer's claim of the same slot succeeded; the slot was
   unclaimed when its position was loaded (`LoadIsUnclaimed`), so that claim came in between.
   */
  lemma ClaimFailsOnlyToRival(consumers: nat, es: seq<Event>, cap: nat, c: nat)
    requires cap > 0
    ensures var s := Run(Initial(consumers), es, cap);
            c < |s.cons| && s.cons[c].CClaim? ==>
              var x := Slot(s.cons[c].h, s.cons[c].r);
              && x.seg < |s.segs| && c < |s.pops|
              && (ConsumerStep(s, c).cons[c] != CTake(x.seg, x.idx) <==> x in s.owner && s.owner[x] != c)
  {
    InitialInv(consumers, cap);
    RunKeepsRivals(Initial(consumers), es, cap);
    var s := Run(Initial(consumers), es, cap);
    if c < |s.cons| && s.cons[c].CClaim? {
      assert LocalOk(s, c) && Pursues(s.cons[c], s.cons[c].h, s.cons[c].r);
      ClaimedOrNot(s, c, cap, s.cons[c].h, s.cons[c].r);
    }
  }

  lemma ClaimedOrNot(s: State, c: nat, cap: nat, h: nat, r: nat)
    requires Inv(s, cap) && c < |s.cons| && s.cons[c] == CClaim(h, r) && RivalAt(s, c, h, r)
    ensures ConsumerStep(s, c).cons[c] == CTake(h, r) <==> Slot(h, r) !in s.owner
  {
  }
}
