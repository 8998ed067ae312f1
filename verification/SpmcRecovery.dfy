/**
 Which stranded elements of the queue of `SpmcQueue` are lost for good.  A consumer that is still
 working on a segment which the head has passed can take one more element from it before it reloads
 the head; nobody else comes back.
 */
module SpmcRecovery {
  import opened SpmcQueue
  import opened SpmcTheorems
  import opened SpmcProgress

  /** The consumer is about to read from segment `h`, or to claim in it. */
  predicate Lags(k: Consumer, h: nat) { (k.CRead? || k.CWrite? || k.CClaim?) && k.h == h }

  function Lag(k: Consumer, h: nat): nat { if Lags(k, h) then 1 else 0 }

  function Lagging(ks: seq<Consumer>, h: nat): nat {
    if ks == [] then 0 else Lagging(ks[..|ks| - 1], h) + Lag(ks[|ks| - 1], h)
  }

  lemma {:induction false} LaggingUpdate(ks: seq<Consumer>, c: nat, k: Consumer, h: nat)
    requires c < |ks|
    ensures Lagging(ks[c := k], h) == Lagging(ks, h) - Lag(ks[c], h) + Lag(k, h)
  {
    var n := |ks| - 1;
    if c == n {
      assert ks[c := k][..n] == ks[..n];
    } else {
      assert ks[c := k][..n] == ks[..n][c := k];
      LaggingUpdate(ks[..n], c, k, h);
    }
  }

  lemma {:induction false} SomeLags(ks: seq<Consumer>, h: nat) returns (c: nat)
    requires Lagging(ks, h) > 0
    ensures c < |ks| && Lags(ks[c], h)
  {
    var n := |ks| - 1;
    if Lags(ks[n], h) { c := n; } else { c := SomeLags(ks[..n], h); }
  }

  /** How far the read position of segment `h` can still get once the head has passed it. */
  function Limit(s: State, h: nat): nat
    requires h < |s.segs|
  { s.segs[h].readPos + Lagging(s.cons, h) }

  // ----- Nobody comes back -----

  /**
   What one step of a consumer does to a passed segment: a claim ends its lag, and nothing else claims or starts one.
   */
  lemma ConsumerOnPassed(s: State, c: nat, h: nat, cap: nat)
    requires Inv(s, cap) && c < |s.cons| && h < s.head
    ensures var t := ConsumerStep(s, c);
            && h < t.head < |t.segs| && t.cons == s.cons[c := t.cons[c]]
            && t.segs[h].readPos + Lag(t.cons[c], h) <= s.segs[h].readPos + Lag(s.cons[c], h)
  {
    assert LocalOk(s, c);
  }

  lemma StepOnPassed(s: State, e: Event, h: nat, cap: nat)
    requires Inv(s, cap) && h < s.head
    ensures var t := Step(s, e, cap); h < t.head < |t.segs| && Limit(t, h) <= Limit(s, h)
  {
    if e.Consume? {
      if e.c < |s.cons| {
        ConsumerOnPassed(s, e.c, h, cap);
        LaggingUpdate(s.cons, e.c, ConsumerStep(s, e.c).cons[e.c], h);
      }
    } else {
      ProducerForward(s, e, cap);
      ProducerBehind(s, e, cap);
    }
  }

  lemma {:induction false} RunOnPassed(s: State, es: seq<Event>, h: nat, cap: nat)
    requires Inv(s, cap) && h < s.head
    ensures var t := Run(s, es, cap); Inv(t, cap) && h < t.head < |t.segs| && Limit(t, h) <= Limit(s, h)
    decreases |es|
  {
    if es != [] {
      StepKeeps(s, es[0], cap);
      StepOnPassed(s, es[0], h, cap);
      RunOnPassed(Step(s, es[0], cap), es[1..], h, cap);
    }
  }

  // ----- Every consumer that lags can take one more -----

  /** Consumer `c` has claimed the next slot of segment `h`, and nothing else of what matters has changed. */
  ghost predicate Claimed(s: State, t: State, c: nat, h: nat)
    requires c < |s.cons| && h < |s.segs|
  {
    && |t.segs| == |s.segs| && t.head == s.head
    && t.segs[h].readPos == s.segs[h].readPos + 1 && t.segs[h].writePos == s.segs[h].writePos
    && t.cons == s.cons[c := CTake(h, s.segs[h].readPos)]
  }

  lemma ClaimFromRead(s: State, c: nat, h: nat, cap: nat)
    requires Inv(s, cap) && c < |s.cons| && h < |s.segs| && s.cons[c] == CRead(h)
    requires s.segs[h].readPos < s.segs[h].writePos
    ensures Claimed(s, Run(s, [Consume(c), Consume(c), Consume(c)], cap), c, h)
  {
    var r := s.segs[h].readPos;
    var s1 := Step(s, Consume(c), cap);
    assert s1 == s.(cons := s.cons[c := CWrite(h, r)]);
    var s2 := Step(s1, Consume(c), cap);
    assert s2 == s.(cons := s.cons[c := CClaim(h, r)]);
    var s3 := Step(s2, Consume(c), cap);
    assert s3.cons == s.cons[c := CTake(h, r)];
    RunFew(s, Consume(c), cap);
  }

  lemma ClaimFromClaim(s: State, c: nat, h: nat, cap: nat) returns (es: seq<Event>)
    requires Inv(s, cap) && c < |s.cons| && h < |s.segs| && s.cons[c].CClaim? && s.cons[c].h == h
    requires s.segs[h].readPos < s.segs[h].writePos
    ensures Claimed(s, Run(s, es, cap), c, h)
  {
    var e := Consume(c);
    RunFew(s, e, cap);
    es := [e];
    if s.cons[c].r != s.segs[h].readPos {
      var t := Step(s, e, cap);
      assert t == s.(cons := s.cons[c := CRead(h)]);
      StepKeeps(s, e, cap);
      ClaimFromRead(t, c, h, cap);
      RunConcat(s, [e], [e, e, e], cap);
      es := [e] + [e, e, e];
      assert t.cons[c := CTake(h, s.segs[h].readPos)] == s.cons[c := CTake(h, s.segs[h].readPos)];
    }
  }

  lemma ClaimNext(s: State, c: nat, h: nat, cap: nat) returns (es: seq<Event>)
    requires Inv(s, cap) && c < |s.cons| && h < |s.segs| && Lags(s.cons[c], h)
    requires s.segs[h].readPos < s.segs[h].writePos
    ensures Claimed(s, Run(s, es, cap), c, h)
  {
    var e := Consume(c);
    if s.cons[c].CRead? {
      ClaimFromRead(s, c, h, cap);
      es := [e, e, e];
    } else if s.cons[c].CClaim? {
      es := ClaimFromClaim(s, c, h, cap);
    } else {
      assert LocalOk(s, c);
      var r := s.cons[c].r;
      var t := Step(s, e, cap);
      assert t == s.(cons := s.cons[c := CClaim(h, r)]);
      StepKeeps(s, e, cap);
      var rest := ClaimFromClaim(t, c, h, cap);
      RunFew(s, e, cap);
      RunConcat(s, [e], rest, cap);
      es := [e] + rest;
      assert t.cons[c := CTake(h, s.segs[h].readPos)] == s.cons[c := CTake(h, s.segs[h].readPos)];
    }
  }

  /** A consumer that has claimed a slot returns it next. */
  lemma TakeReturns(s: State, c: nat, x: Slot, cap: nat)
    requires Inv(s, cap) && c < |s.cons| && s.cons[c] == CTake(x.seg, x.idx)
    ensures Popped(Run(s, [Consume(c)], cap), x)
  {
    RunFew(s, Consume(c), cap);
    TakeIsPublished(s, c, x, cap);
    var t := Step(s, Consume(c), cap);
    var n := |s.pops[c]|;
    assert t.pops[c][n].slot == x;
  }

  lemma TakeIsPublished(s: State, c: nat, x: Slot, cap: nat)
    requires Inv(s, cap) && c < |s.cons| && s.cons[c] == CTake(x.seg, x.idx)
    ensures x.seg < |s.segs| && x.idx in s.segs[x.seg].data
  {
    assert LocalOk(s, c) && x in s.owner && Taken(s, x) && Published(s, x);
    var i :| 0 <= i < |s.log| && s.log[i].slot == x;
    assert Holds(s, s.log[i]);
  }

  /** As many lagging consumers as there are slots up to `x` bring it back. */
  lemma {:induction false} Recovers(s: State, x: Slot, cap: nat) returns (es: seq<Event>)
    requires Inv(s, cap) && Stranded(s, x) && x.idx < Limit(s, x.seg)
    ensures Popped(Run(s, es, cap), x)
    decreases x.idx - s.segs[x.seg].readPos
  {
    var h := x.seg;
    var c := SomeLags(s.cons, h);
    var first := ClaimNext(s, c, h, cap);
    var t := Run(s, first, cap);
    RunKeeps(s, first, cap);
    var rest;
    if s.segs[h].readPos == x.idx {
      TakeReturns(t, c, x, cap);
      rest := [Consume(c)];
    } else {
      LaggingUpdate(s.cons, c, CTake(h, s.segs[h].readPos), h);
      rest := Recovers(t, x, cap);
    }
    RunConcat(s, first, rest, cap);
    es := first + rest;
  }

  /**
   A stranded element is popped in some continuation if and only if enough consumers still work on its segment:
   one for it and one for each unread element before it.
   */
  lemma RecoverableIff(s: State, x: Slot, cap: nat)
    requires Inv(s, cap) && Stranded(s, x)
    ensures (exists es :: Popped(Run(s, es, cap), x)) <==> x.idx < Limit(s, x.seg)
  {
    if es :| Popped(Run(s, es, cap), x) {
      RunOnPassed(s, es, x.seg, cap);
      Classes(Run(s, es, cap), cap, x);
    }
    if x.idx < Limit(s, x.seg) { var es := Recovers(s, x, cap); }
  }
}
