/**
 That the operations of the queue of `SpmcQueue` answer: every pop that starts returns an element, returns
 false, or is in progress; and a thread that runs alone, from any reachable state, is done after a bounded
 number of its own steps.
 */
module SpmcAnswers {
  import opened SpmcQueue
  import opened SpmcTheorems
  import opened SpmcRecovery

  // ----- Every pop is answered once or in progress -----

  /** The consumer is inside a pop that has not answered. */
  function Asking(k: Consumer): nat { if k.CIdle? || k.CSize? then 0 else 1 }

  function AskingAll(ks: seq<Consumer>): nat {
    if ks == [] then 0 else AskingAll(ks[..|ks| - 1]) + Asking(ks[|ks| - 1])
  }

  function Returned(pops: seq<seq<Entry>>): nat {
    if pops == [] then 0 else Returned(pops[..|pops| - 1]) + |pops[|pops| - 1]|
  }

  /** Elements returned and answers of false. */
  function Answers(s: State): nat { Returned(s.pops) + |s.misses| }

  /** The pops that a schedule starts: a consumer moves while it is between two of them. */
  function StartedPops(s: State, es: seq<Event>, cap: nat): nat
    decreases |es|
  {
    if es == [] then 0 else Starts(s, es[0]) + StartedPops(Step(s, es[0], cap), es[1..], cap)
  }

  lemma {:induction false} AskingUpdate(ks: seq<Consumer>, c: nat, k: Consumer)
    requires c < |ks|
    ensures AskingAll(ks[c := k]) == AskingAll(ks) - Asking(ks[c]) + Asking(k)
  {
    var n := |ks| - 1;
    if c == n {
      assert ks[c := k][..n] == ks[..n];
    } else {
      assert ks[c := k][..n] == ks[..n][c := k];
      AskingUpdate(ks[..n], c, k);
    }
  }

  lemma {:induction false} ReturnedUpdate(pops: seq<seq<Entry>>, c: nat, ps: seq<Entry>)
    requires c < |pops|
    ensures Returned(pops[c := ps]) == Returned(pops) - |pops[c]| + |ps|
  {
    var n := |pops| - 1;
    if c == n {
      assert pops[c := ps][..n] == pops[..n];
    } else {
      assert pops[c := ps][..n] == pops[..n][c := ps];
      ReturnedUpdate(pops[..n], c, ps);
    }
  }

  lemma TakeAnswers(s: State, c: nat)
    requires c < |s.cons| && c < |s.pops| && s.cons[c].CTake?
    ensures var t := ConsumerStep(s, c);
            && t.cons == s.cons[c := t.cons[c]] && |t.pops| == |s.pops|
            && Answers(t) + Asking(t.cons[c]) == Answers(s) + Asking(s.cons[c])
  {
    var t := ConsumerStep(s, c);
    if t != s { ReturnedUpdate(s.pops, c, t.pops[c]); }
  }

  lemma OtherStepAnswers(s: State, c: nat)
    requires c < |s.cons| && c < |s.pops| && !s.cons[c].CTake?
    ensures var t := ConsumerStep(s, c);
            && t.cons == s.cons[c := t.cons[c]] && t.pops == s.pops
            && |t.misses| + Asking(t.cons[c]) ==
               |s.misses| + Asking(s.cons[c]) + (if s.cons[c].CIdle? then 1 else 0)
  {
  }

  /** One step of a consumer starts a pop, answers one, or does neither. */
  lemma ConsumerAnswers(s: State, c: nat)
    requires c < |s.cons| && c < |s.pops|
    ensures var t := ConsumerStep(s, c);
            && t.cons == s.cons[c := t.cons[c]] && |t.pops| == |s.pops|
            && Answers(t) + Asking(t.cons[c]) ==
               Answers(s) + Asking(s.cons[c]) + (if s.cons[c].CIdle? then 1 else 0)
  {
    if s.cons[c].CTake? { TakeAnswers(s, c); } else { OtherStepAnswers(s, c); }
  }

  lemma ProducerAnswersNothing(s: State, e: Event, cap: nat)
    requires !e.Consume?
    ensures var t := Step(s, e, cap); t.pops == s.pops && t.misses == s.misses && t.cons == s.cons
  {
  }

  /** A step starts at most one pop. */
  function Starts(s: State, e: Event): nat {
    if e.Consume? && e.c < |s.cons| && e.c < |s.pops| && s.cons[e.c].CIdle? then 1 else 0
  }

  lemma StepAnswers(s: State, e: Event, cap: nat)
    ensures var t := Step(s, e, cap);
            Answers(t) + AskingAll(t.cons) == Answers(s) + AskingAll(s.cons) + Starts(s, e)
  {
    if e.Consume? {
      if e.c < |s.cons| && e.c < |s.pops| {
        ConsumerAnswers(s, e.c);
        AskingUpdate(s.cons, e.c, ConsumerStep(s, e.c).cons[e.c]);
      }
    } else {
      ProducerAnswersNothing(s, e, cap);
    }
  }

  /**
   For every schedule: the pops started are those that returned an element, those that returned false, and those in
   progress.
   */
  lemma {:induction false} PopsAreAnswered(s: State, es: seq<Event>, cap: nat)
    ensures var t := Run(s, es, cap);
            Answers(t) + AskingAll(t.cons) == Answers(s) + AskingAll(s.cons) + StartedPops(s, es, cap)
    decreases |es|
  {
    if es != [] {
      var t := Step(s, es[0], cap);
      StepAnswers(s, es[0], cap);
      PopsAreAnswered(t, es[1..], cap);
    }
  }

  // ----- A consumer alone -----

  function Alone(c: nat, k: nat): seq<Event> { if k == 0 then [] else [Consume(c)] + Alone(c, k - 1) }

  lemma AloneFirst(s: State, c: nat, k: nat, cap: nat)
    requires k > 0
    ensures Run(s, Alone(c, k), cap) == Run(Step(s, Consume(c), cap), Alone(c, k - 1), cap)
  {
    assert Alone(c, k)[0] == Consume(c) && Alone(c, k)[1..] == Alone(c, k - 1);
  }

  /** Segments from `h` on, as steps. */
  function Ahead(s: State, h: nat): nat { if h < |s.segs| then 8 * (|s.segs| - h) else 0 }

  /** How many steps a consumer that runs alone needs at most to finish its pop. */
  function Rank(s: State, c: nat): nat
    requires c < |s.cons|
  {
    match s.cons[c]
    case CIdle => 0
    case CSize => 1
    case CTake(_, _) => 2
    case CClaim(h, r) => if h < |s.segs| && s.segs[h].readPos == r then 3 else Ahead(s, h) + 6
    case CNext(h, _, _) => Ahead(s, h) + 3
    case CWrite(h, r) => if h < |s.segs| && s.segs[h].readPos == r then Ahead(s, h) + 4 else Ahead(s, h) + 7
    case CRead(h) => Ahead(s, h) + 5
    case CReload => Ahead(s, s.head) + 6
    case CAdvance(h, _, _) => Ahead(s, h) + 2
  }

  /** Every step of a consumer inside a pop brings it nearer to the end of it. */
  lemma SoloStep(s: State, c: nat, cap: nat)
    requires Inv(s, cap) && c < |s.cons| && !s.cons[c].CIdle?
    ensures var t := ConsumerStep(s, c);
            && t.cons == s.cons[c := t.cons[c]] && |t.segs| == |s.segs| && Rank(t, c) < Rank(s, c)
  {
    assert LocalOk(s, c);
    var k := s.cons[c];
    if k.CTake? { TakeIsPublished(s, c, Slot(k.h, k.r), cap); }
  }

  lemma RankBound(s: State, c: nat, cap: nat)
    requires Inv(s, cap) && c < |s.cons|
    ensures Rank(s, c) <= 8 * |s.segs| + 7
  {
    assert LocalOk(s, c);
  }

  /** What one step alone gives. */
  lemma SoloTurn(s: State, c: nat, cap: nat) returns (t: State)
    requires Inv(s, cap) && c < |s.cons| && !s.cons[c].CIdle?
    ensures t == Step(s, Consume(c), cap) && Inv(t, cap) && |t.cons| == |s.cons| && Rank(t, c) < Rank(s, c)
    ensures t.cons[c := CIdle] == s.cons[c := CIdle]
    ensures Answers(t) + Asking(t.cons[c]) == Answers(s) + Asking(s.cons[c])
  {
    t := Step(s, Consume(c), cap);
    SoloStep(s, c, cap);
    ConsumerAnswers(s, c);
    StepKeeps(s, Consume(c), cap);
  }

  /** From any reachable state a consumer that runs alone finishes its pop, with one answer if it had none yet. */
  lemma {:induction false} SoloReturns(s: State, c: nat, cap: nat) returns (k: nat)
    requires Inv(s, cap) && c < |s.cons|
    ensures k <= Rank(s, c) <= 8 * |s.segs| + 7
    ensures var t := Run(s, Alone(c, k), cap);
            t.cons == s.cons[c := CIdle] && Answers(t) == Answers(s) + Asking(s.cons[c])
    decreases Rank(s, c)
  {
    RankBound(s, c, cap);
    if s.cons[c].CIdle? { return 0; }
    var t := SoloTurn(s, c, cap);
    var rest := SoloReturns(t, c, cap);
    k := rest + 1;
    AloneFirst(s, c, k, cap);
  }

  // ----- What a pop alone returns -----

  /** The oldest element that is unread from the head on. */
  ghost predicate Oldest(s: State, e: Entry) {
    e in s.log && Unread(s, e.slot) && forall y: Slot :: Unread(s, y) ==> y == e.slot || Before(e.slot, y)
  }

  /** The answer that the queue owes to a pop that meets nobody. */
  ghost predicate Answered(s: State, t: State, c: nat)
    requires c < |s.pops|
  {
    if NothingUnread(s) then t.pops == s.pops && t.misses == s.misses + [true]
    else t.misses == s.misses && exists e :: Oldest(s, e) && t.pops == s.pops[c := s.pops[c] + [e]]
  }

  lemma SameAnswer(s: State, u: State, t: State, c: nat)
    requires c < |s.pops| && u.pops == s.pops && u.misses == s.misses
    requires NothingUnread(u) == NothingUnread(s) && forall e :: Oldest(u, e) <==> Oldest(s, e)
    requires Answered(u, t, c)
    ensures Answered(s, t, c)
  {
  }

  lemma TakeOldest(s: State, c: nat, cap: nat) returns (k: nat)
    requires Inv(s, cap) && c < |s.cons| && s.cons[c] == CRead(s.head) &&
      s.segs[s.head].readPos < s.segs[s.head].writePos
    ensures k <= 5
    ensures var t := Run(s, Alone(c, k), cap); t.cons == s.cons[c := CIdle] && Answered(s, t, c)
  {
    var h, r := s.head, s.segs[s.head].readPos;
    var s1 := Step(s, Consume(c), cap);
    assert s1 == s.(cons := s.cons[c := CWrite(h, r)]);
    var s2 := Step(s1, Consume(c), cap);
    assert s2 == s.(cons := s.cons[c := CClaim(h, r)]);
    var s3 := Step(s2, Consume(c), cap);
    assert s3.cons == s.cons[c := CTake(h, r)] && s3.pops == s.pops && s3.misses == s.misses;
    var e := OldestAt(s, cap);
    assert s3.segs[h].data == s.segs[h].data;
    var s4 := Step(s3, Consume(c), cap);
    assert s4.cons == s.cons[c := CSize] && s4.pops == s.pops[c := s.pops[c] + [e]];
    var s5 := Step(s4, Consume(c), cap);
    AloneFive(s, c, cap);
    k := 5;
    assert s5.cons == s.cons[c := CIdle] && !NothingUnread(s);
  }

  lemma AloneFive(s: State, c: nat, cap: nat)
    ensures var e := Consume(c);
            Run(s, Alone(c, 5), cap) ==
            Step(Step(Step(Step(Step(s, e, cap), e, cap), e, cap), e, cap), e, cap)
  {
    var e := Consume(c);
    var s1 := Step(s, e, cap);
    var s2 := Step(s1, e, cap);
    var s3 := Step(s2, e, cap);
    var s4 := Step(s3, e, cap);
    AloneFirst(s, c, 5, cap);
    AloneFirst(s1, c, 4, cap);
    AloneFirst(s2, c, 3, cap);
    AloneFirst(s3, c, 2, cap);
    AloneFirst(s4, c, 1, cap);
  }

  /** The entry at the read position of a head segment that is not drained. */
  lemma OldestAt(s: State, cap: nat) returns (e: Entry)
    requires Inv(s, cap) && s.segs[s.head].readPos < s.segs[s.head].writePos
    ensures Oldest(s, e) && e.slot == Slot(s.head, s.segs[s.head].readPos)
    ensures e.slot.idx in s.segs[s.head].data && e.item == s.segs[s.head].data[e.slot.idx]
  {
    var x := Slot(s.head, s.segs[s.head].readPos);
    assert Published(s, x);
    var i :| 0 <= i < |s.log| && s.log[i].slot == x;
    assert Holds(s, s.log[i]);
    e := s.log[i];
  }

  /** Going on to the next segment changes nothing about what is unread. */
  lemma SameUnread(s: State, u: State, cap: nat)
    requires Inv(s, cap) && s.segs[s.head].readPos >= s.segs[s.head].writePos
    requires u.segs == s.segs && u.head == s.head + 1 && u.log == s.log
    ensures NothingUnread(u) == NothingUnread(s)
    ensures forall e :: Oldest(u, e) <==> Oldest(s, e)
  {
    forall y: Slot ensures Unread(u, y) <==> Unread(s, y) { }
  }

  lemma SameQueue(s: State, u: State)
    requires u.segs == s.segs && u.head == s.head && u.log == s.log
    ensures NothingUnread(u) == NothingUnread(s)
    ensures forall e :: Oldest(u, e) <==> Oldest(s, e)
  {
    forall y: Slot ensures Unread(u, y) <==> Unread(s, y) { }
  }

  /** A consumer alone at the head: the oldest unread element, or false if there is none. */
  lemma {:induction false} PopFromHead(s: State, c: nat, cap: nat) returns (k: nat)
    requires Inv(s, cap) && c < |s.cons| && s.cons[c] == CRead(s.head)
    ensures k <= 4 * (|s.segs| - s.head) + 1
    ensures var t := Run(s, Alone(c, k), cap); t.cons == s.cons[c := CIdle] && Answered(s, t, c)
    decreases |s.segs| - s.head
  {
    var h := s.head;
    if s.segs[h].readPos < s.segs[h].writePos {
      k := TakeOldest(s, c, cap);
    } else if s.segs[h].next.None? {
      k := MissAtEnd(s, c, cap);
    } else {
      var u := NextHead(s, c, cap);
      var rest := PopFromHead(u, c, cap);
      GoOn(s, u, c, rest, cap);
      k := rest + 4;
    }
  }

  /** At a drained head segment: two loads, then the load of the next segment. */
  lemma LookAhead(s: State, c: nat, cap: nat) returns (u: State)
    requires Inv(s, cap) && c < |s.cons| && s.cons[c] == CRead(s.head)
    requires s.segs[s.head].readPos >= s.segs[s.head].writePos
    ensures u == Step(Step(s, Consume(c), cap), Consume(c), cap) && Inv(u, cap)
    ensures u == s.(cons := s.cons[c := CNext(s.head, s.segs[s.head].writePos, NothingUnread(s))])
  {
    var h, e := s.head, Consume(c);
    var s1 := Step(s, e, cap);
    assert s1 == s.(cons := s.cons[c := CWrite(h, s.segs[h].readPos)]);
    u := Step(s1, e, cap);
    StepKeeps(s, e, cap);
    StepKeeps(s1, e, cap);
    assert NothingUnread(s1) == NothingUnread(s);
  }

  lemma MissAtEnd(s: State, c: nat, cap: nat) returns (k: nat)
    requires Inv(s, cap) && c < |s.cons| && s.cons[c] == CRead(s.head)
    requires s.segs[s.head].readPos >= s.segs[s.head].writePos && s.segs[s.head].next.None?
    ensures k <= 3
    ensures var t := Run(s, Alone(c, k), cap); t.cons == s.cons[c := CIdle] && Answered(s, t, c)
  {
    var u := LookAhead(s, c, cap);
    AloneThree(s, c, cap);
    k := 3;
    assert NothingUnread(s);
  }

  lemma MoveOn(s: State, c: nat, cap: nat) returns (u: State)
    requires Inv(s, cap) && c < |s.cons| && s.cons[c] == CRead(s.head)
    requires s.segs[s.head].readPos >= s.segs[s.head].writePos && s.segs[s.head].next.Some?
    ensures var e := Consume(c); u == Step(Step(Step(Step(s, e, cap), e, cap), e, cap), e, cap)
    ensures Inv(u, cap) && u == s.(cons := s.cons[c := CRead(s.head + 1)], head := s.head + 1)
  {
    var h, e := s.head, Consume(c);
    var s2 := LookAhead(s, c, cap);
    var s3 := Step(s2, e, cap);
    assert s3 == s.(cons := s.cons[c := CAdvance(h, s.segs[h].writePos, h + 1)]);
    u := Step(s3, e, cap);
    StepKeeps(s2, e, cap);
    StepKeeps(s3, e, cap);
  }

  lemma AloneThree(s: State, c: nat, cap: nat)
    ensures var e := Consume(c); Run(s, Alone(c, 3), cap) == Step(Step(Step(s, e, cap), e, cap), e, cap)
  {
    var e := Consume(c);
    AloneFirst(s, c, 3, cap);
    AloneFirst(Step(s, e, cap), c, 2, cap);
    AloneFirst(Step(Step(s, e, cap), e, cap), c, 1, cap);
  }

  lemma AloneMore(s: State, c: nat, k: nat, cap: nat)
    ensures var e := Consume(c);
            Run(s, Alone(c, k + 4), cap) ==
            Run(Step(Step(Step(Step(s, e, cap), e, cap), e, cap), e, cap), Alone(c, k), cap)
  {
    var e := Consume(c);
    AloneFirst(s, c, k + 4, cap);
    AloneFirst(Step(s, e, cap), c, k + 3, cap);
    AloneFirst(Step(Step(s, e, cap), e, cap), c, k + 2, cap);
    AloneFirst(Step(Step(Step(s, e, cap), e, cap), e, cap), c, k + 1, cap);
  }

  lemma NextHead(s: State, c: nat, cap: nat) returns (u: State)
    requires Inv(s, cap) && c < |s.cons| && s.cons[c] == CRead(s.head)
    requires s.segs[s.head].readPos >= s.segs[s.head].writePos && s.segs[s.head].next.Some?
    ensures Inv(u, cap) && u == s.(cons := s.cons[c := CRead(s.head + 1)], head := s.head + 1)
  {
    u := MoveOn(s, c, cap);
  }

  /** What a pop answers from the next segment on is its answer. */
  lemma GoOn(s: State, u: State, c: nat, rest: nat, cap: nat)
    requires Inv(s, cap) && c < |s.cons| && s.cons[c] == CRead(s.head)
    requires s.segs[s.head].readPos >= s.segs[s.head].writePos && s.segs[s.head].next.Some?
    requires u == s.(cons := s.cons[c := CRead(s.head + 1)], head := s.head + 1)
    requires var t := Run(u, Alone(c, rest), cap); t.cons == u.cons[c := CIdle] && Answered(u, t, c)
    ensures var t := Run(s, Alone(c, rest + 4), cap); t.cons == s.cons[c := CIdle] && Answered(s, t, c)
  {
    var v := MoveOn(s, c, cap);
    AloneMore(s, c, rest, cap);
    SameUnread(s, u, cap);
    SameAnswer(s, u, Run(u, Alone(c, rest), cap), c);
  }

  /**
   From any reachable state, a pop that starts and runs alone returns the oldest element that is unread from the
   head on, or false if there is none.
   */
  lemma PopAlone(s: State, c: nat, cap: nat) returns (k: nat)
    requires Inv(s, cap) && c < |s.cons| && s.cons[c].CIdle?
    ensures k <= 4 * |s.segs| + 2
    ensures var t := Run(s, Alone(c, k), cap); t.cons == s.cons && Answered(s, t, c)
  {
    var s1 := Step(s, Consume(c), cap);
    assert s1 == s.(cons := s.cons[c := CRead(s.head)]);
    StepKeeps(s, Consume(c), cap);
    var rest := PopFromHead(s1, c, cap);
    k := rest + 1;
    AloneFirst(s, c, k, cap);
    SameQueue(s, s1);
    SameAnswer(s, s1, Run(s1, Alone(c, rest), cap), c);
    assert s1.cons[c := CIdle] == s.cons;
  }

  // ----- The producer alone -----

  function Produces(k: nat): seq<Event> { if k == 0 then [] else [Produce] + Produces(k - 1) }

  function PushRank(p: Producer): nat {
    match p
    case PIdle => 0
    case PSize => 1
    case PPublish(_, _, _) => 2
    case PWrite(_, _, _) => 3
    case PCount(_, _) => 4
    case PTail(_, _) => 5
    case PLink(_, _, _) => 6
    case PLoad(_, _) => 7
  }

  lemma PushStep(s: State, cap: nat)
    requires Inv(s, cap) && !s.prod.PIdle?
    ensures PushRank(ProducerStep(s, cap).prod) < PushRank(s.prod)
  {
  }

  /** From any reachable state the producer finishes its push within seven steps, and the element is published. */
  lemma {:induction false} PushReturns(s: State, cap: nat) returns (k: nat)
    requires Inv(s, cap)
    ensures k <= 7
    ensures k <= PushRank(s.prod)
    ensures var t := Run(s, Produces(k), cap);
            t.prod.PIdle? && Items(t.log) == Items(s.log) + InProgress(s.prod)
    decreases PushRank(s.prod)
  {
    if s.prod.PIdle? {
      assert Items(s.log) + [] == Items(s.log);
      return 0;
    }
    var t := Step(s, Produce, cap);
    PushStep(s, cap);
    StepKeeps(s, Produce, cap);
    LogStep(s, Produce, cap);
    var rest := PushReturns(t, cap);
    k := rest + 1;
    assert Produces(k)[0] == Produce && Produces(k)[1..] == Produces(rest);
    assert Items(s.log) + InProgress(s.prod) + [] == Items(s.log) + InProgress(s.prod);
  }

  // ----- The segment count -----

  /** The segments linked and counted: the store of the tail and the count come after the link. */
  ghost predicate Counted(s: State) {
    s.totalSegments == Last(s) + 1 - if s.prod.PTail? || s.prod.PCount? then 1 else 0
  }

  lemma StepKeepsCount(s: State, e: Event, cap: nat)
    requires Inv(s, cap) && Counted(s)
    ensures Counted(Step(s, e, cap))
  {
    if e.Consume? { ConsumerCountsNothing(s, e, cap); } else { ProducerCounts(s, e, cap); }
  }

  lemma ConsumerCountsNothing(s: State, e: Event, cap: nat)
    requires e.Consume?
    ensures var t := Step(s, e, cap); t.prod == s.prod && |t.segs| == |s.segs| && t.totalSegments == s.totalSegments
  {
  }

  lemma ProducerCounts(s: State, e: Event, cap: nat)
    requires !e.Consume? && Chained(s, cap) && ProducerOk(s, cap) && Counted(s)
    ensures Counted(Step(s, e, cap))
  {
  }

  /** In every run `total_segments` is the number of linked segments, except between the link and the count. */
  lemma {:induction false} SegmentsAreCounted(s: State, es: seq<Event>, cap: nat)
    requires Inv(s, cap) && Counted(s)
    ensures Counted(Run(s, es, cap))
    decreases |es|
  {
    if es != [] {
      StepKeeps(s, es[0], cap);
      StepKeepsCount(s, es[0], cap);
      SegmentsAreCounted(Step(s, es[0], cap), es[1..], cap);
    }
  }
}
