/**
 What each part of the life of a call in `RpcClient` achieves: a reply reaches the call that waits for it, a
 send alone registers the call or refuses it, a failed write or a cancellation takes it back.
 */
module RpcReplies {
  import opened RpcClient

  /** Steps of the calls and of `Close`; the receive goroutine stands still. */
  predicate ByOthers(e: Event) { e.Advance? || e.WriteErr? || e.Cancel? || e.Take? || e.Close? }

  ghost predicate AllByOthers(es: seq<Event>) { forall i :: 0 <= i < |es| ==> ByOthers(es[i]) }

  // ----- Replies -----

  lemma OthersAdvance(s: State, c: nat)
    requires c < |s.calls|
    ensures var t := AdvanceCall(s, c);
            && t.recv == s.recv && s.next <= t.next
            && (forall q :: q in t.pending ==> q in s.pending || q == s.next)
  {
  }

  lemma OthersCancel(s: State, c: nat)
    requires c < |s.calls|
    ensures var t := CancelCall(s, c);
            t.recv == s.recv && s.next == t.next && forall q :: q in t.pending ==> q in s.pending
  {
  }

  /** Numbers already handed out never become pending again, and others do not move the receive goroutine. */
  lemma OthersStep(s: State, e: Event, q: nat)
    requires Inv(s) && ByOthers(e)
    ensures var t := Step(s, e);
            t.recv == s.recv && s.next <= t.next && (q < s.next && q !in s.pending ==> q !in t.pending)
  {
    match e
    case Advance(c) => if c < |s.calls| { OthersAdvance(s, c); }
    case Cancel(c) => if c < |s.calls| { OthersCancel(s, c); }
    case _ =>
  }

  lemma {:induction false} OthersRun(s: State, es: seq<Event>, q: nat)
    requires Inv(s) && AllByOthers(es)
    ensures var t := Run(s, es);
            Inv(t) && t.recv == s.recv && |t.calls| == |s.calls| && s.next <= t.next &&
            (q < s.next && q !in s.pending ==> q !in t.pending)
    decreases |es|
  {
    RunKeeps(s, es);
    RunLength(s, es);
    if es != [] {
      StepKeeps(s, es[0]);
      OthersStep(s, es[0], q);
      OthersRun(Step(s, es[0]), es[1..], q);
    }
  }

  lemma {:induction false} RunConcat(s: State, a: seq<Event>, b: seq<Event>)
    ensures Run(s, a + b) == Run(Run(s, a), b)
    decreases |a|
  {
    if a == [] {
      assert a + b == b;
    } else {
      assert (a + b)[0] == a[0] && (a + b)[1..] == a[1..] + b;
      RunConcat(Step(s, a[0]), a[1..], b);
    }
  }

  lemma RunThen(s: State, a: seq<Event>, e: Event)
    ensures Run(s, a + [e]) == Step(Run(s, a), e)
  {
    RunConcat(s, a, [e]);
    assert [e][1..] == [];
  }

  /** A header whose number is pending takes its call; any other one takes nothing. */
  lemma HeaderTakesCall(s: State)
    requires Inv(s) && s.recv.Header?
    ensures var t := Step(s, Receive);
            var q := s.recv.h;
            if q in s.pending then t == s.(recv := Reply(s.pending[q]), pending := s.pending - {q})
            else t == s.(recv := Discard)
  {
  }

  /** Notifying the call that was taken: once, in its own channel, and reading goes on unless the body failed. */
  lemma AnswerNotifies(s: State)
    requires Inv(s) && s.recv.Answer?
    ensures s.recv.c < |s.calls|
    ensures var c, k := s.recv.c, s.calls[s.recv.c];
            && k.notified == k.queued == 0
            && Step(s, Receive) == s.(recv := if s.recv.err then Stopping else Reading,
                                      calls := s.calls[c := k.(notified := 1, queued := 1)])
  {
    assert CallOk(s, s.recv.c);
  }

  /**
   What the receive goroutine does with one reply: look its call up, read the body, notify; the others move in
   between.
   */
  function ReplySchedule(a: seq<Event>, failed: bool, b: seq<Event>): seq<Event> {
    [Receive] + a + [if failed then BodyErr else BodyOk] + b + [Receive]
  }

  lemma ReplyRun(s: State, a: seq<Event>, failed: bool, b: seq<Event>) returns (t1: State, t2: State, t3: State,
                 t4: State)
    ensures t1 == Step(s, Receive) && t2 == Run(t1, a) && t3 == Step(t2, if failed then BodyErr else BodyOk)
    ensures t4 == Run(t3, b) && Run(s, ReplySchedule(a, failed, b)) == Step(t4, Receive)
  {
    var body := if failed then BodyErr else BodyOk;
    t1 := Step(s, Receive);
    t2 := Run(t1, a);
    t3 := Step(t2, body);
    t4 := Run(t3, b);
    RunThen(s, [], Receive);
    assert [] + [Receive] == [Receive];
    RunConcat(s, [Receive], a);
    RunThen(s, [Receive] + a, body);
    RunConcat(s, [Receive] + a + [body], b);
    RunThen(s, [Receive] + a + [body] + b, Receive);
  }

  /**
   In every run: if a header arrives while a call is pending under its number, then once its body is read and
   the receive goroutine has moved on, the call has been notified exactly once, its number is no longer pending, and
   reading goes on if and only if the body was good, whatever the calls and `Close` do in between.
   */
  lemma ReplyReachesItsCall(n: nat, es: seq<Event>, a: seq<Event>, failed: bool, b: seq<Event>)
    requires AllByOthers(a) && AllByOthers(b)
    ensures var s := Run(Initial(n), es);
            s.recv.Header? && s.recv.h in s.pending ==>
              var q, c := s.recv.h, s.pending[s.recv.h];
              var t := Run(s, ReplySchedule(a, failed, b));
              && c < |t.calls| == |s.calls| && t.calls[c].notified == 1 && q !in t.pending
              && t.recv == if failed then Stopping else Reading
  {
    InitialInv(n);
    RunKeeps(Initial(n), es);
    var s := Run(Initial(n), es);
    if s.recv.Header? && s.recv.h in s.pending { ReplyFrom(s, a, failed, b); }
  }

  /** Between taking the call and notifying it, nothing changes what is owed. */
  lemma CallIsOwed(s: State, c: nat, q: nat, es: seq<Event>)
    requires Inv(s) && (s.recv == Reply(c) || s.recv.Answer?) && q < s.next && q !in s.pending && AllByOthers(es)
    ensures var t := Run(s, es);
            Inv(t) && t.recv == s.recv && |t.calls| == |s.calls| && q < t.next && q !in t.pending
  {
    OthersRun(s, es, q);
  }

  lemma BodyAnswers(s: State, c: nat, failed: bool)
    requires Inv(s) && s.recv == Reply(c)
    ensures var t := Step(s, if failed then BodyErr else BodyOk); Inv(t) && t == s.(recv := Answer(c, failed))
  {
    StepKeeps(s, if failed then BodyErr else BodyOk);
  }

  lemma ReplyFrom(s: State, a: seq<Event>, failed: bool, b: seq<Event>)
    requires Inv(s) && s.recv.Header? && s.recv.h in s.pending && AllByOthers(a) && AllByOthers(b)
    ensures var q, c := s.recv.h, s.pending[s.recv.h];
            var t := Run(s, ReplySchedule(a, failed, b));
            && c < |t.calls| == |s.calls| && t.calls[c].notified == 1 && q !in t.pending
            && t.recv == if failed then Stopping else Reading
  {
    var q, c := s.recv.h, s.pending[s.recv.h];
    var t1, t2, t3, t4 := ReplyRun(s, a, failed, b);
    HeaderTakesCall(s);
    StepKeeps(s, Receive);
    CallIsOwed(t1, c, q, a);
    BodyAnswers(t2, c, failed);
    CallIsOwed(t3, c, q, b);
    AnswerNotifies(t4);
  }

  /** A header whose number is not pending changes no call, notifies nobody, and its body is read away. */
  lemma StrayReplyIsDropped(n: nat, es: seq<Event>, failed: bool)
    ensures var s := Run(Initial(n), es);
            s.recv.Header? && s.recv.h !in s.pending ==>
              Step(Step(s, Receive), if failed then BodyErr else BodyOk) == s.(recv := if failed then Stopping else Reading)
  {
  }

  // ----- Sending -----

  /** The four steps of a send alone whose write succeeds: lock, register, write, unlock. */
  function Send(c: nat): seq<Event> { [Advance(c), Advance(c), Advance(c), Advance(c)] }

  lemma RunFour(s: State, a: Event, b: Event, c: Event, d: Event)
    ensures Run(s, [a, b, c, d]) == Step(Step(Step(Step(s, a), b), c), d)
  {
    var s1 := Step(s, a);
    var s2 := Step(s1, b);
    var s3 := Step(s2, c);
    assert [d][1..] == [] && Run(s3, [d]) == Step(s3, d);
    assert [c, d][1..] == [d] && Run(s2, [c, d]) == Run(s3, [d]);
    assert [b, c, d][1..] == [c, d] && Run(s1, [b, c, d]) == Run(s2, [c, d]);
    assert [a, b, c, d][1..] == [b, c, d];
  }

  /**
   A send alone from any reachable state: on a client that is neither closed nor shut down the call waits under
   a fresh number, not yet notified; on any other client it waits with its one notification, and no number is used.
   */
  lemma SendAlone(s: State, c: nat)
    requires Inv(s) && c < |s.calls| && s.calls[c].pc.Start? && s.sending.Free? && MuFree(s)
    ensures |Run(s, Send(c)).calls| == |s.calls|
    ensures var t := Run(s, Send(c));
            var k := t.calls[c];
            && t.sending.Free? && k.pc.Waiting?
            && (forall d :: 0 <= d < |s.calls| && d != c ==> t.calls[d] == s.calls[d])
            && if s.closing || s.shutdown then
                 k.notified == k.queued == 1 && t.pending == s.pending && t.next == s.next
               else
                 k.notified == k.queued == 0 && k.seqNo == s.next && s.next !in s.pending &&
                 t.pending == s.pending[s.next := c] && t.next == s.next + 1
  {
    assert CallOk(s, c);
    var e := Advance(c);
    RunLength(s, Send(c));
    RunFour(s, e, e, e, e);
    var k := s.calls[c];
    var t1 := Step(s, e);
    assert t1 == s.(calls := s.calls[c := k.(pc := Locked)], sending := ByCall(c));
    var t2 := Step(t1, e);
    if s.closing || s.shutdown {
      assert t2 == s.(calls := s.calls[c := k.(pc := Refused)], sending := ByCall(c));
    } else {
      assert t2.calls == s.calls[c := k.(pc := Writing, seqNo := s.next)];
    }
    var t3 := Step(t2, e);
    assert t3.calls[c].pc.Unlocking?;
  }

  /** When `Close` was called or `terminateCalls` ran, every later send is refused: `closing` and `shutdown` stay. */
  lemma {:induction false} ClosedStaysClosed(s: State, es: seq<Event>)
    ensures s.closing ==> Run(s, es).closing
    ensures s.shutdown ==> Run(s, es).shutdown
    decreases |es|
  {
    if es != [] { ClosedStaysClosed(Step(s, es[0]), es[1..]); }
  }

  /**
   `Close` marks the client unless it has to wait for the lock, a failed read starts `terminateCalls`, and that marks
   the client once it holds both locks.  A header that is read is looked up next.
   */
  lemma ClosingMarks(s: State)
    ensures MuFree(s) ==> Step(s, Close) == s.(closing := true)
    ensures s.recv.Reading? ==> Step(s, ReadErr) == s.(recv := Stopping)
    ensures s.recv.Reading? ==> forall h: nat :: Step(s, GotHeader(h)) == s.(recv := Header(h))
    ensures s.recv.Holding? ==> Step(s, Receive).shutdown
  {
  }

  /**
   A failed write takes the call back: it is notified once and no longer pending, unless the receive goroutine has
   taken it already.
   */
  lemma FailedWriteTakesBack(s: State, c: nat)
    requires Inv(s) && c < |s.calls| && s.calls[c].pc.Writing? && MuFree(s)
    ensures var q := s.calls[c].seqNo;
            var t := Run(s, [WriteErr(c), Advance(c), Advance(c), Advance(c)]);
            && |t.calls| == |s.calls| && t.calls[c].pc.Waiting? && t.sending.Free? && t.pending == s.pending - {q}
            && t.calls[c].notified == s.calls[c].notified + (if q in s.pending then 1 else 0)
  {
    assert CallOk(s, c);
    var q, e := s.calls[c].seqNo, Advance(c);
    RunFour(s, WriteErr(c), e, e, e);
    var t1 := Step(s, WriteErr(c));
    assert t1.calls[c] == s.calls[c].(pc := Removing) && t1.pending == s.pending;
    var t2 := Step(t1, e);
    var t3 := Step(t2, e);
    if q in s.pending {
      PendingIsOwn(s, c);
      assert t2.calls[c].pc.Failing? && t3.calls[c].pc.Unlocking?;
    } else {
      assert t2.calls[c].pc.Unlocking? && t3.calls[c].pc.Waiting?;
    }
  }

  // ----- Leaving the select -----

  /** A waiting call whose notification is there takes it; a cancelled one leaves and is no longer pending. */
  lemma WaitingCallLeaves(s: State, c: nat)
    requires Inv(s) && c < |s.calls| && s.calls[c].pc.Waiting?
    ensures s.calls[c].notified == 1 ==>
              Step(s, Take(c)) == s.(calls := s.calls[c := s.calls[c].(pc := Finished, queued := 0)])
    ensures MuFree(s) ==>
              var t := Step(s, Cancel(c));
              && t.calls[c].pc.Cancelled? && t.calls[c].notified == s.calls[c].notified
              && t.pending == s.pending - {s.calls[c].seqNo}
              && forall d :: 0 <= d < |s.calls| && d != c ==> t.calls[d] == s.calls[d]
  {
    assert CallOk(s, c);
  }
}
