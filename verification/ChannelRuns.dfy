/**
 What a schedule of `Channel` writes and reads, read off the threads: every operation that starts is carried
 out or refused, in each thread's own order, and the histories of the channel are the operations carried out.
 */
module ChannelRuns {
  import opened Channel

  // ----- Operations of one thread -----

  function InOp(k: Thread): seq<Op> { if k.Wants? || k.Tests? || k.Acts? then [k.op] else [] }

  /** `write` and `read` test `active` before they start. */
  function Starts(s: State, e: Event, t: nat): seq<Op> {
    if e.Begin? && e.t == t < |s.threads| && s.threads[t].Idle? && s.active then [e.op] else []
  }

  /** An operation ends when its thread acts, or when its test under the lock sees a closed channel. */
  function Ends(s: State, e: Event, t: nat): seq<Op> {
    if e == Advance(t) && t < |s.threads| && (s.threads[t].Acts? || (s.threads[t].Tests? && !s.active))
    then [s.threads[t].op] else []
  }

  function StartedOps(s: State, es: seq<Event>, cap: nat, t: nat): seq<Op>
    decreases |es|
  { if es == [] then [] else Starts(s, es[0], t) + StartedOps(Step(s, es[0], cap), es[1..], cap, t) }

  function EndedOps(s: State, es: seq<Event>, cap: nat, t: nat): seq<Op>
    decreases |es|
  { if es == [] then [] else Ends(s, es[0], t) + EndedOps(Step(s, es[0], cap), es[1..], cap, t) }

  /** Where a thread goes next. */
  function NextThread(s: State, t: nat): Thread
    requires t < |s.threads|
  {
    match s.threads[t]
    case Idle => Idle
    case Wants(op) => if s.lock.Free? then Tests(op) else Wants(op)
    case Tests(op) => if s.active then Acts(op) else Idle
    case Acts(_) => Idle
    case CloseWants => if s.lock.Free? then CloseCleans else CloseWants
    case CloseCleans => Idle
  }

  lemma AdvanceMoves(s: State, t: nat, cap: nat)
    requires t < |s.threads|
    ensures AdvanceThread(s, t, cap).threads == s.threads[t := NextThread(s, t)]
  {
    if s.threads[t].Acts? { ApplyFrame(s, s.threads[t].op, cap); }
  }

  /** The threads after a step: only the thread that the event names moves. */
  function NextThreads(s: State, e: Event): (ks: seq<Thread>)
    ensures |ks| == |s.threads|
  {
    match e
    case Begin(t, op) => if t < |s.threads| && s.threads[t].Idle? && s.active then s.threads[t := Wants(op)] else s.threads
    case Advance(t) => if t < |s.threads| then s.threads[t := NextThread(s, t)] else s.threads
    case Close(t) => if t < |s.threads| && s.threads[t].Idle? && s.active then s.threads[t := CloseWants] else s.threads
    case CancelWriter(_) => s.threads
    case CancelReader(_) => s.threads
  }

  lemma StepMoves(s: State, e: Event, cap: nat)
    ensures Step(s, e, cap).threads == NextThreads(s, e)
  {
    if e.Advance? && e.t < |s.threads| { AdvanceMoves(s, e.t, cap); }
  }

  lemma MoveOps(s: State, e: Event, t: nat)
    requires t < |s.threads|
    ensures Ends(s, e, t) + InOp(NextThreads(s, e)[t]) == InOp(s.threads[t]) + Starts(s, e, t)
  {
  }

  lemma StepOps(s: State, e: Event, cap: nat, t: nat)
    requires t < |s.threads|
    ensures |Step(s, e, cap).threads| == |s.threads|
    ensures Ends(s, e, t) + InOp(Step(s, e, cap).threads[t]) == InOp(s.threads[t]) + Starts(s, e, t)
  {
    StepMoves(s, e, cap);
    MoveOps(s, e, t);
  }

  lemma Assoc<T>(a: seq<T>, b: seq<T>, c: seq<T>)
    ensures a + b + c == a + (b + c)
  {
  }

  lemma Join<T>(ended: seq<T>, later: seq<T>, inEnd: seq<T>, inMid: seq<T>, inStart: seq<T>, start: seq<T>,
                more: seq<T>)
    requires ended + inMid == inStart + start && later + inEnd == inMid + more
    ensures (ended + later) + inEnd == inStart + (start + more)
  {
    assert (ended + later) + inEnd == ended + (later + inEnd);
    assert ended + (inMid + more) == (ended + inMid) + more;
  }

  /**
   In every run a thread's operations end in the order in which they start, each once; at most the last is under way.
   */
  lemma {:induction false} OperationsEndInOrder(s: State, es: seq<Event>, cap: nat, t: nat)
    requires t < |s.threads|
    ensures var u := Run(s, es, cap);
            && |u.threads| == |s.threads|
            && EndedOps(s, es, cap, t) + InOp(u.threads[t]) == InOp(s.threads[t]) + StartedOps(s, es, cap, t)
    decreases |es|
  {
    if es == [] {
      assert [] + InOp(s.threads[t]) == InOp(s.threads[t]) + [];
    } else {
      var m := Step(s, es[0], cap);
      StepOps(s, es[0], cap, t);
      OperationsEndInOrder(m, es[1..], cap, t);
      Join(Ends(s, es[0], t), EndedOps(m, es[1..], cap, t), InOp(Run(s, es, cap).threads[t]),
           InOp(m.threads[t]), InOp(s.threads[t]), Starts(s, es[0], t), StartedOps(m, es[1..], cap, t));
    }
  }

  // ----- Operations carried out -----

  /** The operation that a step carries out: its thread has passed the test and holds the lock. */
  function Performs(s: State, e: Event): seq<Op> {
    if e.Advance? && e.t < |s.threads| && s.threads[e.t].Acts? then [s.threads[e.t].op] else []
  }

  function Performed(s: State, es: seq<Event>, cap: nat): seq<Op>
    decreases |es|
  { if es == [] then [] else Performs(s, es[0]) + Performed(Step(s, es[0], cap), es[1..], cap) }

  function WriteValues(ops: seq<Op>): seq<V> {
    if ops == [] then [] else (if ops[0].Write? then [ops[0].v] else []) + WriteValues(ops[1..])
  }

  function ReadCount(ops: seq<Op>): nat {
    if ops == [] then 0 else (if ops[0].Read? then 1 else 0) + ReadCount(ops[1..])
  }

  lemma {:induction false} OpsConcat(a: seq<Op>, b: seq<Op>)
    ensures WriteValues(a + b) == WriteValues(a) + WriteValues(b) && ReadCount(a + b) == ReadCount(a) + ReadCount(b)
    decreases |a|
  {
    if a == [] {
      assert a + b == b;
    } else {
      assert (a + b)[0] == a[0] && (a + b)[1..] == a[1..] + b;
      OpsConcat(a[1..], b);
    }
  }

  lemma ApplyHistories(s: State, op: Op, cap: nat)
    ensures var t := Apply(s, op, cap);
            t.written == s.written + (if op.Write? then [op.v] else []) && t.arrived == s.arrived + if op.Read? then 1 else 0
  {
  }

  lemma StepHistories(s: State, e: Event, cap: nat)
    ensures var t := Step(s, e, cap);
            t.written == s.written + WriteValues(Performs(s, e)) && t.arrived == s.arrived + ReadCount(Performs(s, e))
  {
    if Performs(s, e) == [] {
      assert s.written + [] == s.written;
    } else {
      var op := s.threads[e.t].op;
      ApplyHistories(s, op, cap);
      assert Performs(s, e) == [op] && [op][1..] == [];
      assert WriteValues([op]) == (if op.Write? then [op.v] else []) + [];
    }
  }

  /**
   In every run the values written and the readers numbered are exactly the writes and reads carried out, in order.
   */
  lemma {:induction false} HistoriesArePerformed(s: State, es: seq<Event>, cap: nat)
    ensures var t := Run(s, es, cap);
            && t.written == s.written + WriteValues(Performed(s, es, cap))
            && t.arrived == s.arrived + ReadCount(Performed(s, es, cap))
    decreases |es|
  {
    if es == [] {
      assert s.written + [] == s.written;
    } else {
      var t := Step(s, es[0], cap);
      StepHistories(s, es[0], cap);
      HistoriesArePerformed(t, es[1..], cap);
      var now, later := Performs(s, es[0]), Performed(t, es[1..], cap);
      OpsConcat(now, later);
      Assoc(s.written, WriteValues(now), WriteValues(later));
    }
  }

  /** A new channel: what is written and read in a run is what the schedule carries out. */
  lemma RunWritesWhatIsPerformed(n: nat, es: seq<Event>, cap: nat)
    ensures var s := Run(Initial(n), es, cap);
            && s.written == WriteValues(Performed(Initial(n), es, cap))
            && s.arrived == ReadCount(Performed(Initial(n), es, cap))
  {
    HistoriesArePerformed(Initial(n), es, cap);
    assert [] + WriteValues(Performed(Initial(n), es, cap)) == WriteValues(Performed(Initial(n), es, cap));
  }

  // ----- Progress -----

  /** An operation whose thread gets the lock is carried out if the channel is open then, and refused otherwise. */
  lemma OperationAlone(s: State, t: nat, cap: nat)
    requires Locking(s) && t < |s.threads| && s.threads[t].Wants? && s.lock.Free?
    ensures var op, es := s.threads[t].op, [Advance(t), Advance(t), Advance(t)];
            var held := s.(threads := s.threads[t := Acts(op)], lock := Held(t));
            && Performed(s, es, cap) == (if s.active then [op] else [])
            && Run(s, es, cap) == (if s.active then Apply(held, op, cap) else s).(threads := s.threads[t := Idle], lock := Free)
  {
    var op, e := s.threads[t].op, Advance(t);
    var s1 := Step(s, e, cap);
    assert s1 == s.(threads := s.threads[t := Tests(op)], lock := Held(t));
    var s2 := Step(s1, e, cap);
    RunThree(s, e, cap);
    if s.active {
      assert s2 == s.(threads := s.threads[t := Acts(op)], lock := Held(t));
      ApplyFrame(s2, op, cap);
    } else {
      assert s2 == s.(threads := s.threads[t := Idle], lock := Free);
    }
  }

  lemma RunThree(s: State, e: Event, cap: nat)
    ensures var s1 := Step(s, e, cap);
            var s2 := Step(s1, e, cap);
            && Run(s, [e, e, e], cap) == Step(s2, e, cap)
            && Performed(s, [e, e, e], cap) == Performs(s, e) + (Performs(s1, e) + (Performs(s2, e) + []))
  {
    var s1 := Step(s, e, cap);
    var s2 := Step(s1, e, cap);
    assert [e][1..] == [] && Run(s2, [e], cap) == Step(s2, e, cap);
    assert [e, e][1..] == [e] && Run(s1, [e, e], cap) == Run(s2, [e], cap);
    assert [e, e, e][1..] == [e, e];
    assert Performed(s2, [e], cap) == Performs(s2, e) + [];
    assert Performed(s1, [e, e], cap) == Performs(s1, e) + Performed(s2, [e], cap);
  }

  /** Whoever holds the lock gives it back within two of its own steps. */
  lemma LockIsReleased(s: State, t: nat, cap: nat)
    requires Locking(s) && t < |s.threads| && s.lock == Held(t)
    ensures Step(s, Advance(t), cap).lock.Free? || Step(Step(s, Advance(t), cap), Advance(t), cap).lock.Free?
  {
    assert Holding(s.threads[t]);
  }

  /** A thread that closes an open channel cleans up as soon as it gets the lock. */
  lemma CloseAlone(s: State, t: nat, cap: nat)
    requires t < |s.threads| && s.threads[t].Idle? && s.active && s.lock.Free?
    ensures var u := Step(Step(Step(s, Close(t), cap), Advance(t), cap), Advance(t), cap);
            && !u.active && u.cleaned && u.lock.Free? && u.threads == s.threads && u.writers == [] && u.readers == []
            && u.resumed == s.resumed + s.writers && u.woken == s.woken + s.readers
  {
    var s1 := Step(s, Close(t), cap);
    var s2 := Step(s1, Advance(t), cap);
    var s3 := Step(s2, Advance(t), cap);
    assert s2.threads[t].CloseCleans? && s3.threads == s.threads;
  }

  /** A closed channel is not closed again, and no operation starts on it. */
  lemma ClosedRefuses(s: State, e: Event, cap: nat)
    requires !s.active && (e.Begin? || e.Close?)
    ensures Step(s, e, cap) == s
  {
  }

  /** A cancelled awaiter leaves its list, and the others keep their order. */
  lemma CancelTakesOne(s: State, i: nat, cap: nat)
    requires s.lock.Free?
    ensures i < |s.writers| ==>
              var t := Step(s, CancelWriter(i), cap);
              && |t.writers| == |s.writers| - 1 && t.readers == s.readers && t.buffer == s.buffer
              && forall j :: 0 <= j < |t.writers| ==> t.writers[j] == s.writers[if j < i then j else j + 1]
    ensures i < |s.readers| ==>
              var t := Step(s, CancelReader(i), cap);
              && |t.readers| == |s.readers| - 1 && t.writers == s.writers && t.buffer == s.buffer
              && forall j :: 0 <= j < |t.readers| ==> t.readers[j] == s.readers[if j < i then j else j + 1]
  {
  }
}
