/**
 The coroutine channel of coroutine/channel.h as an interleaved step system.  Threads
 take the channel lock, test `active` under it and then act in one step; `close` swings
 `active` without the lock and only then takes it to clean up, so an operation that has
 passed its test may still park.

 Histories, never read by the algorithm: `written` lists the values whose writers got
 through to the queue logic, `resumed` those whose writers were resumed; readers are
 numbered in the order in which they got through, `got` says what a reader received, and
 `woken` lists the readers that closing resumed without a value.
 */
module Channel {

  type V = int

  datatype Op = Write(v: V) | Read

  /** Where a thread is: inside `try_push_writer`/`try_push_reader` for `op`, or inside `close`. */
  datatype Thread =
    | Idle
    | Wants(op: Op)      // waits for the lock
    | Tests(op: Op)      // holds the lock, about to test `active`
    | Acts(op: Op)       // holds the lock, passed the test
    | CloseWants         // won the exchange, waits for the lock
    | CloseCleans        // holds the lock, about to clean up

  datatype Lock = Free | Held(t: nat)

  datatype State = State(
    active: bool, lock: Lock, threads: seq<Thread>,
    buffer: seq<V>, writers: seq<V>, readers: seq<nat>,
    written: seq<V>, resumed: seq<V>, delivered: seq<V>, arrived: nat, got: map<nat, V>, woken: seq<nat>,
    cleaned: bool, cancelled: bool)

  datatype Event = Begin(t: nat, op: Op) | Advance(t: nat) | Close(t: nat) | CancelWriter(i: nat) | CancelReader(i: nat)

  function Initial(n: nat): State {
    State(true, Free, seq(n, _ => Idle), [], [], [], [], [], [], 0, map[], [], false, false)
  }

  // ----- The operations, under the lock -----

  function Serve(s: State, reader: nat, v: V): State {
    s.(delivered := s.delivered + [v], got := s.got[reader := v])
  }

  /** The body of `try_push_writer` after `check_closed`. */
  function PushWriter(s: State, v: V, cap: nat): State {
    var s1 := s.(written := s.written + [v]);
    if s.readers != [] then Serve(s1, s.readers[0], v).(readers := s.readers[1..], resumed := s.resumed + [v])
    else if |s.buffer| < cap then s1.(buffer := s.buffer + [v], resumed := s.resumed + [v])
    else s1.(writers := s.writers + [v])
  }

  /** The body of `try_push_reader` after `check_closed`. */
  function PushReader(s: State): State {
    var me := s.arrived;
    var s1 := s.(arrived := me + 1);
    if s.buffer != [] then
      var s2 := Serve(s1, me, s.buffer[0]);
      if s.writers != [] then
        s2.(buffer := s.buffer[1..] + [s.writers[0]], writers := s.writers[1..], resumed := s.resumed + [s.writers[0]])
      else s2.(buffer := s.buffer[1..])
    else if s.writers != [] then
      Serve(s1, me, s.writers[0]).(writers := s.writers[1..], resumed := s.resumed + [s.writers[0]])
    else s1.(readers := s.readers + [me])
  }

  /** `clean_up`: resume every parked awaiter and drop the buffer. */
  function CleanUp(s: State): State {
    s.(resumed := s.resumed + s.writers, woken := s.woken + s.readers,
       writers := [], readers := [], buffer := [], cleaned := true)
  }

  function Apply(s: State, op: Op, cap: nat): State {
    match op
    case Write(v) => PushWriter(s, v, cap)
    case Read => PushReader(s)
  }

  // ----- Steps -----

  function To(s: State, t: nat, k: Thread): State
    requires t < |s.threads|
  { s.(threads := s.threads[t := k]) }

  function AdvanceThread(s: State, t: nat, cap: nat): State
    requires t < |s.threads|
  {
    match s.threads[t]
    case Idle => s
    case Wants(op) => if s.lock.Free? then To(s, t, Tests(op)).(lock := Held(t)) else s
    case Tests(op) => if s.active then To(s, t, Acts(op)) else To(s, t, Idle).(lock := Free)
    case Acts(op) => To(Apply(s, op, cap), t, Idle).(lock := Free)
    case CloseWants => if s.lock.Free? then To(s, t, CloseCleans).(lock := Held(t)) else s
    case CloseCleans => To(CleanUp(s), t, Idle).(lock := Free)
  }

  function DropAt<T>(xs: seq<T>, i: nat): seq<T>
    requires i < |xs|
  { xs[..i] + xs[i + 1..] }

  function Step(s: State, e: Event, cap: nat): State {
    match e
    case Begin(t, op) => if t < |s.threads| && s.threads[t].Idle? && s.active then To(s, t, Wants(op)) else s
    case Advance(t) => if t < |s.threads| then AdvanceThread(s, t, cap) else s
    case Close(t) => if t < |s.threads| && s.threads[t].Idle? && s.active then To(s, t, CloseWants).(active := false) else s
    case CancelWriter(i) => if s.lock.Free? && i < |s.writers| then s.(writers := DropAt(s.writers, i), cancelled := true) else s
    case CancelReader(i) => if s.lock.Free? && i < |s.readers| then s.(readers := DropAt(s.readers, i), cancelled := true) else s
  }

  function Run(s: State, es: seq<Event>, cap: nat): State
    decreases |es|
  {
    if es == [] then s else Run(Step(s, es[0], cap), es[1..], cap)
  }

  // ----- Invariant -----

  predicate Holding(k: Thread) { k.Tests? || k.Acts? || k.CloseCleans? }

  /** The queues never hold two kinds of waiting at once, and writers wait only behind a full buffer. */
  ghost predicate Queues(s: State, cap: nat) {
    && |s.buffer| <= cap
    && (s.readers != [] ==> s.buffer == [] && s.writers == [])
    && (s.writers != [] ==> |s.buffer| == cap)
  }

  /** Mutual exclusion, and what closing leaves behind. */
  ghost predicate Locking(s: State) {
    && (forall t :: 0 <= t < |s.threads| ==> (Holding(s.threads[t]) <==> s.lock == Held(t)))
    && (forall t :: 0 <= t < |s.threads| ==>
       (s.threads[t].CloseWants? || s.threads[t].CloseCleans? ==> !s.active && !s.cleaned))
    && (forall t, u ::
          0 <= t < |s.threads| && 0 <= u < |s.threads| && Closing(s.threads[t]) && Closing(s.threads[u]) ==> t == u)
    && (s.cleaned ==> !s.active && s.buffer == [] && s.writers == [] && s.readers == [])
    && (s.cleaned ==> forall t :: 0 <= t < |s.threads| ==> !s.threads[t].Acts?)
  }

  predicate Closing(k: Thread) { k.CloseWants? || k.CloseCleans? }

  /** Values pass through in order, and writers are resumed in order. */
  ghost predicate ValuesInOrder(s: State) {
    && s.written == s.resumed + s.writers
    && s.delivered <= s.written
    && (!s.cleaned ==> s.written == s.delivered + s.buffer + s.writers)
  }

  /** Readers are served in the order in which they got through. */
  ghost predicate ReadersInOrder(s: State) {
    && (!s.cleaned ==> s.woken == [])
    && |s.delivered| + |s.readers| + |s.woken| == s.arrived
    && (forall i :: 0 <= i < |s.woken| ==> s.woken[i] == |s.delivered| + i)
    && (forall i :: 0 <= i < |s.readers| ==> s.readers[i] == |s.delivered| + i)
    && (forall k :: k in s.got <==> 0 <= k < |s.delivered|)
    && (forall k :: k in s.got ==> s.got[k] == s.delivered[k])
  }

  ghost predicate InOrder(s: State) { ValuesInOrder(s) && ReadersInOrder(s) }

  ghost predicate Inv(s: State, cap: nat) {
    Queues(s, cap) && Locking(s) && (!s.cancelled ==> InOrder(s))
  }

  lemma WriterValues(s: State, v: V, cap: nat)
    requires Queues(s, cap) && ValuesInOrder(s) && !s.cleaned
    ensures ValuesInOrder(PushWriter(s, v, cap))
  {
    var t := PushWriter(s, v, cap);
    if s.readers != [] || |s.buffer| < cap {
      assert s.writers == [] && s.written == s.resumed == s.delivered + s.buffer;
      assert t.resumed + t.writers == s.written + [v];
      assert t.delivered + t.buffer + t.writers == s.written + [v];
    } else {
      assert t.resumed + t.writers == s.written + [v];
      assert t.delivered + t.buffer + t.writers == s.delivered + s.buffer + s.writers + [v];
    }
  }

  lemma ReaderValues(s: State, cap: nat)
    requires Queues(s, cap) && ValuesInOrder(s) && !s.cleaned
    ensures ValuesInOrder(PushReader(s))
  {
    var t := PushReader(s);
    if s.buffer != [] || s.writers != [] {
      TakeFirst(s, t);
      if s.writers != [] {
        assert s.writers == [s.writers[0]] + s.writers[1..];
        assert t.resumed + t.writers == s.resumed + s.writers;
      }
    }
  }

  /** A reader that is served takes the oldest value of the buffer followed by the parked writers. */
  lemma TakeFirst(s: State, t: State)
    requires t == PushReader(s) && (s.buffer != [] || s.writers != [])
    ensures t.delivered + t.buffer + t.writers == s.delivered + s.buffer + s.writers
  {
    if s.buffer != [] {
      assert s.buffer == [s.buffer[0]] + s.buffer[1..];
      if s.writers != [] {
        assert t.buffer + t.writers == s.buffer[1..] + s.writers;
      }
    } else {
      assert s.writers == [s.writers[0]] + s.writers[1..];
      assert t.buffer == s.buffer == [];
    }
  }

  lemma WriterReaders(s: State, v: V, cap: nat)
    requires ReadersInOrder(s) && !s.cleaned
    ensures ReadersInOrder(PushWriter(s, v, cap))
  {
    var t := PushWriter(s, v, cap);
    if s.readers != [] { assert s.readers[0] == |s.delivered|; }
  }

  lemma ReaderReaders(s: State, cap: nat)
    requires Queues(s, cap) && ReadersInOrder(s) && !s.cleaned
    ensures ReadersInOrder(PushReader(s))
  {
  }

  lemma CleanUpInOrder(s: State)
    requires InOrder(s) && !s.cleaned
    ensures InOrder(CleanUp(s))
  {
  }

  lemma WriterFrame(s: State, v: V, cap: nat)
    ensures var t := PushWriter(s, v, cap);
            && t.threads == s.threads && t.lock == s.lock && t.active == s.active
            && t.cleaned == s.cleaned && t.cancelled == s.cancelled && t.woken == s.woken
  {
  }

  lemma ReaderFrame(s: State)
    ensures var t := PushReader(s);
            && t.threads == s.threads && t.lock == s.lock && t.active == s.active
            && t.cleaned == s.cleaned && t.cancelled == s.cancelled && t.woken == s.woken
  {
  }

  /** The queue logic neither moves threads nor closes or cancels anything. */
  lemma ApplyFrame(s: State, op: Op, cap: nat)
    ensures var t := Apply(s, op, cap);
            && t.threads == s.threads && t.lock == s.lock && t.active == s.active
            && t.cleaned == s.cleaned && t.cancelled == s.cancelled && t.woken == s.woken
  {
    match op
    case Write(v) => WriterFrame(s, v, cap);
    case Read => ReaderFrame(s);
  }

  lemma ApplyKeeps(s: State, op: Op, cap: nat)
    requires Queues(s, cap) && !s.cleaned
    ensures var t := Apply(s, op, cap);
            Queues(t, cap) && (!s.cancelled && InOrder(s) ==> InOrder(t)) && t.cancelled == s.cancelled && t.cleaned == s.cleaned
  {
    if !s.cancelled && InOrder(s) {
      match op
      case Write(v) => WriterValues(s, v, cap); WriterReaders(s, v, cap);
      case Read => ReaderValues(s, cap); ReaderReaders(s, cap);
    }
  }

  lemma LockingKeeps(s: State, t: nat, cap: nat)
    requires Locking(s) && t < |s.threads|
    ensures Locking(AdvanceThread(s, t, cap))
  {
    match s.threads[t]
    case Acts(_) => ActLocking(s, t, cap);
    case CloseCleans => CleanLocking(s, t, cap);
    case _ => MoveLocking(s, t, cap);
  }

  lemma MoveLocking(s: State, t: nat, cap: nat)
    requires Locking(s) && t < |s.threads| && !s.threads[t].Acts? && !s.threads[t].CloseCleans?
    ensures Locking(AdvanceThread(s, t, cap))
  {
  }

  lemma ActLocking(s: State, t: nat, cap: nat)
    requires Locking(s) && t < |s.threads| && s.threads[t].Acts?
    ensures Locking(AdvanceThread(s, t, cap))
  {
    var u := Apply(s, s.threads[t].op, cap);
    assert !s.cleaned && !u.cleaned && u.threads == s.threads && u.lock == s.lock && u.active == s.active;
  }

  lemma CleanLocking(s: State, t: nat, cap: nat)
    requires Locking(s) && t < |s.threads| && s.threads[t].CloseCleans?
    ensures Locking(AdvanceThread(s, t, cap))
  {
    assert forall u :: 0 <= u < |s.threads| && u != t ==> !Holding(s.threads[u]) && !Closing(s.threads[u]);
  }

  lemma AdvanceKeeps(s: State, t: nat, cap: nat)
    requires Inv(s, cap) && t < |s.threads|
    ensures Inv(AdvanceThread(s, t, cap), cap)
  {
    LockingKeeps(s, t, cap);
    match s.threads[t]
    case Acts(op) =>
      ApplyKeeps(s, op, cap);
      SameQueues(Apply(s, op, cap), AdvanceThread(s, t, cap), cap);
    case CloseCleans =>
      if !s.cancelled { CleanUpInOrder(s); }
      SameQueues(CleanUp(s), AdvanceThread(s, t, cap), cap);
    case _ => SameQueues(s, AdvanceThread(s, t, cap), cap);
  }

  /** Lock and thread states do not matter to the queues and histories. */
  lemma SameQueues(s: State, t: State, cap: nat)
    requires t == s.(threads := t.threads, lock := t.lock, active := t.active)
    ensures Queues(s, cap) ==> Queues(t, cap)
    ensures InOrder(s) ==> InOrder(t)
  {
  }

  lemma StepKeeps(s: State, e: Event, cap: nat)
    requires Inv(s, cap)
    ensures Inv(Step(s, e, cap), cap)
  {
    match e
    case Advance(t) => if t < |s.threads| { AdvanceKeeps(s, t, cap); }
    case _ =>
  }

  lemma {:induction false} RunKeeps(s: State, es: seq<Event>, cap: nat)
    requires Inv(s, cap)
    ensures Inv(Run(s, es, cap), cap)
    decreases |es|
  {
    if es != [] {
      StepKeeps(s, es[0], cap);
      RunKeeps(Step(s, es[0], cap), es[1..], cap);
    }
  }

  lemma InitialInv(n: nat, cap: nat)
    ensures Inv(Initial(n), cap)
  {
  }

  // ----- Theorems over all runs -----

  /** In every run: no reader waits beside a value or a writer, and writers wait only behind a full buffer. */
  lemma NoMissedMeeting(n: nat, es: seq<Event>, cap: nat)
    ensures Queues(Run(Initial(n), es, cap), cap)
  {
    InitialInv(n, cap);
    RunKeeps(Initial(n), es, cap);
  }

  /**
   Without cancellation and before clean-up, values written are values delivered, then the buffer, then the
   parked writers' values; the k-th reader to get through receives the k-th value written; every writer that got
   through is parked or was resumed, and every reader is parked, was served, or was woken by closing.
   */
  lemma FirstInFirstOut(n: nat, es: seq<Event>, cap: nat)
    ensures var s := Run(Initial(n), es, cap);
            !s.cancelled ==>
              && (!s.cleaned ==> s.written == s.delivered + s.buffer + s.writers)
              && (forall k :: k in s.got ==> 0 <= k < |s.written| && s.got[k] == s.written[k])
              && (!s.cleaned ==> forall k :: 0 <= k < s.arrived ==> (k in s.got <==> k !in s.readers))
              && s.written == s.resumed + s.writers
              && (forall k :: 0 <= k < s.arrived ==> k in s.got || k in s.readers || k in s.woken)
  {
    InitialInv(n, cap);
    RunKeeps(Initial(n), es, cap);
    var s := Run(Initial(n), es, cap);
    if !s.cancelled && !s.cleaned {
      forall k | 0 <= k < s.arrived ensures k in s.got <==> k !in s.readers {
        if k >= |s.delivered| { assert s.readers[k - |s.delivered|] == k; }
      }
    }
    if !s.cancelled {
      forall k | 0 <= k < s.arrived ensures k in s.got || k in s.readers || k in s.woken {
        if |s.delivered| <= k {
          if s.readers != [] {
            assert !s.cleaned && s.readers[k - |s.delivered|] == k;
          } else {
            assert s.woken[k - |s.delivered|] == k;
          }
        }
      }
    }
  }

  /**
   Once clean-up has run, nothing is parked or buffered in any continuation, even for operations already under way.
   */
  lemma NothingParksAfterCleanUp(n: nat, es: seq<Event>, more: seq<Event>, cap: nat)
    ensures var s := Run(Initial(n), es, cap);
            s.cleaned ==> var t := Run(s, more, cap); t.cleaned && t.writers == [] && t.readers == [] && t.buffer == []
  {
    InitialInv(n, cap);
    RunKeeps(Initial(n), es, cap);
    var s := Run(Initial(n), es, cap);
    RunKeeps(s, more, cap);
    if s.cleaned { StaysClean(s, more, cap); }
  }

  lemma {:induction false} StaysClean(s: State, es: seq<Event>, cap: nat)
    requires s.cleaned
    ensures Run(s, es, cap).cleaned
    decreases |es|
  {
    if es != [] {
      StepStaysClean(s, es[0], cap);
      StaysClean(Step(s, es[0], cap), es[1..], cap);
    }
  }

  lemma StepStaysClean(s: State, e: Event, cap: nat)
    requires s.cleaned
    ensures Step(s, e, cap).cleaned
  {
    if e.Advance? && e.t < |s.threads| && s.threads[e.t].Acts? { ApplyFrame(s, s.threads[e.t].op, cap); }
  }
}
