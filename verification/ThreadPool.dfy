/**
 The thread pool of rust-playground/http-server/src/thread_pool.rs as a step system: `execute` and `drop`
 on the owner's side, and worker loops that share one receiver behind a mutex. Jobs neither panic nor
 run forever.
 */
module ThreadPool {

  datatype Message = NewJob(id: nat) | Terminate

  /** Where a worker's loop stands; `Receiving` holds the mutex until a message has arrived. */
  datatype Worker = Idle | Receiving | Running(id: nat) | Stopped

  /** What the owner of the pool is doing; numbers count terminate messages sent and workers joined. */
  datatype Phase = Open | Sending(sent: nat) | Joining(joined: nat)

  /** Jobs are numbered in the order of their `execute` calls; `started` and `finished` log the calls of `job()`. */
  datatype State = State(
    phase: Phase,
    submitted: nat,
    queue: seq<Message>,
    workers: seq<Worker>,
    taken: seq<nat>,
    started: seq<nat>,
    finished: seq<nat>)

  datatype PoolResult = Created(pool: State) | ThreadsNotPositive

  datatype Event = Execute | BeginDrop | SendTerminate | BeginJoin | Join
                 | Lock(w: nat) | Receive(w: nat) | Finish(w: nat)

  /** `ThreadPool::new`. */
  function New(size: nat): (r: PoolResult)
    ensures r.Created? <==> size > 0
    ensures r.Created? ==> Inv(r.pool) && |r.pool.workers| == size && r.pool.phase == Open
  {
    if size == 0 then ThreadsNotPositive
    else
      var ws := seq(size, _ => Idle);
      NoneIs(ws, Stop);
      assert forall id: nat :: Sum(ws, Runs(id)) == 0 by {
        forall id: nat ensures Sum(ws, Runs(id)) == 0 { NoneIs(ws, Runs(id)); }
      }
      Created(State(Open, 0, [], ws, seq(size, _ => 0), [], []))
  }

  predicate Free(ws: seq<Worker>) { Receiving !in ws }

  predicate Enabled(s: State, e: Event) {
    match e
    case Execute => s.phase.Open?
    case BeginDrop => s.phase.Open?
    case SendTerminate => s.phase.Sending? && s.phase.sent < |s.workers|
    case BeginJoin => s.phase.Sending? && s.phase.sent == |s.workers|
    case Join => s.phase.Joining? && s.phase.joined < |s.workers| && s.workers[s.phase.joined].Stopped?
    case Lock(w) => w < |s.workers| && s.workers[w].Idle? && Free(s.workers)
    case Receive(w) => w < |s.workers| && s.workers[w].Receiving? && s.queue != []
    case Finish(w) => w < |s.workers| && s.workers[w].Running?
  }

  function Step(s: State, e: Event): State
    requires Enabled(s, e) && |s.taken| == |s.workers|
  {
    match e
    case Execute => s.(queue := s.queue + [NewJob(s.submitted)], submitted := s.submitted + 1)
    case BeginDrop => s.(phase := Sending(0))
    case SendTerminate => s.(queue := s.queue + [Terminate], phase := Sending(s.phase.sent + 1))
    case BeginJoin => s.(phase := Joining(0))
    case Join => s.(phase := Joining(s.phase.joined + 1))
    case Lock(w) => s.(workers := s.workers[w := Receiving])
    case Receive(w) =>
      (match s.queue[0]
       case NewJob(id) => s.(queue := s.queue[1..], workers := s.workers[w := Running(id)], started := s.started + [id])
       case Terminate => s.(queue := s.queue[1..], workers := s.workers[w := Stopped], taken := s.taken[w := s.taken[w] + 1]))
    case Finish(w) => s.(workers := s.workers[w := Idle], finished := s.finished + [s.workers[w].id])
  }

  // ----- Counting -----

  function Sum(ws: seq<Worker>, f: Worker -> nat): nat {
    if ws == [] then 0 else Sum(ws[..|ws| - 1], f) + f(ws[|ws| - 1])
  }

  function Occurs(log: seq<nat>, id: nat): nat {
    if log == [] then 0 else Occurs(log[..|log| - 1], id) + if log[|log| - 1] == id then 1 else 0
  }

  lemma OccursSnoc(log: seq<nat>, x: nat, id: nat)
    ensures Occurs(log + [x], id) == Occurs(log, id) + if x == id then 1 else 0
  {
    assert (log + [x])[..|log|] == log;
  }

  function Runs(id: nat): Worker -> nat { (w: Worker) => if w == Running(id) then 1 else 0 }

  function Stop(w: Worker): nat { if w.Stopped? then 1 else 0 }

  function Effort(w: Worker): nat { match w case Idle => 1 case Running(_) => 2 case _ => 0 }

  lemma {:induction false} SumUpdate(ws: seq<Worker>, i: nat, x: Worker, f: Worker -> nat)
    requires i < |ws|
    ensures Sum(ws[i := x], f) + f(ws[i]) == Sum(ws, f) + f(x)
  {
    var n := |ws| - 1;
    if i == n {
      assert ws[i := x][..n] == ws[..n];
    } else {
      SumUpdate(ws[..n], i, x, f);
      assert ws[i := x][..n] == ws[..n][i := x];
    }
  }

  lemma {:induction false} NoneIs(ws: seq<Worker>, f: Worker -> nat)
    requires forall i :: 0 <= i < |ws| ==> f(ws[i]) == 0
    ensures Sum(ws, f) == 0
  {
    if ws != [] { NoneIs(ws[..|ws| - 1], f); }
  }

  /** As many stopped workers as workers exactly if all have stopped. */
  lemma {:induction false} AllStopped(ws: seq<Worker>)
    ensures Sum(ws, Stop) <= |ws|
    ensures Sum(ws, Stop) == |ws| <==> forall i :: 0 <= i < |ws| ==> ws[i].Stopped?
  {
    if ws != [] {
      var n := |ws| - 1;
      AllStopped(ws[..n]);
      assert forall i :: 0 <= i < n ==> ws[i] == ws[..n][i];
    }
  }

  // ----- The invariant -----

  function Ids(n: nat): seq<nat> { seq(n, i => i) }

  /** The queue holds these jobs, then this many terminate messages. */
  function Queue(jobs: seq<nat>, terminates: nat): seq<Message> {
    seq(|jobs|, i requires 0 <= i < |jobs| => NewJob(jobs[i])) + seq(terminates, _ => Terminate)
  }

  function Sent(s: State): nat {
    match s.phase case Open => 0 case Sending(k) => k case Joining(_) => |s.workers|
  }

  /** Jobs still queued, given that jobs start in order. */
  function Waiting(s: State): seq<nat>
    requires |s.started| <= s.submitted
  { Ids(s.submitted)[|s.started|..] }

  /** Jobs start in submission order, and terminate messages are queued behind all jobs. */
  ghost predicate InOrder(s: State) {
    && |s.started| <= s.submitted && s.started == Ids(|s.started|)
    && Sum(s.workers, Stop) <= Sent(s) <= |s.workers|
    && s.queue == Queue(Waiting(s), Sent(s) - Sum(s.workers, Stop))
    && (Sum(s.workers, Stop) > 0 ==> |s.started| == s.submitted)
  }

  /** A started job has finished once or is running at one worker. */
  ghost predicate Accounted(s: State) {
    forall id: nat :: Occurs(s.finished, id) + Sum(s.workers, Runs(id)) == if id < |s.started| then 1 else 0
  }

  /** One holder of the mutex, one terminate message per stopped worker, and only stopped workers joined. */
  ghost predicate Orderly(s: State) {
    && |s.taken| == |s.workers| > 0
    && (forall i :: 0 <= i < |s.taken| ==> s.taken[i] == Stop(s.workers[i]))
    && (forall i, j ::
          0 <= i < |s.workers| && 0 <= j < |s.workers| && s.workers[i].Receiving? && s.workers[j].Receiving? ==> i == j)
    && (s.phase.Joining? ==>
          s.phase.joined <= |s.workers| && forall i :: 0 <= i < s.phase.joined ==> s.workers[i].Stopped?)
  }

  ghost predicate Inv(s: State) { InOrder(s) && Accounted(s) && Orderly(s) }

  lemma OwnerStepKeeps(s: State, e: Event)
    requires Inv(s) && Enabled(s, e) && (e.Execute? || e.BeginDrop? || e.SendTerminate? || e.BeginJoin? || e.Join?)
    ensures Inv(Step(s, e))
  {
    var n := Sent(s) - Sum(s.workers, Stop);
    if e.Execute? {
      assert Sum(s.workers, Stop) == 0;
      var w := Waiting(s);
      assert Waiting(Step(s, e)) == w + [s.submitted];
      assert Queue(w + [s.submitted], 0) == Queue(w, 0) + [NewJob(s.submitted)];
    } else if e.SendTerminate? {
      assert Queue(Waiting(s), n + 1) == Queue(Waiting(s), n) + [Terminate];
    }
  }

  lemma WorkerStepOrderly(s: State, e: Event)
    requires Inv(s) && Enabled(s, e) && (e.Lock? || e.Receive? || e.Finish?)
    ensures Orderly(Step(s, e))
  {
    var t := Step(s, e);
    WorkerStepMoves(s, e);
    forall i, j | 0 <= i < |t.workers| && 0 <= j < |t.workers| && t.workers[i].Receiving? && t.workers[j].Receiving?
      ensures i == j
    {
      if e.Lock? { assert forall k :: 0 <= k < |s.workers| ==> s.workers[k] in s.workers; }
    }
  }

  /** A worker's step changes that worker only, which had not stopped, and counts a terminate message if it stops. */
  lemma WorkerStepMoves(s: State, e: Event)
    requires Enabled(s, e) && |s.taken| == |s.workers| && (e.Lock? || e.Receive? || e.Finish?)
    ensures var t := Step(s, e);
            && t.phase == s.phase && !s.workers[e.w].Stopped?
            && t.workers == s.workers[e.w := t.workers[e.w]]
            && t.taken == s.taken[e.w := s.taken[e.w] + Stop(t.workers[e.w])]
            && (t.workers[e.w].Receiving? ==> e.Lock?)
  {
  }

  lemma WorkerStepAccounted(s: State, e: Event)
    requires Inv(s) && Enabled(s, e) && (e.Lock? || e.Receive? || e.Finish?)
    requires e.Receive? && s.queue[0].NewJob? ==> s.queue[0].id == |s.started|
    ensures Accounted(Step(s, e))
  {
    var s' := Step(s, e);
    forall id: nat ensures Occurs(s'.finished, id) + Sum(s'.workers, Runs(id)) == if id < |s'.started| then 1 else 0 {
      assert Occurs(s.finished, id) + Sum(s.workers, Runs(id)) == if id < |s.started| then 1 else 0;
      SumUpdate(s.workers, e.w, s'.workers[e.w], Runs(id));
      if e.Finish? { OccursSnoc(s.finished, s.workers[e.w].id, id); }
    }
  }

  lemma QueueTail(jobs: seq<nat>, n: nat)
    requires |jobs| + n > 0
    ensures jobs == [] ==> Queue(jobs, n)[0] == Terminate && Queue(jobs, n)[1..] == Queue(jobs, n - 1)
    ensures jobs != [] ==> Queue(jobs, n)[0] == NewJob(jobs[0]) && Queue(jobs, n)[1..] == Queue(jobs[1..], n)
  {
    if jobs == [] {
      assert Queue(jobs, n)[1..] == Queue(jobs, n - 1);
    } else {
      assert Queue(jobs, n)[1..] == Queue(jobs[1..], n);
    }
  }

  lemma IdsTail(k: nat, n: nat)
    requires k < n
    ensures Ids(n)[k..][0] == k && Ids(n)[k..][1..] == Ids(n)[k + 1..] && Ids(k + 1) == Ids(k) + [k]
  {
  }

  lemma TakeJob(s: State, w: nat)
    requires InOrder(s) && Enabled(s, Receive(w)) && |s.taken| == |s.workers| && |s.started| < s.submitted
    ensures InOrder(Step(s, Receive(w))) && s.queue[0] == NewJob(|s.started|)
  {
    var n := Sent(s) - Sum(s.workers, Stop);
    IdsTail(|s.started|, s.submitted);
    QueueTail(Waiting(s), n);
    SumUpdate(s.workers, w, Running(|s.started|), Stop);
  }

  lemma TakeTerminate(s: State, w: nat)
    requires InOrder(s) && Enabled(s, Receive(w)) && |s.taken| == |s.workers| && |s.started| == s.submitted
    ensures InOrder(Step(s, Receive(w))) && s.queue[0] == Terminate
  {
    var n := Sent(s) - Sum(s.workers, Stop);
    assert Waiting(s) == [];
    QueueTail([], n);
    SumUpdate(s.workers, w, Stopped, Stop);
  }

  lemma ReceiveInOrder(s: State, w: nat)
    requires InOrder(s) && Enabled(s, Receive(w)) && |s.taken| == |s.workers|
    ensures InOrder(Step(s, Receive(w)))
    ensures s.queue[0].NewJob? ==> s.queue[0].id == |s.started|
  {
    if |s.started| < s.submitted { TakeJob(s, w); } else { TakeTerminate(s, w); }
  }

  lemma WorkerStepInOrder(s: State, e: Event)
    requires Inv(s) && Enabled(s, e) && (e.Lock? || e.Receive? || e.Finish?)
    ensures InOrder(Step(s, e))
    ensures e.Receive? && s.queue[0].NewJob? ==> s.queue[0].id == |s.started|
  {
    if e.Receive? {
      ReceiveInOrder(s, e.w);
    } else {
      SumUpdate(s.workers, e.w, Step(s, e).workers[e.w], Stop);
    }
  }

  lemma StepKeeps(s: State, e: Event)
    requires Inv(s) && Enabled(s, e)
    ensures Inv(Step(s, e)) && |Step(s, e).workers| == |s.workers|
  {
    if e.Lock? || e.Receive? || e.Finish? {
      WorkerStepInOrder(s, e);
      WorkerStepAccounted(s, e);
      WorkerStepOrderly(s, e);
    } else {
      OwnerStepKeeps(s, e);
    }
  }

  // ----- Whole runs -----

  ghost predicate CanRun(s: State, es: seq<Event>)
    requires Inv(s)
    decreases |es|
  {
    es == [] || (Enabled(s, es[0]) && (StepKeeps(s, es[0]); CanRun(Step(s, es[0]), es[1..])))
  }

  ghost function Run(s: State, es: seq<Event>): (s': State)
    requires Inv(s) && CanRun(s, es)
    ensures Inv(s') && |s'.workers| == |s.workers|
    decreases |es|
  {
    if es == [] then s else StepKeeps(s, es[0]); Run(Step(s, es[0]), es[1..])
  }

  function Executes(es: seq<Event>): nat {
    if es == [] then 0 else (if es[0].Execute? then 1 else 0) + Executes(es[1..])
  }

  /** Every `execute` of a run submits one job, and nothing else does. */
  lemma {:induction false} ExecuteSubmits(s: State, es: seq<Event>)
    requires Inv(s) && CanRun(s, es)
    ensures Run(s, es).submitted == s.submitted + Executes(es)
    decreases |es|
  {
    if es != [] {
      StepKeeps(s, es[0]);
      ExecuteSubmits(Step(s, es[0]), es[1..]);
    }
  }

  lemma {:induction false} OccursInIds(n: nat, id: nat)
    ensures Occurs(Ids(n), id) == if id < n then 1 else 0
  {
    if n > 0 {
      OccursInIds(n - 1, id);
      assert Ids(n)[..n - 1] == Ids(n - 1);
    }
  }

  /** At any time of any run: jobs were started in order, none twice, and none finished twice or unstarted. */
  lemma AtMostOnceInOrder(size: nat, es: seq<Event>, id: nat)
    requires size > 0 && CanRun(New(size).pool, es)
    ensures var s := Run(New(size).pool, es);
            && s.started == Ids(|s.started|) && |s.started| <= s.submitted
            && Occurs(s.finished, id) <= Occurs(s.started, id) <= 1
  {
    var s := Run(New(size).pool, es);
    OccursInIds(|s.started|, id);
    assert Occurs(s.finished, id) + Sum(s.workers, Runs(id)) == if id < |s.started| then 1 else 0;
  }

  /**
   When `drop` returns, every submitted job has run exactly once and every worker took exactly one terminate message.
   */
  lemma DropLeavesNothing(size: nat, es: seq<Event>)
    requires size > 0 && CanRun(New(size).pool, es)
    requires Run(New(size).pool, es).phase == Joining(size)
    ensures var s := Run(New(size).pool, es);
            && s.queue == []
            && (forall id :: 0 <= id < s.submitted ==> Occurs(s.started, id) == Occurs(s.finished, id) == 1)
            && (forall w :: 0 <= w < size ==> s.workers[w].Stopped? && s.taken[w] == 1)
  {
    AllStoppedIsDone(Run(New(size).pool, es));
  }

  lemma AllStoppedIsDone(s: State)
    requires Inv(s) && s.phase == Joining(|s.workers|)
    ensures s.queue == []
    ensures forall id :: 0 <= id < s.submitted ==> Occurs(s.started, id) == Occurs(s.finished, id) == 1
    ensures forall w :: 0 <= w < |s.workers| ==> s.workers[w].Stopped? && s.taken[w] == 1
  {
    AllStopped(s.workers);
    assert Waiting(s) == [] && s.queue == Queue([], 0);
    forall id | 0 <= id < s.submitted ensures Occurs(s.started, id) == Occurs(s.finished, id) == 1 {
      OccursInIds(|s.started|, id);
      NoneIs(s.workers, Runs(id));
      assert Occurs(s.finished, id) + Sum(s.workers, Runs(id)) == 1;
    }
  }

  /** As long as `execute` or `drop` still sends, a worker is alive that holds the receiver: no send fails. */
  lemma SendsAreReceived(s: State, e: Event) returns (w: nat)
    requires Inv(s) && Enabled(s, e) && (e.Execute? || e.SendTerminate?)
    ensures w < |s.workers| && !s.workers[w].Stopped?
  {
    AllStopped(s.workers);
    w :| w < |s.workers| && !s.workers[w].Stopped?;
  }

  /** Once all terminate messages are sent, a worker that has not stopped never faces an empty queue. */
  lemma NoEmptyQueueAfterSends(s: State, w: nat)
    requires Inv(s) && Sent(s) == |s.workers| && w < |s.workers| && !s.workers[w].Stopped?
    ensures s.queue != []
  {
    AllStopped(s.workers);
  }

  ghost function Remaining(s: State): int {
    3 * |s.queue| + Sum(s.workers, Effort) +
    match s.phase
    case Open => 5 * |s.workers| + 2
    case Sending(k) => 5 * |s.workers| - 4 * k + 1
    case Joining(k) => |s.workers| - k
  }

  predicate ByWorker(e: Event) { e.Lock? || e.Receive? || e.Finish? }

  lemma WorkerStepProgresses(s: State, e: Event)
    requires Inv(s) && ByWorker(e) && Enabled(s, e)
    ensures Step(s, e).phase == s.phase && Step(s, e).submitted == s.submitted && Remaining(Step(s, e)) < Remaining(s)
  {
    SumUpdate(s.workers, e.w, Step(s, e).workers[e.w], Effort);
  }

  /** While the pool is open, a job that has not finished lets some worker move. */
  lemma OpenNeverStuck(s: State, id: nat) returns (e: Event)
    requires Inv(s) && s.phase.Open? && id < s.submitted && Occurs(s.finished, id) == 0
    ensures ByWorker(e) && Enabled(s, e)
  {
    assert !s.workers[0].Stopped? by {
      if s.workers[0].Stopped? { SumUpdate(s.workers, 0, Idle, Stop); }
    }
    if w :| 0 <= w < |s.workers| && s.workers[w].Running? { return Finish(w); }
    assert Sum(s.workers, Runs(id)) == 0 by { NoneIs(s.workers, Runs(id)); }
    assert |s.started| <= id && Waiting(s) != [];
    if w :| 0 <= w < |s.workers| && s.workers[w].Receiving? { return Receive(w); }
    e := Lock(0);
  }

  /**
   Left alone, the workers of an open pool come to rest, and then every job submitted so far has finished
   exactly once.
   */
  lemma {:induction false} JobsComplete(s: State, es: seq<Event>)
    requires Inv(s) && s.phase.Open? && CanRun(s, es) && forall i :: 0 <= i < |es| ==> ByWorker(es[i])
    ensures |es| <= Remaining(s) && Run(s, es).phase.Open? && Run(s, es).submitted == s.submitted
    ensures (forall e | ByWorker(e) :: !Enabled(Run(s, es), e)) ==>
              forall id :: 0 <= id < s.submitted ==> Occurs(Run(s, es).finished, id) == 1
    decreases |es|
  {
    if es == [] {
      forall id | 0 <= id < s.submitted && forall e | ByWorker(e) :: !Enabled(s, e)
        ensures Occurs(s.finished, id) == 1
      {
        assert Occurs(s.finished, id) <= Occurs(s.finished, id) + Sum(s.workers, Runs(id)) <= 1;
        if Occurs(s.finished, id) == 0 { var e := OpenNeverStuck(s, id); }
      }
    } else {
      WorkerStepProgresses(s, es[0]);
      StepKeeps(s, es[0]);
      JobsComplete(Step(s, es[0]), es[1..]);
    }
  }

  lemma DropStepProgresses(s: State, e: Event)
    requires Inv(s) && (!s.phase.Open? || e.BeginDrop?) && Enabled(s, e)
    ensures !Step(s, e).phase.Open? && Remaining(Step(s, e)) < Remaining(s)
  {
    if ByWorker(e) { WorkerStepProgresses(s, e); }
  }

  /** Until `drop` has joined every worker, it or some worker can move. */
  lemma DropNeverStuck(s: State) returns (e: Event)
    requires Inv(s) && !s.phase.Open? && s.phase != Joining(|s.workers|)
    ensures Enabled(s, e)
  {
    if s.phase.Sending? { return if s.phase.sent < |s.workers| then SendTerminate else BeginJoin; }
    var k := s.phase.joined;
    if s.workers[k].Stopped? { return Join; }
    NoEmptyQueueAfterSends(s, k);
    if s.workers[k].Running? { return Finish(k); }
    if w :| 0 <= w < |s.workers| && s.workers[w].Receiving? { return Receive(w); }
    e := Lock(k);
  }

  /** Every run of `drop` is bounded, and one that can go no further has joined every worker. */
  lemma {:induction false} DropRuns(s: State, es: seq<Event>)
    requires Inv(s) && !s.phase.Open? && CanRun(s, es)
    ensures |es| <= Remaining(s) && !Run(s, es).phase.Open?
    ensures (forall e :: !Enabled(Run(s, es), e)) ==> Run(s, es).phase == Joining(|s.workers|)
    decreases |es|
  {
    if es == [] {
      if s.phase != Joining(|s.workers|) { var e := DropNeverStuck(s); }
    } else {
      DropStepProgresses(s, es[0]);
      StepKeeps(s, es[0]);
      DropRuns(Step(s, es[0]), es[1..]);
    }
  }

  /**
   From any state of an open pool, `drop` completes on every schedule: the run is bounded, and when nothing can
   move any more every worker is joined and every job submitted has run exactly once.
   */
  lemma DropCompletes(s: State, es: seq<Event>)
    requires Inv(s) && s.phase.Open? && CanRun(s, [BeginDrop] + es)
    ensures |es| < Remaining(s)
    ensures var t := Run(s, [BeginDrop] + es);
            (forall e :: !Enabled(t, e)) ==>
              && t.phase == Joining(|s.workers|) && t.submitted == s.submitted
              && forall id :: 0 <= id < s.submitted ==> Occurs(t.started, id) == Occurs(t.finished, id) == 1
  {
    var all := [BeginDrop] + es;
    assert all[0] == BeginDrop && all[1..] == es;
    DropStepProgresses(s, BeginDrop);
    StepKeeps(s, BeginDrop);
    var m := Step(s, BeginDrop);
    DropRuns(m, es);
    NoExecutes(m, es);
    var t := Run(s, all);
    if forall e :: !Enabled(t, e) { AllStoppedIsDone(t); }
  }

  /** Once `drop` has begun, nothing more is submitted. */
  lemma {:induction false} NoExecutes(s: State, es: seq<Event>)
    requires Inv(s) && !s.phase.Open? && CanRun(s, es)
    ensures Run(s, es).submitted == s.submitted
    decreases |es|
  {
    if es != [] {
      DropStepProgresses(s, es[0]);
      StepKeeps(s, es[0]);
      NoExecutes(Step(s, es[0]), es[1..]);
    }
  }
}
