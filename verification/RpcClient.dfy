/**
 The call life cycle of go-gee-demo/gee-rpc/client.go as an interleaved step system.
 Every `Client.Call` goroutine, the receive goroutine and `Close` take one step at a
 time.  A section under `mu` that does not block is one step; `terminateCalls` holds
 both locks while it notifies pending calls one by one.  The server may send any
 sequence numbers, reads and writes may fail at any time, and contexts may be
 cancelled at any time.
 */
module RpcClient {

  /** Where a `Client.Call` is. */
  datatype Pc =
    | Start            // before send
    | Locked           // holds `sending`, about to register
    | Refused          // registration failed, about to notify itself
    | Writing          // registered, writing the request
    | Removing         // write failed, about to take the call back
    | Failing          // took it back, about to notify itself
    | Unlocking        // about to release `sending`
    | Waiting          // send returned; in the select
    | Cancelled        // left through ctx.Done
    | Finished         // left through call.Done

  /** `queued` is the length of the Done channel; `notified` counts calls of `done()`. */
  datatype Call = Call(pc: Pc, seqNo: nat, queued: nat, notified: nat, dropped: bool)

  datatype Holder = Free | ByCall(c: nat) | ByReceiver

  /** Where the receive goroutine is. */
  datatype Receiver =
    | Reading
    | Header(h: nat)             // read a header, about to take the call
    | Discard                    // no such call: reads the body away
    | Reply(c: nat)              // took the call, about to read the body
    | Answer(c: nat, err: bool)  // about to notify the call
    | Stopping                   // about to lock `sending`
    | Holding                    // holds `sending`, about to lock `mu`
    | Notifying(todo: set<nat>)  // holds both locks; pending calls still to notify
    | Ended

  datatype State = State(
    next: nat, pending: map<nat, nat>, closing: bool, shutdown: bool,
    sending: Holder, calls: seq<Call>, recv: Receiver)

  datatype Event =
    | Advance(c: nat) | WriteErr(c: nat) | Cancel(c: nat) | Take(c: nat)
    | GotHeader(h: nat) | ReadErr | BodyOk | BodyErr | Receive | Notify(q: nat) | Close

  /** The Done channel of `Client.Call` has capacity one. */
  const DONE_CAPACITY: nat := 1

  function Initial(n: nat): State {
    State(1, map[], false, false, Free, seq(n, _ => Call(Start, 0, 0, 0, false)), Reading)
  }

  // ----- Steps -----

  function SetPc(s: State, c: nat, pc: Pc): State
    requires c < |s.calls|
  { s.(calls := s.calls[c := s.calls[c].(pc := pc)]) }

  /** `call.done()`: blocks when the channel is full. */
  predicate CanNotify(s: State, c: nat)
    requires c < |s.calls|
  { s.calls[c].queued < DONE_CAPACITY }

  function Notified(s: State, c: nat): State
    requires c < |s.calls|
  { s.(calls := s.calls[c := s.calls[c].(queued := s.calls[c].queued + 1, notified := s.calls[c].notified + 1)]) }

  /** `mu` is held across steps only while pending calls are being notified. */
  predicate MuFree(s: State) { !s.recv.Notifying? }

  function Register(s: State, c: nat): State
    requires c < |s.calls|
  {
    if s.closing || s.shutdown then SetPc(s, c, Refused)
    else s.(next := s.next + 1, pending := s.pending[s.next := c],
            calls := s.calls[c := s.calls[c].(pc := Writing, seqNo := s.next)])
  }

  /** The next step of a call, writing successfully. */
  function AdvanceCall(s: State, c: nat): State
    requires c < |s.calls|
  {
    match s.calls[c].pc
    case Start => if s.sending.Free? then SetPc(s, c, Locked).(sending := ByCall(c)) else s
    case Locked => if MuFree(s) then Register(s, c) else s
    case Refused => if CanNotify(s, c) then SetPc(Notified(s, c), c, Unlocking) else s
    case Writing => SetPc(s, c, Unlocking)
    case Removing =>
      if !MuFree(s) then s
      else if s.calls[c].seqNo in s.pending then
        SetPc(s, c, Failing).(pending := s.pending - {s.calls[c].seqNo})
      else SetPc(s, c, Unlocking)
    case Failing => if CanNotify(s, c) then SetPc(Notified(s, c), c, Unlocking) else s
    case Unlocking => SetPc(s, c, Waiting).(sending := Free)
    case _ => s
  }

  /** `ctx.Done`: remove the call; it counts as dropped if it could still have been notified. */
  function CancelCall(s: State, c: nat): State
    requires c < |s.calls|
  {
    if s.calls[c].pc.Waiting? && MuFree(s) then
      s.(pending := s.pending - {s.calls[c].seqNo},
         calls := s.calls[c := s.calls[c].(pc := Cancelled, dropped := LivePending(s, c))])
    else s
  }

  function TakeDone(s: State, c: nat): State
    requires c < |s.calls|
  {
    if s.calls[c].pc.Waiting? && s.calls[c].queued > 0 then
      s.(calls := s.calls[c := s.calls[c].(pc := Finished, queued := s.calls[c].queued - 1)])
    else s
  }

  function ReceiveStep(s: State): State {
    match s.recv
    case Header(h) =>
      if h in s.pending then s.(pending := s.pending - {h}, recv := Reply(s.pending[h])) else s.(recv := Discard)
    case Answer(c, err) =>
      if c < |s.calls| && CanNotify(s, c) then Notified(s, c).(recv := if err then Stopping else Reading) else s
    case Stopping => if s.sending.Free? then s.(sending := ByReceiver, recv := Holding) else s
    case Holding => s.(shutdown := true, recv := Notifying(s.pending.Keys))
    case Notifying(todo) => if todo == {} then s.(sending := Free, recv := Ended) else s
    case _ => s
  }

  function NotifyPending(s: State, q: nat): State {
    if s.recv.Notifying? && q in s.recv.todo && q in s.pending && s.pending[q] < |s.calls| && CanNotify(s, s.pending[q]) then
      Notified(s, s.pending[q]).(recv := Notifying(s.recv.todo - {q}))
    else s
  }

  function BodyStep(s: State, err: bool): State {
    match s.recv
    case Discard => s.(recv := if err then Stopping else Reading)
    case Reply(c) => s.(recv := Answer(c, err))
    case _ => s
  }

  function Step(s: State, e: Event): State {
    match e
    case Advance(c) => if c < |s.calls| then AdvanceCall(s, c) else s
    case WriteErr(c) => if c < |s.calls| && s.calls[c].pc.Writing? then SetPc(s, c, Removing) else s
    case Cancel(c) => if c < |s.calls| then CancelCall(s, c) else s
    case Take(c) => if c < |s.calls| then TakeDone(s, c) else s
    case GotHeader(h) => if s.recv.Reading? then s.(recv := Header(h)) else s
    case ReadErr => if s.recv.Reading? then s.(recv := Stopping) else s
    case BodyOk => BodyStep(s, false)
    case BodyErr => BodyStep(s, true)
    case Receive => ReceiveStep(s)
    case Notify(q) => NotifyPending(s, q)
    case Close => if MuFree(s) then s.(closing := true) else s
  }

  function Run(s: State, es: seq<Event>): State
    decreases |es|
  {
    if es == [] then s else Run(Step(s, es[0]), es[1..])
  }

  // ----- Invariant: every registered call has exactly one way to be notified -----

  /** The call is pending and will still be notified from the pending map. */
  predicate LivePending(s: State, c: nat)
    requires c < |s.calls|
  {
    var q := s.calls[c].seqNo;
    && q in s.pending && s.pending[q] == c
    && !s.recv.Ended? && (s.recv.Notifying? ==> q in s.recv.todo)
  }

  /** The receive goroutine took the call and will notify it. */
  predicate InReceiver(s: State, c: nat) {
    (s.recv.Reply? || s.recv.Answer?) && s.recv.c == c
  }

  function Bit(b: bool): nat { if b then 1 else 0 }

  /** Notifications done, plus those still owed, plus one if the call was dropped. */
  function Ways(s: State, c: nat): nat
    requires c < |s.calls|
  {
    var k := s.calls[c];
    k.notified + Bit(k.pc.Refused? || k.pc.Failing?) + Bit(InReceiver(s, c)) + Bit(LivePending(s, c)) + Bit(k.dropped)
  }

  predicate HoldsSending(pc: Pc) {
    pc.Locked? || pc.Refused? || pc.Writing? || pc.Removing? || pc.Failing? || pc.Unlocking?
  }

  ghost predicate CallOk(s: State, c: nat)
    requires c < |s.calls|
  {
    var k := s.calls[c];
    && Ways(s, c) == (if k.pc.Start? || k.pc.Locked? then 0 else 1)
    && k.queued + Bit(k.pc.Finished?) == k.notified
    && (k.dropped ==> k.pc.Cancelled?)
    && (HoldsSending(k.pc) <==> s.sending == ByCall(c))
    && (k.pc.Start? || k.pc.Locked? || k.pc.Refused? ==> k.seqNo == 0)
    && (s.shutdown ==> !k.pc.Writing? && !k.pc.Removing? && !k.pc.Failing?)
  }

  /** Sequence numbers were handed out, each once; 0 means none. */
  ghost predicate Numbered(calls: seq<Call>, next: nat) {
    && (forall c :: 0 <= c < |calls| ==> calls[c].seqNo < next)
    && (forall c, d :: 0 <= c < d < |calls| ==> calls[c].seqNo == 0 || calls[c].seqNo != calls[d].seqNo)
  }

  lemma NumberedFrame(a: seq<Call>, b: seq<Call>, next: nat)
    requires Numbered(a, next) && |a| == |b| && forall c :: 0 <= c < |a| ==> b[c].seqNo == a[c].seqNo
    ensures Numbered(b, next)
  {
  }

  ghost predicate Inv(s: State) {
    && s.next > 0
    && (forall c :: 0 <= c < |s.calls| ==> CallOk(s, c))
    && (forall q :: q in s.pending ==> 0 < q < s.next && s.pending[q] < |s.calls| && s.calls[s.pending[q]].seqNo == q)
    && Numbered(s.calls, s.next)
    && (s.sending == ByReceiver <==> s.recv.Holding? || s.recv.Notifying?)
    && (s.shutdown <==> s.recv.Notifying? || s.recv.Ended?)
    && (s.recv.Notifying? ==> s.recv.todo <= s.pending.Keys)
    && (s.recv.Reply? || s.recv.Answer? ==> s.recv.c < |s.calls|)
  }

  lemma InitialInv(n: nat)
    ensures Inv(Initial(n))
  {
  }

  lemma StepKeeps(s: State, e: Event)
    requires Inv(s)
    ensures Inv(Step(s, e))
  {
    match e
    case Advance(c) => if c < |s.calls| { AdvanceKeeps(s, c); }
    case WriteErr(c) => WriteErrKeeps(s, c);
    case Cancel(c) => if c < |s.calls| { CancelKeeps(s, c); }
    case Take(c) => if c < |s.calls| { TakeKeeps(s, c); }
    case BodyOk => BodyKeeps(s, false);
    case BodyErr => BodyKeeps(s, true);
    case Receive => ReceiveKeeps(s);
    case Notify(q) => NotifyKeeps(s, q);
    case _ => QuietKeeps(s, Step(s, e));
  }

  /** Steps that touch neither the calls nor the ways in which they can be notified. */
  lemma QuietKeeps(s: State, t: State)
    requires Inv(s) && t.calls == s.calls && t.pending == s.pending && t.next == s.next && t.sending == s.sending &&
      t.shutdown == s.shutdown
    requires t.recv == s.recv || (s.recv.Reading? && (t.recv.Header? || t.recv.Stopping?))
    ensures Inv(t)
  {
    forall c | 0 <= c < |t.calls| ensures CallOk(t, c) { assert CallOk(s, c); }
  }

  lemma WriteErrKeeps(s: State, c: nat)
    requires Inv(s)
    ensures Inv(Step(s, WriteErr(c)))
  {
    var t := Step(s, WriteErr(c));
    NumberedFrame(s.calls, t.calls, s.next);
    forall d | 0 <= d < |t.calls| ensures CallOk(t, d) { assert CallOk(s, d); }
  }

  lemma AdvanceKeeps(s: State, c: nat)
    requires Inv(s) && c < |s.calls|
    ensures Inv(AdvanceCall(s, c))
  {
    match s.calls[c].pc
    case Locked => RegisterKeeps(s, c);
    case Removing => RemoveKeeps(s, c);
    case Refused => SelfNotifyKeeps(s, c);
    case Failing => SelfNotifyKeeps(s, c);
    case Start => LockKeeps(s, c);
    case Writing => WriteKeeps(s, c);
    case Unlocking => UnlockKeeps(s, c);
    case _ =>
  }

  lemma RegisterKeeps(s: State, c: nat)
    requires Inv(s) && c < |s.calls| && s.calls[c].pc.Locked?
    ensures Inv(AdvanceCall(s, c))
  {
    var t := AdvanceCall(s, c);
    assert CallOk(s, c);
    forall d | 0 <= d < |t.calls| ensures CallOk(t, d) { assert CallOk(s, d); }
  }

  /** A pending entry names the call that holds its number. */
  lemma PendingIsOwn(s: State, c: nat)
    requires Inv(s) && c < |s.calls| && s.calls[c].seqNo in s.pending
    ensures s.pending[s.calls[c].seqNo] == c
  {
    var q := s.calls[c].seqNo;
    assert s.calls[s.pending[q]].seqNo == q;
  }

  /** A failed write takes the call back unless the receive goroutine already has it. */
  lemma RemoveKeeps(s: State, c: nat)
    requires Inv(s) && c < |s.calls| && s.calls[c].pc.Removing?
    ensures Inv(AdvanceCall(s, c))
  {
    var t := AdvanceCall(s, c);
    NumberedFrame(s.calls, t.calls, s.next);
    RemoveOwn(s, c);
    forall d | 0 <= d < |t.calls| ensures CallOk(t, d) {
      if d != c { RemoveOther(s, c, d); }
    }
  }

  lemma RemoveOwn(s: State, c: nat)
    requires Inv(s) && c < |s.calls| && s.calls[c].pc.Removing?
    ensures CallOk(AdvanceCall(s, c), c)
  {
    assert CallOk(s, c);
    if s.calls[c].seqNo in s.pending { PendingIsOwn(s, c); }
  }

  lemma RemoveOther(s: State, c: nat, d: nat)
    requires Inv(s) && c < |s.calls| && d < |s.calls| && d != c && s.calls[c].pc.Removing?
    ensures CallOk(AdvanceCall(s, c), d)
  {
    assert CallOk(s, d);
    if s.calls[c].seqNo in s.pending { PendingIsOwn(s, c); }
  }

  lemma SelfNotifyKeeps(s: State, c: nat)
    requires Inv(s) && c < |s.calls| && (s.calls[c].pc.Refused? || s.calls[c].pc.Failing?)
    ensures Inv(AdvanceCall(s, c))
  {
    var t := AdvanceCall(s, c);
    NumberedFrame(s.calls, t.calls, s.next);
    assert CallOk(s, c);
    forall d | 0 <= d < |t.calls| ensures CallOk(t, d) { assert CallOk(s, d); }
  }

  lemma LockKeeps(s: State, c: nat)
    requires Inv(s) && c < |s.calls| && s.calls[c].pc.Start?
    ensures Inv(AdvanceCall(s, c))
  {
    var t := AdvanceCall(s, c);
    NumberedFrame(s.calls, t.calls, s.next);
    assert CallOk(s, c);
    forall d | 0 <= d < |t.calls| ensures CallOk(t, d) { assert CallOk(s, d); }
  }

  lemma WriteKeeps(s: State, c: nat)
    requires Inv(s) && c < |s.calls| && s.calls[c].pc.Writing?
    ensures Inv(AdvanceCall(s, c))
  {
    var t := AdvanceCall(s, c);
    NumberedFrame(s.calls, t.calls, s.next);
    assert CallOk(s, c);
    forall d | 0 <= d < |t.calls| ensures CallOk(t, d) { assert CallOk(s, d); }
  }

  lemma UnlockKeeps(s: State, c: nat)
    requires Inv(s) && c < |s.calls| && s.calls[c].pc.Unlocking?
    ensures Inv(AdvanceCall(s, c))
  {
    var t := AdvanceCall(s, c);
    NumberedFrame(s.calls, t.calls, s.next);
    assert CallOk(s, c);
    forall d | 0 <= d < |t.calls| ensures CallOk(t, d) { assert CallOk(s, d); }
  }

  lemma CancelKeeps(s: State, c: nat)
    requires Inv(s) && c < |s.calls|
    ensures Inv(CancelCall(s, c))
  {
    var t := CancelCall(s, c);
    NumberedFrame(s.calls, t.calls, s.next);
    CancelOwn(s, c);
    forall d | 0 <= d < |t.calls| ensures CallOk(t, d) {
      if d != c { CancelOther(s, c, d); }
    }
  }

  lemma CancelOwn(s: State, c: nat)
    requires Inv(s) && c < |s.calls|
    ensures CallOk(CancelCall(s, c), c)
  {
    assert CallOk(s, c);
    if s.calls[c].seqNo in s.pending { PendingIsOwn(s, c); }
  }

  lemma CancelOther(s: State, c: nat, d: nat)
    requires Inv(s) && c < |s.calls| && d < |s.calls| && d != c
    ensures CallOk(CancelCall(s, c), d)
  {
    assert CallOk(s, d);
    if s.calls[c].seqNo in s.pending { PendingIsOwn(s, c); }
  }

  lemma TakeKeeps(s: State, c: nat)
    requires Inv(s) && c < |s.calls|
    ensures Inv(TakeDone(s, c))
  {
    var t := TakeDone(s, c);
    NumberedFrame(s.calls, t.calls, s.next);
    assert CallOk(s, c);
    forall d | 0 <= d < |t.calls| ensures CallOk(t, d) { assert CallOk(s, d); }
  }

  lemma BodyKeeps(s: State, err: bool)
    requires Inv(s)
    ensures Inv(BodyStep(s, err))
  {
    var t := BodyStep(s, err);
    forall d | 0 <= d < |t.calls| ensures CallOk(t, d) { assert CallOk(s, d); }
  }

  lemma ReceiveKeeps(s: State)
    requires Inv(s)
    ensures Inv(ReceiveStep(s))
  {
    match s.recv
    case Header(_) => LookupKeeps(s);
    case Answer(_, _) => AnswerKeeps(s);
    case _ => TerminateKeeps(s);
  }

  lemma LookupKeeps(s: State)
    requires Inv(s) && s.recv.Header?
    ensures Inv(ReceiveStep(s))
  {
    var t := ReceiveStep(s);
    forall d | 0 <= d < |t.calls| ensures CallOk(t, d) { assert CallOk(s, d); }
  }

  lemma AnswerKeeps(s: State)
    requires Inv(s) && s.recv.Answer?
    ensures Inv(ReceiveStep(s))
  {
    var t := ReceiveStep(s);
    NumberedFrame(s.calls, t.calls, s.next);
    forall d | 0 <= d < |t.calls| ensures CallOk(t, d) { assert CallOk(s, d); }
  }

  /** Taking `sending` before `mu` means that no sender is between registering and taking back its call. */
  lemma TerminateKeeps(s: State)
    requires Inv(s) && !s.recv.Header? && !s.recv.Answer?
    ensures Inv(ReceiveStep(s))
  {
    var t := ReceiveStep(s);
    assert t.calls == s.calls && t.pending == s.pending;
    forall d | 0 <= d < |t.calls| ensures CallOk(t, d) { assert CallOk(s, d); }
  }

  lemma NotifyKeeps(s: State, q: nat)
    requires Inv(s)
    ensures Inv(NotifyPending(s, q))
  {
    var t := NotifyPending(s, q);
    NumberedFrame(s.calls, t.calls, s.next);
    forall d | 0 <= d < |t.calls| ensures CallOk(t, d) { assert CallOk(s, d); }
  }

  lemma {:induction false} RunKeeps(s: State, es: seq<Event>)
    requires Inv(s)
    ensures Inv(Run(s, es))
    decreases |es|
  {
    if es != [] {
      StepKeeps(s, es[0]);
      RunKeeps(Step(s, es[0]), es[1..]);
    }
  }

  // ----- Theorems over all interleavings -----

  predicate SendReturned(k: Call) { k.pc.Waiting? || k.pc.Cancelled? || k.pc.Finished? }

  /** Some thread is about to execute `done()` on call `c`. */
  predicate AboutToNotify(s: State, c: nat)
    requires c < |s.calls|
  {
    || s.calls[c].pc.Refused? || s.calls[c].pc.Failing?
    || (s.recv.Answer? && s.recv.c == c)
    || (s.recv.Notifying? && var q := s.calls[c].seqNo; q in s.recv.todo && q in s.pending && s.pending[q] == c)
  }

  /** In every interleaving a call is notified at most once, and `done()` never finds its channel full. */
  lemma NotifiedAtMostOnce(n: nat, es: seq<Event>, c: nat)
    requires c < n
    ensures var s := Run(Initial(n), es);
            && c < |s.calls| && s.calls[c].notified <= 1
            && (s.recv.Notifying? ==> s.recv.todo <= s.pending.Keys)
            && (AboutToNotify(s, c) ==> s.calls[c].notified == 0 && CanNotify(s, c))
  {
    InitialInv(n);
    RunKeeps(Initial(n), es);
    RunLength(Initial(n), es);
    var s := Run(Initial(n), es);
    assert CallOk(s, c);
  }

  lemma {:induction false} RunLength(s: State, es: seq<Event>)
    ensures |Run(s, es).calls| == |s.calls|
    decreases |es|
  {
    if es != [] { RunLength(Step(s, es[0]), es[1..]); }
  }

  /**
   Once `terminateCalls` has run, a call whose send returned was notified exactly once or dropped by its own
   cancellation, and one still in its select finds its notification waiting.
   */
  lemma TerminationReachesEveryCall(n: nat, es: seq<Event>, c: nat)
    requires c < n
    ensures var s := Run(Initial(n), es);
            && c < |s.calls|
            && (s.recv.Ended? && SendReturned(s.calls[c]) ==>
                  && (s.calls[c].notified == 1 <==> !s.calls[c].dropped)
                  && (s.calls[c].dropped ==> s.calls[c].pc.Cancelled? && s.calls[c].notified == 0)
                  && (s.calls[c].pc.Waiting? ==> s.calls[c].queued == 1))
  {
    InitialInv(n);
    RunKeeps(Initial(n), es);
    RunLength(Initial(n), es);
    var s := Run(Initial(n), es);
    assert CallOk(s, c);
  }

  /** `terminateCalls` cannot get stuck while it notifies: some pending call can always be notified, or it is done. */
  lemma TerminationProceeds(n: nat, es: seq<Event>)
    ensures var s := Run(Initial(n), es);
            s.recv.Notifying? ==>
              (s.recv.todo == {} && Step(s, Receive).recv.Ended?)
              || exists q :: q in s.recv.todo && Step(s, Notify(q)).recv == Notifying(s.recv.todo - {q})
  {
    InitialInv(n);
    RunKeeps(Initial(n), es);
    var s := Run(Initial(n), es);
    if s.recv.Notifying? && s.recv.todo != {} {
      var todo := s.recv.todo;
      assert (forall y :: y !in todo) ==> todo == {};
      var q :| q in todo;
      assert CallOk(s, s.pending[q]);
    }
  }

  /** Steps that a call needs at most to release `sending`. */
  function Rank(pc: Pc): nat {
    match pc
    case Locked => 5
    case Writing => 4
    case Removing => 3
    case Refused => 2
    case Failing => 2
    case Unlocking => 1
    case _ => 0
  }

  predicate HolderExists(s: State) { s.sending.ByCall? ==> s.sending.c < |s.calls| }

  lemma StepHolder(s: State, e: Event)
    requires HolderExists(s)
    ensures HolderExists(Step(s, e))
  {
  }

  lemma {:induction false} RunHolder(s: State, es: seq<Event>)
    requires HolderExists(s)
    ensures HolderExists(Run(s, es))
    decreases |es|
  {
    if es != [] {
      StepHolder(s, es[0]);
      RunHolder(Step(s, es[0]), es[1..]);
    }
  }

  /** A call that holds `sending` is never blocked: each of its own steps brings the release nearer. */
  lemma HolderMoves(s: State, c: nat)
    requires Inv(s) && s.sending == ByCall(c) && c < |s.calls|
    ensures var t := Step(s, Advance(c));
            t.sending == Free || (t.sending == ByCall(c) && |t.calls| == |s.calls| && Rank(t.calls[c].pc) < Rank(s.calls[c].pc))
  {
    assert CallOk(s, c);
  }

  /**
   In every run `terminateCalls` gets the locks it waits for: `sending` is free, or held by a call whose next
   step brings its release nearer; then `mu` is taken and notifying begins.
   */
  lemma TerminationGetsItsLocks(n: nat, es: seq<Event>)
    ensures var s := Run(Initial(n), es);
            && (s.recv.Stopping? && s.sending.Free? ==> Step(s, Receive).recv.Holding?)
            && (s.recv.Stopping? && !s.sending.Free? ==>
                  s.sending.ByCall? && s.sending.c < |s.calls| &&
                  var c := s.sending.c;
                  var t := Step(s, Advance(c));
                  t.sending == Free || (t.sending == ByCall(c) && c < |t.calls| && Rank(t.calls[c].pc) < Rank(s.calls[c].pc)))
            && (s.recv.Holding? ==> Step(s, Receive).recv.Notifying?)
  {
    InitialInv(n);
    RunKeeps(Initial(n), es);
    RunHolder(Initial(n), es);
    var s := Run(Initial(n), es);
    if s.recv.Stopping? && s.sending.ByCall? { HolderMoves(s, s.sending.c); }
  }
}
