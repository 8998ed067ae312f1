/**
 The connection state machine of cpp-object-storage-demo/server.cpp: `handleRead`,
 `handle`, `handleWrite` and the reset in `loop`, driven by arbitrary chunks and
 would-block results.
 */
module Framing {
  import opened Wire
  import opened Wrappers

  datatype Phase = Init | ReadLen | ReadData | ReadDone | WriteData | WriteDone

  /** The connection as a value: `lenBytes` are the length bytes read, `got` the payload bytes read. */
  datatype Conn = Conn(phase: Phase, lenBytes: Bytes, inLen: int, got: Bytes, out: Bytes, outPtr: nat)

  function Fresh(): Conn { Conn(Init, [], 0, [], [], 0) }

  /** How many bytes the next `read` asks for. */
  function Wanted(c: Conn): nat {
    match c.phase
    case Init => 4
    case ReadLen => if |c.lenBytes| <= 4 then 4 - |c.lenBytes| else 0
    case ReadData => if |c.got| <= c.inLen then c.inLen - |c.got| else 0
    case _ => 0
  }

  /** `handleRead` with the bytes that `read` returned; no bytes means it would have blocked. */
  function AfterRead(c: Conn, chunk: Bytes): Conn {
    if chunk == [] then c
    else match c.phase
         case Init => AfterLength(c, chunk)
         case ReadLen => AfterLength(c, chunk)
         case ReadData =>
           var d := c.(got := c.got + chunk);
           if |d.got| < d.inLen then d else d.(phase := ReadDone)
         case _ => c
  }

  /** After a length that is not positive, the next read gets nothing and the server takes the connection for closed. */
  predicate Closes(c: Conn) { c.phase == ReadData && c.inLen <= 0 }

  function AfterLength(c: Conn, chunk: Bytes): Conn {
    var d := c.(lenBytes := c.lenBytes + chunk);
    if |d.lenBytes| < 4 then d.(phase := ReadLen)
    else if |d.lenBytes| == 4 then d.(inLen := ToInt32(d.lenBytes), phase := ReadData)
    else d
  }

  /** `handle`: parse, reset the input side, and queue the response. */
  function AfterHandle(c: Conn, resp: Response): Conn {
    Conn(WriteData, [], 0, [], WriteResponse(resp), 0)
  }

  /** `handleWrite` of `k` bytes; none means it would have blocked. */
  function AfterWrite(c: Conn, k: nat): Conn {
    if c.phase != WriteData || k == 0 then c
    else if c.outPtr + k < |c.out| then c.(outPtr := c.outPtr + k)
    else c.(outPtr := |c.out|, phase := WriteDone)
  }

  // ----- The connection object -----

  class Connection {
    var state: Phase
    var lenBuf: Bytes
    var inLen: int
    var inBuf: array<Byte>
    var inPtr: nat
    var outBuf: Bytes
    var outPtr: nat

    ghost predicate Valid()
      reads this, inBuf
    {
      && inPtr <= inBuf.Length && outPtr <= |outBuf|
      && (state == Init ==> lenBuf == [])
      && (state == ReadLen ==> 0 < |lenBuf| < 4)
      && inBuf.Length == (if inLen > 0 then inLen else 0)
      && (state != ReadData && state != ReadDone ==> inLen == 0)
      && (state == ReadDone ==> inPtr == inBuf.Length && inLen > 0)
      && (state == ReadData ==> |lenBuf| == 4 && ToInt32(lenBuf) == inLen && (inLen > 0 ==> inPtr < inLen))
      && (state == WriteData ==> outPtr < |outBuf|)
    }

    ghost function View(): Conn
      requires Valid()
      reads this, inBuf
    { Conn(state, lenBuf, inLen, inBuf[..inPtr], outBuf, outPtr) }

    constructor ()
      ensures Valid() && View() == Fresh() && fresh(inBuf)
    {
      state, lenBuf, inLen, inPtr, outBuf, outPtr := Init, [], 0, 0, [], 0;
      inBuf := new Byte[0];
    }

    /** `read` into `inBuf` at `inPtr`. */
    method Fill(chunk: Bytes)
      requires inPtr + |chunk| <= inBuf.Length
      modifies this`inPtr, inBuf
      ensures inPtr == old(inPtr) + |chunk| && inBuf[..inPtr] == old(inBuf[..inPtr]) + chunk
    {
      for i := 0 to |chunk|
        invariant inPtr == old(inPtr) + i
        invariant inBuf[..inPtr] == old(inBuf[..inPtr]) + chunk[..i]
      {
        inBuf[inPtr] := chunk[i];
        inPtr := inPtr + 1;
      }
      assert chunk[..|chunk|] == chunk;
    }

    /** `handleRead`: whether the connection stays open. */
    method HandleRead(chunk: Bytes) returns (open: bool)
      requires Valid() && |chunk| <= Wanted(View())
      modifies this, inBuf
      ensures Valid() && (inBuf == old(inBuf) || fresh(inBuf))
      ensures View() == AfterRead(old(View()), chunk)
      ensures open <==> !Closes(old(View()))
    {
      open := state != ReadData || inLen > 0;
      if chunk == [] { return; }
      if state == Init || state == ReadLen {
        lenBuf := lenBuf + chunk;
        if |lenBuf| < 4 {
          state := ReadLen;
        } else {
          inLen := ToInt32(lenBuf);
          inBuf := new Byte[if inLen > 0 then inLen else 0];
          inPtr := 0;
          state := ReadData;
        }
      } else if state == ReadData {
        Fill(chunk);
        if inPtr == inBuf.Length { state := ReadDone; }
      }
    }

    /** `handle`: hand out the parsed request, reset the input side, queue the response. */
    method Handle(resp: Response) returns (request: Option<Request>)
      requires Valid() && state == ReadDone
      modifies this
      ensures Valid() && fresh(inBuf)
      ensures request == ReadRequest(old(View()).got)
      ensures View() == AfterHandle(old(View()), resp)
    {
      request := ReadRequest(inBuf[..]);
      assert inBuf[..] == inBuf[..inPtr];
      lenBuf, inLen, inPtr := [], 0, 0;
      inBuf := new Byte[0];
      outBuf, outPtr := WriteResponse(resp), 0;
      state := WriteData;
    }

    /** `handleWrite` of `k` accepted bytes, and the reset after the last one. */
    method HandleWrite(k: nat) returns (sent: Bytes)
      requires Valid() && state == WriteData && outPtr + k <= |outBuf|
      modifies this`outPtr, this`state
      ensures Valid() && View() == AfterWrite(old(View()), k)
      ensures sent == outBuf[old(outPtr)..old(outPtr) + k]
    {
      sent := outBuf[outPtr..outPtr + k];
      if k == 0 { return; }
      outPtr := outPtr + k;
      if outPtr == |outBuf| { state := WriteDone; }
    }

    method Reset()
      requires Valid() && state == WriteDone
      modifies this`outBuf, this`outPtr, this`state, this`lenBuf
      ensures Valid() && View() == Fresh()
    {
      outBuf, outPtr, state, lenBuf := [], 0, Init, [];
    }
  }

  // ----- Runs -----

  /**
   A client has written `stream` bytes not yet read; `handed` and `answered` record what `handle` did, `sent` the
   bytes written.
   */
  datatype World = World(conn: Conn, stream: Bytes, handed: seq<Option<Request>>, answered: seq<Response>, sent: Bytes)

  /** `Read(k)`: a read delivers at most `k` bytes; zero bytes is a would-block. */
  datatype Event = Read(k: nat) | Handle(resp: Response) | Write(k: nat) | Reset

  function Min(a: nat, b: nat): nat { if a < b then a else b }

  function Step(w: World, e: Event): World {
    match e
    case Read(k) =>
      var n := Min(k, Min(Wanted(w.conn), |w.stream|));
      w.(conn := AfterRead(w.conn, w.stream[..n]), stream := w.stream[n..])
    case Handle(resp) =>
      if w.conn.phase != ReadDone then w
      else w.(conn := AfterHandle(w.conn, resp), handed := w.handed + [ReadRequest(w.conn.got)], answered := w.answered + [resp])
    case Write(k) =>
      if w.conn.phase != WriteData || w.conn.outPtr > |w.conn.out| then w
      else
        var n := Min(k, |w.conn.out| - w.conn.outPtr);
        w.(conn := AfterWrite(w.conn, n), sent := w.sent + w.conn.out[w.conn.outPtr..w.conn.outPtr + n])
    case Reset => if w.conn.phase == WriteDone then w.(conn := Fresh()) else w
  }

  function Run(w: World, es: seq<Event>): World
    decreases |es|
  {
    if es == [] then w else Run(Step(w, es[0]), es[1..])
  }

  function WriteRequests(rs: seq<Request>): Bytes {
    if rs == [] then [] else WriteRequest(rs[0]) + WriteRequests(rs[1..])
  }

  function Connected(rs: seq<Request>): World { World(Fresh(), WriteRequests(rs), [], [], []) }

  predicate Good(r: Request) { Encodable(r) && NulFree(r.key) }

  ghost predicate AllGood(rs: seq<Request>) { forall i :: 0 <= i < |rs| ==> Good(rs[i]) }

  /**
   The bytes read for the request in progress, followed by those unread, are exactly the requests not yet handed out.
   */
  ghost predicate Reading(w: World, rest: seq<Request>) {
    var c := w.conn;
    && c.lenBytes + c.got + w.stream == WriteRequests(rest)
    && match c.phase
       case Init => c.lenBytes == [] && c.got == []
       case ReadLen => 0 < |c.lenBytes| < 4 && c.got == []
       case ReadData => rest != [] && c.lenBytes == Int32(PayloadLength(rest[0])) &&
           c.inLen == PayloadLength(rest[0]) && |c.got| < c.inLen
       case ReadDone => rest != [] && |c.lenBytes| == 4 && c.got == Payload(rest[0])
       case _ => c.lenBytes == [] && c.got == []
  }

  ghost predicate Inv(w: World, rs: seq<Request>) {
    && |w.handed| <= |rs| && |w.answered| == |w.handed|
    && (forall i :: 0 <= i < |w.handed| ==> w.handed[i] == Some(rs[i]))
    && Reading(w, rs[|w.handed|..])
    && Sending(w.conn, w.sent, w.answered)
  }

  /** The bytes sent, followed by those queued, are exactly the encoded answers. */
  ghost predicate Sending(c: Conn, sent: Bytes, answered: seq<Response>) {
    && c.outPtr <= |c.out|
    && (c.phase == WriteData ==> c.outPtr < |c.out|)
    && (c.phase == WriteDone ==> c.outPtr == |c.out|)
    && (c.phase != WriteData && c.phase != WriteDone ==> c.out == [])
    && sent + c.out[c.outPtr..] == WriteResponses(answered)
  }

  lemma QueueKeeps(c: Conn, sent: Bytes, answered: seq<Response>, resp: Response)
    requires Sending(c, sent, answered) && c.phase == ReadDone
    ensures Sending(AfterHandle(c, resp), sent, answered + [resp])
  {
    assert (answered + [resp])[..|answered|] == answered;
    assert c.out[c.outPtr..] == [] && WriteResponse(resp)[0..] == WriteResponse(resp);
  }

  lemma SendKeeps(c: Conn, sent: Bytes, answered: seq<Response>, n: nat)
    requires Sending(c, sent, answered) && c.phase == WriteData && c.outPtr + n <= |c.out|
    ensures Sending(AfterWrite(c, n), sent + c.out[c.outPtr..c.outPtr + n], answered)
  {
    var p := c.outPtr;
    assert c.out[p..] == c.out[p..p + n] + c.out[p + n..];
    assert c.out[|c.out|..] == [];
  }

  lemma ConnectedInv(rs: seq<Request>)
    ensures Inv(Connected(rs), rs)
  {
    assert rs[0..] == rs;
  }

  /** The first request of what remains: its length prefix and payload. */
  lemma FirstFrame(rest: seq<Request>, taken: Bytes, stream: Bytes)
    requires taken + stream == WriteRequests(rest) && (taken != [] || stream != [])
    ensures rest != []
    ensures taken + stream == Int32(PayloadLength(rest[0])) + (Payload(rest[0]) + WriteRequests(rest[1..]))
  {
  }

  lemma ReadKeeps(w: World, rs: seq<Request>, k: nat)
    requires Inv(w, rs) && AllGood(rs)
    ensures Inv(Step(w, Read(k)), rs)
  {
    var n := Min(k, Min(Wanted(w.conn), |w.stream|));
    var chunk := w.stream[..n];
    assert w.stream == chunk + w.stream[n..];
    if n > 0 {
      var rest := rs[|w.handed|..];
      FirstFrame(rest, w.conn.lenBytes + w.conn.got, w.stream);
      if w.conn.phase == ReadData { ReadDataKeeps(w, rest, n); } else { ReadLengthKeeps(w, rest, n); }
    }
  }

  /** Moving the first `n` bytes of the stream over to what was read. */
  lemma Moved<T>(a: seq<T>, b: seq<T>, c: seq<T>, n: nat)
    requires n <= |c|
    ensures a + b + c == a + (b + c[..n]) + c[n..]
  {
  }

  lemma SamePrefix<T>(x: seq<T>, y: seq<T>, p: seq<T>, q: seq<T>)
    requires x + y == p + q && |x| == |p|
    ensures x == p && y == q
  {
    assert x == (x + y)[..|x|] && y == (x + y)[|x|..];
    assert p == (p + q)[..|p|] && q == (p + q)[|p|..];
  }

  lemma ReadLengthKeeps(w: World, rest: seq<Request>, n: nat)
    requires Reading(w, rest) && (w.conn.phase == Init || w.conn.phase == ReadLen)
    requires 0 < n <= |w.stream| && n <= Wanted(w.conn) && rest != [] && Good(rest[0])
    ensures var t := w.(conn := AfterRead(w.conn, w.stream[..n]), stream := w.stream[n..]); Reading(t, rest)
  {
    var lenBytes, later := w.conn.lenBytes + w.stream[..n], w.stream[n..];
    Moved([], w.conn.lenBytes, w.stream, n);
    assert lenBytes + later == WriteRequests(rest) && lenBytes + [] == lenBytes;
    if |lenBytes| == 4 {
      FirstFrame(rest, lenBytes, later);
      SamePrefix(lenBytes, later, Int32(PayloadLength(rest[0])), Payload(rest[0]) + WriteRequests(rest[1..]));
      Int32RoundTrip(PayloadLength(rest[0]));
    }
  }

  lemma ReadDataKeeps(w: World, rest: seq<Request>, n: nat)
    requires Reading(w, rest) && w.conn.phase == ReadData && 0 < n <= |w.stream| && n <= Wanted(w.conn)
    ensures var t := w.(conn := AfterRead(w.conn, w.stream[..n]), stream := w.stream[n..]); Reading(t, rest)
  {
    var got, later := w.conn.got + w.stream[..n], w.stream[n..];
    Moved(w.conn.lenBytes, w.conn.got, w.stream, n);
    if |got| == w.conn.inLen {
      Assoc(w.conn.lenBytes, got, later);
      FirstFrame(rest, w.conn.lenBytes + got, later);
      SamePrefix(w.conn.lenBytes, got + later, w.conn.lenBytes, Payload(rest[0]) + WriteRequests(rest[1..]));
      SamePrefix(got, later, Payload(rest[0]), WriteRequests(rest[1..]));
    }
  }

  lemma HandleKeeps(w: World, rs: seq<Request>, resp: Response)
    requires Inv(w, rs) && AllGood(rs)
    ensures Inv(Step(w, Handle(resp)), rs)
  {
    if w.conn.phase == ReadDone {
      var i := |w.handed|;
      var rest := rs[i..];
      var t := Step(w, Handle(resp));
      RequestRoundTrip(rs[i]);
      assert rest[0] == rs[i] && rest[1..] == rs[i + 1..];
      DoneReads(w, rest);
      QueueKeeps(w.conn, w.sent, w.answered, resp);
    }
  }

  /** When a payload is complete, exactly the later requests are unread. */
  lemma DoneReads(w: World, rest: seq<Request>)
    requires Reading(w, rest) && w.conn.phase == ReadDone
    ensures w.stream == WriteRequests(rest[1..])
  {
    var all, n := WriteRequests(rest), 4 + PayloadLength(rest[0]);
    assert all == (w.conn.lenBytes + w.conn.got) + w.stream;
    assert all == WriteRequest(rest[0]) + WriteRequests(rest[1..]);
    assert all[n..] == w.stream && all[n..] == WriteRequests(rest[1..]);
  }

  lemma WriteKeeps(w: World, rs: seq<Request>, k: nat)
    requires Inv(w, rs)
    ensures Inv(Step(w, Write(k)), rs)
  {
    if w.conn.phase == WriteData {
      SendKeeps(w.conn, w.sent, w.answered, Min(k, |w.conn.out| - w.conn.outPtr));
    }
  }

  lemma StepKeeps(w: World, rs: seq<Request>, e: Event)
    requires Inv(w, rs) && AllGood(rs)
    ensures Inv(Step(w, e), rs)
  {
    match e
    case Read(k) => ReadKeeps(w, rs, k);
    case Handle(resp) => HandleKeeps(w, rs, resp);
    case Write(k) => WriteKeeps(w, rs, k);
    case Reset =>
  }

  lemma {:induction false} RunKeeps(w: World, rs: seq<Request>, es: seq<Event>)
    requires Inv(w, rs) && AllGood(rs)
    ensures Inv(Run(w, es), rs)
    decreases |es|
  {
    if es != [] {
      StepKeeps(w, rs, es[0]);
      RunKeeps(Step(w, es[0]), rs, es[1..]);
    }
  }

  lemma RequestsTakeSpace(rs: seq<Request>)
    requires rs != []
    ensures |WriteRequests(rs)| >= 4 + PayloadLength(rs[0])
  {
    assert |WriteRequest(rs[0])| == 4 + PayloadLength(rs[0]);
  }

  /**
   For every chunking, the requests handed out are a prefix of those written, and all of them once the bytes
   are used up; the bytes sent are the encoded answers in order, up to what is still queued.
   */
  lemma HandsOutExactlyTheRequests(rs: seq<Request>, es: seq<Event>)
    requires AllGood(rs)
    ensures var w := Run(Connected(rs), es);
            && |w.handed| <= |rs| && forall i :: 0 <= i < |w.handed| ==> w.handed[i] == Some(rs[i])
    ensures var w := Run(Connected(rs), es);
            w.stream == [] && w.conn.lenBytes == [] && w.conn.got == [] ==> |w.handed| == |rs|
    ensures var w := Run(Connected(rs), es);
            w.conn.phase == Init || w.conn.phase == ReadLen || w.conn.phase == ReadData ==> w.sent == WriteResponses(w.answered)
  {
    ConnectedInv(rs);
    RunKeeps(Connected(rs), rs, es);
    var w := Run(Connected(rs), es);
    if |w.handed| < |rs| { RequestsTakeSpace(rs[|w.handed|..]); }
  }

  /** Written requests announce positive lengths: reading them never closes the connection. */
  lemma WrittenRequestsStayOpen(rs: seq<Request>, es: seq<Event>)
    requires AllGood(rs)
    ensures !Closes(Run(Connected(rs), es).conn)
  {
    ConnectedInv(rs);
    RunKeeps(Connected(rs), rs, es);
  }

  predicate Waits(c: Conn) { c.phase == Init || c.phase == ReadLen || c.phase == ReadData }

  /** As long as requests are left, bytes of them are unread whenever the connection waits for some. */
  lemma BytesAreLeft(w: World, rest: seq<Request>)
    requires Reading(w, rest) && Waits(w.conn) && (w.conn.phase == Init ==> rest != [])
    ensures w.stream != []
  {
    if rest != [] {
      RequestsTakeSpace(rest);
      assert |w.conn.lenBytes| + |w.conn.got| + |w.stream| >= 4 + PayloadLength(rest[0]);
    }
  }

  lemma ReadMoves(w: World, rest: seq<Request>)
    requires Reading(w, rest) && Waits(w.conn) && w.stream != []
    ensures |Step(w, Read(1)).stream| < |w.stream|
  {
    assert Wanted(w.conn) > 0;
  }

  /** Handling and writing move on as well. */
  lemma OthersMove(w: World, resp: Response)
    requires Sending(w.conn, w.sent, w.answered)
    ensures w.conn.phase == ReadDone ==> |Step(w, Handle(resp)).handed| == |w.handed| + 1
    ensures w.conn.phase == WriteData ==> |Step(w, Write(1)).sent| == |w.sent| + 1
    ensures w.conn.phase == WriteDone ==> Step(w, Reset).conn == Fresh()
  {
  }

  lemma AllSent(w: World)
    requires Sending(w.conn, w.sent, w.answered) && w.conn.phase == Init
    ensures w.sent == WriteResponses(w.answered)
  {
  }

  /** The machine is never stuck: until every request is answered and sent, some event moves it on. */
  lemma NeverStuck(rs: seq<Request>, es: seq<Event>, resp: Response)
    requires AllGood(rs)
    ensures var w := Run(Connected(rs), es);
            || (w.conn.phase == Init && |w.handed| == |rs| && w.sent == WriteResponses(w.answered))
            || |Step(w, Read(1)).stream| < |w.stream|
            || (w.conn.phase == ReadDone && |Step(w, Handle(resp)).handed| == |w.handed| + 1)
            || (w.conn.phase == WriteData && |Step(w, Write(1)).sent| == |w.sent| + 1)
            || (w.conn.phase == WriteDone && Step(w, Reset).conn == Fresh())
  {
    ConnectedInv(rs);
    RunKeeps(Connected(rs), rs, es);
    StuckNowhere(Run(Connected(rs), es), rs, resp);
  }

  lemma StuckNowhere(w: World, rs: seq<Request>, resp: Response)
    requires Inv(w, rs)
    ensures || (w.conn.phase == Init && |w.handed| == |rs| && w.sent == WriteResponses(w.answered))
            || |Step(w, Read(1)).stream| < |w.stream|
            || (w.conn.phase == ReadDone && |Step(w, Handle(resp)).handed| == |w.handed| + 1)
            || (w.conn.phase == WriteData && |Step(w, Write(1)).sent| == |w.sent| + 1)
            || (w.conn.phase == WriteDone && Step(w, Reset).conn == Fresh())
  {
    var rest := rs[|w.handed|..];
    if !Waits(w.conn) {
      OthersMove(w, resp);
    } else if w.conn.phase == Init && rest == [] {
      AllSent(w);
    } else {
      BytesAreLeft(w, rest);
      ReadMoves(w, rest);
    }
  }
}
