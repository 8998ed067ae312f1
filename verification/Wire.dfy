/**
 The wire format of the object storage server (cpp-object-storage-demo/object.cpp):
 32-bit big-endian integers, requests and responses, and their readers.
 */
module Wire {
  import opened Wrappers

  type Byte = x: int | 0 <= x < 256
  type Bytes = seq<Byte>

  const TWO32: int := 0x1_0000_0000
  const TWO31: int := 0x8000_0000

  predicate IsInt32(v: int) { -TWO31 <= v < TWO31 }

  /** `htonl`: the two's complement bits of `v`, most significant byte first. */
  function Int32(v: int): (b: Bytes)
    ensures |b| == 4
  {
    var u := v % TWO32;
    [u / 256 / 256 / 256, u / 256 / 256 % 256, u / 256 % 256, u % 256]
  }

  /** `ntohl` of four bytes, as a signed integer. */
  function ToInt32(b: Bytes): int
    requires |b| == 4
  {
    var b0: int, b1: int, b2: int, b3: int := b[0], b[1], b[2], b[3];
    var u := b0 * 0x100_0000 + b1 * 0x1_0000 + b2 * 0x100 + b3;
    if u < TWO31 then u else u - TWO32
  }

  /** Four bytes as a number, most significant first. */
  function BigEndian(b: Bytes): nat { if b == [] then 0 else 256 * BigEndian(b[..|b| - 1]) + b[|b| - 1] }

  lemma BigEndianOfFour(b: Bytes)
    requires |b| == 4
    ensures BigEndian(b) == b[0] * 0x100_0000 + b[1] * 0x1_0000 + b[2] * 0x100 + b[3] < TWO32
  {
    assert b[..3][..2] == b[..2] && b[..2][..1] == b[..1] && b[..1][..0] == [];
    var b0: int, b1: int, b2: int := b[0], b[1], b[2];
    assert BigEndian(b[..0]) == 0 && BigEndian(b[..1]) == b0;
    assert BigEndian(b[..2]) == 256 * b0 + b1 && BigEndian(b[..3]) == 256 * (256 * b0 + b1) + b2;
  }

  /**
   An integer is written as its remainder modulo 2^32, big-endian, and read as the signed integer with that remainder.
   */
  lemma Int32RoundTrip(v: int)
    ensures BigEndian(Int32(v)) == v % TWO32
    ensures IsInt32(v) ==> ToInt32(Int32(v)) == v
  {
    var u := v % TWO32;
    var q1, q2, q3 := u / 256, u / 256 / 256, u / 256 / 256 / 256;
    assert u == 256 * q1 + u % 256 && q1 == 256 * q2 + q1 % 256 && q2 == 256 * q3 + q2 % 256;
    BigEndianOfFour(Int32(v));
  }

  // ----- Requests -----

  datatype Request = Request(verb: int, key: Bytes, body: Bytes)

  function PayloadLength(r: Request): nat { |r.body| + 12 + |r.key| }

  /** What a request occupies after its length prefix. */
  function Payload(r: Request): (p: Bytes)
    ensures |p| == PayloadLength(r)
  {
    Int32(|r.body|) + Int32(r.verb) + Int32(|r.key|) + r.key + r.body
  }

  /** `Request::write`. */
  function WriteRequest(r: Request): Bytes { Int32(PayloadLength(r)) + Payload(r) }

  /** `std::string(str)`: the key ends at its first NUL. */
  function CString(b: Bytes): Bytes {
    if b == [] || b[0] == 0 then [] else [b[0]] + CString(b[1..])
  }

  predicate NulFree(b: Bytes) { forall i :: 0 <= i < |b| ==> b[i] != 0 }

  lemma {:induction false} CStringIdentity(b: Bytes)
    ensures CString(b) == b <==> NulFree(b)
  {
    if b != [] {
      CStringIdentity(b[1..]);
      if b[0] != 0 && CString(b) == b {
        assert CString(b)[1..] == CString(b[1..]);
        assert NulFree(b[1..]);
        forall i | 0 <= i < |b| ensures b[i] != 0 { if i > 0 { assert b[1..][i - 1] == b[i]; } }
      }
      if NulFree(b) {
        forall i | 0 <= i < |b| - 1 ensures b[1..][i] != 0 { assert b[1..][i] == b[i + 1]; }
        assert b == [b[0]] + b[1..];
      }
    }
  }

  /** `Request::read`; `None` where the code would read outside the buffer. */
  function ReadRequest(d: Bytes): Option<Request> {
    if |d| < 12 then None
    else
      var len, verb, keyLen := ToInt32(d[0..4]), ToInt32(d[4..8]), ToInt32(d[8..12]);
      if keyLen < 0 || 12 + keyLen > |d| then None
      else
        var key := CString(d[12..12 + keyLen]);
        if len <= 0 then Some(Request(verb, key, []))
        else if 12 + keyLen + len > |d| then None
        else Some(Request(verb, key, d[12 + keyLen..12 + keyLen + len]))
  }

  /** The integers of the format can represent the request. */
  predicate Encodable(r: Request) { IsInt32(r.verb) && PayloadLength(r) < TWO31 }

  /** A request on the wire: the length of what follows, body length, verb, key length, key and body. */
  lemma RequestLayout(r: Request)
    requires Encodable(r)
    ensures var d := WriteRequest(r);
            && |d| == 16 + |r.key| + |r.body|
            && BigEndian(d[0..4]) == |d| - 4 && BigEndian(d[4..8]) == |r.body|
            && BigEndian(d[8..12]) == r.verb % TWO32 && BigEndian(d[12..16]) == |r.key|
            && d[16..16 + |r.key|] == r.key && d[16 + |r.key|..] == r.body
  {
    var d := WriteRequest(r);
    assert d[0..4] == Int32(PayloadLength(r)) && d[4..8] == Int32(|r.body|);
    assert d[8..12] == Int32(r.verb) && d[12..16] == Int32(|r.key|);
    Int32RoundTrip(PayloadLength(r));
    Int32RoundTrip(|r.body|);
    Int32RoundTrip(r.verb);
    Int32RoundTrip(|r.key|);
  }

  /** Reading what was written gives the request back exactly when its key contains no NUL. */
  lemma RequestRoundTrip(r: Request)
    requires Encodable(r)
    ensures ReadRequest(Payload(r)) == Some(r.(key := CString(r.key)))
    ensures ReadRequest(Payload(r)) == Some(r) <==> NulFree(r.key)
  {
    var d := Payload(r);
    assert d[0..4] == Int32(|r.body|) && d[4..8] == Int32(r.verb) && d[8..12] == Int32(|r.key|);
    Int32RoundTrip(|r.body|);
    Int32RoundTrip(r.verb);
    Int32RoundTrip(|r.key|);
    assert d[12..12 + |r.key|] == r.key;
    assert d[12 + |r.key|..12 + |r.key| + |r.body|] == r.body;
    CStringIdentity(r.key);
  }

  // ----- Responses -----

  datatype Response = Response(status: int, body: Bytes)

  predicate Sendable(r: Response) { IsInt32(r.status) && |r.body| + 8 < TWO31 }

  /** `Response::write`. */
  function WriteResponse(r: Response): (b: Bytes)
    ensures |b| == 12 + |r.body|
  {
    Int32(8 + |r.body|) + Int32(|r.body|) + Int32(r.status) + r.body
  }

  /** `Response::read` from a byte stream: the response and what follows it. */
  function ReadResponse(d: Bytes): Option<(Response, Bytes)> {
    if |d| < 12 then None
    else
      var len, status := ToInt32(d[4..8]), ToInt32(d[8..12]);
      if len <= 0 then Some((Response(status, []), d[12..]))
      else if 12 + len > |d| then None
      else Some((Response(status, d[12..12 + len]), d[12 + len..]))
  }

  /** A response on the wire: the length of what follows, body length, status and body. */
  lemma ResponseLayout(r: Response)
    requires Sendable(r)
    ensures var d := WriteResponse(r);
            && BigEndian(d[0..4]) == |d| - 4 && BigEndian(d[4..8]) == |r.body|
            && BigEndian(d[8..12]) == r.status % TWO32 && d[12..] == r.body
  {
    var d := WriteResponse(r);
    assert d[0..4] == Int32(8 + |r.body|) && d[4..8] == Int32(|r.body|) && d[8..12] == Int32(r.status);
    Int32RoundTrip(8 + |r.body|);
    Int32RoundTrip(|r.body|);
    Int32RoundTrip(r.status);
  }

  lemma ResponseRoundTrip(r: Response, rest: Bytes)
    requires Sendable(r)
    ensures ReadResponse(WriteResponse(r) + rest) == Some((r, rest))
  {
    var d := WriteResponse(r) + rest;
    assert d[4..8] == Int32(|r.body|) && d[8..12] == Int32(r.status);
    Int32RoundTrip(|r.body|);
    Int32RoundTrip(r.status);
    assert d[12..12 + |r.body|] == r.body && d[12 + |r.body|..] == rest;
  }

  function WriteResponses(rs: seq<Response>): Bytes {
    if rs == [] then [] else WriteResponses(rs[..|rs| - 1]) + WriteResponse(rs[|rs| - 1])
  }

  function ReadResponses(d: Bytes, n: nat): Option<seq<Response>> {
    if n == 0 then Some([])
    else match ReadResponse(d)
         case None => None
         case Some((r, rest)) =>
           match ReadResponses(rest, n - 1)
           case None => None
           case Some(rs) => Some([r] + rs)
  }

  lemma {:induction false} WriteResponsesFront(rs: seq<Response>)
    requires rs != []
    ensures WriteResponses(rs) == WriteResponse(rs[0]) + WriteResponses(rs[1..])
    decreases |rs|
  {
    if |rs| > 1 {
      WriteResponsesFront(rs[..|rs| - 1]);
      assert rs[..|rs| - 1][1..] == rs[1..][..|rs| - 2];
      var mid := WriteResponses(rs[1..][..|rs| - 2]);
      assert WriteResponses(rs[1..]) == mid + WriteResponse(rs[|rs| - 1]);
    }
  }

  lemma Assoc<T>(a: seq<T>, b: seq<T>, c: seq<T>)
    ensures a + b + c == a + (b + c)
  {
  }

  lemma ReadFirst(r: Response, later: Bytes, rest: Bytes, n: nat, rs: seq<Response>)
    requires Sendable(r) && ReadResponses(later + rest, n) == Some(rs)
    ensures ReadResponses(WriteResponse(r) + later + rest, n + 1) == Some([r] + rs)
  {
    Assoc(WriteResponse(r), later, rest);
    ResponseRoundTrip(r, later + rest);
  }

  /** A client that reads as many responses as were written gets them back in order. */
  lemma {:induction false} ResponsesRoundTrip(rs: seq<Response>, rest: Bytes)
    requires forall i :: 0 <= i < |rs| ==> Sendable(rs[i])
    ensures ReadResponses(WriteResponses(rs) + rest, |rs|) == Some(rs)
    decreases |rs|
  {
    if rs != [] {
      WriteResponsesFront(rs);
      ResponsesRoundTrip(rs[1..], rest);
      ReadFirst(rs[0], WriteResponses(rs[1..]), rest, |rs| - 1, rs[1..]);
      assert rs == [rs[0]] + rs[1..];
    }
  }
}
