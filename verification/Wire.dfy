/** The Noctua wire protocol: the client's request printer, the server's reading loop, the internal
    request encoding, and the responses with the client's two-step read. A connection is the
    sequence of bytes sent over it; multi-byte fields are little-endian. */
module Wire {
  import opened Words
  import opened Memory

  type u16 = x: int | 0 <= x < 0x1_0000

  const RPC_MAGIC: u32 := 0x4E4F4355

  /** A request as the client sends it. pad is the byte that alignment leaves behind the opcode. */
  datatype Request = Request(opcode: byte, pad: byte, topic: seq<byte>, partition: u16, message: seq<byte>)

  function LE16(v: u16): (s: seq<byte>)
    ensures |s| == 2 && ReadLE16(s, 0) == v
  {
    [v % 256, v / 256]
  }

  function LE32(v: u32): (s: seq<byte>)
    ensures |s| == 4 && ReadLE32(s, 0) == v
  {
    LE16(v % 0x1_0000) + LE16(v / 0x1_0000)
  }

  /** What the session accepts: topic and message together fit its buffer behind a header. */
  predicate InLimits(r: Request) {
    |r.topic| <= 0xFFFF && |r.message| <= 0xFFFF && |r.topic| + |r.message| <= 65536 - 12
  }

  function Header(r: Request): (s: seq<byte>)
    requires |r.topic| <= 0xFFFF && |r.message| <= 0xFFFF
    ensures |s| == 12
  {
    LE32(RPC_MAGIC) + [r.opcode, r.pad] + LE16(|r.topic|) + LE16(r.partition) + LE16(|r.message|)
  }

  /** Reference: the bytes of a request. */
  function Encode(r: Request): (s: seq<byte>)
    requires |r.topic| <= 0xFFFF && |r.message| <= 0xFFFF
    ensures |s| == 12 + |r.topic| + |r.message|
  {
    Header(r) + r.topic + r.message
  }

  /** A push of "bc" to partition 258 of topic "a", byte by byte. */
  lemma RequestBytes()
    ensures Encode(Request(1, 0, [97], 258, [98, 99])) ==
      [0x55, 0x43, 0x4F, 0x4E, 1, 0, 1, 0, 2, 1, 2, 0, 97, 98, 99]
  {
    assert LE32(RPC_MAGIC) == [0x55, 0x43, 0x4F, 0x4E];
  }

  ghost predicate AllInLimits(rs: seq<Request>) {
    forall i :: 0 <= i < |rs| ==> InLimits(rs[i])
  }

  ghost function EncodeAll(rs: seq<Request>): seq<byte>
    requires AllInLimits(rs)
  {
    if rs == [] then [] else Encode(rs[0]) + EncodeAll(rs[1..])
  }

  lemma {:induction false} EncodeAllAppend(rs: seq<Request>, r: Request)
    requires AllInLimits(rs) && InLimits(r)
    ensures AllInLimits(rs + [r]) && EncodeAll(rs + [r]) == EncodeAll(rs) + Encode(r)
  {
    hide Encode;
    if rs == [] {
      assert rs + [r] == [r];
    } else {
      EncodeAllAppend(rs[1..], r);
      assert (rs + [r])[1..] == rs[1..] + [r];
    }
  }

  /** rpc_client_t::send_request: fills a buffer at an advancing offset. */
  method SendRequest(r: Request) returns (sent: seq<byte>)
    requires |r.topic| <= 0xFFFF && |r.message| <= 0xFFFF
    ensures sent == Encode(r)
  {
    var header := Header(r);
    var buffer := new byte[12 + |r.topic| + |r.message|];
    var offset := 0;
    CopyInto(header, 0, 12, buffer, offset);
    offset := offset + 12;
    CopyInto(r.topic, 0, |r.topic|, buffer, offset);
    offset := offset + |r.topic|;
    CopyInto(r.message, 0, |r.message|, buffer, offset);
    sent := buffer[..];
    assert sent == header + r.topic + r.message;
  }

  /** Why the session stopped. */
  datatype End = EndOfStream | BadMagic | TooLarge(opcode: byte)

  /** Some request within the limits stands at the start of s. */
  ghost predicate StartsWithRequest(s: seq<byte>) {
    exists r :: InLimits(r) && Encode(r) <= s
  }

  /** What can stand where the session stops, for each way of stopping. */
  ghost predicate Explains(end: End, s: seq<byte>) {
    match end
    case EndOfStream =>
      |s| < 12 || (ReadLE32(s, 0) == RPC_MAGIC && |s| < 12 + ReadLE16(s, 6) + ReadLE16(s, 10) <= 65536)
    case BadMagic => |s| >= 12 && ReadLE32(s, 0) != RPC_MAGIC
    case TooLarge(opcode) =>
      |s| >= 12 && ReadLE32(s, 0) == RPC_MAGIC && ReadLE16(s, 6) + ReadLE16(s, 10) > 65536 - 12 && s[4] == opcode
  }

  /** The header fields of an encoded request, whatever follows it. */
  lemma HeaderFields(r: Request, s: seq<byte>)
    requires |r.topic| <= 0xFFFF && |r.message| <= 0xFFFF && |s| >= 12 && s[..12] == Header(r)
    ensures ReadLE32(s, 0) == RPC_MAGIC && s[4] == r.opcode && s[5] == r.pad
    ensures ReadLE16(s, 6) == |r.topic| && ReadLE16(s, 8) == r.partition && ReadLE16(s, 10) == |r.message|
  {
    var h := Header(r);
    assert h[..4] == LE32(RPC_MAGIC) && h[6..8] == LE16(|r.topic|) && h[8..10] == LE16(r.partition)
           && h[10..12] == LE16(|r.message|);
    assert s[0] == h[..4][0] && s[1] == h[..4][1] && s[2] == h[..4][2] && s[3] == h[..4][3];
    assert s[4] == h[4] && s[5] == h[5];
    assert s[6] == h[6..8][0] && s[7] == h[6..8][1] && s[8] == h[8..10][0] && s[9] == h[8..10][1];
    assert s[10] == h[10..12][0] && s[11] == h[10..12][1];
  }

  /** Two little-endian bytes are the form of the number they give. */
  lemma Reread16(s: seq<byte>, at: nat)
    requires at + 2 <= |s|
    ensures ReadLE16(s, at) <= 0xFFFF && LE16(ReadLE16(s, at)) == s[at..at + 2]
  {
  }

  lemma Reread32(s: seq<byte>)
    requires |s| >= 4 && ReadLE32(s, 0) == RPC_MAGIC
    ensures s[0..4] == LE32(RPC_MAGIC)
  {
    Reread16(s, 0);
    Reread16(s, 2);
    assert s[0..4] == s[0..2] + s[2..4];
  }

  /** The request that the bytes of s spell, when its lengths are those of the header. */
  function Decoded(s: seq<byte>): Request
    requires |s| >= 12 && |s| >= 12 + ReadLE16(s, 6) + ReadLE16(s, 10)
  {
    var t, m := ReadLE16(s, 6), ReadLE16(s, 10);
    Request(s[4], s[5], s[12..12 + t], ReadLE16(s, 8), s[12 + t..12 + t + m])
  }

  lemma EncodeDecoded(s: seq<byte>)
    requires |s| >= 12 && |s| >= 12 + ReadLE16(s, 6) + ReadLE16(s, 10) && ReadLE32(s, 0) == RPC_MAGIC
    ensures var r := Decoded(s);
            |r.topic| <= 0xFFFF && |r.message| <= 0xFFFF && Encode(r) == s[..|Encode(r)|]
  {
    var r := Decoded(s);
    Reread32(s);
    Reread16(s, 6);
    Reread16(s, 8);
    Reread16(s, 10);
    assert Header(r) == s[0..4] + [s[4], s[5]] + s[6..8] + s[8..10] + s[10..12] == s[..12];
    assert Encode(r) == s[..12] + s[12..12 + |r.topic|] + s[12 + |r.topic|..12 + |r.topic| + |r.message|];
  }

  lemma DecodedEncode(r: Request, s: seq<byte>)
    requires |r.topic| <= 0xFFFF && |r.message| <= 0xFFFF && Encode(r) <= s
    ensures |s| >= 12 && ReadLE32(s, 0) == RPC_MAGIC && |s| >= 12 + ReadLE16(s, 6) + ReadLE16(s, 10) && Decoded(s) == r
    ensures ReadLE16(s, 6) == |r.topic| && ReadLE16(s, 10) == |r.message|
  {
    var e := Encode(r);
    assert s[..12] == e[..12] == Header(r);
    HeaderFields(r, s);
    assert e[12..12 + |r.topic|] == r.topic && e[12 + |r.topic|..] == r.message;
    assert s[12..12 + |r.topic|] == s[..|e|][12..12 + |r.topic|];
    assert s[12 + |r.topic|..|e|] == s[..|e|][12 + |r.topic|..];
  }

  /** Where the session stops, no request within the limits stands. */
  lemma ExplainsNoRequest(end: End, s: seq<byte>)
    requires Explains(end, s)
    ensures !StartsWithRequest(s)
  {
    if r :| InLimits(r) && Encode(r) <= s {
      DecodedEncode(r, s);
    }
  }

  lemma FirstRequest(a: seq<Request>, x: seq<byte>)
    requires AllInLimits(a) && a != []
    ensures var s := EncodeAll(a) + x;
            && StartsWithRequest(s)
            && |s| >= 12 && |s| >= 12 + ReadLE16(s, 6) + ReadLE16(s, 10) && a[0] == Decoded(s)
            && |s| >= |Encode(a[0])| && s[|Encode(a[0])|..] == EncodeAll(a[1..]) + x
  {
    hide Encode, Decoded, ReadLE16;
    assert InLimits(a[0]);
    SplitFront(Encode(a[0]), EncodeAll(a[1..]), x);
    DecodedEncode(a[0], EncodeAll(a) + x);
  }

  lemma SplitFront(e: seq<byte>, t: seq<byte>, x: seq<byte>)
    ensures e <= e + t + x && (e + t + x)[|e|..] == t + x
  {
  }

  /** A stream is cut into requests in one way only: same requests, same rest. */
  lemma {:induction false} OneReading(a: seq<Request>, x: seq<byte>, b: seq<Request>, y: seq<byte>)
    requires AllInLimits(a) && AllInLimits(b) && EncodeAll(a) + x == EncodeAll(b) + y
    requires !StartsWithRequest(x) && !StartsWithRequest(y)
    ensures a == b && x == y
  {
    hide EncodeAll, Encode, Decoded, InLimits, StartsWithRequest;
    EncodeAllEmpty();
    assert [] + x == x && [] + y == y;
    if a != [] {
      FirstRequest(a, x);
    }
    if b != [] {
      FirstRequest(b, y);
    }
    if a != [] && b != [] {
      OneReading(a[1..], x, b[1..], y);
      assert a == [a[0]] + a[1..] && b == [b[0]] + b[1..];
    }
  }

  /** Main result for requests: from the encodings of any requests within the limits, sent one after
      another, the session recovers exactly those requests, in order, and nothing is left over. */
  lemma SessionRecovers(sent: seq<Request>, dispatched: seq<Request>, rest: seq<byte>)
    requires AllInLimits(sent) && AllInLimits(dispatched)
    requires EncodeAll(sent) == EncodeAll(dispatched) + rest && !StartsWithRequest(rest)
    ensures dispatched == sent && rest == []
  {
    assert EncodeAll(sent) + [] == EncodeAll(sent);
    OneReading(dispatched, rest, sent, []);
  }

  datatype Outcome = Got(request: Request) | Stop(end: End)

  /** One round of the session loop up to the dispatch; buffer is reused from round to round. */
  method ReadRequest(stream: seq<byte>, at: nat, buffer: array<byte>) returns (r: Outcome)
    requires at <= |stream| && buffer.Length == 65536
    modifies buffer
    ensures r.Got? ==> InLimits(r.request) && Encode(r.request) <= stream[at..]
    ensures r.Stop? ==> Explains(r.end, stream[at..])
  {
    hide Encode, Header, Decoded;
    ghost var s := stream[at..];
    if |stream| - at < 12 {
      return Stop(EndOfStream);
    }
    var header := stream[at..at + 12];
    assert forall i :: 0 <= i < 12 ==> header[i] == s[i];
    if ReadLE32(header, 0) != RPC_MAGIC {
      return Stop(BadMagic);
    }
    var topicLen, messageLen := ReadLE16(header, 6), ReadLE16(header, 10);
    var total := topicLen + messageLen;
    if total > buffer.Length - 12 {
      return Stop(TooLarge(header[4]));
    }
    if |stream| - at - 12 < total {
      return Stop(EndOfStream);
    }
    CopyInto(stream, at + 12, total, buffer, 0);
    OverwriteAppend(buffer[..], 0, stream[at + 12..at + 12 + total]);
    EncodeDecoded(s);
    var request := Request(header[4], header[5], buffer[..topicLen], ReadLE16(header, 8), buffer[topicLen..total]);
    BufferViews(stream, at, buffer[..], topicLen, messageLen);
    return Got(request);
  }

  lemma BufferViews(stream: seq<byte>, at: nat, buffer: seq<byte>, t: nat, m: nat)
    requires at + 12 + t + m <= |stream| && |buffer| == 65536 && t + m <= 65536
    requires buffer[..t + m] == stream[at + 12..at + 12 + t + m]
    requires t == ReadLE16(stream[at..], 6) && m == ReadLE16(stream[at..], 10)
    ensures var s := stream[at..];
            Request(s[4], s[5], buffer[..t], ReadLE16(s, 8), buffer[t..t + m]) == Decoded(s)
  {
    hide ReadLE16;
    Part(buffer, 0, t + m, 0, t);
    Part(buffer, 0, t + m, t, m);
    Part(stream, at + 12, t + m, 0, t);
    Part(stream, at + 12, t + m, t, m);
    Part(stream, at, |stream| - at, 12, t);
    Part(stream, at, |stream| - at, 12 + t, m);
    assert buffer[0..t + m] == buffer[..t + m] && buffer[0..t] == buffer[..t] && stream[at..|stream|] == stream[at..];
  }

  /** A part of a part. */
  lemma Part(s: seq<byte>, from: nat, len: nat, off: nat, n: nat)
    requires from + len <= |s| && off + n <= len
    ensures s[from..from + len][off..off + n] == s[from + off..from + off + n]
  {
    var a, b := s[from..from + len][off..off + n], s[from + off..from + off + n];
    assert |a| == |b| && forall i :: 0 <= i < n ==> a[i] == s[from + off + i] == b[i];
  }

  /** The session loop. handler answers one request after another from a state of its own. The loop
      dispatches exactly the requests whose encodings make up the longest possible beginning of the
      stream, writes one response for each, in order, and an error response if it had to stop. */
  method HandleRequests<S>(stream: seq<byte>, s0: S, handler: (S, Request) -> (S, Response))
    returns (dispatched: seq<Request>, out: seq<byte>, end: End, ghost rest: seq<byte>)
    ensures AllInLimits(dispatched) && stream == EncodeAll(dispatched) + rest
    ensures Explains(end, rest) && !StartsWithRequest(rest)
    ensures out == EncodeResponses(Answers(s0, handler, dispatched) + Farewell(end))
  {
    hide Encode, EncodeAll, Explains, StartsWithRequest, EncodeResponse, InLimits, Farewell;
    var buffer := new byte[65536];
    var s, at := s0, 0;
    dispatched, out, rest := [], [], stream;
    EncodeAllEmpty();
    while true
      invariant 0 <= at <= |stream| && rest == stream[at..]
      invariant AllInLimits(dispatched) && stream[..at] == EncodeAll(dispatched)
      invariant s == StateAfter(s0, handler, dispatched) && out == EncodeResponses(Answers(s0, handler, dispatched))
      decreases |stream| - at
    {
      var r := ReadRequest(stream, at, buffer);
      if r.Stop? {
        end := r.end;
        break;
      }
      var request := r.request;
      var (next, response) := handler(s, request);
      EncodeAllAppend(dispatched, request);
      EncodeResponsesAppend(Answers(s0, handler, dispatched), response);
      AnswersAppend(s0, handler, dispatched, request);
      PrefixStep(stream, at, request);
      s, dispatched, out := next, dispatched + [request], out + EncodeResponse(response);
      at := at + 12 + |request.topic| + |request.message|;
      rest := stream[at..];
    }
    ExplainsNoRequest(end, rest);
    assert stream == stream[..at] + stream[at..];
    if end != EndOfStream {
      EncodeResponsesAppend(Answers(s0, handler, dispatched), Farewell(end)[0]);
      out := out + EncodeResponse(Farewell(end)[0]);
      assert Farewell(end) == [Farewell(end)[0]];
    } else {
      assert Answers(s0, handler, dispatched) + Farewell(end) == Answers(s0, handler, dispatched);
    }
  }

  lemma EncodeAllEmpty()
    ensures EncodeAll([]) == []
  {
  }

  lemma PrefixStep(stream: seq<byte>, at: nat, r: Request)
    requires at <= |stream| && InLimits(r) && Encode(r) <= stream[at..]
    ensures at + |Encode(r)| <= |stream| && stream[..at + |Encode(r)|] == stream[..at] + Encode(r)
  {
    assert stream == stream[..at] + stream[at..];
  }

  /** A response: an OK or an error code, with the bytes of a message or of an error text. */
  datatype Response = Response(opcode: byte, error: u16, data: seq<byte>)

  const PUSH: byte := 1
  const INTERNAL_ERROR: u16 := 0xFFFF

  function Text(s: string): seq<byte> {
    seq(|s|, i requires 0 <= i < |s| => s[i] as int % 256)
  }

  /** The error response before the session closes; none when the stream just ended. */
  function Farewell(end: End): (rs: seq<Response>)
    ensures |rs| == if end == EndOfStream then 0 else 1
  {
    match end
    case EndOfStream => []
    case BadMagic => [Response(PUSH, INTERNAL_ERROR, Text("Invalid magic number"))]
    case TooLarge(opcode) => [Response(opcode, INTERNAL_ERROR, Text("Data too large"))]
  }

  /** The header carries the length modulo 2^16; all the data follows it. */
  function EncodeResponse(r: Response): (s: seq<byte>)
    ensures |s| == 12 + |r.data|
  {
    LE32(RPC_MAGIC) + [r.opcode, 0] + LE16(r.error) + LE16(|r.data| % 0x1_0000) + [0, 0] + r.data
  }

  lemma ResponseHeader(opcode: byte, data: seq<byte>)
    requires |data| < 256
    ensures EncodeResponse(Response(opcode, 0xFFFF, data)) ==
      [0x55, 0x43, 0x4F, 0x4E, opcode, 0, 0xFF, 0xFF, |data|, 0, 0, 0] + data
  {
    assert LE32(RPC_MAGIC) == [0x55, 0x43, 0x4F, 0x4E] && LE16(0xFFFF) == [0xFF, 0xFF];
    assert LE16(|data|) == [|data|, 0];
    hide LE32, LE16;
  }

  lemma Texts()
    ensures Text("Invalid magic number") ==
      [73, 110, 118, 97, 108, 105, 100, 32, 109, 97, 103, 105, 99, 32, 110, 117, 109, 98, 101, 114]
    ensures Text("Data too large") == [68, 97, 116, 97, 32, 116, 111, 111, 32, 108, 97, 114, 103, 101]
  {
  }

  /** What goes over the connection behind a bad magic number and behind too large a request: the
      header with an internal error, and "Invalid magic number" or "Data too large". */
  lemma FarewellBytes(opcode: byte)
    ensures Farewell(EndOfStream) == []
    ensures |Farewell(BadMagic)| == |Farewell(TooLarge(opcode))| == 1
    ensures EncodeResponse(Farewell(BadMagic)[0]) ==
      [0x55, 0x43, 0x4F, 0x4E, 1, 0, 0xFF, 0xFF, 20, 0, 0, 0]
      + [73, 110, 118, 97, 108, 105, 100, 32, 109, 97, 103, 105, 99, 32, 110, 117, 109, 98, 101, 114]
    ensures EncodeResponse(Farewell(TooLarge(opcode))[0]) ==
      [0x55, 0x43, 0x4F, 0x4E, opcode, 0, 0xFF, 0xFF, 14, 0, 0, 0]
      + [68, 97, 116, 97, 32, 116, 111, 111, 32, 108, 97, 114, 103, 101]
  {
    hide EncodeResponse, Text;
    Texts();
    ResponseHeader(1, Text("Invalid magic number"));
    ResponseHeader(opcode, Text("Data too large"));
  }

  ghost function EncodeResponses(rs: seq<Response>): seq<byte> {
    if rs == [] then [] else EncodeResponse(rs[0]) + EncodeResponses(rs[1..])
  }

  lemma {:induction false} EncodeResponsesAppend(rs: seq<Response>, r: Response)
    ensures EncodeResponses(rs + [r]) == EncodeResponses(rs) + EncodeResponse(r)
  {
    hide EncodeResponse;
    if rs == [] {
      assert rs + [r] == [r];
    } else {
      EncodeResponsesAppend(rs[1..], r);
      assert (rs + [r])[1..] == rs[1..] + [r];
    }
  }

  ghost function StateAfter<S>(s0: S, handler: (S, Request) -> (S, Response), rs: seq<Request>): S {
    if rs == [] then s0 else handler(StateAfter(s0, handler, rs[..|rs| - 1]), rs[|rs| - 1]).0
  }

  /** The answers to the requests, each given in the state the ones before it left. */
  ghost function Answers<S>(s0: S, handler: (S, Request) -> (S, Response), rs: seq<Request>): seq<Response> {
    if rs == [] then []
    else Answers(s0, handler, rs[..|rs| - 1]) + [handler(StateAfter(s0, handler, rs[..|rs| - 1]), rs[|rs| - 1]).1]
  }

  lemma AnswersAppend<S>(s0: S, handler: (S, Request) -> (S, Response), rs: seq<Request>, r: Request)
    ensures var (next, response) := handler(StateAfter(s0, handler, rs), r);
            && StateAfter(s0, handler, rs + [r]) == next
            && Answers(s0, handler, rs + [r]) == Answers(s0, handler, rs) + [response]
  {
    assert (rs + [r])[..|rs + [r]| - 1] == rs && (rs + [r])[|rs + [r]| - 1] == r;
  }

  datatype Received = Received(opcode: byte, error: u16, data: Option<seq<byte>>)

  /** What a client makes of a response: no data at all when there are no bytes of it. */
  function AsReceived(r: Response): Received {
    Received(r.opcode, r.error, if r.data == [] then None else Some(r.data))
  }

  /** receive_response and receive_response_data, as often as responses are due: the header first,
      then as many bytes as it announces, unless it announces none. */
  method ReceiveAll(incoming: seq<byte>, ghost rs: seq<Response>, n: nat, ghost rest: seq<byte>)
      returns (got: seq<Received>)
    requires n == |rs| && incoming == EncodeResponses(rs) + rest
    requires forall i :: 0 <= i < |rs| ==> |rs[i].data| <= 0xFFFF
    ensures |got| == |rs| && forall i :: 0 <= i < |rs| ==> got[i] == AsReceived(rs[i])
  {
    hide EncodeResponse;
    got := [];
    var at := 0;
    for i := 0 to n
      invariant |got| == i && 0 <= at <= |incoming| && incoming[at..] == EncodeResponses(rs[i..]) + rest
      invariant forall j :: 0 <= j < i ==> got[j] == AsReceived(rs[j])
    {
      assert rs[i..][1..] == rs[i + 1..];
      assert incoming[at..] == EncodeResponse(rs[i]) + (EncodeResponses(rs[i + 1..]) + rest);
      ResponseFields(rs[i], incoming[at..], EncodeResponses(rs[i + 1..]) + rest);
      var header := incoming[at..][..12];
      var messageLen := ReadLE16(header, 8);
      var data := None;
      if messageLen != 0 {
        data := Some(incoming[at..][12..12 + messageLen]);
      }
      got := got + [Received(header[4], ReadLE16(header, 6), data)];
      at := at + 12 + messageLen;
    }
  }

  /** Main result for a connection: the client prints its requests one after another, the session
      loop reads and answers them until the stream ends, and the client, reading in two steps, gets
      the answer to each of its requests, in order. */
  method Conversation<S>(requests: seq<Request>, s0: S, handler: (S, Request) -> (S, Response))
      returns (got: seq<Received>)
    requires AllInLimits(requests)
    requires forall i :: 0 <= i < |Answers(s0, handler, requests)| ==>
                           |Answers(s0, handler, requests)[i].data| <= 0xFFFF
    ensures |Answers(s0, handler, requests)| == |requests| == |got|
    ensures forall i :: 0 <= i < |got| ==> got[i] == AsReceived(Answers(s0, handler, requests)[i])
  {
    hide Encode, EncodeAll, Explains, StartsWithRequest, EncodeResponses, Answers, Farewell, StateAfter;
    var stream := [];
    EncodeAllEmpty();
    for i := 0 to |requests|
      invariant stream == EncodeAll(requests[..i])
    {
      assert InLimits(requests[i]);
      var sent := SendRequest(requests[i]);
      EncodeAllAppend(requests[..i], requests[i]);
      assert requests[..i + 1] == requests[..i] + [requests[i]];
      stream := stream + sent;
    }
    assert requests[..|requests|] == requests;
    var dispatched, out, end;
    ghost var rest;
    dispatched, out, end, rest := HandleRequests(stream, s0, handler);
    SessionRecovers(requests, dispatched, rest);
    EndsQuietly(end);
    ghost var answers := Answers(s0, handler, requests);
    AnswerEach(s0, handler, requests);
    assert answers + [] == answers && out + [] == out;
    got := ReceiveAll(out, answers, |requests|, []);
  }

  lemma EndsQuietly(end: End)
    requires Explains(end, [])
    ensures Farewell(end) == []
  {
  }

  lemma {:induction false} AnswerEach<S>(s0: S, handler: (S, Request) -> (S, Response), rs: seq<Request>)
    ensures |Answers(s0, handler, rs)| == |rs|
    decreases |rs|
  {
    if rs != [] {
      AnswerEach(s0, handler, rs[..|rs| - 1]);
    }
  }

  lemma ResponseFields(r: Response, s: seq<byte>, after: seq<byte>)
    requires |r.data| <= 0xFFFF && s == EncodeResponse(r) + after
    ensures |s| >= 12 + |r.data| && s[4] == r.opcode && ReadLE16(s[..12], 6) == r.error
            && ReadLE16(s[..12], 8) == |r.data|
    ensures s[12..12 + |r.data|] == r.data && s[12 + |r.data|..] == after
  {
    var m, e, l := LE32(RPC_MAGIC), LE16(r.error), LE16(|r.data|);
    hide LE32, LE16;
    assert s == [m[0], m[1], m[2], m[3], r.opcode, 0, e[0], e[1], l[0], l[1], 0, 0] + r.data + after;
  }

  /** One copy at the offset, which moves behind it. */
  method PutAt(buffer: array<byte>, offset: nat, part: seq<byte>) returns (next: nat)
    requires offset + |part| <= buffer.Length
    modifies buffer
    ensures next == offset + |part| && buffer[..next] == old(buffer[..offset]) + part
  {
    hide Overwrite;
    OverwriteAppend(buffer[..], offset, part[0..0 + |part|]);
    CopyInto(part, 0, |part|, buffer, offset);
    next := offset + |part|;
  }

  /** The internal request of a topic: three 16-bit fields, then topic and message. */
  method CreateRequest(buffer: array<byte>, topic: seq<byte>, partition: u16, message: seq<byte>)
    requires buffer.Length == 1024 && 6 + |topic| + |message| <= 1024
    modifies buffer
    ensures PartitionId(buffer[..]) == partition
    ensures TopicName(buffer[..]) == topic && MessageView(buffer[..]) == message
  {
    hide LE16, PartitionId, TopicName, MessageView;
    var offset := PutAt(buffer, 0, LE16(|topic|));
    offset := PutAt(buffer, offset, LE16(partition));
    offset := PutAt(buffer, offset, LE16(|message|));
    offset := PutAt(buffer, offset, topic);
    offset := PutAt(buffer, offset, message);
    RequestFields(buffer[..], topic, partition, message);
  }

  lemma RequestFields(b: seq<byte>, topic: seq<byte>, partition: u16, message: seq<byte>)
    requires |b| == 1024 && 6 + |topic| + |message| <= 1024
    requires b[..6 + |topic| + |message|] == LE16(|topic|) + LE16(partition) + LE16(|message|) + topic + message
    ensures PartitionId(b) == partition && TopicName(b) == topic && MessageView(b) == message
  {
    var p := b[..6 + |topic| + |message|];
    var l, q, m := LE16(|topic|), LE16(partition), LE16(|message|);
    assert p[0] == l[0] && p[1] == l[1] && p[2] == q[0] && p[3] == q[1] && p[4] == m[0] && p[5] == m[1];
    assert p[6..6 + |topic|] == topic && p[6 + |topic|..] == message;
    Part(b, 0, |p|, 6, |topic|);
    Part(b, 0, |p|, 6 + |topic|, |message|);
  }

  /** The accessors of request_t on its bytes. */
  function TopicNameLen(b: seq<byte>): nat
    requires |b| == 1024
  {
    ReadLE16(b, 0)
  }

  function PartitionId(b: seq<byte>): nat
    requires |b| == 1024
  {
    ReadLE16(b, 2)
  }

  function MessageLen(b: seq<byte>): nat
    requires |b| == 1024
  {
    ReadLE16(b, 4)
  }

  function TopicName(b: seq<byte>): seq<byte>
    requires |b| == 1024
  {
    if 6 + TopicNameLen(b) <= 1024 then b[6..6 + TopicNameLen(b)] else []
  }

  function MessageView(b: seq<byte>): seq<byte>
    requires |b| == 1024
  {
    var from := 6 + TopicNameLen(b);
    if from + MessageLen(b) <= 1024 then b[from..from + MessageLen(b)] else []
  }
}
