/** The wire format of pkg/tcp: a 128-byte header, then, when there is a body,
    the JSON body, a 4-byte block length and the block. */
module Framing {
  import opened Bytes

  const SEQ_END: nat := 8
  const METHOD_END: nat := 24
  const LENGTH_END: nat := 28
  const HEADER_LEN: nat := 128
  const BLOCK_LEN: nat := 4

  // ---------------------------------------------------------------- JSON, abstractly

  /** The non-null values a body can hold. */
  type Json(==, !new)

  datatype Decoded = Value(json: Json) | Null | Malformed

  /** encoding/json as the codec uses it: Marshal may fail, Decode may meet `null` or garbage. */
  datatype JsonCodec = JsonCodec(marshal: Json -> Option<seq<byte>>, unmarshal: seq<byte> -> Decoded)

  /** What encoding/json is trusted for: an encoding is never empty and decodes to its value. */
  ghost predicate Lawful(j: JsonCodec) {
    forall v :: j.marshal(v).Some? ==>
      j.marshal(v).value != [] && j.unmarshal(j.marshal(v).value) == Value(v)
  }

  // ---------------------------------------------------------------- headers

  datatype Header = Header(seqno: nat, service: seq<byte>, bodyLength: nat, error: seq<byte>)

  function HeaderBytes(h: Header): (s: seq<byte>)
    ensures |s| == HEADER_LEN
  {
    BigEndian(h.seqno, 8) + Field(h.service, 16) + BigEndian(h.bodyLength, 4) + Field(h.error, 100)
  }

  function ParseHeader(s: seq<byte>): Header
    requires |s| == HEADER_LEN
  {
    Header(FromBigEndian(s[..SEQ_END]), NonZero(s[SEQ_END..METHOD_END]),
           FromBigEndian(s[METHOD_END..LENGTH_END]), NonZero(s[LENGTH_END..]))
  }

  /** What of a header survives the wire. */
  function Received(h: Header): Header {
    Header(h.seqno % TWO_64, Project(h.service, 16), h.bodyLength % TWO_32, Project(h.error, 100))
  }

  lemma HeaderRoundTrip(h: Header)
    ensures ParseHeader(HeaderBytes(h)) == Received(h)
  {
    var s := HeaderBytes(h);
    assert s[..SEQ_END] == BigEndian(h.seqno, 8);
    assert s[SEQ_END..METHOD_END] == Field(h.service, 16);
    assert s[METHOD_END..LENGTH_END] == BigEndian(h.bodyLength, 4);
    assert s[LENGTH_END..] == Field(h.error, 100);
    BigEndianRoundTrip(h.seqno, 8);
    BigEndianRoundTrip(h.bodyLength, 4);
    WordSizes();
    FieldRoundTrip(h.service, 16);
    FieldRoundTrip(h.error, 100);
  }

  /** writeRequestHeader (client and server): the header is assembled in one zeroed buffer. */
  method FillHeader(h: Header) returns (buf: array<byte>)
    ensures fresh(buf) && buf[..] == HeaderBytes(h)
  {
    buf := new byte[HEADER_LEN](_ => 0);
    CopyInto(buf, 0, BigEndian(h.seqno, 8));
    CopyInto(buf, SEQ_END, Take(h.service, 16));
    CopyInto(buf, METHOD_END, BigEndian(h.bodyLength, 4));
    CopyInto(buf, LENGTH_END, Take(h.error, 100));
    assert buf[SEQ_END..METHOD_END] == Field(h.service, 16);
    assert buf[LENGTH_END..] == Field(h.error, 100);
    assert buf[..] == buf[..SEQ_END] + buf[SEQ_END..METHOD_END] + buf[METHOD_END..LENGTH_END] + buf[LENGTH_END..];
  }

  method CopyInto(buf: array<byte>, at: nat, src: seq<byte>)
    requires at + |src| <= buf.Length
    modifies buf
    ensures forall k :: 0 <= k < buf.Length ==>
      buf[k] == if at <= k < at + |src| then src[k - at] else old(buf[k])
  {
    for i := 0 to |src|
      invariant forall k :: 0 <= k < buf.Length ==>
        buf[k] == if at <= k < at + i then src[k - at] else old(buf[k])
    {
      buf[at + i] := src[i];
    }
  }

  // ---------------------------------------------------------------- frames

  datatype Message = Message(seqno: nat, service: seq<byte>, error: seq<byte>, body: Option<Json>, block: seq<byte>)

  /** The byte strings handed to Write, one per call, for a request or a response;
      None when Marshal fails, before anything is written. */
  function Chunks(j: JsonCodec, m: Message): (r: Option<seq<seq<byte>>>)
    ensures r.Some? ==> r.value != []
  {
    match m.body
    case None => Some([HeaderBytes(Header(m.seqno, m.service, 0, m.error))])
    case Some(v) =>
      match j.marshal(v)
      case None => None
      case Some(bs) =>
        var head := [HeaderBytes(Header(m.seqno, m.service, |bs|, m.error))];
        if m.error != [] then Some(head)
        else Some(head + [bs, BigEndian(|m.block|, 4)] + (if m.block == [] then [] else [m.block]))
  }

  function Flatten(chunks: seq<seq<byte>>): seq<byte> {
    if chunks == [] then [] else chunks[0] + Flatten(chunks[1..])
  }

  /** All the bytes of one message; nothing when it cannot be encoded. */
  function Frame(j: JsonCodec, m: Message): seq<byte> {
    match Chunks(j, m) case None => [] case Some(c) => Flatten(c)
  }

  /** The part of a frame after its header. */
  function PayloadBytes(j: JsonCodec, m: Message): seq<byte> {
    if m.body.None? || m.error != [] || j.marshal(m.body.value).None? then []
    else j.marshal(m.body.value).value + BigEndian(|m.block|, 4) + m.block
  }

  function HeaderOf(j: JsonCodec, m: Message): Header {
    Header(m.seqno, m.service,
           if m.body.None? || j.marshal(m.body.value).None? then 0 else |j.marshal(m.body.value).value|, m.error)
  }

  lemma FrameShape(j: JsonCodec, m: Message)
    requires Chunks(j, m).Some?
    ensures Frame(j, m) == HeaderBytes(HeaderOf(j, m)) + PayloadBytes(j, m)
  {
    var c := Chunks(j, m).value;
    assert c[0] == HeaderBytes(HeaderOf(j, m));
    assert Flatten(c) == c[0] + Flatten(c[1..]);
    if |c| == 1 {
      assert c[1..] == [] && PayloadBytes(j, m) == [];
    } else {
      PayloadChunks(j, m, c[1..]);
    }
  }

  lemma PayloadChunks(j: JsonCodec, m: Message, c: seq<seq<byte>>)
    requires m.body.Some? && m.error == [] && j.marshal(m.body.value).Some?
    requires c == [j.marshal(m.body.value).value, BigEndian(|m.block|, 4)] + if m.block == [] then [] else [m.block]
    ensures Flatten(c) == PayloadBytes(j, m)
  {
    var bs := j.marshal(m.body.value).value;
    var rest: seq<seq<byte>> := if m.block == [] then [] else [m.block];
    assert c[1..] == [BigEndian(|m.block|, 4)] + rest && c[1..][1..] == rest;
    assert Flatten(rest) == m.block by {
      assert m.block != [] ==> rest[1..] == [];
    }
    assert Flatten(c[1..]) == BigEndian(|m.block|, 4) + m.block;
  }

  // ---------------------------------------------------------------- reading

  datatype Payload = Payload(body: Option<Json>, block: seq<byte>, used: nat) | Incomplete | BadBody

  /** readRequest (strict: a body that does not decode is an error) and readBody (the client
      ignores it). The block is read only when a body is there to hold it. */
  function ReadPayload(j: JsonCodec, bodyLength: nat, s: seq<byte>, strict: bool): (p: Payload)
    ensures p.Payload? ==> p.used <= |s|
  {
    if bodyLength == 0 then Payload(None, [], 0)
    else if |s| < bodyLength then Incomplete
    else
      var d := j.unmarshal(s[..bodyLength]);
      var at := bodyLength + BLOCK_LEN;
      if strict && d.Malformed? then BadBody
      else if |s| < at then Incomplete
      else
        var n := FromBigEndian(s[bodyLength..at]);
        if d.Value? && n > 0 then
          if |s| < at + n then Incomplete else Payload(Some(d.json), s[at..at + n], at + n)
        else
          Payload(if d.Value? then Some(d.json) else None, [], at)
  }

  /** More bytes behind a payload that is already complete do not change it. */
  lemma ReadPayloadMonotone(j: JsonCodec, bodyLength: nat, s: seq<byte>, t: seq<byte>, strict: bool)
    requires s <= t
    requires ReadPayload(j, bodyLength, s, strict).Payload?
    ensures ReadPayload(j, bodyLength, t, strict) == ReadPayload(j, bodyLength, s, strict)
  {
    if bodyLength > 0 {
      var at := bodyLength + BLOCK_LEN;
      assert s[..bodyLength] == t[..bodyLength];
      assert s[bodyLength..at] == t[bodyLength..at];
      var n := FromBigEndian(s[bodyLength..at]);
      if j.unmarshal(s[..bodyLength]).Value? && n > 0 {
        assert s[at..at + n] == t[at..at + n];
      }
    }
  }

  /** A message whose numbers fit their fields and whose body is encodable. */
  predicate Sendable(j: JsonCodec, m: Message) {
    m.seqno < TWO_64 &&
    (m.body.Some? ==>
       && m.error == []
       && |m.block| < TWO_32
       && j.marshal(m.body.value).Some?
       && |j.marshal(m.body.value).value| < TWO_32)
  }

  /** The block travels only with a body. */
  function SentBlock(body: Option<Json>, block: seq<byte>): seq<byte> {
    if body.None? then [] else block
  }

  /** What of a message survives the wire. */
  function Arrived(m: Message): Message {
    Message(m.seqno, Project(m.service, 16), Project(m.error, 100), m.body, SentBlock(m.body, m.block))
  }

  lemma BlockLengthRoundTrip(n: nat)
    requires n < TWO_32
    ensures FromBigEndian(BigEndian(n, 4)) == n
  {
    BigEndianRoundTrip(n, 4);
    WordSizes();
  }

  lemma PayloadRoundTrip(j: JsonCodec, m: Message, tail: seq<byte>, strict: bool)
    requires Lawful(j) && Sendable(j, m)
    ensures ReadPayload(j, HeaderOf(j, m).bodyLength, PayloadBytes(j, m) + tail, strict)
         == Payload(m.body, SentBlock(m.body, m.block), |PayloadBytes(j, m)|)
  {
    if m.body.Some? {
      var bs := j.marshal(m.body.value).value;
      var s := PayloadBytes(j, m) + tail;
      var at := |bs| + BLOCK_LEN;
      assert s[..|bs|] == bs;
      assert s[|bs|..at] == BigEndian(|m.block|, 4);
      assert s[at..at + |m.block|] == m.block;
      BlockLengthRoundTrip(|m.block|);
    }
  }

  lemma FrameSplit(j: JsonCodec, m: Message, tail: seq<byte>)
    requires Chunks(j, m).Some?
    ensures |Frame(j, m)| == HEADER_LEN + |PayloadBytes(j, m)|
    ensures (Frame(j, m) + tail)[..HEADER_LEN] == HeaderBytes(HeaderOf(j, m))
    ensures (Frame(j, m) + tail)[HEADER_LEN..] == PayloadBytes(j, m) + tail
  {
    FrameShape(j, m);
  }

  lemma HeaderArrives(j: JsonCodec, m: Message)
    requires m.seqno < TWO_64 && HeaderOf(j, m).bodyLength < TWO_32
    ensures ParseHeader(HeaderBytes(HeaderOf(j, m)))
         == Header(m.seqno, Project(m.service, 16), HeaderOf(j, m).bodyLength, Project(m.error, 100))
  {
    var h := HeaderOf(j, m);
    HeaderRoundTrip(h);
    SmallMod(h.seqno, TWO_64);
    SmallMod(h.bodyLength, TWO_32);
  }

  lemma SmallMod(n: nat, d: nat)
    requires n < d
    ensures n % d == n
  {}

  datatype Read = Got(message: Message, used: nat) | Stop

  /** One turn of the reader: a header, then its payload. */
  function ReadMessage(j: JsonCodec, s: seq<byte>, strict: bool): (r: Read)
    ensures r.Got? ==> HEADER_LEN <= r.used <= |s|
  {
    if |s| < HEADER_LEN then Stop else
      var h := ParseHeader(s[..HEADER_LEN]);
      match ReadPayload(j, h.bodyLength, s[HEADER_LEN..], strict)
      case Payload(body, block, used) =>
        Got(Message(h.seqno, h.service, h.error, body, block), HEADER_LEN + used)
      case _ => Stop
  }

  /** One frame, followed by anything, is read back and leaves exactly what follows. */
  lemma FrameRoundTrip(j: JsonCodec, m: Message, tail: seq<byte>, strict: bool)
    requires Lawful(j) && Sendable(j, m)
    ensures ReadMessage(j, Frame(j, m) + tail, strict) == Got(Arrived(m), |Frame(j, m)|)
  {
    FrameSplit(j, m, tail);
    HeaderArrives(j, m);
    PayloadRoundTrip(j, m, tail, strict);
  }

  // ---------------------------------------------------------------- streams

  /** The frames of `ms`, one after the other. */
  function Stream(j: JsonCodec, ms: seq<Message>): seq<byte> {
    if ms == [] then [] else Stream(j, ms[..|ms| - 1]) + Frame(j, ms[|ms| - 1])
  }

  lemma StreamAppend(j: JsonCodec, ms: seq<Message>, m: Message)
    ensures Stream(j, ms + [m]) == Stream(j, ms) + Frame(j, m)
  {
    assert (ms + [m])[..|ms|] == ms;
  }

  // ---------------------------------------------------------------- a writer's bytes

  /** The bytes accepted and the chunks still to come make up the frames begun. After a failed
      Write nothing is to come, and the last frame may be short. */
  ghost predicate Accounted(j: JsonCodec, ms: seq<Message>, out: seq<byte>, rest: seq<seq<byte>>, broken: bool) {
    if broken then rest == [] && out <= Stream(j, ms) else out + Flatten(rest) == Stream(j, ms)
  }

  lemma FrameBegun(j: JsonCodec, ms: seq<Message>, out: seq<byte>, m: Message)
    requires Accounted(j, ms, out, [], false) && Chunks(j, m).Some?
    ensures Accounted(j, ms + [m], out, Chunks(j, m).value, false)
  {
    StreamAppend(j, ms, m);
    assert out + [] == out;
  }

  lemma ChunkWritten(j: JsonCodec, ms: seq<Message>, out: seq<byte>, rest: seq<seq<byte>>)
    requires Accounted(j, ms, out, rest, false) && rest != []
    ensures Accounted(j, ms, out + rest[0], rest[1..], false)
  {
    assert out + (rest[0] + Flatten(rest[1..])) == (out + rest[0]) + Flatten(rest[1..]);
  }

  lemma ChunkCut(j: JsonCodec, ms: seq<Message>, out: seq<byte>, rest: seq<seq<byte>>, n: nat)
    requires Accounted(j, ms, out, rest, false) && rest != [] && n <= |rest[0]|
    ensures Accounted(j, ms, out + rest[0][..n], [], true)
  {
    var x, y := rest[0][..n], rest[0][n..] + Flatten(rest[1..]);
    assert Flatten(rest) == x + y;
    assert out + (x + y) == (out + x) + y;
  }

  /** With nothing to come, every frame begun is there to its last byte. */
  lemma AllWritten(j: JsonCodec, ms: seq<Message>, out: seq<byte>, k: nat)
    requires Accounted(j, ms, out, [], false) && k <= |ms|
    ensures Stream(j, ms[..k]) <= out
  {
    StreamPrefix(j, ms, k);
    assert out + [] == out;
  }

  // ---------------------------------------------------------------- a reader's place in a stream

  /** Frame k of a stream starts where the first k frames end. */
  lemma {:induction false} StreamAt(j: JsonCodec, ms: seq<Message>, k: nat)
    requires k < |ms|
    ensures |Stream(j, ms[..k + 1])| == |Stream(j, ms[..k])| + |Frame(j, ms[k])|
    ensures Stream(j, ms[..k]) + Frame(j, ms[k]) <= Stream(j, ms)
  {
    assert ms[..k + 1][..k] == ms[..k];
    if k + 1 < |ms| {
      var init := ms[..|ms| - 1];
      StreamAt(j, init, k);
      assert init[..k] == ms[..k];
    } else {
      assert ms[..k + 1] == ms;
    }
  }

  lemma {:induction false} StreamPrefix(j: JsonCodec, ms: seq<Message>, k: nat)
    requires k <= |ms|
    ensures Stream(j, ms[..k]) <= Stream(j, ms)
  {
    if k == |ms| {
      assert ms[..k] == ms;
    } else {
      StreamAt(j, ms, k);
    }
  }

  lemma PrefixTail(x: seq<byte>, y: seq<byte>, s: seq<byte>)
    requires x + y <= s
    ensures s == x + (y + s[|x + y|..])
  {}

  lemma SplitAt(j: JsonCodec, ms: seq<Message>, k: nat) returns (tail: seq<byte>)
    requires k < |ms|
    ensures Stream(j, ms) == Stream(j, ms[..k]) + (Frame(j, ms[k]) + tail)
  {
    StreamAt(j, ms, k);
    PrefixTail(Stream(j, ms[..k]), Frame(j, ms[k]), Stream(j, ms));
    tail := Stream(j, ms)[|Stream(j, ms[..k]) + Frame(j, ms[k])|..];
  }

  lemma SkipPrefix(x: seq<byte>, y: seq<byte>, out: seq<byte>, n: nat)
    requires out <= x + y && |x| + n <= |out|
    ensures n <= |y|
    ensures out[|x|..|x| + n] == y[..n]
    ensures out[|x| + n..] <= y[n..]
  {}

  /** What a reader that stands where k frames end can see of a stream that is cut anywhere. */
  lemma Window(j: JsonCodec, ms: seq<Message>, k: nat, out: seq<byte>) returns (tail: seq<byte>)
    requires k < |ms| && out <= Stream(j, ms) && Chunks(j, ms[k]).Some?
    requires |out| >= |Stream(j, ms[..k])| + HEADER_LEN
    ensures
      var p := |Stream(j, ms[..k])|;
      && out[p..p + HEADER_LEN] == HeaderBytes(HeaderOf(j, ms[k]))
      && out[p + HEADER_LEN..] <= PayloadBytes(j, ms[k]) + tail
  {
    tail := SplitAt(j, ms, k);
    SkipPrefix(Stream(j, ms[..k]), Frame(j, ms[k]) + tail, out, HEADER_LEN);
    FrameSplit(j, ms[k], tail);
  }

  lemma TakeAll(ms: seq<Message>)
    ensures ms[..|ms|] == ms
  {}

  /** The header of a message as its reader sees it. */
  function HeaderSeen(j: JsonCodec, m: Message): Header {
    Header(m.seqno, Project(m.service, 16), HeaderOf(j, m).bodyLength, Project(m.error, 100))
  }

  /** If it finds a whole header there, it is that of frame k. */
  lemma HeaderInStream(j: JsonCodec, ms: seq<Message>, k: nat, out: seq<byte>, p: nat)
    requires k <= |ms| && out <= Stream(j, ms)
    requires p == |Stream(j, ms[..k])| && p + HEADER_LEN <= |out|
    requires forall i :: 0 <= i < |ms| ==> Sendable(j, ms[i])
    ensures k < |ms|
    ensures ParseHeader(out[p..p + HEADER_LEN]) == HeaderSeen(j, ms[k])
  {
    TakeAll(ms);
    var tail := Window(j, ms, k, out);
    HeaderArrives(j, ms[k]);
  }

  /** Behind that header it can only find frame k's payload, and then stands where k + 1 frames end. */
  lemma PayloadInStream(j: JsonCodec, ms: seq<Message>, k: nat, out: seq<byte>, p: nat, strict: bool)
    requires Lawful(j) && k < |ms| && out <= Stream(j, ms) && Sendable(j, ms[k])
    requires p == |Stream(j, ms[..k])| + HEADER_LEN && p <= |out|
    ensures
      var r := ReadPayload(j, HeaderOf(j, ms[k]).bodyLength, out[p..], strict);
      r.Payload? ==>
        && r.body == ms[k].body && r.block == SentBlock(ms[k].body, ms[k].block)
        && p + r.used == |Stream(j, ms[..k + 1])|
  {
    var tail := Window(j, ms, k, out);
    StreamAt(j, ms, k);
    FrameSplit(j, ms[k], []);
    PayloadRoundTrip(j, ms[k], tail, strict);
    if ReadPayload(j, HeaderOf(j, ms[k]).bodyLength, out[p..], strict).Payload? {
      ReadPayloadMonotone(j, HeaderOf(j, ms[k]).bodyLength, out[p..], PayloadBytes(j, ms[k]) + tail, strict);
    }
  }

  /** One turn of serveCodec: a request for a service that is not registered ends it. */
  function Serve(j: JsonCodec, services: set<seq<byte>>, s: seq<byte>): (r: Read)
    ensures r.Got? ==> HEADER_LEN <= r.used <= |s|
  {
    if |s| >= HEADER_LEN && ParseHeader(s[..HEADER_LEN]).service !in services then Stop
    else ReadMessage(j, s, true)
  }

  /** Its loop over a byte stream: a header, its payload, and again. */
  function Decode(j: JsonCodec, services: set<seq<byte>>, s: seq<byte>): seq<Message>
    decreases |s|
  {
    match Serve(j, services, s)
    case Got(m, used) => [m] + Decode(j, services, s[used..])
    case Stop => []
  }

  method ReadRequest(j: JsonCodec, services: set<seq<byte>>, s: seq<byte>) returns (r: Read)
    ensures r.Got? ==> 0 < r.used <= |s| && Decode(j, services, s) == [r.message] + Decode(j, services, s[r.used..])
    ensures r.Stop? ==> Decode(j, services, s) == []
  {
    r := Serve(j, services, s);
  }

  /** That loop, as serveCodec runs it. */
  method ReadRequests(j: JsonCodec, services: set<seq<byte>>, s: seq<byte>) returns (ms: seq<Message>)
    ensures ms == Decode(j, services, s)
  {
    ms := [];
    var rest := s;
    var r := ReadRequest(j, services, rest);
    while r.Got?
      invariant r.Got? ==>
        0 < r.used <= |rest| && Decode(j, services, rest) == [r.message] + Decode(j, services, rest[r.used..])
      invariant r.Stop? ==> Decode(j, services, rest) == []
      invariant ms + Decode(j, services, rest) == Decode(j, services, s)
      decreases |rest|
    {
      Associative(ms, [r.message], Decode(j, services, rest[r.used..]));
      ms, rest := ms + [r.message], rest[r.used..];
      r := ReadRequest(j, services, rest);
    }
  }

  lemma StreamOne(j: JsonCodec, m: Message)
    ensures Stream(j, [m]) == Frame(j, m)
  {
    assert [m][..0] == [];
    assert [] + Frame(j, m) == Frame(j, m);
  }

  /** Frames in order of writing, taken from the front. */
  lemma {:induction false} StreamCons(j: JsonCodec, m: Message, ms: seq<Message>)
    ensures Stream(j, [m] + ms) == Frame(j, m) + Stream(j, ms)
    decreases |ms|
  {
    if ms == [] {
      StreamOne(j, m);
      assert [m] + ms == [m];
    } else {
      var init, last := ms[..|ms| - 1], ms[|ms| - 1];
      assert ms == init + [last];
      Associative([m], init, [last]);
      StreamAppend(j, [m] + init, last);
      StreamCons(j, m, init);
      Associative(Frame(j, m), Stream(j, init), Frame(j, last));
    }
  }

  lemma StreamHead(j: JsonCodec, ms: seq<Message>)
    requires ms != []
    ensures Stream(j, ms) == Frame(j, ms[0]) + Stream(j, ms[1..])
  {
    var m, rest := ms[0], ms[1..];
    assert [m] + rest == ms;
    StreamCons(j, m, rest);
  }

  /** How many requests come before the first one for an unknown service. */
  function Served(services: set<seq<byte>>, ms: seq<Message>): (n: nat)
    ensures n <= |ms|
  {
    if ms == [] || Project(ms[0].service, 16) !in services then 0 else 1 + Served(services, ms[1..])
  }

  lemma ServeFrame(j: JsonCodec, services: set<seq<byte>>, m: Message, tail: seq<byte>)
    requires Lawful(j) && Sendable(j, m)
    ensures Serve(j, services, Frame(j, m) + tail) ==
      if Project(m.service, 16) in services then Got(Arrived(m), |Frame(j, m)|) else Stop
  {
    FrameSplit(j, m, tail);
    HeaderArrives(j, m);
    FrameRoundTrip(j, m, tail, true);
  }

  lemma DecodeCons(j: JsonCodec, services: set<seq<byte>>, m: Message, tail: seq<byte>)
    requires Lawful(j) && Sendable(j, m)
    ensures Decode(j, services, Frame(j, m) + tail) ==
      if Project(m.service, 16) in services then [Arrived(m)] + Decode(j, services, tail) else []
  {
    ServeFrame(j, services, m, tail);
    assert (Frame(j, m) + tail)[|Frame(j, m)|..] == tail;
  }

  function ArrivedAll(ms: seq<Message>): seq<Message> {
    seq(|ms|, i requires 0 <= i < |ms| => Arrived(ms[i]))
  }

  lemma ArrivedAllCons(ms: seq<Message>, n: nat)
    requires n < |ms|
    ensures ArrivedAll(ms[..n + 1]) == [Arrived(ms[0])] + ArrivedAll(ms[1..][..n])
  {}

  /** Reading a concatenation of frames gives back the messages up to the first unknown service,
      each through the wire's projection of its two text fields. */
  lemma {:induction false} DecodeStream(j: JsonCodec, services: set<seq<byte>>, ms: seq<Message>)
    requires Lawful(j)
    requires forall i :: 0 <= i < |ms| ==> Sendable(j, ms[i])
    ensures Decode(j, services, Stream(j, ms)) == ArrivedAll(ms[..Served(services, ms)])
    decreases |ms|
  {
    if ms != [] {
      StreamHead(j, ms);
      DecodeCons(j, services, ms[0], Stream(j, ms[1..]));
      if Project(ms[0].service, 16) in services {
        DecodeStream(j, services, ms[1..]);
        ArrivedAllCons(ms, Served(services, ms[1..]));
      }
    }
  }

  /** For methods of at most 16 NUL-free bytes and no error text, requests come back whole. */
  lemma RequestsRoundTrip(j: JsonCodec, services: set<seq<byte>>, ms: seq<Message>)
    requires Lawful(j)
    requires forall i :: 0 <= i < |ms| ==>
      Sendable(j, ms[i]) && |ms[i].service| <= 16 && 0 !in ms[i].service && ms[i].error == []
      && (ms[i].body.None? ==> ms[i].block == [])
    ensures Decode(j, services, Stream(j, ms)) == ms[..Served(services, ms)]
  {
    DecodeStream(j, services, ms);
    forall i | 0 <= i < Served(services, ms) ensures Arrived(ms[i]) == ms[i] {
      ProjectLaws(ms[i].service, 16);
    }
  }

  // ---------------------------------------------------------------- the client's three branches

  /** Which sequence numbers are pending when the client reads frame number i. */
  type Pending = (nat, nat) -> bool

  /** How many bytes one turn of `input` consumes: an unknown sequence number and a success
      read the payload, an error reply reads nothing behind its header. */
  function ReplyConsumes(j: JsonCodec, known: Pending, i: nat, s: seq<byte>): (n: Option<nat>)
    ensures n.Some? ==> HEADER_LEN <= n.value <= |s|
  {
    if |s| < HEADER_LEN then None else
      var h := ParseHeader(s[..HEADER_LEN]);
      if known(i, h.seqno) && h.error != [] then Some(HEADER_LEN)
      else match ReadPayload(j, h.bodyLength, s[HEADER_LEN..], false)
        case Payload(_, _, used) => Some(HEADER_LEN + used)
        case _ => None
  }

  /** A reply as sendResponse builds it: an error carries no body. */
  predicate ReplyShaped(m: Message) {
    m.error != [] ==> m.body.None?
  }

  /** Exactly when the client's reader ends on the frame boundary, in each of its branches.
      It fails for a body that encodes to `null`, or to nothing readable, and comes with a block. */
  lemma ReplyBoundaryIff(j: JsonCodec, m: Message, known: Pending, i: nat, tail: seq<byte>)
    requires ReplyShaped(m) && m.seqno < TWO_64
    requires Chunks(j, m).Some? && HeaderOf(j, m).bodyLength < TWO_32
    requires m.body.Some? ==> |m.block| < TWO_32
    ensures
      ReplyConsumes(j, known, i, Frame(j, m) + tail) == Some(|Frame(j, m)|)
      <==>
      (m.body.Some? ==>
         var bs := j.marshal(m.body.value).value;
         bs != [] && (j.unmarshal(bs).Value? || m.block == []))
  {
    FrameSplit(j, m, tail);
    HeaderArrives(j, m);
    if m.body.Some? {
      PayloadBoundaryIff(j, m, tail, false);
    }
  }

  lemma PayloadBoundaryIff(j: JsonCodec, m: Message, tail: seq<byte>, strict: bool)
    requires m.body.Some? && m.error == [] && j.marshal(m.body.value).Some? && |m.block| < TWO_32
    ensures
      var bs := j.marshal(m.body.value).value;
      var p := ReadPayload(j, |bs|, PayloadBytes(j, m) + tail, strict);
      p.Payload? && p.used == |PayloadBytes(j, m)|
      <==> bs != [] && (j.unmarshal(bs).Value? || (m.block == [] && !(strict && j.unmarshal(bs).Malformed?)))
  {
    var bs := j.marshal(m.body.value).value;
    var p := PayloadBytes(j, m) + tail;
    assert p[..|bs|] == bs;
    assert p[|bs|..|bs| + BLOCK_LEN] == BigEndian(|m.block|, 4);
    BlockLengthRoundTrip(|m.block|);
  }

  /** Exactly when the server's reader ends on the frame boundary: it gives up on a body that does
      not decode, and leaves the block of a `null` body in the stream. */
  lemma RequestBoundaryIff(j: JsonCodec, m: Message, tail: seq<byte>)
    requires m.error == [] && m.seqno < TWO_64
    requires Chunks(j, m).Some? && HeaderOf(j, m).bodyLength < TWO_32
    requires m.body.Some? ==> |m.block| < TWO_32
    ensures
      var r := ReadMessage(j, Frame(j, m) + tail, true);
      r.Got? && r.used == |Frame(j, m)|
      <==>
      (m.body.Some? ==>
         var bs := j.marshal(m.body.value).value;
         bs != [] && (j.unmarshal(bs).Value? || (m.block == [] && j.unmarshal(bs).Null?)))
  {
    FrameSplit(j, m, tail);
    HeaderArrives(j, m);
    if m.body.Some? {
      PayloadBoundaryIff(j, m, tail, true);
    }
  }

  /** The lengths of the pieces the client's loop cuts `s` into, from its turn number i on. */
  function ClientFrames(j: JsonCodec, known: Pending, i: nat, s: seq<byte>): seq<nat>
    decreases |s|
  {
    match ReplyConsumes(j, known, i, s)
    case Some(used) => [used] + ClientFrames(j, known, i + 1, s[used..])
    case None => []
  }

  /** One turn of `input`: how much it consumes, or that it stops. */
  method ReadReply(j: JsonCodec, known: Pending, i: nat, s: seq<byte>) returns (n: Option<nat>)
    ensures n.Some? ==>
      0 < n.value <= |s| && ClientFrames(j, known, i, s) == [n.value] + ClientFrames(j, known, i + 1, s[n.value..])
    ensures n.None? ==> ClientFrames(j, known, i, s) == []
  {
    n := ReplyConsumes(j, known, i, s);
  }

  /** The loop of `input` over a stream, whatever is pending at each of its turns. */
  method ReadReplies(j: JsonCodec, known: Pending, s: seq<byte>) returns (cuts: seq<nat>)
    ensures cuts == ClientFrames(j, known, 0, s)
  {
    cuts := [];
    var rest, turn := s, 0;
    var n := ReadReply(j, known, turn, rest);
    while n.Some?
      invariant n.Some? ==>
        && 0 < n.value <= |rest|
        && ClientFrames(j, known, turn, rest) == [n.value] + ClientFrames(j, known, turn + 1, rest[n.value..])
      invariant n.None? ==> ClientFrames(j, known, turn, rest) == []
      invariant cuts + ClientFrames(j, known, turn, rest) == ClientFrames(j, known, 0, s)
      decreases |rest|
    {
      Associative(cuts, [n.value], ClientFrames(j, known, turn + 1, rest[n.value..]));
      cuts, rest, turn := cuts + [n.value], rest[n.value..], turn + 1;
      n := ReadReply(j, known, turn, rest);
    }
  }

  lemma ClientFramesCons(j: JsonCodec, known: Pending, i: nat, m: Message, tail: seq<byte>)
    requires Lawful(j) && ReplyShaped(m) && Sendable(j, m)
    ensures ClientFrames(j, known, i, Frame(j, m) + tail) == [|Frame(j, m)|] + ClientFrames(j, known, i + 1, tail)
  {
    ReplyBoundaryIff(j, m, known, i, tail);
    assert (Frame(j, m) + tail)[|Frame(j, m)|..] == tail;
  }

  function FrameLengths(j: JsonCodec, ms: seq<Message>): seq<nat> {
    seq(|ms|, i requires 0 <= i < |ms| => |Frame(j, ms[i])|)
  }

  lemma FrameLengthsCons(j: JsonCodec, ms: seq<Message>)
    requires ms != []
    ensures FrameLengths(j, ms) == [|Frame(j, ms[0])|] + FrameLengths(j, ms[1..])
  {}

  /** Over any list of replies, and whichever of them are still pending when they are read, the
      client consumes one frame at a time and stops on every boundary. */
  lemma {:induction false} ClientStopsOnBoundaries(j: JsonCodec, known: Pending, i: nat, ms: seq<Message>)
    requires Lawful(j)
    requires forall k :: 0 <= k < |ms| ==> ReplyShaped(ms[k]) && Sendable(j, ms[k])
    ensures ClientFrames(j, known, i, Stream(j, ms)) == FrameLengths(j, ms)
    decreases |ms|
  {
    if ms != [] {
      StreamHead(j, ms);
      ClientFramesCons(j, known, i, ms[0], Stream(j, ms[1..]));
      ClientStopsOnBoundaries(j, known, i + 1, ms[1..]);
      FrameLengthsCons(j, ms);
    }
  }

  /** The client sees an error reply as an error exactly when a non-zero byte of its text
      lies in the first 100 bytes; otherwise it takes it for an empty success. */
  lemma ErrorSeenIff(j: JsonCodec, m: Message, tail: seq<byte>)
    requires m.error != [] && m.body.None? && m.seqno < TWO_64
    ensures |Frame(j, m)| >= HEADER_LEN
    ensures
      ParseHeader((Frame(j, m) + tail)[..HEADER_LEN]).error != []
      <==> exists i :: 0 <= i < |m.error| && i < 100 && m.error[i] != 0
  {
    FrameSplit(j, m, tail);
    HeaderRoundTrip(HeaderOf(j, m));
    NonZeroEmptyIff(Take(m.error, 100));
  }

  lemma {:induction false} NonZeroEmptyIff(s: seq<byte>)
    ensures NonZero(s) != [] <==> exists i :: 0 <= i < |s| && s[i] != 0
  {
    if s != [] {
      NonZeroEmptyIff(s[1..]);
      if i :| 0 <= i < |s| && s[i] != 0 {
        assert i > 0 ==> s[1..][i - 1] != 0;
      }
    }
  }
}
