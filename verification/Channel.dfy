/**
 Multiplexed streams over one websocket (pkg/k8schannel/websocket.go): framing, chunking and per-stream
 buffering.  The class is one end of the connection; `System` interleaves a writing end and a reading end
 in atomic steps, one per lock acquisition.
 */
module Channel {
  import opened GoStrings

  type byte = x: int | 0 <= x < 256
  type Bytes = seq<byte>

  datatype Frame = Frame(stream: byte, payload: Bytes)
  datatype Stream = Stream(initialized: bool, buf: Bytes)
  type Streams = map<byte, Stream>
  datatype Error = Eof | Broken(code: int)

  const MAX_PAYLOAD := 1024

  // ---------- One end of the connection ----------

  /** `getStream`: a stream exists from its first use on. */
  function Touch(needsInit: bool, streams: Streams, num: byte): Streams {
    if num in streams then streams else streams[num := Stream(!needsInit, [])]
  }

  /** `pushStreamData`: the first frame of an uninitialised stream only initialises it. */
  function Push(needsInit: bool, streams: Streams, num: byte, data: Bytes): Streams {
    var all := Touch(needsInit, streams, num);
    var s := all[num];
    if !s.initialized then all[num := s.(initialized := true)] else all[num := s.(buf := s.buf + data)]
  }

  datatype ReadResult = Blocked | Returned(data: Bytes, err: Option<Error>)

  /** One attempt of `Read` with room for some bytes, in the state it finds under the stream's lock. */
  function ReadOnce(s: Stream, err: Option<Error>, room: nat): ReadResult {
    if s.buf != [] then
      var n := if room < |s.buf| then room else |s.buf|;
      Returned(s.buf[..n], if n == |s.buf| then err else None)
    else if err.Some? then Returned([], err)
    else Blocked
  }

  function AfterRead(s: Stream, r: ReadResult): Stream
    requires r.Returned? ==> |r.data| <= |s.buf|
  {
    if r.Blocked? then s else s.(buf := s.buf[|r.data|..])
  }

  /** The pieces a written buffer is cut into. */
  function Chunks(b: Bytes): (c: seq<Bytes>)
    ensures forall p :: p in c ==> 1 <= |p| <= MAX_PAYLOAD
    ensures Flatten(c) == b
    decreases |b|
  {
    if b == [] then []
    else if |b| <= MAX_PAYLOAD then assert [b][1..] == []; assert Flatten([]) == []; assert b + [] == b; [b]
    else
      var rest := Chunks(b[MAX_PAYLOAD..]);
      assert ([b[..MAX_PAYLOAD]] + rest)[1..] == rest;
      assert b[..MAX_PAYLOAD] + b[MAX_PAYLOAD..] == b;
      [b[..MAX_PAYLOAD]] + rest
  }

  /** Every piece but the last is as long as a frame can carry. */
  lemma {:induction false} ChunksFull(b: Bytes, i: nat)
    requires i < |Chunks(b)| - 1
    ensures |Chunks(b)[i]| == 1024
    decreases |b|
  {
    if i > 0 { ChunksFull(b[MAX_PAYLOAD..], i - 1); }
  }

  function Flatten(c: seq<Bytes>): Bytes {
    if c == [] then [] else c[0] + Flatten(c[1..])
  }

  lemma {:induction false} FlattenAppend(c: seq<Bytes>, d: seq<Bytes>)
    ensures Flatten(c + d) == Flatten(c) + Flatten(d)
  {
    if c == [] {
      assert c + d == d;
    } else {
      FlattenAppend(c[1..], d);
      assert (c + d)[1..] == c[1..] + d;
      assert Flatten(c) + Flatten(d) == c[0] + (Flatten(c[1..]) + Flatten(d));
    }
  }

  function FramesOf(num: byte, chunks: seq<Bytes>): seq<Frame> {
    seq(|chunks|, i requires 0 <= i < |chunks| => Frame(num, chunks[i]))
  }

  // ---------- What a write sends and what it reports ----------

  /** What becomes of a frame: sent, refused while it is put together, or lost when the message is closed. */
  datatype Outcome = Sent | Refused | LostAtClose

  /** How many pieces go out as frames, the first being attempt number `a`. */
  function SentCount(transport: nat -> Outcome, a: nat, chunks: seq<Bytes>): (k: nat)
    ensures k <= |chunks|
    decreases |chunks|
  {
    if chunks == [] || !transport(a).Sent? then 0 else 1 + SentCount(transport, a + 1, chunks[1..])
  }

  /** The number of bytes reported: a frame lost at the close is counted although it was not sent. */
  function Reported(transport: nat -> Outcome, a: nat, chunks: seq<Bytes>): nat
    decreases |chunks|
  {
    if chunks == [] then 0
    else
      match transport(a)
      case Sent => |chunks[0]| + Reported(transport, a + 1, chunks[1..])
      case Refused => 0
      case LostAtClose => |chunks[0]|
  }

  /** The report exceeds the bytes the frames carry by exactly the frame lost at the close, if one was. */
  lemma {:induction false} ReportedExcess(transport: nat -> Outcome, a: nat, chunks: seq<Bytes>)
    ensures var k := SentCount(transport, a, chunks);
            Reported(transport, a, chunks) ==
            |Flatten(chunks[..k])| + (if k < |chunks| && transport(a + k).LostAtClose? then |chunks[k]| else 0)
    decreases |chunks|
  {
    if chunks != [] && transport(a).Sent? {
      var k := SentCount(transport, a + 1, chunks[1..]);
      ReportedExcess(transport, a + 1, chunks[1..]);
      assert chunks[..k + 1][1..] == chunks[1..][..k];
    }
  }

  /** The count returned by a write is what its frames carry if and only if no frame was lost at the close. */
  lemma ReportIsCarriedIff(transport: nat -> Outcome, a: nat, b: Bytes)
    ensures var chunks := Chunks(b);
            var k := SentCount(transport, a, chunks);
            Reported(transport, a, chunks) == |Flatten(chunks[..k])| <==> k == |chunks| || !transport(a + k).LostAtClose?
  {
    ExcessIff(transport, a, Chunks(b));
  }

  lemma ExcessIff(transport: nat -> Outcome, a: nat, chunks: seq<Bytes>)
    requires forall p :: p in chunks ==> 1 <= |p|
    ensures var k := SentCount(transport, a, chunks);
            Reported(transport, a, chunks) == |Flatten(chunks[..k])| <==> k == |chunks| || !transport(a + k).LostAtClose?
  {
    ReportedExcess(transport, a, chunks);
    var k := SentCount(transport, a, chunks);
    assert k < |chunks| ==> chunks[k] in chunks;
  }

  /** A transport that breaks at the first close: a write of up to 1024 bytes reports all of them and sends nothing. */
  lemma LostWriteIsReported(b: Bytes)
    requires 0 < |b| <= MAX_PAYLOAD
    ensures var broken := (a: nat) => LostAtClose;
            SentCount(broken, 0, Chunks(b)) == 0 && Reported(broken, 0, Chunks(b)) == |b|
  {
  }

  lemma FlattenPrefix(c: seq<Bytes>, k: nat)
    requires k <= |c|
    ensures Flatten(c[..k]) <= Flatten(c) && (k == |c| ==> Flatten(c[..k]) == Flatten(c))
  {
    FlattenAppend(c[..k], c[k..]);
    assert c[..k] + c[k..] == c;
    if k == |c| { assert c[..k] == c; }
  }

  /** The bytes carried are a prefix of the buffer, and all of it when every frame is sent. */
  lemma CarriedPrefix(b: Bytes, k: nat)
    requires k <= |Chunks(b)|
    ensures Flatten(Chunks(b)[..k]) <= b
    ensures k == |Chunks(b)| ==> Flatten(Chunks(b)[..k]) == b
  {
    FlattenPrefix(Chunks(b), k);
  }

  lemma ChunksCons(b: Bytes, n: nat)
    requires b != [] && n == if |b| < MAX_PAYLOAD then |b| else MAX_PAYLOAD
    ensures Chunks(b) == [b[..n]] + Chunks(b[n..]) && Chunks(b)[1..] == Chunks(b[n..])
  {
    if |b| <= MAX_PAYLOAD {
      assert b[..n] == b && b[n..] == [];
      assert Chunks([]) == [] && [b] + [] == [b];
    }
  }

  lemma FramesCons(num: byte, head: Bytes, rest: seq<Bytes>)
    ensures FramesOf(num, [head] + rest) == [Frame(num, head)] + FramesOf(num, rest)
  {
  }

  class Connection {
    const needsInit: bool
    /** What the transport does with the frame attempted as number so and so. */
    const transport: nat -> Outcome
    var streams: Streams
    var err: Option<Error>
    var attempts: nat
    var sent: seq<Frame>

    constructor (needsInit: bool, transport: nat -> Outcome)
      ensures this.needsInit == needsInit && this.transport == transport
      ensures streams == map[] && err == None && sent == []
    {
      this.needsInit, this.transport := needsInit, transport;
      streams, err, attempts, sent := map[], None, 0, [];
    }

    method GetStream(num: byte) returns (s: Stream)
      modifies this`streams
      ensures streams == Touch(needsInit, old(streams), num) && num in streams && s == streams[num]
    {
      if num !in streams {
        streams := streams[num := Stream(!needsInit, [])];
      }
      s := streams[num];
    }

    method PushStreamData(num: byte, data: Bytes)
      modifies this`streams
      ensures streams == Push(needsInit, old(streams), num, data)
    {
      var s := GetStream(num);
      if !s.initialized {
        streams := streams[num := s.(initialized := true)];
        return;
      }
      streams := streams[num := s.(buf := s.buf + data)];
    }

    /** One round of the read loop: a message, possibly cut short by an error, then the error; true ends the loop. */
    method OnMessage(data: Bytes, failure: Option<Error>) returns (done: bool)
      modifies this`streams, this`err
      ensures streams == if data == [] then old(streams) else Push(needsInit, old(streams), data[0], data[1..])
      ensures err == (if failure.Some? then failure else old(err)) && done == failure.Some?
    {
      if |data| > 0 {
        PushStreamData(data[0], data[1..]);
      }
      if failure.Some? {
        err := failure;
        return true;
      }
      return false;
    }

    method Read(num: byte, room: nat) returns (r: ReadResult)
      modifies this`streams
      ensures var all := Touch(needsInit, old(streams), num);
              r == ReadOnce(all[num], err, room) && streams == all[num := AfterRead(all[num], r)]
      ensures num in old(streams) && old(streams)[num].buf != [] ==>
                var buf := old(streams)[num].buf;
                && r.Returned? && r.data == (if room < |buf| then buf[..room] else buf)
                && num in streams && streams[num].buf == (if room < |buf| then buf[room..] else [])
                && r.err == if room < |buf| then None else err
      ensures num !in old(streams) || old(streams)[num].buf == [] ==> r == if err.Some? then Returned([], err) else Blocked
    {
      var s := GetStream(num);
      if |s.buf| > 0 {
        var n := if room < |s.buf| then room else |s.buf|;
        streams := streams[num := s.(buf := s.buf[n..])];
        if n == |s.buf| && err.Some? {
          return Returned(s.buf[..n], err);
        }
        return Returned(s.buf[..n], None);
      }
      if err.Some? {
        return Returned([], err);
      }
      return Blocked;
    }

    /** The locked part of `Write`: one frame, sent whole or not at all. */
    method SendFrame(num: byte, b: Bytes) returns (n: nat, failed: bool)
      modifies this`sent, this`attempts
      ensures var o := transport(old(attempts));
              && attempts == old(attempts) + 1 && failed == !o.Sent?
              && sent == (if failed then old(sent) else old(sent) + [Frame(num, b)])
              && n == if o.Refused? then 0 else |b|
    {
      attempts := attempts + 1;
      match transport(attempts - 1) {
        case Sent =>
          sent := sent + [Frame(num, b)];
          return |b|, false;
        case Refused =>
          return 0, true;
        case LostAtClose =>
          return |b|, true;
      }
    }

    /** `Write`: everything in frames of at most 1024 bytes, up to the first frame that is not sent. */
    method Write(num: byte, b: Bytes) returns (n: nat, failed: bool)
      modifies this`sent, this`attempts
      ensures var k := SentCount(transport, old(attempts), Chunks(b));
              && sent == old(sent) + FramesOf(num, Chunks(b)[..k])
              && failed == (k < |Chunks(b)|)
              && attempts == old(attempts) + k + (if failed then 1 else 0)
              && n == Reported(transport, old(attempts), Chunks(b))
      decreases |b|
    {
      if |b| == 0 {
        return 0, false;
      }
      if |b| > MAX_PAYLOAD {
        HeadThenRest(transport, attempts, b, num, sent);
        n, failed := Write(num, b[..MAX_PAYLOAD]);
        if failed {
          return;
        }
        var n2, failed2 := Write(num, b[MAX_PAYLOAD..]);
        n, failed := n + n2, failed2;
        return;
      }
      OneChunk(transport, attempts, b, num);
      n, failed := SendFrame(num, b);
    }
  }

  /** A buffer that fits one frame. */
  lemma OneChunk(transport: nat -> Outcome, a: nat, b: Bytes, num: byte)
    requires 0 < |b| <= MAX_PAYLOAD
    ensures Chunks(b) == [b]
    ensures SentCount(transport, a, [b]) == (if transport(a).Sent? then 1 else 0)
    ensures Reported(transport, a, [b]) == (if transport(a).Refused? then 0 else |b|)
    ensures FramesOf(num, [b][..1]) == [Frame(num, b)] && FramesOf(num, [b][..0]) == []
  {
    assert [b][1..] == [];
  }

  /** A buffer that does not fit one frame: its first frame, and if that is sent, a write of the rest. */
  lemma HeadThenRest(transport: nat -> Outcome, a: nat, b: Bytes, num: byte, was: seq<Frame>)
    requires |b| > MAX_PAYLOAD
    ensures var head, rest, chunks := b[..MAX_PAYLOAD], Chunks(b[MAX_PAYLOAD..]), Chunks(b);
            var first, k, j := SentCount(transport, a, Chunks(head)), SentCount(transport, a, chunks), SentCount(transport, a + 1, rest);
            && |Chunks(head)| == 1 && |chunks| == 1 + |rest|
            && (first == 0 ==> k == 0 && FramesOf(num, chunks[..k]) == FramesOf(num, Chunks(head)[..first]) &&
                               Reported(transport, a, chunks) == Reported(transport, a, Chunks(head)))
            && (first == 1 ==> k == 1 + j && Reported(transport, a, chunks) == Reported(transport, a, Chunks(head)) + Reported(transport, a + 1, rest) &&
                               (was + FramesOf(num, Chunks(head)[..first])) + FramesOf(num, rest[..j]) == was + FramesOf(num, chunks[..k]))
  {
    var head, rest := b[..MAX_PAYLOAD], Chunks(b[MAX_PAYLOAD..]);
    ChunksCons(b, MAX_PAYLOAD);
    OneChunk(transport, a, head, num);
    FramesPrefix(num, head, rest, SentCount(transport, a + 1, rest), was);
  }

  lemma FramesPrefix(num: byte, head: Bytes, rest: seq<Bytes>, k: nat, was: seq<Frame>)
    requires k <= |rest|
    ensures (was + [Frame(num, head)]) + FramesOf(num, rest[..k]) == was + FramesOf(num, ([head] + rest)[..k + 1])
  {
    assert ([head] + rest)[..k + 1] == [head] + rest[..k];
    FramesCons(num, head, rest[..k]);
  }
}
