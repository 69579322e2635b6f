/**
 A writing end and a reading end of the multiplexed connection, interleaved step by step.  Writes on
 different streams run concurrently, because the write lock is released between chunks; reads run
 concurrently with the read loop.
 */
module ChannelSystem {
  import opened GoStrings
  import opened Channel

  datatype Reader = Running | Failing(e: Error) | Done

  /** History fields: `asked` and `taken` per stream, `emitted` and `delivered` on the wire. */
  datatype System = System(
    needsInit: bool,
    pending: map<byte, Bytes>,     // what the Write in progress on a stream has still to send
    wire: seq<Frame>,              // sent and not yet received
    streams: Streams,
    reader: Reader,
    err: Option<Error>,
    asked: map<byte, Bytes>,       // all bytes handed to Write
    emitted: seq<Frame>,
    delivered: seq<Frame>,         // what the read loop has pushed
    taken: map<byte, Bytes>)       // all bytes returned by Read

  datatype Action =
    | StartWrite(num: byte, b: Bytes)
    | Emit(num: byte)
    | Deliver
    | Fail(e: Error, cut: Option<nat>)   // ReadMessage fails, possibly handing over the start of a frame
    | SetError
    | ReadStream(num: byte, room: nat)

  function At(m: map<byte, Bytes>, num: byte): Bytes { if num in m then m[num] else [] }

  function Init(needsInit: bool): System {
    System(needsInit, map[], [], map[], Running, None, map[], [], [], map[])
  }

  /** What an action does in a state, or None where it cannot happen. */
  function Next(c: System, a: Action): Option<System> {
    match a
    case StartWrite(num, b) =>
      if At(c.pending, num) != [] then None
      else Some(c.(pending := c.pending[num := b], asked := c.asked[num := At(c.asked, num) + b]))
    case Emit(num) =>
      var b := At(c.pending, num);
      if b == [] then None
      else
        var n := if |b| < MAX_PAYLOAD then |b| else MAX_PAYLOAD;
        var f := Frame(num, b[..n]);
        Some(c.(pending := c.pending[num := b[n..]], wire := c.wire + [f], emitted := c.emitted + [f]))
    case Deliver =>
      if !c.reader.Running? || c.wire == [] then None
      else Some(Receive(c, c.wire[0], c.wire[1..]))
    case Fail(e, cut) =>
      if !c.reader.Running? then None
      else if cut.None? then Some(c.(reader := Failing(e)))
      else if c.wire == [] || cut.value >= |c.wire[0].payload| then None
      else Some(Receive(c, Frame(c.wire[0].stream, c.wire[0].payload[..cut.value]), c.wire[1..]).(reader := Failing(e)))
    case SetError =>
      if !c.reader.Failing? then None else Some(c.(err := Some(c.reader.e), reader := Done))
    case ReadStream(num, room) =>
      var all := Touch(c.needsInit, c.streams, num);
      var r := ReadOnce(all[num], c.err, room);
      if r.Blocked? then Some(c.(streams := all))
      else Some(c.(streams := all[num := AfterRead(all[num], r)], taken := c.taken[num := At(c.taken, num) + r.data]))
  }

  function Receive(c: System, f: Frame, wire: seq<Frame>): System {
    c.(wire := wire, delivered := c.delivered + [f], streams := Push(c.needsInit, c.streams, f.stream, f.payload))
  }

  function Run(c: System, actions: seq<Action>): Option<System>
    decreases |actions|
  {
    if actions == [] then Some(c)
    else if Next(c, actions[0]).None? then None
    else Run(Next(c, actions[0]).value, actions[1..])
  }

  // ---------- What holds in every reachable state ----------

  function PayloadsOf(frames: seq<Frame>, num: byte): seq<Bytes> {
    if frames == [] then []
    else PayloadsOf(frames[..|frames| - 1], num) + (if frames[|frames| - 1].stream == num then [frames[|frames| - 1].payload] else [])
  }

  /** The bytes a stream must yield for the frames pushed to it: all, but for the first frame where streams need initialising. */
  function Kept(needsInit: bool, payloads: seq<Bytes>): Bytes {
    Flatten(if needsInit && payloads != [] then payloads[1..] else payloads)
  }

  function Lookup(streams: Streams, num: byte): Option<Stream> { if num in streams then Some(streams[num]) else None }

  /** What a stream has yielded and what it buffers add up to the frames pushed to it. */
  ghost predicate Consistent(needsInit: bool, payloads: seq<Bytes>, s: Option<Stream>, taken: Bytes) {
    if s.Some? then
      taken + s.value.buf == Kept(needsInit, payloads) && s.value.initialized == (!needsInit || payloads != [])
    else
      payloads == [] && taken == []
  }

  ghost predicate StreamInv(c: System, num: byte) {
    Consistent(c.needsInit, PayloadsOf(c.delivered, num), Lookup(c.streams, num), At(c.taken, num))
  }

  /** The bytes that frames carry on a stream. */
  function Carried(frames: seq<Frame>, num: byte): Bytes { Flatten(PayloadsOf(frames, num)) }

  ghost predicate WireInv(c: System) {
    && (forall f :: f in c.emitted ==> 1 <= |f.payload| <= MAX_PAYLOAD)
    && (forall num :: Carried(c.emitted, num) + At(c.pending, num) == At(c.asked, num))
    && (c.reader.Running? ==> c.delivered + c.wire == c.emitted)
    && (c.err.Some? <==> c.reader.Done?)
  }

  /** What was pushed to a stream is, from its start, what was sent on it; also after a failure. */
  ghost predicate ArrivedInv(c: System) { forall num :: Carried(c.delivered, num) <= Carried(c.emitted, num) }

  ghost predicate Inv(c: System) { WireInv(c) && ArrivedInv(c) && forall num {:trigger StreamInv(c, num)} :: StreamInv(c, num) }

  lemma PayloadsAppend(frames: seq<Frame>, f: Frame, num: byte)
    ensures PayloadsOf(frames + [f], num) ==
            if f.stream == num then PayloadsOf(frames, num) + [f.payload] else PayloadsOf(frames, num)
  {
    assert (frames + [f])[..|frames|] == frames;
    assert PayloadsOf(frames, num) + [] == PayloadsOf(frames, num);
  }

  lemma KeptAppend(needsInit: bool, payloads: seq<Bytes>, p: Bytes)
    ensures Kept(needsInit, payloads + [p]) == if needsInit && payloads == [] then [] else Kept(needsInit, payloads) + p
  {
    assert Flatten([p]) == p by { assert [p][1..] == []; assert p + [] == p; }
    if needsInit && payloads != [] {
      assert (payloads + [p])[1..] == payloads[1..] + [p];
      FlattenAppend(payloads[1..], [p]);
    } else if needsInit {
      assert (payloads + [p])[1..] == [];
    } else {
      FlattenAppend(payloads, [p]);
    }
  }

  function Touched(needsInit: bool, s: Option<Stream>): Stream { if s.Some? then s.value else Stream(!needsInit, []) }

  function Pushed(s: Stream, data: Bytes): Stream {
    if s.initialized then s.(buf := s.buf + data) else s.(initialized := true)
  }

  lemma PushConsistent(needsInit: bool, payloads: seq<Bytes>, s: Option<Stream>, taken: Bytes, data: Bytes)
    requires Consistent(needsInit, payloads, s, taken)
    ensures Consistent(needsInit, payloads + [data], Some(Pushed(Touched(needsInit, s), data)), taken)
  {
    var t := Touched(needsInit, s);
    KeptAppend(needsInit, payloads, data);
    KeptNone(needsInit);
    if t.initialized {
      assert taken + (t.buf + data) == (taken + t.buf) + data;
    }
  }

  lemma KeptNone(needsInit: bool)
    ensures Kept(needsInit, []) == []
    ensures forall p :: Kept(true, [p]) == []
  {
    forall p: Bytes ensures Kept(true, [p]) == [] { assert [p][1..] == []; }
  }

  lemma ReadConsistent(needsInit: bool, payloads: seq<Bytes>, s: Option<Stream>, taken: Bytes, err: Option<Error>, room: nat)
    requires Consistent(needsInit, payloads, s, taken)
    ensures var t := Touched(needsInit, s);
            var r := ReadOnce(t, err, room);
            Consistent(needsInit, payloads, Some(AfterRead(t, r)), if r.Blocked? then taken else taken + r.data)
  {
    var t := Touched(needsInit, s);
    var r := ReadOnce(t, err, room);
    KeptNone(needsInit);
    if r.Returned? {
      assert (taken + r.data) + t.buf[|r.data|..] == taken + t.buf;
    }
  }

  lemma ReceiveKeepsStreams(c: System, f: Frame, wire: seq<Frame>, num: byte)
    requires StreamInv(c, num)
    ensures StreamInv(Receive(c, f, wire), num)
  {
    PayloadsAppend(c.delivered, f, num);
    var c' := Receive(c, f, wire);
    if f.stream == num {
      PushConsistent(c.needsInit, PayloadsOf(c.delivered, num), Lookup(c.streams, num), At(c.taken, num), f.payload);
      assert Lookup(c'.streams, num) == Some(Pushed(Touched(c.needsInit, Lookup(c.streams, num)), f.payload));
    } else {
      assert Lookup(c'.streams, num) == Lookup(c.streams, num);
    }
  }

  lemma ReadKeepsStreams(c: System, num: byte, room: nat, other: byte)
    requires StreamInv(c, other)
    ensures StreamInv(Next(c, ReadStream(num, room)).value, other)
  {
    ReadStep(c, num, room, other);
    if num == other {
      ReadConsistent(c.needsInit, PayloadsOf(c.delivered, num), Lookup(c.streams, num), At(c.taken, num), c.err, room);
    }
  }

  /** A read changes its own stream and what was taken from it. */
  lemma ReadStep(c: System, num: byte, room: nat, other: byte)
    ensures var c' := Next(c, ReadStream(num, room)).value;
            var t := Touched(c.needsInit, Lookup(c.streams, num));
            var r := ReadOnce(t, c.err, room);
            && c'.delivered == c.delivered && c'.needsInit == c.needsInit
            && Lookup(c'.streams, other) == (if other == num then Some(AfterRead(t, r)) else Lookup(c.streams, other))
            && At(c'.taken, other) == if other == num && r.Returned? then At(c.taken, num) + r.data else At(c.taken, other)
  {
    var t := Touched(c.needsInit, Lookup(c.streams, num));
    assert Touch(c.needsInit, c.streams, num)[num] == t;
  }

  lemma CarriedAppend(frames: seq<Frame>, f: Frame, num: byte)
    ensures Carried(frames + [f], num) == Carried(frames, num) + (if f.stream == num then f.payload else [])
  {
    PayloadsAppend(frames, f, num);
    FlattenAppend(PayloadsOf(frames, num), [f.payload]);
    assert Flatten([f.payload]) == f.payload by { assert [f.payload][1..] == []; assert f.payload + [] == f.payload; }
    assert Carried(frames, num) + [] == Carried(frames, num);
  }

  lemma Assoc<T>(a: seq<T>, b: seq<T>, c: seq<T>)
    ensures (a + b) + c == a + (b + c)
  {
  }

  lemma EmitKeepsWire(c: System, num: byte)
    requires WireInv(c) && Next(c, Emit(num)).Some?
    ensures WireInv(Next(c, Emit(num)).value)
  {
    var c' := Next(c, Emit(num)).value;
    var f := c'.emitted[|c.emitted|];
    assert c'.emitted == c.emitted + [f] && c'.wire == c.wire + [f];
    forall n ensures Carried(c'.emitted, n) + At(c'.pending, n) == At(c'.asked, n) {
      EmitKeepsBytes(c, num, n);
    }
    Assoc(c.delivered, c.wire, [f]);
  }

  /** A frame takes its bytes from those still to be sent. */
  lemma EmitKeepsBytes(c: System, num: byte, n: byte)
    requires Next(c, Emit(num)).Some?
    ensures var c' := Next(c, Emit(num)).value;
            Carried(c'.emitted, n) + At(c'.pending, n) == Carried(c.emitted, n) + At(c.pending, n)
  {
    var c' := Next(c, Emit(num)).value;
    var f := c'.emitted[|c.emitted|];
    CarriedAppend(c.emitted, f, n);
    if n == num {
      Assoc(Carried(c.emitted, n), f.payload, At(c'.pending, n));
      assert f.payload + At(c'.pending, n) == At(c.pending, n);
    }
  }

  lemma StartKeepsWire(c: System, num: byte, b: Bytes)
    requires WireInv(c) && Next(c, StartWrite(num, b)).Some?
    ensures WireInv(Next(c, StartWrite(num, b)).value)
  {
    var c' := Next(c, StartWrite(num, b)).value;
    forall n ensures Carried(c'.emitted, n) + At(c'.pending, n) == At(c'.asked, n) {
      assert Carried(c.emitted, n) + At(c.pending, n) == At(c.asked, n);
    }
  }

  lemma ReceiveKeepsWire(c: System)
    requires WireInv(c) && Next(c, Deliver).Some?
    ensures WireInv(Next(c, Deliver).value)
  {
    assert (c.delivered + [c.wire[0]]) + c.wire[1..] == c.delivered + c.wire;
  }

  lemma {:induction false} CarriedSplit(a: seq<Frame>, b: seq<Frame>, num: byte)
    ensures Carried(a + b, num) == Carried(a, num) + Carried(b, num)
    decreases |b|
  {
    if b == [] {
      assert a + b == a && Carried(a, num) + [] == Carried(a, num);
    } else {
      var front, last := b[..|b| - 1], b[|b| - 1];
      CarriedSplit(a, front, num);
      assert b == front + [last];
      Assoc(a, front, [last]);
      CarriedAppend(a + front, last, num);
      CarriedAppend(front, last, num);
      Assoc(Carried(a, num), Carried(front, num), if last.stream == num then last.payload else []);
    }
  }

  /** While the read loop runs, what has arrived and what is on the wire are what was sent. */
  lemma RunningArrived(c: System, num: byte)
    requires WireInv(c) && c.reader.Running?
    ensures Carried(c.delivered, num) + Carried(c.wire, num) == Carried(c.emitted, num)
  {
    CarriedSplit(c.delivered, c.wire, num);
  }

  lemma NextArrives(c: System, a: Action, num: byte)
    requires WireInv(c) && ArrivedInv(c) && Next(c, a).Some? && WireInv(Next(c, a).value)
    ensures Carried(Next(c, a).value.delivered, num) <= Carried(Next(c, a).value.emitted, num)
  {
    var c' := Next(c, a).value;
    assert Carried(c.delivered, num) <= Carried(c.emitted, num);
    if a.Emit? {
      CarriedAppend(c.emitted, c'.emitted[|c.emitted|], num);
      assert c'.emitted == c.emitted + [c'.emitted[|c.emitted|]];
    } else if a.Deliver? {
      RunningArrived(c', num);
    } else if a.Fail? && a.cut.Some? {
      CutArrives(c, a.cut.value, num);
    }
  }

  /** The start of a frame adds the start of its bytes. */
  lemma CutArrives(c: System, cut: nat, num: byte)
    requires WireInv(c) && c.reader.Running? && c.wire != [] && cut < |c.wire[0].payload|
    ensures Carried(c.delivered + [Frame(c.wire[0].stream, c.wire[0].payload[..cut])], num) <= Carried(c.emitted, num)
  {
    var f, rest := c.wire[0], c.wire[1..];
    assert c.wire == [f] + rest;
    Assoc(c.delivered, [f], rest);
    CarriedSplit(c.delivered + [f], rest, num);
    CutFrame(c.delivered, f, cut, num);
  }

  lemma CutFrame(frames: seq<Frame>, f: Frame, cut: nat, num: byte)
    requires cut < |f.payload|
    ensures Carried(frames + [Frame(f.stream, f.payload[..cut])], num) <= Carried(frames + [f], num)
  {
    CarriedAppend(frames, Frame(f.stream, f.payload[..cut]), num);
    CarriedAppend(frames, f, num);
  }

  /** Every step keeps the invariant. */
  lemma NextKeepsInv(c: System, a: Action)
    requires Inv(c) && Next(c, a).Some?
    ensures Inv(Next(c, a).value) && Next(c, a).value.needsInit == c.needsInit
  {
    var c' := Next(c, a).value;
    NextKeepsWire(c, a);
    forall num ensures Carried(c'.delivered, num) <= Carried(c'.emitted, num) {
      NextArrives(c, a, num);
    }
    forall num ensures StreamInv(c', num) {
      assert StreamInv(c, num);
      NextKeepsStream(c, a, num);
    }
  }

  lemma NextKeepsWire(c: System, a: Action)
    requires WireInv(c) && Next(c, a).Some?
    ensures WireInv(Next(c, a).value)
  {
    match a {
      case StartWrite(num, b) => StartKeepsWire(c, num, b);
      case Emit(num) => EmitKeepsWire(c, num);
      case Deliver => ReceiveKeepsWire(c);
      case Fail(_, _) =>
      case SetError =>
      case ReadStream(_, _) =>
    }
  }

  lemma NextKeepsStream(c: System, a: Action, num: byte)
    requires StreamInv(c, num) && Next(c, a).Some?
    ensures StreamInv(Next(c, a).value, num)
  {
    match a {
      case Deliver => ReceiveKeepsStreams(c, c.wire[0], c.wire[1..], num);
      case Fail(e, cut) =>
        if cut.Some? {
          ReceiveKeepsStreams(c, Frame(c.wire[0].stream, c.wire[0].payload[..cut.value]), c.wire[1..], num);
        }
      case ReadStream(n, room) => ReadKeepsStreams(c, n, room, num);
      case StartWrite(_, _) =>
      case Emit(_) =>
      case SetError =>
    }
  }

  lemma {:induction false} RunKeepsInv(c: System, actions: seq<Action>)
    requires Inv(c) && Run(c, actions).Some?
    ensures Inv(Run(c, actions).value) && Run(c, actions).value.needsInit == c.needsInit
    decreases |actions|
  {
    if actions != [] {
      var c' := Next(c, actions[0]).value;
      NextKeepsInv(c, actions[0]);
      RunKeepsInv(c', actions[1..]);
    }
  }

  /** The frame that only initialised a stream. */
  function Dropped(needsInit: bool, payloads: seq<Bytes>): Bytes { if needsInit && payloads != [] then payloads[0] else [] }

  /** Everything a stream has got: the dropped frame, the bytes read and the bytes buffered. */
  function Got(c: System, num: byte): Bytes {
    Dropped(c.needsInit, PayloadsOf(c.delivered, num)) + (At(c.taken, num) + (if num in c.streams then c.streams[num].buf else []))
  }

  /**
   In every reachable state of every interleaving: frames carry 1 to 1024 bytes; what a stream has yielded plus
   what it buffers is what was pushed to it, without the first frame where streams need initialising; together
   with that frame it is a prefix of what was written to the stream; and while the read loop runs, the bytes on
   the wire and those still to be sent are exactly the rest.
   */
  lemma StreamsDeliverInOrder(needsInit: bool, actions: seq<Action>, num: byte)
    requires Run(Init(needsInit), actions).Some?
    ensures var c := Run(Init(needsInit), actions).value;
            && (forall f :: f in c.emitted ==> 1 <= |f.payload| <= MAX_PAYLOAD)
            && At(c.taken, num) + (if num in c.streams then c.streams[num].buf else []) ==
               (var pushed := PayloadsOf(c.delivered, num); Flatten(if needsInit && pushed != [] then pushed[1..] else pushed))
            && Got(c, num) == Carried(c.delivered, num) <= At(c.asked, num)
            && (c.reader.Running? ==> Got(c, num) + (Carried(c.wire, num) + At(c.pending, num)) == At(c.asked, num))
  {
    InitInv(needsInit);
    RunKeepsInv(Init(needsInit), actions);
    GotIsWritten(Run(Init(needsInit), actions).value, num);
  }

  lemma GotIsWritten(c: System, num: byte)
    requires Inv(c)
    ensures At(c.taken, num) + (if num in c.streams then c.streams[num].buf else []) == Kept(c.needsInit, PayloadsOf(c.delivered, num))
    ensures Got(c, num) == Carried(c.delivered, num) <= At(c.asked, num)
    ensures c.reader.Running? ==> Got(c, num) + (Carried(c.wire, num) + At(c.pending, num)) == At(c.asked, num)
  {
    assert StreamInv(c, num);
    GotIsCarried(c, num);
    assert Carried(c.emitted, num) + At(c.pending, num) == At(c.asked, num);
    assert Carried(c.delivered, num) <= Carried(c.emitted, num);
    if c.reader.Running? {
      RunningArrived(c, num);
      Assoc(Carried(c.delivered, num), Carried(c.wire, num), At(c.pending, num));
    }
  }

  lemma GotIsCarried(c: System, num: byte)
    requires StreamInv(c, num)
    ensures At(c.taken, num) + (if num in c.streams then c.streams[num].buf else []) == Kept(c.needsInit, PayloadsOf(c.delivered, num))
    ensures Got(c, num) == Carried(c.delivered, num)
  {
    KeptNone(c.needsInit);
  }

  lemma InitInv(needsInit: bool)
    ensures Inv(Init(needsInit))
  {
  }

  lemma ErrorStep(c: System, a: Action)
    requires c.reader.Done? && Next(c, a).Some?
    ensures var c' := Next(c, a).value; c'.delivered == c.delivered && c'.err == c.err && c'.reader.Done?
  {
  }

  /** After the error is set nothing is pushed any more. */
  lemma {:induction false} NothingAfterError(c: System, actions: seq<Action>)
    requires Inv(c) && c.err.Some? && Run(c, actions).Some?
    ensures Run(c, actions).value.delivered == c.delivered && Run(c, actions).value.err == c.err
    decreases |actions|
  {
    if actions != [] {
      var c' := Next(c, actions[0]).value;
      NextKeepsInv(c, actions[0]);
      ErrorStep(c, actions[0]);
      NothingAfterError(c', actions[1..]);
    }
  }

  /**
   A read reports the connection's error only with the last of the bytes ever pushed to its stream: whatever
   runs before and whatever runs after, the stream never has a byte that was not returned by then.
   */
  lemma ErrorComesLast(needsInit: bool, before: seq<Action>, num: byte, room: nat, after: seq<Action>)
    requires Run(Init(needsInit), before).Some?
    requires var c := Run(Init(needsInit), before).value;
             var r := ReadOnce(Touch(needsInit, c.streams, num)[num], c.err, room);
             r.Returned? && r.err.Some?
    requires Run(Next(Run(Init(needsInit), before).value, ReadStream(num, room)).value, after).Some?
    ensures var c := Run(Init(needsInit), before).value;
            var c' := Next(c, ReadStream(num, room)).value;
            var end := Run(c', after).value;
            && At(c'.taken, num) == Kept(needsInit, PayloadsOf(end.delivered, num))
            && (num in end.streams ==> end.streams[num].buf == [] && At(end.taken, num) == At(c'.taken, num))
  {
    InitInv(needsInit);
    RunKeepsInv(Init(needsInit), before);
    ErrorIsLast(Run(Init(needsInit), before).value, num, room, after);
  }

  lemma ErrorIsLast(c: System, num: byte, room: nat, after: seq<Action>)
    requires Inv(c) && Run(Next(c, ReadStream(num, room)).value, after).Some?
    requires var r := ReadOnce(Touch(c.needsInit, c.streams, num)[num], c.err, room); r.Returned? && r.err.Some?
    ensures var c' := Next(c, ReadStream(num, room)).value;
            var end := Run(c', after).value;
            && At(c'.taken, num) == Kept(c.needsInit, PayloadsOf(end.delivered, num))
            && (num in end.streams ==> end.streams[num].buf == [] && At(end.taken, num) == At(c'.taken, num))
  {
    var c' := Next(c, ReadStream(num, room)).value;
    NextKeepsInv(c, ReadStream(num, room));
    ErrorRead(c, num, room);
    DrainedStays(c', num, after);
  }

  /** A read that reports the error leaves its stream empty. */
  lemma ErrorRead(c: System, num: byte, room: nat)
    requires var r := ReadOnce(Touch(c.needsInit, c.streams, num)[num], c.err, room); r.Returned? && r.err.Some?
    ensures var c' := Next(c, ReadStream(num, room)).value; num in c'.streams && c'.streams[num].buf == [] && c'.err.Some?
  {
  }

  /** A stream that is empty after the error has had all its bytes, and stays empty. */
  lemma DrainedStays(c: System, num: byte, after: seq<Action>)
    requires Inv(c) && c.err.Some? && num in c.streams && c.streams[num].buf == [] && Run(c, after).Some?
    ensures var end := Run(c, after).value;
            && At(c.taken, num) == Kept(c.needsInit, PayloadsOf(end.delivered, num))
            && (num in end.streams ==> end.streams[num].buf == [] && At(end.taken, num) == At(c.taken, num))
  {
    NothingAfterError(c, after);
    RunKeepsInv(c, after);
    TakenGrows(c, after, num);
    GotIsWritten(c, num);
    GotIsWritten(Run(c, after).value, num);
  }

  /** Bytes once returned stay returned. */
  lemma {:induction false} TakenGrows(c: System, actions: seq<Action>, num: byte)
    requires Run(c, actions).Some?
    ensures At(c.taken, num) <= At(Run(c, actions).value.taken, num)
    decreases |actions|
  {
    if actions != [] {
      var c' := Next(c, actions[0]).value;
      assert At(c.taken, num) <= At(c'.taken, num);
      TakenGrows(c', actions[1..], num);
    }
  }

  // ---------- Reads make progress ----------

  /** All bytes that the frames pushed so far give to a stream. */
  function Due(c: System, num: byte): Bytes { Kept(c.needsInit, PayloadsOf(c.delivered, num)) }

  function Min(a: nat, b: nat): nat { if a < b then a else b }

  /** What a read of some room returns in a state. */
  function Result(c: System, num: byte, room: nat): ReadResult { ReadOnce(Touch(c.needsInit, c.streams, num)[num], c.err, room) }

  /** `now` has `n` more of the bytes due than `was`, or all of them if fewer are left. */
  predicate Advanced(due: Bytes, was: Bytes, now: Bytes, n: nat) {
    was <= now <= due && |now| == Min(|was| + n, |due|)
  }

  /**
   A read returns as many of the bytes pushed and not yet taken as it has room for, in order; it reports the error
   exactly when there is one and no byte is left; and it blocks exactly when there is neither a byte nor an error.
   */
  lemma ReadTakes(c: System, num: byte, room: nat)
    requires Inv(c)
    ensures var due, taken, c', r := Due(c, num), At(c.taken, num), Next(c, ReadStream(num, room)).value, Result(c, num, room);
            && Advanced(due, taken, At(c'.taken, num), room)
            && (r.Blocked? <==> taken == due && c.err.None?)
            && (r.Returned? ==> taken + r.data == At(c'.taken, num) && r.err == if At(c'.taken, num) == due then c.err else None)
  {
    GotIsWritten(c, num);
    ReadStep(c, num, room, num);
    var t := Touched(c.needsInit, Lookup(c.streams, num));
    assert Touch(c.needsInit, c.streams, num)[num] == t;
    TakenFrom(Due(c, num), At(c.taken, num), t, c.err, room);
  }

  lemma TakenFrom(due: Bytes, taken: Bytes, s: Stream, err: Option<Error>, room: nat)
    requires taken + s.buf == due
    ensures var r := ReadOnce(s, err, room);
            var now := if r.Returned? then taken + r.data else taken;
            && Advanced(due, taken, now, room)
            && (r.Blocked? <==> taken == due && err.None?)
            && (r.Returned? ==> r.err == if now == due then err else None)
  {
    var r := ReadOnce(s, err, room);
    assert due[|taken|..] == s.buf;
    if r.Returned? {
      assert taken + r.data == due[..|taken| + |r.data|];
    }
  }

  /** A read touches no other stream's bytes, and neither the frames pushed nor the error. */
  lemma ReadLeavesRest(c: System, num: byte, room: nat, other: byte)
    ensures var c' := Next(c, ReadStream(num, room)).value;
            && c'.delivered == c.delivered && c'.err == c.err && c'.needsInit == c.needsInit
            && (other != num ==> At(c'.taken, other) == At(c.taken, other) && Lookup(c'.streams, other) == Lookup(c.streams, other))
  {
    ReadStep(c, num, room, other);
  }

  function Reads(num: byte, room: nat, k: nat): seq<Action> { if k == 0 then [] else [ReadStream(num, room)] + Reads(num, room, k - 1) }

  ghost predicate SameSource(c: System, c': System) { c'.delivered == c.delivered && c'.err == c.err && c'.needsInit == c.needsInit }

  lemma ReadStepTakes(c: System, num: byte, room: nat) returns (c': System)
    requires Inv(c)
    ensures Next(c, ReadStream(num, room)) == Some(c') && Inv(c') && SameSource(c, c')
    ensures Due(c', num) == Due(c, num) && Advanced(Due(c, num), At(c.taken, num), At(c'.taken, num), room)
  {
    c' := Next(c, ReadStream(num, room)).value;
    ReadTakes(c, num, room);
    NextKeepsInv(c, ReadStream(num, room));
    ReadLeavesRest(c, num, room, num);
  }

  /** Several reads in a row take as many bytes as they have room for together. */
  lemma {:induction false} ReadsTake(c: System, num: byte, room: nat, k: nat)
    requires Inv(c)
    ensures var end := Run(c, Reads(num, room, k));
            end.Some? && Inv(end.value) && SameSource(c, end.value) &&
            Advanced(Due(c, num), At(c.taken, num), At(end.value.taken, num), Total(room, k))
    decreases k
  {
    var c' := ReadStepTakes(c, num, room);
    if k > 0 {
      ReadsTake(c', num, room, k - 1);
      ReadsStep(c, num, room, k - 1);
      var end := Run(c', Reads(num, room, k - 1)).value;
      AdvancedAgain(Due(c, num), At(c.taken, num), At(c'.taken, num), At(end.taken, num), room, k - 1);
    }
  }

  /** The room of several reads together. */
  function Total(room: nat, k: nat): nat { if k == 0 then 0 else room + Total(room, k - 1) }

  lemma AdvancedAgain(due: Bytes, a: Bytes, b: Bytes, c: Bytes, room: nat, k: nat)
    requires Advanced(due, a, b, room) && Advanced(due, b, c, Total(room, k))
    ensures Advanced(due, a, c, Total(room, k + 1))
  {
  }

  lemma ReadsStep(c: System, num: byte, room: nat, k: nat)
    ensures Run(c, Reads(num, room, k + 1)) == Run(Next(c, ReadStream(num, room)).value, Reads(num, room, k))
  {
    assert Reads(num, room, k + 1)[0] == ReadStream(num, room) && Reads(num, room, k + 1)[1..] == Reads(num, room, k);
  }

  /** The least number of reads that have room for `n` bytes. */
  function ReadsFor(n: nat, room: nat): nat
    requires room > 0
  {
    (n + room - 1) / room
  }

  /** Reads have room for `n` bytes exactly when there are at least as many as `n` bytes fill. */
  lemma ReadsForFits(n: nat, room: nat, k: nat)
    requires room > 0
    ensures Total(room, k) >= n <==> k >= ReadsFor(n, room)
  {
    var q := ReadsFor(n, room);
    TotalIs(room, k);
    assert q * room <= n + room - 1 < q * room + room;
    if k >= q {
      MulMonotone(q, k, room);
    } else {
      MulMonotone(k + 1, q, room);
      assert (k + 1) * room == k * room + room;
    }
  }

  lemma {:induction false} TotalIs(room: nat, k: nat)
    ensures Total(room, k) == k * room
  {
    if k > 0 {
      TotalIs(room, k - 1);
      assert k * room == (k - 1) * room + room;
    }
  }

  lemma MulMonotone(a: nat, b: nat, m: nat)
    requires a <= b
    ensures a * m <= b * m
  {
    assert b * m == a * m + (b - a) * m;
  }

  /**
   Once the error is set, reads have returned all bytes that were left exactly when they had room for them, and
   from then on, whatever else happens, every read of the stream reports the error and nothing more.
   */
  lemma DrainsAfterError(needsInit: bool, before: seq<Action>, c: System, num: byte, room: nat, k: nat, after: seq<Action>, room': nat)
    requires Run(Init(needsInit), before) == Some(c) && c.err.Some?
    ensures At(c.taken, num) <= Due(c, num)
    ensures Run(c, Reads(num, room, k)).Some? && DrainedBy(c, Run(c, Reads(num, room, k)).value, num, room, k)
    ensures var mid := Run(c, Reads(num, room, k)).value;
            At(mid.taken, num) == Due(c, num) && Run(mid, after).Some? ==> Result(Run(mid, after).value, num, room') == Returned([], c.err)
  {
    InitInv(needsInit);
    RunKeepsInv(Init(needsInit), before);
    ReadsDrain(c, num, room, k);
    var mid := Run(c, Reads(num, room, k)).value;
    if At(mid.taken, num) == Due(c, num) && Run(mid, after).Some? {
      EmptyReportsError(mid, num, after, room');
    }
  }

  /** The bytes left in `c` are all taken in `mid` exactly when `k` reads had room for them. */
  ghost predicate DrainedBy(c: System, mid: System, num: byte, room: nat, k: nat) {
    At(mid.taken, num) == Due(c, num) <==> |At(c.taken, num)| + Total(room, k) >= |Due(c, num)|
  }

  lemma ReadsDrain(c: System, num: byte, room: nat, k: nat)
    requires Inv(c)
    ensures At(c.taken, num) <= Due(c, num)
    ensures var end := Run(c, Reads(num, room, k));
            end.Some? && Inv(end.value) && SameSource(c, end.value) && DrainedBy(c, end.value, num, room, k)
  {
    ReadsTake(c, num, room, k);
    DrainedWhen(Due(c, num), At(c.taken, num), At(Run(c, Reads(num, room, k)).value.taken, num), Total(room, k));
  }

  lemma DrainedWhen(due: Bytes, was: Bytes, now: Bytes, n: nat)
    requires Advanced(due, was, now, n)
    ensures now == due <==> |was| + n >= |due|
  {
  }

  /** With some room per read, that takes as many reads as the bytes left fill. */
  lemma DrainsInTime(needsInit: bool, before: seq<Action>, c: System, num: byte, room: nat, left: nat, k: nat)
    requires Run(Init(needsInit), before) == Some(c) && room > 0 && |At(c.taken, num)| + left == |Due(c, num)|
    ensures Run(c, Reads(num, room, k)).Some?
    ensures At(Run(c, Reads(num, room, k)).value.taken, num) == Due(c, num) <==> k >= ReadsFor(left, room)
  {
    InitInv(needsInit);
    RunKeepsInv(Init(needsInit), before);
    ReadsDrain(c, num, room, k);
    ReadsForFits(left, room, k);
  }

  lemma EmptyReportsError(c: System, num: byte, after: seq<Action>, room: nat)
    requires Inv(c) && c.err.Some? && At(c.taken, num) == Due(c, num) && Run(c, after).Some?
    ensures Result(Run(c, after).value, num, room) == Returned([], c.err)
  {
    NothingAfterError(c, after);
    RunKeepsInv(c, after);
    TakenGrows(c, after, num);
    var end := Run(c, after).value;
    ReadTakes(end, num, room);
    assert At(end.taken, num) == Due(end, num);
  }

  function Emits(num: byte, k: nat): seq<Action> { if k == 0 then [] else [Emit(num)] + Emits(num, k - 1) }

  lemma ChunksStep(num: byte, b: Bytes, n: nat)
    requires b != [] && n == if |b| < MAX_PAYLOAD then |b| else MAX_PAYLOAD
    ensures Chunks(b) == [b[..n]] + Chunks(b[n..])
    ensures FramesOf(num, Chunks(b)) == [Frame(num, b[..n])] + FramesOf(num, Chunks(b[n..]))
  {
    ChunksCons(b, n);
    FramesCons(num, b[..n], Chunks(b[n..]));
  }

  /** Taken alone, the emit steps of one write send exactly the frames that `Connection.Write` sends. */
  lemma {:induction false} EmitsAreTheWrite(c: System, num: byte, b: Bytes)
    requires At(c.pending, num) == b
    ensures var c' := Run(c, Emits(num, |Chunks(b)|));
            c'.Some? && At(c'.value.pending, num) == [] && c'.value.emitted == c.emitted + FramesOf(num, Chunks(b))
    decreases |b|
  {
    if b == [] {
      assert c.emitted + [] == c.emitted;
    } else {
      var n := if |b| < MAX_PAYLOAD then |b| else MAX_PAYLOAD;
      var c' := EmitStep(c, num, b, n);
      var k, rest := |Chunks(b[n..])|, FramesOf(num, Chunks(b[n..]));
      ChunksStep(num, b, n);
      EmitsAreTheWrite(c', num, b[n..]);
      Assoc(c.emitted, [Frame(num, b[..n])], rest);
      EmitsStep(c, num, k);
    }
  }

  lemma EmitsStep(c: System, num: byte, k: nat)
    requires Next(c, Emit(num)).Some?
    ensures Run(c, Emits(num, k + 1)) == Run(Next(c, Emit(num)).value, Emits(num, k))
  {
    assert Emits(num, k + 1)[0] == Emit(num) && Emits(num, k + 1)[1..] == Emits(num, k);
  }

  lemma EmitStep(c: System, num: byte, b: Bytes, n: nat) returns (c': System)
    requires b != [] && At(c.pending, num) == b && n == if |b| < MAX_PAYLOAD then |b| else MAX_PAYLOAD
    ensures Next(c, Emit(num)) == Some(c') && At(c'.pending, num) == b[n..] && c'.emitted == c.emitted + [Frame(num, b[..n])]
  {
    c' := Next(c, Emit(num)).value;
  }
}
