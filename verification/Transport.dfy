/**
 One direction of a connection, from `QueueWrite` to the message handlers: a locked queue of
 fragments, asynchronous writes of its front, a reliable byte stream, a loop that reads a
 header and then a body, and reassembly by message id. Every lock-protected section and every
 completion handler is one atomic step; any number of threads may send.
 */
module Transport {
  import opened Bytes
  import opened NetMessage

  /** A message as queued: its type, its id and its fragments' bodies. */
  datatype Msg = Msg(msgType: nat, id: nat, parts: seq<Fragment>)

  /** What `QueueWrite` is given: a type that is not MULTI_PART. An empty text makes a message without fragments. */
  predicate MsgOk(m: Msg) {
    && m.msgType != MULTI_PART
    && m.msgType < TWO_32 && m.id < TWO_32 && ListOk(m.parts)
  }

  /** A message as dispatched to its handlers. */
  datatype Delivery = Delivery(msgType: nat, body: seq<byte>)

  // ---------------------------------------------------------------- reassembly

  /** `read_messages`, and the deliveries made so far. */
  datatype Assembly = Assembly(partial: map<nat, seq<Fragment>>, dispatched: seq<Delivery>)

  /**
   The completion handler of `read_body`. The client's takes SYNC fragments out before
   reassembly; the server's does not.
   */
  function Handle(a: Assembly, f: Fragment, client: bool): (b: Assembly) {
    if client && f.msgType == SYNC then a.(dispatched := a.dispatched + [Delivery(SYNC, f.body)])
    else
      var list := (if f.id in a.partial then a.partial[f.id] else []) + [f];
      if f.msgType == MULTI_PART then a.(partial := a.partial[f.id := list])
      else
        Assembly(a.partial - {f.id},
                 if Complete(list) then a.dispatched + [Delivery(f.msgType, Bodies(list))] else a.dispatched)
  }

  function HandleAll(a: Assembly, fs: seq<Fragment>, client: bool): (b: Assembly) {
    if fs == [] then a else Handle(HandleAll(a, fs[..|fs| - 1], client), fs[|fs| - 1], client)
  }

  const EMPTY: Assembly := Assembly(map[], [])

  /** The client's receiver needs SYNC messages to be single fragments, as the server sends them. */
  predicate Suits(m: Msg, client: bool) {
    client && m.msgType == SYNC ==> |m.parts| <= 1
  }

  function Wanted(m: Msg): (d: Delivery) {
    Delivery(m.msgType, Bodies(m.parts))
  }

  /** What should be dispatched: every message in order, except those without fragments. */
  function AllWanted(ms: seq<Msg>): (ds: seq<Delivery>) {
    if ms == [] then []
    else AllWanted(ms[..|ms| - 1]) + if ms[|ms| - 1].parts == [] then [] else [Wanted(ms[|ms| - 1])]
  }

  predicate MsgsOk(ms: seq<Msg>, client: bool) {
    forall i :: 0 <= i < |ms| ==> MsgOk(ms[i]) && Suits(ms[i], client)
  }

  function FragmentsOf(m: Msg): (fs: seq<Fragment>)
    ensures |fs| == |m.parts|
  {
    Stamp(m.parts, m.msgType, m.id)
  }

  /** All fragments of all messages, in queue order. */
  function AllFragments(ms: seq<Msg>): (fs: seq<Fragment>) {
    if ms == [] then [] else AllFragments(ms[..|ms| - 1]) + FragmentsOf(ms[|ms| - 1])
  }

  lemma {:induction false} HandleSnoc(a: Assembly, fs: seq<Fragment>, f: Fragment, client: bool)
    ensures HandleAll(a, [], client) == a
    ensures HandleAll(a, fs + [f], client) == Handle(HandleAll(a, fs, client), f, client)
  {
    hide Handle;
    assert (fs + [f])[..|fs|] == fs;
  }

  /** One more part of a message: the list under its id grows by it. */
  lemma {:induction false} HandleOnePart(a: Assembly, b: Assembly, list: seq<Fragment>, f: Fragment, client: bool)
    requires f.msgType == MULTI_PART && f.id !in a.partial
    requires b == if list == [] then a else a.(partial := a.partial[f.id := list])
    ensures Handle(b, f, client) == a.(partial := a.partial[f.id := list + [f]])
  {
    if list == [] {
      assert list + [f] == [] + [f];
    }
  }

  /** The last part: delivers the whole list and forgets it. */
  lemma {:induction false} HandleLastPart(a: Assembly, b: Assembly, list: seq<Fragment>, f: Fragment, client: bool)
    requires f.msgType != MULTI_PART && f.id !in a.partial && Complete(list + [f])
    requires client && f.msgType == SYNC ==> list == []
    requires b == if list == [] then a else a.(partial := a.partial[f.id := list])
    ensures Handle(b, f, client) == a.(dispatched := a.dispatched + [Delivery(f.msgType, Bodies(list + [f]))])
  {
    BodiesSnoc(list, f);
    assert b.partial - {f.id} == a.partial;
    if list == [] {
      assert list + [f] == [] + [f];
      assert Bodies(list) + f.body == f.body;
    }
  }

  /** The first k fragments of a message pile up under its id. */
  lemma {:induction false} HandlePart(a: Assembly, m: Msg, k: nat, client: bool)
    requires MsgOk(m) && k < |m.parts| && m.id !in a.partial
    ensures HandleAll(a, FragmentsOf(m)[..k], client) ==
            if k == 0 then a else a.(partial := a.partial[m.id := FragmentsOf(m)[..k]])
  {
    hide Handle, HandleAll;
    var fs := FragmentsOf(m);
    if k == 0 {
      assert fs[..0] == [];
      HandleSnoc(a, [], fs[0], client);
    } else {
      HandlePart(a, m, k - 1, client);
      assert fs[..k] == fs[..k - 1] + [fs[k - 1]];
      HandleSnoc(a, fs[..k - 1], fs[k - 1], client);
      HandleOnePart(a, HandleAll(a, fs[..k - 1], client), fs[..k - 1], fs[k - 1], client);
    }
  }

  /** A whole message leaves nothing behind and is delivered once, with its type and payload. */
  lemma {:induction false} HandleMessage(a: Assembly, m: Msg, client: bool)
    requires MsgOk(m) && m.parts != [] && Suits(m, client) && m.id !in a.partial
    ensures HandleAll(a, FragmentsOf(m), client) == a.(dispatched := a.dispatched + [Wanted(m)])
  {
    hide Handle, HandleAll, Complete, Bodies;
    var fs := FragmentsOf(m);
    var n := |fs| - 1;
    HandlePart(a, m, n, client);
    StampComplete(m.parts, m.msgType, m.id);
    assert fs == fs[..n] + [fs[n]];
    HandleSnoc(a, fs[..n], fs[n], client);
    HandleLastPart(a, HandleAll(a, fs[..n], client), fs[..n], fs[n], client);
  }

  lemma {:induction false} HandleConcat(a: Assembly, fs: seq<Fragment>, gs: seq<Fragment>, client: bool)
    ensures HandleAll(a, fs + gs, client) == HandleAll(HandleAll(a, fs, client), gs, client)
    decreases |gs|
  {
    if gs == [] {
      assert fs + gs == fs;
    } else {
      var n := |gs| - 1;
      assert (fs + gs)[..|fs + gs| - 1] == fs + gs[..n];
      HandleConcat(a, fs, gs[..n], client);
    }
  }

  /** Whole messages are delivered in order, each exactly once, and no fragment is left over. */
  lemma {:induction false} HandleMessages(ms: seq<Msg>, client: bool)
    requires MsgsOk(ms, client)
    ensures HandleAll(EMPTY, AllFragments(ms), client) == Assembly(map[], AllWanted(ms))
    decreases |ms|
  {
    if ms != [] {
      var n := |ms| - 1;
      HandleMessages(ms[..n], client);
      HandleConcat(EMPTY, AllFragments(ms[..n]), FragmentsOf(ms[n]), client);
      if ms[n].parts != [] {
        HandleMessage(Assembly(map[], AllWanted(ms[..n])), ms[n], client);
      }
    }
  }

  lemma {:induction false} HandleNone(client: bool)
    ensures HandleAll(EMPTY, [], client) == EMPTY
  {
  }

  /** After any number of fragments, what was delivered is a prefix of what was sent. */
  lemma {:induction false} HandlePrefix(ms: seq<Msg>, fs: seq<Fragment>, client: bool)
    requires MsgsOk(ms, client) && fs <= AllFragments(ms)
    ensures HandleAll(EMPTY, fs, client).dispatched <= AllWanted(ms)
    decreases |ms|
  {
    hide HandleAll, FragmentsOf;
    if ms == [] {
      HandleNone(client);
    } else {
      var n := |ms| - 1;
      var before := AllFragments(ms[..n]);
      if |fs| <= |before| {
        assert fs <= before;
        HandlePrefix(ms[..n], fs, client);
      } else if |fs| < |AllFragments(ms)| {
        var k := |fs| - |before|;
        assert fs == before + FragmentsOf(ms[n])[..k];
        HandleMessages(ms[..n], client);
        HandleConcat(EMPTY, before, FragmentsOf(ms[n])[..k], client);
        HandlePart(Assembly(map[], AllWanted(ms[..n])), ms[n], k, client);
      } else {
        assert fs == AllFragments(ms);
        HandleMessages(ms, client);
      }
    }
  }

  // ---------------------------------------------------------------- the wire

  function WireOf(f: Fragment): (s: seq<byte>)
    ensures |s| == HEADER_LENGTH + |f.body|
  {
    EncodeHeader(HeaderOf(f)) + f.body
  }

  function Wire(fs: seq<Fragment>): (s: seq<byte>) {
    if fs == [] then [] else WireOf(fs[0]) + Wire(fs[1..])
  }

  lemma {:induction false} WireConcat(a: seq<Fragment>, b: seq<Fragment>)
    ensures Wire(a + b) == Wire(a) + Wire(b)
  {
    if a == [] {
      assert a + b == b;
    } else {
      assert (a + b)[1..] == a[1..] + b;
      WireConcat(a[1..], b);
    }
  }

  // ---------------------------------------------------------------- the state machine

  /** What the reader waits for: a header, or the body that a header announced. */
  datatype Reading = AwaitHeader | AwaitBody(h: Header) | Dead

  datatype State = State(
    /** History: every message queued so far. */
    sent: seq<Msg>,
    /** `write_msg_queue` */
    queue: seq<Fragment>,
    /** `do_write` calls decided on but not yet made. */
    pending: nat,
    /** Outstanding `async_write` operations: the bytes each has still to hand over. */
    writes: seq<seq<byte>>,
    /** Bytes accepted by the stream and not yet read. */
    channel: seq<byte>,
    reading: Reading,
    /** History: the fragments read so far. */
    got: seq<Fragment>,
    assembly: Assembly
  )

  function Init(): (s: State) {
    State([], [], 0, [], [], AwaitHeader, [], EMPTY)
  }

  datatype Step =
    | QueueWrite(m: Msg)
    | DoWrite
    | Transmit(op: nat, n: nat)
    | WriteDone(op: nat)
    | ReadHeader
    | ReadBody

  /** The locked section of `QueueWrite`: all fragments at once, and a write if the queue was empty. */
  function AfterQueueWrite(s: State, m: Msg): (t: State) {
    s.(sent := s.sent + [m],
       queue := s.queue + FragmentsOf(m),
       pending := if s.queue == [] then s.pending + 1 else s.pending)
  }

  /** `do_write`: starts writing the front of the queue. */
  function AfterDoWrite(s: State): (t: State)
    requires s.pending > 0 && s.queue != []
  {
    s.(pending := s.pending - 1, writes := s.writes + [WireOf(s.queue[0])])
  }

  /** The stream accepts n more bytes of an outstanding write. */
  function AfterTransmit(s: State, op: nat, n: nat): (t: State)
    requires op < |s.writes| && n <= |s.writes[op]|
  {
    s.(writes := s.writes[op := s.writes[op][n..]], channel := s.channel + s.writes[op][..n])
  }

  /** The completion handler of a write: pops the front, and writes on if more is queued. */
  function AfterWriteDone(s: State, op: nat): (t: State)
    requires op < |s.writes| && s.queue != []
  {
    s.(writes := s.writes[..op] + s.writes[op + 1..],
       queue := s.queue[1..],
       pending := if s.queue[1..] != [] then s.pending + 1 else s.pending)
  }

  function AfterReadHeader(s: State): (t: State)
    requires |s.channel| >= HEADER_LENGTH
  {
    s.(channel := s.channel[HEADER_LENGTH..],
       reading := match DecodeHeader(s.channel[..HEADER_LENGTH])
                  case GoodHeader(h) => AwaitBody(h)
                  case BadLength => Dead)
  }

  function AfterReadBody(s: State, client: bool): (t: State)
    requires s.reading.AwaitBody? && |s.channel| >= s.reading.h.length
  {
    var h := s.reading.h;
    var f := Fragment(h.msgType, h.id, h.sequence, s.channel[..h.length]);
    s.(channel := s.channel[h.length..], reading := AwaitHeader,
       got := s.got + [f], assembly := Handle(s.assembly, f, client))
  }

  /** Which steps can happen. A step that is enabled by its trigger must also be possible. */
  predicate Enabled(s: State, step: Step, client: bool) {
    match step
    case QueueWrite(m) => MsgOk(m) && Suits(m, client)
    case DoWrite => s.pending > 0
    case Transmit(op, n) => op < |s.writes| && 0 < n <= |s.writes[op]|
    case WriteDone(op) => op < |s.writes| && s.writes[op] == []
    case ReadHeader => s.reading.AwaitHeader? && |s.channel| >= HEADER_LENGTH
    case ReadBody => s.reading.AwaitBody? && |s.channel| >= s.reading.h.length
  }

  /** `front()` and `pop_front()` are only called on a queue that holds something. */
  predicate Safe(s: State, step: Step) {
    step.DoWrite? || step.WriteDone? ==> s.queue != []
  }

  function Apply(s: State, step: Step, client: bool): (t: State)
    requires Enabled(s, step, client) && Safe(s, step)
  {
    match step
    case QueueWrite(m) => AfterQueueWrite(s, m)
    case DoWrite => AfterDoWrite(s)
    case Transmit(op, n) => AfterTransmit(s, op, n)
    case WriteDone(op) => AfterWriteDone(s, op)
    case ReadHeader => AfterReadHeader(s)
    case ReadBody => AfterReadBody(s, client)
  }

  // ---------------------------------------------------------------- the invariant

  /** Exactly one write is under way or about to be, as long as anything is queued; none otherwise. */
  predicate OneWriter(s: State) {
    s.pending + |s.writes| == if s.queue == [] then 0 else 1
  }

  /** Bytes of the queue not yet accepted by the stream. */
  function Unwritten(s: State): (r: seq<byte>)
    requires OneWriter(s)
  {
    if |s.writes| == 1 then s.writes[0] + Wire(s.queue[1..]) else Wire(s.queue)
  }

  /** Bytes of the header that has been read without its body. */
  function HeldHeader(s: State): (r: seq<byte>) {
    match s.reading
    case AwaitBody(h) => EncodeHeader(h)
    case _ => []
  }

  /** What was read, what is under way and what waits make up the wire image of what was sent, in order. */
  predicate BytesInOrder(s: State)
    requires OneWriter(s)
  {
    && s.got <= AllFragments(s.sent)
    && HeldHeader(s) + s.channel + Unwritten(s) == Wire(AllFragments(s.sent)[|s.got|..])
  }

  predicate ReadingOk(s: State) {
    match s.reading
    case AwaitHeader => true
    case AwaitBody(h) =>
      |s.got| < |AllFragments(s.sent)| && h == HeaderOf(AllFragments(s.sent)[|s.got|])
    case Dead => false
  }

  predicate Inv(s: State, client: bool) {
    && MsgsOk(s.sent, client)
    && OneWriter(s)
    && BytesInOrder(s)
    && ReadingOk(s)
    && s.assembly == HandleAll(EMPTY, s.got, client)
  }

  lemma {:induction false} FragmentsAreOk(ms: seq<Msg>, client: bool)
    requires MsgsOk(ms, client)
    ensures forall i :: 0 <= i < |AllFragments(ms)| ==> FragmentOk(AllFragments(ms)[i])
    decreases |ms|
  {
    if ms != [] {
      FragmentsAreOk(ms[..|ms| - 1], client);
    }
  }

  lemma {:induction false} InitInv(client: bool)
    ensures Inv(Init(), client)
  {
  }

  lemma {:induction false} SafeStep(s: State, step: Step, client: bool)
    requires Inv(s, client) && Enabled(s, step, client)
    ensures Safe(s, step)
  {
  }

  lemma {:induction false} HasFragments(m: Msg)
    ensures FragmentsOf(m) == [] <==> m.parts == []
  {
  }

  /** The guard that sending needs: a message without fragments only while something is queued. */
  predicate Sendable(s: State, step: Step) {
    step.QueueWrite? ==> step.m.parts != [] || s.queue != []
  }

  lemma {:induction false} MoreSent(s: State, m: Msg)
    requires |s.got| <= |AllFragments(s.sent)|
    ensures AllFragments(s.sent + [m]) == AllFragments(s.sent) + FragmentsOf(m)
    ensures Wire(AllFragments(s.sent + [m])[|s.got|..]) ==
            Wire(AllFragments(s.sent)[|s.got|..]) + Wire(FragmentsOf(m))
  {
    hide FragmentsOf, Wire;
    var all := AllFragments(s.sent);
    assert (s.sent + [m])[..|s.sent|] == s.sent;
    assert (all + FragmentsOf(m))[|s.got|..] == all[|s.got|..] + FragmentsOf(m);
    WireConcat(all[|s.got|..], FragmentsOf(m));
  }

  lemma {:induction false} MoreUnwritten(s: State, m: Msg)
    requires OneWriter(s) && (FragmentsOf(m) != [] || s.queue != [])
    ensures OneWriter(AfterQueueWrite(s, m))
    ensures Unwritten(AfterQueueWrite(s, m)) == Unwritten(s) + Wire(FragmentsOf(m))
  {
    hide FragmentsOf, Wire;
    assert FragmentsOf(m) == [] ==> s.queue + FragmentsOf(m) == s.queue;
    if |s.writes| == 1 {
      assert (s.queue + FragmentsOf(m))[1..] == s.queue[1..] + FragmentsOf(m);
      WireConcat(s.queue[1..], FragmentsOf(m));
    } else {
      WireConcat(s.queue, FragmentsOf(m));
    }
  }

  lemma {:induction false} QueueWriteInv(s: State, m: Msg, client: bool)
    requires Inv(s, client) && Enabled(s, QueueWrite(m), client) && Sendable(s, QueueWrite(m))
    ensures Inv(AfterQueueWrite(s, m), client)
  {
    hide Handle, HandleAll, FragmentsOf, EncodeHeader, AllFragments, Wire, MsgOk, Suits, Unwritten;
    var t := AfterQueueWrite(s, m);
    HasFragments(m);
    MoreSent(s, m);
    MoreUnwritten(s, m);
    assert HeldHeader(t) + t.channel + Unwritten(t)
        == (HeldHeader(s) + s.channel + Unwritten(s)) + Wire(FragmentsOf(m));
  }

  /** The sender moved bytes on towards the reader, in order, and did nothing else. */
  predicate Moved(s: State, t: State)
    requires OneWriter(s)
  {
    && OneWriter(t) && t.channel + Unwritten(t) == s.channel + Unwritten(s)
    && t.sent == s.sent && t.reading == s.reading && t.got == s.got && t.assembly == s.assembly
  }

  lemma {:induction false} MovedInv(s: State, t: State, client: bool)
    requires Inv(s, client) && Moved(s, t)
    ensures Inv(t, client)
  {
    hide Handle, HandleAll, AllFragments, EncodeHeader, Wire, Unwritten, HeldHeader, OneWriter;
    assert HeldHeader(s) + s.channel + Unwritten(s) == HeldHeader(s) + (s.channel + Unwritten(s));
    assert HeldHeader(s) == HeldHeader(t) by { SameHeld(s, t); }
    assert HeldHeader(t) + t.channel + Unwritten(t) == HeldHeader(t) + (t.channel + Unwritten(t));
  }

  lemma {:induction false} SameHeld(s: State, t: State)
    requires s.reading == t.reading
    ensures HeldHeader(s) == HeldHeader(t)
  {
  }

  lemma {:induction false} DoWriteMoves(s: State)
    requires OneWriter(s) && s.pending > 0 && s.queue != []
    ensures Moved(s, AfterDoWrite(s))
  {
    hide EncodeHeader, WireOf;
  }

  lemma {:induction false} TransmitMoves(s: State, op: nat, n: nat)
    requires OneWriter(s) && op < |s.writes| && n <= |s.writes[op]|
    ensures Moved(s, AfterTransmit(s, op, n))
  {
    hide Wire;
    var t := AfterTransmit(s, op, n);
    assert s.writes[0] == s.writes[0][..n] + s.writes[0][n..];
    assert t.channel + Unwritten(t) == s.channel + Unwritten(s);
  }

  lemma {:induction false} WriteDoneMoves(s: State, op: nat)
    requires OneWriter(s) && op < |s.writes| && s.writes[op] == [] && s.queue != []
    ensures Moved(s, AfterWriteDone(s, op))
  {
    hide Wire;
    var t := AfterWriteDone(s, op);
    assert t.writes == [];
    assert Unwritten(t) == Unwritten(s);
  }

  /** The stream always goes on with the encoding of the next fragment to be read. */
  lemma {:induction false} NextOnWire(s: State, client: bool)
    requires Inv(s, client) && HeldHeader(s) + s.channel + Unwritten(s) != []
    ensures |s.got| < |AllFragments(s.sent)|
    ensures var f := AllFragments(s.sent)[|s.got|];
            && FragmentOk(f)
            && HeldHeader(s) + s.channel + Unwritten(s) ==
               EncodeHeader(HeaderOf(f)) + (f.body + Wire(AllFragments(s.sent)[|s.got| + 1..]))
  {
    hide Handle, HandleAll, EncodeHeader;
    FragmentsAreOk(s.sent, client);
    var rest := AllFragments(s.sent)[|s.got|..];
    assert rest != [];
    assert rest[1..] == AllFragments(s.sent)[|s.got| + 1..];
    assert Wire(rest) == WireOf(rest[0]) + Wire(rest[1..]);
  }

  lemma {:induction false} ReadHeaderInv(s: State, client: bool)
    requires Inv(s, client) && Enabled(s, ReadHeader, client)
    ensures Inv(AfterReadHeader(s), client)
  {
    hide Handle, HandleAll, AllFragments, EncodeHeader, DecodeHeader, Wire, WireOf;
    NextOnWire(s, client);
    var f := AllFragments(s.sent)[|s.got|];
    var t := AfterReadHeader(s);
    var x := s.channel + Unwritten(s);
    assert HeldHeader(s) + s.channel + Unwritten(s) == x;
    assert x[..HEADER_LENGTH] == s.channel[..HEADER_LENGTH];
    assert x[..HEADER_LENGTH] == EncodeHeader(HeaderOf(f));
    HeaderRoundTrip(f);
    assert s.channel == s.channel[..HEADER_LENGTH] + s.channel[HEADER_LENGTH..];
    assert Unwritten(t) == Unwritten(s);
  }

  /** Taking the front of a stream: if x is b and then r, its first bytes are b. */
  lemma {:induction false} TakeFront(c: seq<byte>, u: seq<byte>, b: seq<byte>, r: seq<byte>)
    requires c + u == b + r && |c| >= |b|
    ensures c[..|b|] == b && c[|b|..] + u == r
  {
    assert (c + u)[..|b|] == c[..|b|];
    assert (c + u)[|b|..] == c[|b|..] + u;
  }

  lemma {:induction false} ReadBodyInv(s: State, client: bool)
    requires Inv(s, client) && Enabled(s, ReadBody, client)
    ensures Inv(AfterReadBody(s, client), client)
  {
    hide Handle, AllFragments, EncodeHeader, DecodeHeader, Wire, WireOf, HandleAll;
    NextOnWire(s, client);
    var all := AllFragments(s.sent);
    var f := all[|s.got|];
    var t := AfterReadBody(s, client);
    var rest := Wire(all[|s.got| + 1..]);
    var head := EncodeHeader(HeaderOf(f));
    assert head + (s.channel + Unwritten(s)) == head + (f.body + rest) by {
      assert HeldHeader(s) + s.channel + Unwritten(s) == head + (s.channel + Unwritten(s));
    }
    SameTail(head, s.channel + Unwritten(s), f.body + rest);
    TakeFront(s.channel, Unwritten(s), f.body, rest);
    HandleSnoc(EMPTY, s.got, f, client);
    assert t.got == s.got + [f];
    assert Unwritten(t) == Unwritten(s);
    assert HeldHeader(t) + t.channel + Unwritten(t) == t.channel + Unwritten(t);
  }

  lemma {:induction false} SameTail(h: seq<byte>, x: seq<byte>, y: seq<byte>)
    requires h + x == h + y
    ensures x == y
  {
    assert (h + x)[|h|..] == x && (h + y)[|h|..] == y;
  }

  /**
   A message without fragments on an idle connection: a `do_write` is due for an empty queue. This is what an
   empty chat text does.
   */
  lemma {:induction false} EmptyBreaks(s: State, m: Msg, client: bool)
    requires Inv(s, client) && m.parts == [] && s.queue == []
    ensures var t := AfterQueueWrite(s, m);
            !OneWriter(t) && !Inv(t, client) && Enabled(t, DoWrite, client) && !Safe(t, DoWrite)
  {
    HasFragments(m);
  }

  /** On a busy connection such a message is dropped: nothing changes but the history. */
  lemma {:induction false} EmptyDropped(s: State, m: Msg)
    requires m.parts == [] && s.queue != []
    ensures AfterQueueWrite(s, m) == s.(sent := s.sent + [m])
    ensures AllWanted(s.sent + [m]) == AllWanted(s.sent)
  {
    HasFragments(m);
    assert (s.sent + [m])[..|s.sent|] == s.sent;
    assert s.queue + [] == s.queue;
  }

  lemma {:induction false} InvOneWriter(s: State, client: bool)
    requires Inv(s, client)
    ensures OneWriter(s)
  {
  }

  /**
   Every step is safe, and keeps the connection in order, with exactly one writer while anything is queued, if
   and only if it does not send a message without fragments on an idle connection.
   */
  lemma {:induction false} StepInv(s: State, step: Step, client: bool)
    requires Inv(s, client) && Enabled(s, step, client)
    ensures Safe(s, step)
    ensures Inv(Apply(s, step, client), client) <==> Sendable(s, step)
    ensures OneWriter(Apply(s, step, client)) <==> Sendable(s, step)
  {
    hide Inv, HandleAll, BytesInOrder, ReadingOk, MsgsOk, Moved;
    hide AfterQueueWrite, AfterDoWrite, AfterTransmit, AfterWriteDone, AfterReadHeader, AfterReadBody;
    SafeStep(s, step, client);
    InvOneWriter(s, client);
    match step {
      case QueueWrite(m) =>
        if Sendable(s, step) {
          QueueWriteInv(s, m, client);
        } else {
          EmptyBreaks(s, m, client);
        }
      case DoWrite => DoWriteMoves(s); MovedInv(s, AfterDoWrite(s), client);
      case Transmit(op, n) => TransmitMoves(s, op, n); MovedInv(s, AfterTransmit(s, op, n), client);
      case WriteDone(op) => WriteDoneMoves(s, op); MovedInv(s, AfterWriteDone(s, op), client);
      case ReadHeader => ReadHeaderInv(s, client);
      case ReadBody => ReadBodyInv(s, client);
    }
    if Sendable(s, step) {
      InvOneWriter(Apply(s, step, client), client);
    }
  }

  // ---------------------------------------------------------------- runs

  /** The steps can be taken one after the other from s, and lead to t. */
  ghost predicate Run(s: State, steps: seq<Step>, t: State, client: bool)
    decreases |steps|
  {
    if steps == [] then s == t
    else
      && Enabled(s, steps[0], client) && Safe(s, steps[0])
      && Run(Apply(s, steps[0], client), steps[1..], t, client)
  }

  /** No step sends a message without fragments on an idle connection. */
  ghost predicate Guarded(s: State, steps: seq<Step>, client: bool)
    decreases |steps|
  {
    steps == [] ||
    (&& Enabled(s, steps[0], client) && Safe(s, steps[0]) && Sendable(s, steps[0])
     && Guarded(Apply(s, steps[0], client), steps[1..], client))
  }

  /** There is one writer in every state of the run while anything is queued, and none otherwise. */
  ghost predicate AlwaysOneWriter(s: State, steps: seq<Step>, client: bool)
    decreases |steps|
  {
    && OneWriter(s)
    && (steps == [] ||
        (&& Enabled(s, steps[0], client) && Safe(s, steps[0])
         && AlwaysOneWriter(Apply(s, steps[0], client), steps[1..], client)))
  }

  /** Writes are serialised throughout a run if and only if it is guarded. */
  lemma {:induction false} OneWriterIff(s: State, steps: seq<Step>, t: State, client: bool)
    requires Inv(s, client) && Run(s, steps, t, client)
    ensures AlwaysOneWriter(s, steps, client) <==> Guarded(s, steps, client)
    decreases |steps|
  {
    hide Inv, Apply, Enabled, Sendable, OneWriter, Safe;
    InvOneWriter(s, client);
    if steps != [] {
      var next := Apply(s, steps[0], client);
      StepInv(s, steps[0], client);
      if Sendable(s, steps[0]) {
        OneWriterIff(next, steps[1..], t, client);
      }
    }
  }

  lemma {:induction false} RunInv(s: State, steps: seq<Step>, t: State, client: bool)
    requires Inv(s, client) && Run(s, steps, t, client) && Guarded(s, steps, client)
    ensures Inv(t, client)
    decreases |steps|
  {
    hide Inv, Apply, Enabled, Sendable;
    if steps != [] {
      StepInv(s, steps[0], client);
      RunInv(Apply(s, steps[0], client), steps[1..], t, client);
    }
  }

  /**
   In every guarded run, whatever the interleaving of senders, write completions and reads: writes never
   overlap, the queue's front exists whenever it is touched, and what the receiver dispatched is
   a prefix, type and payload, of what was queued.
   */
  lemma {:induction false} Delivered(steps: seq<Step>, s: State, client: bool)
    requires Run(Init(), steps, s, client) && Guarded(Init(), steps, client)
    ensures OneWriter(s) && s.reading != Dead
    ensures forall step :: Enabled(s, step, client) ==> Safe(s, step)
    ensures s.assembly.dispatched <= AllWanted(s.sent)
  {
    hide Run, HandleAll, AllWanted;
    InitInv(client);
    RunInv(Init(), steps, s, client);
    HandlePrefix(s.sent, s.got, client);
    forall step | Enabled(s, step, client) ensures Safe(s, step) {
      SafeStep(s, step, client);
    }
  }

  /** Nothing but new messages can happen. */
  ghost predicate Quiet(s: State, client: bool) {
    forall step :: Enabled(s, step, client) ==> step.QueueWrite?
  }

  /** The step that moves a sender on which something is queued. */
  lemma {:induction false} SenderMoves(s: State, client: bool) returns (step: Step)
    requires OneWriter(s) && s.queue != []
    ensures Enabled(s, step, client) && !step.QueueWrite?
  {
    if s.pending > 0 {
      step := DoWrite;
    } else if s.writes[0] == [] {
      step := WriteDone(0);
    } else {
      step := Transmit(0, |s.writes[0]|);
    }
  }

  /** The step that moves a receiver to which something was sent, once the sender is idle. */
  lemma {:induction false} ReceiverMoves(s: State, client: bool) returns (step: Step)
    requires Inv(s, client) && s.queue == [] && HeldHeader(s) + s.channel != []
    ensures Enabled(s, step, client) && !step.QueueWrite?
  {
    hide HandleAll, Wire, AllFragments, EncodeHeader;
    WireNone();
    assert HeldHeader(s) + s.channel + Unwritten(s) == HeldHeader(s) + s.channel;
    NextOnWire(s, client);
    step := if s.reading.AwaitHeader? then ReadHeader else ReadBody;
  }

  lemma {:induction false} QuietIsIdle(s: State, client: bool)
    requires Inv(s, client) && Quiet(s, client)
    ensures s.pending == 0 && s.writes == [] && s.queue == []
    ensures HeldHeader(s) + s.channel == []
  {
    hide HandleAll, AllFragments, Enabled, HeldHeader, BytesInOrder;
    if s.queue != [] {
      var step := SenderMoves(s, client);
      assert false;
    }
    if HeldHeader(s) + s.channel != [] {
      var step := ReceiverMoves(s, client);
      assert false;
    }
  }

  lemma {:induction false} WireNone()
    ensures Wire([]) == []
  {
  }

  /** Nothing stalls: when no step is left to take, every queued message has been dispatched. */
  lemma {:induction false} QuietMeansDone(steps: seq<Step>, s: State, client: bool)
    requires Run(Init(), steps, s, client) && Guarded(Init(), steps, client) && Quiet(s, client)
    ensures s.queue == [] && s.channel == [] && s.assembly == Assembly(map[], AllWanted(s.sent))
  {
    hide Run, Handle, AllWanted, Quiet, EncodeHeader;
    InitInv(client);
    RunInv(Init(), steps, s, client);
    QuietIsIdle(s, client);
    NothingLeft(s, client);
    HandleMessages(s.sent, client);
  }

  lemma {:induction false} NothingLeft(s: State, client: bool)
    requires Inv(s, client) && HeldHeader(s) + s.channel == [] && s.queue == []
    ensures s.got == AllFragments(s.sent)
  {
    hide HandleAll, Handle, AllFragments, EncodeHeader;
    WireNone();
    WireEmpty(AllFragments(s.sent)[|s.got|..]);
    assert AllFragments(s.sent)[..|s.got|] == s.got;
  }

  lemma {:induction false} WireEmpty(fs: seq<Fragment>)
    ensures Wire(fs) == [] <==> fs == []
  {
  }

  /** Fragments whose write has not begun. */
  function Unstarted(s: State): (fs: seq<Fragment>) {
    if s.writes == [] || s.queue == [] then s.queue else s.queue[1..]
  }

  function Outstanding(s: State): (n: nat) {
    if |s.writes| == 1 then |s.writes[0]| else 0
  }

  /** Work left in a state. */
  function Work(s: State): (n: nat) {
    3 * |Wire(Unstarted(s))| + 2 * Outstanding(s) + |s.channel| + 2 * |s.queue| + s.pending
    + if s.reading.AwaitBody? then 1 else 0
  }

  lemma {:induction false} FrontWire(fs: seq<Fragment>)
    requires fs != []
    ensures |Wire(fs)| == |WireOf(fs[0])| + |Wire(fs[1..])| && |WireOf(fs[0])| >= HEADER_LENGTH
  {
  }

  /** Every step but a new message leaves less to do, so everything queued is dispatched after finitely many. */
  lemma {:induction false} WorkShrinks(s: State, step: Step, client: bool)
    requires Inv(s, client) && Enabled(s, step, client) && !step.QueueWrite?
    ensures Safe(s, step) && Work(Apply(s, step, client)) < Work(s)
  {
    hide HandleAll, Handle, AllFragments, EncodeHeader, Wire;
    SafeStep(s, step, client);
    if step.DoWrite? {
      FrontWire(s.queue);
    }
  }
}
