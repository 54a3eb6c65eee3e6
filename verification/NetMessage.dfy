/**
 Network messages: a message is cut into fragments of at most 1024 bytes, each with a 16-byte
 header, and put together again at the other end (common/net-message).
 */
module NetMessage {
  import opened Bytes

  const HEADER_LENGTH: nat := 16
  const MAX_BODY_LENGTH: nat := 1024
  const TWO_32: nat := 0x1_0000_0000

  const SYNC: nat := 0
  const MULTI_PART: nat := 1
  const CHAT_MESSAGE: nat := 9

  /** `Message`: header fields and body. */
  datatype Fragment = Fragment(msgType: nat, id: nat, sequence: nat, body: seq<byte>)

  predicate FragmentOk(f: Fragment) {
    f.msgType < TWO_32 && f.id < TWO_32 && f.sequence < TWO_32 && |f.body| <= MAX_BODY_LENGTH
  }

  // ---------------------------------------------------------------- header bytes

  /** `encode_32` */
  function Encode32(v: nat): (s: seq<byte>)
    ensures |s| == 4
  {
    [v % 256, v / 256 % 256, v / 65536 % 256, v / 16777216 % 256]
  }

  /** `decode_32` */
  function Decode32(s: seq<byte>): (v: nat)
    requires |s| == 4
    ensures v < TWO_32
  {
    s[0] as int + 256 * (s[1] as int) + 65536 * (s[2] as int) + 16777216 * (s[3] as int)
  }

  lemma {:induction false} Decode32Encode32(v: nat)
    requires v < TWO_32
    ensures Decode32(Encode32(v)) == v
  {
    var a := v / 256;
    var b := a / 256;
    assert v / 65536 == b && v / 16777216 == b / 256;
  }

  datatype Header = Header(length: nat, msgType: nat, id: nat, sequence: nat)

  function HeaderOf(f: Fragment): (h: Header) {
    Header(|f.body|, f.msgType, f.id, f.sequence)
  }

  /** `encode_header` */
  function EncodeHeader(h: Header): (s: seq<byte>)
    ensures |s| == HEADER_LENGTH
  {
    Encode32(h.length) + Encode32(h.msgType) + Encode32(h.id) + Encode32(h.sequence)
  }

  datatype HeaderResult = GoodHeader(h: Header) | BadLength

  /** `decode_header` */
  function DecodeHeader(s: seq<byte>): (r: HeaderResult)
    requires |s| == HEADER_LENGTH
    ensures r.GoodHeader? ==> r.h.length <= MAX_BODY_LENGTH
  {
    var h := Header(Decode32(s[0..4]), Decode32(s[4..8]), Decode32(s[8..12]), Decode32(s[12..16]));
    if h.length > MAX_BODY_LENGTH then BadLength else GoodHeader(h)
  }

  lemma {:induction false} HeaderRoundTrip(f: Fragment)
    requires FragmentOk(f)
    ensures DecodeHeader(EncodeHeader(HeaderOf(f))) == GoodHeader(HeaderOf(f))
  {
    hide Encode32, Decode32;
    var h := HeaderOf(f);
    var s := EncodeHeader(h);
    assert s[0..4] == Encode32(h.length) && s[4..8] == Encode32(h.msgType);
    assert s[8..12] == Encode32(h.id) && s[12..16] == Encode32(h.sequence);
    Decode32Encode32(h.length);
    Decode32Encode32(h.msgType);
    Decode32Encode32(h.id);
    Decode32Encode32(h.sequence);
  }

  function Digits(a: int, b: int, c: int, d: int): (v: int) {
    a + 256 * b + 65536 * c + 16777216 * d
  }

  /** The number that four bytes are, least significant first. */
  predicate LittleEndian(s: seq<byte>, at: nat, v: nat) {
    at + 4 <= |s| && v == Digits(s[at], s[at + 1], s[at + 2], s[at + 3])
  }

  lemma {:induction false} Encode32Digits(v: nat)
    requires v < TWO_32
    ensures LittleEndian(Encode32(v), 0, v)
  {
    hide Decode32;
    Decode32Encode32(v);
    assert Decode32(Encode32(v)) == v;
    DecodeDigits(Encode32(v));
  }

  lemma {:induction false} DecodeDigits(s: seq<byte>)
    requires |s| == 4
    ensures LittleEndian(s, 0, Decode32(s))
  {
  }

  lemma {:induction false} LittleEndianIn(s: seq<byte>, at: nat, v: nat)
    requires at + 4 <= |s|
    ensures LittleEndian(s[at..at + 4], 0, v) <==> LittleEndian(s, at, v)
  {
  }

  /** On the wire the length of the body comes first, then the type, the id and the sequence number. */
  lemma {:induction false} HeaderBytes(f: Fragment)
    requires FragmentOk(f)
    ensures var s := EncodeHeader(HeaderOf(f));
            && |s| == 16
            && Digits(s[0], s[1], 0, 0) == |f.body| <= 1024 && s[2] == s[3] == 0
            && LittleEndian(s, 4, f.msgType) && LittleEndian(s, 8, f.id) && LittleEndian(s, 12, f.sequence)
            && (f.msgType == SYNC ==> LittleEndian(s, 4, 0)) && (f.msgType == MULTI_PART ==> LittleEndian(s, 4, 1))
  {
    hide Encode32, Decode32, LittleEndian;
    var h, s := HeaderOf(f), EncodeHeader(HeaderOf(f));
    assert s[0..4] == Encode32(h.length) && s[4..8] == Encode32(h.msgType);
    assert s[8..12] == Encode32(h.id) && s[12..16] == Encode32(h.sequence);
    Encode32Digits(h.length);
    Encode32Digits(h.msgType);
    Encode32Digits(h.id);
    Encode32Digits(h.sequence);
    LittleEndianIn(s, 0, h.length);
    LittleEndianIn(s, 4, h.msgType);
    LittleEndianIn(s, 8, h.id);
    LittleEndianIn(s, 12, h.sequence);
    ShortLength(s, |f.body|);
  }

  lemma {:induction false} ShortLength(s: seq<byte>, v: nat)
    requires LittleEndian(s, 0, v) && v <= 1024
    ensures Digits(s[0], s[1], 0, 0) == v && s[2] == s[3] == 0
  {
  }

  /** Any sixteen bytes are the header that they are read as, and are read unless the length is too much. */
  lemma {:induction false} HeaderIff(s: seq<byte>, h: Header)
    requires |s| == 16
    ensures DecodeHeader(s) == GoodHeader(h) <==>
              && h.length <= 1024
              && LittleEndian(s, 0, h.length) && LittleEndian(s, 4, h.msgType)
              && LittleEndian(s, 8, h.id) && LittleEndian(s, 12, h.sequence)
  {
    hide Decode32;
    DecodeDigits(s[0..4]);
    DecodeDigits(s[4..8]);
    DecodeDigits(s[8..12]);
    DecodeDigits(s[12..16]);
    LittleEndianIn(s, 0, Decode32(s[0..4]));
    LittleEndianIn(s, 4, Decode32(s[4..8]));
    LittleEndianIn(s, 8, Decode32(s[8..12]));
    LittleEndianIn(s, 12, Decode32(s[12..16]));
  }

  // ---------------------------------------------------------------- bodies

  /** The payload a list of fragments carries. */
  function Bodies(list: seq<Fragment>): (s: seq<byte>) {
    if list == [] then [] else list[0].body + Bodies(list[1..])
  }

  lemma {:induction false} BodiesConcat(a: seq<Fragment>, b: seq<Fragment>)
    ensures Bodies(a + b) == Bodies(a) + Bodies(b)
  {
    if a == [] {
      assert a + b == b;
    } else {
      assert (a + b)[1..] == a[1..] + b;
      BodiesConcat(a[1..], b);
    }
  }

  lemma {:induction false} BodiesSnoc(a: seq<Fragment>, f: Fragment)
    ensures Bodies(a + [f]) == Bodies(a) + f.body
  {
    BodiesConcat(a, [f]);
    assert [f][1..] == [];
  }

  /** Fragment i's body is its part of the payload. */
  lemma {:induction false} BodiesAt(list: seq<Fragment>, i: nat)
    requires i < |list|
    ensures |Bodies(list[..i])| + |list[i].body| == |Bodies(list[..i + 1])| <= |Bodies(list)|
    ensures Bodies(list)[|Bodies(list[..i])|..|Bodies(list[..i + 1])|] == list[i].body
  {
    assert list[..i + 1] == list[..i] + [list[i]];
    assert list == list[..i + 1] + list[i + 1..];
    BodiesSnoc(list[..i], list[i]);
    BodiesConcat(list[..i + 1], list[i + 1..]);
  }

  // ---------------------------------------------------------------- sending

  /** The header fields that `GetMessages` gives fragment i of n. */
  function Stamped(f: Fragment, i: nat, n: nat, msgType: nat, id: nat): (g: Fragment) {
    Fragment(if i + 1 < n then MULTI_PART else msgType, id, i % TWO_32, f.body)
  }

  function Stamp(list: seq<Fragment>, msgType: nat, id: nat): (r: seq<Fragment>)
    ensures |r| == |list|
  {
    seq(|list|, i requires 0 <= i < |list| => Stamped(list[i], i, |list|, msgType, id))
  }

  lemma {:induction false} StampBodies(list: seq<Fragment>, list': seq<Fragment>)
    requires |list| == |list'| && forall i :: 0 <= i < |list| ==> list[i].body == list'[i].body
    ensures Bodies(list) == Bodies(list')
  {
    if list != [] {
      StampBodies(list[1..], list'[1..]);
    }
  }

  predicate ListOk(list: seq<Fragment>) {
    forall i :: 0 <= i < |list| ==> |list[i].body| <= MAX_BODY_LENGTH
  }

  /** `MessageOut` */
  class MessageOut {
    var messageType: nat
    var messageId: nat
    var payloadWritten: int
    var messageList: seq<Fragment>

    ghost predicate Valid()
      reads this
    {
      ListOk(messageList) && payloadWritten == |Bodies(messageList)|
    }

    constructor (messageType: nat)
      ensures Valid() && messageList == []
      ensures this.messageType == messageType && messageId == 0
    {
      this.messageType := messageType;
      messageId, payloadWritten, messageList := 0, 0, [];
    }

    /** The object that `MessageIn::ToOut` fills: a received list, to be sent on. */
    constructor Relay(messageType: nat, messageId: nat, list: seq<Fragment>, size: nat)
      requires ListOk(list) && size == |Bodies(list)|
      ensures Valid() && messageList == list
      ensures this.messageType == messageType && this.messageId == messageId
    {
      this.messageType, this.messageId := messageType, messageId;
      payloadWritten, messageList := size, list;
    }

    /** `MessageOut::Next`: a new fragment with a full-sized body, to be filled in by the caller. */
    method Next()
      requires Valid()
      modifies this`messageList, `payloadWritten
      ensures Valid() && |messageList| == |old(messageList)| + 1
      ensures forall i :: 0 <= i < |old(messageList)| ==> messageList[i].body == old(messageList)[i].body
      ensures |messageList[|messageList| - 1].body| == MAX_BODY_LENGTH
      ensures messageList[|messageList| - 1].msgType == messageType && messageList[|messageList| - 1].id == messageId
      ensures var last := |old(messageList)| - 1;
              messageList[..last + 1] == if last < 0 then []
                                         else old(messageList)[last := old(messageList)[last].(msgType := MULTI_PART)]
    {
      ghost var was := messageList;
      if messageList != [] {
        var last := |messageList| - 1;
        messageList := messageList[last := messageList[last].(msgType := MULTI_PART)];
      }
      StampBodies(was, messageList);
      var zeros := seq(MAX_BODY_LENGTH, _ => 0);
      BodiesSnoc(messageList, Fragment(messageType, messageId, 0, zeros));
      messageList := messageList + [Fragment(messageType, messageId, 0, zeros)];
      payloadWritten := payloadWritten + MAX_BODY_LENGTH;
    }

    /** `MessageOut::BackUp`: gives back the last count bytes of the last fragment. */
    method BackUp(count: int)
      requires Valid()
      modifies this`messageList, `payloadWritten
      ensures Valid() && |messageList| == |old(messageList)|
      ensures if messageList == [] || count < 1 || count > |old(messageList)[|messageList| - 1].body|
              then messageList == old(messageList)
              else
                var last := |messageList| - 1;
                var body := old(messageList)[last].body;
                messageList == old(messageList)[last := old(messageList)[last].(body := body[..|body| - count])]
    {
      if messageList == [] || count < 1 {
        return;
      }
      var last := |messageList| - 1;
      var msg := messageList[last];
      if count > |msg.body| {
        return;
      }
      var shorter := msg.(body := msg.body[..|msg.body| - count]);
      assert messageList == messageList[..last] + [msg];
      assert messageList[last := shorter] == messageList[..last] + [shorter];
      BodiesSnoc(messageList[..last], msg);
      BodiesSnoc(messageList[..last], shorter);
      messageList := messageList[last := shorter];
      payloadWritten := payloadWritten - count;
    }

    /** The memcpy into the buffer that `Next` handed out. */
    method Fill(data: seq<byte>)
      requires Valid() && messageList != [] && |data| <= |messageList[|messageList| - 1].body|
      modifies this`messageList
      ensures Valid()
      ensures var last := |old(messageList)| - 1;
              var body := old(messageList)[last].body;
              messageList == old(messageList)[last := old(messageList)[last].(body := data + body[|data|..])]
    {
      var last := |messageList| - 1;
      var msg := messageList[last];
      var filled := msg.(body := data + msg.body[|data|..]);
      assert messageList == messageList[..last] + [msg];
      assert messageList[last := filled] == messageList[..last] + [filled];
      BodiesSnoc(messageList[..last], msg);
      BodiesSnoc(messageList[..last], filled);
      messageList := messageList[last := filled];
    }

    /** `MessageOut::FromBuffer`: appends the data, cut into fragments none of which is empty. */
    method FromBuffer(data: seq<byte>)
      requires Valid()
      modifies this`messageList, `payloadWritten
      ensures Valid() && Cut(old(messageList), messageList, data, |data|)
      ensures Bodies(messageList) == old(Bodies(messageList)) + data
      ensures |messageList| == |old(messageList)| + (|data| + MAX_BODY_LENGTH - 1) / MAX_BODY_LENGTH
    {
      hide Bodies, Cut, ListOk;
      var remain: nat, offset: nat := |data|, 0;
      ghost var parts: nat := 0;
      NothingCut(messageList, data);
      while remain > 0
        invariant Valid() && offset + remain == |data|
        invariant |messageList| == |old(messageList)| + parts && offset == MAX_BODY_LENGTH * parts
        invariant Cut(old(messageList), messageList, data, offset)
        decreases remain
      {
        ghost var was := messageList;
        var n := if MAX_BODY_LENGTH <= remain then MAX_BODY_LENGTH else remain;
        Next();
        Fill(data[offset..offset + n]);
        if MAX_BODY_LENGTH <= remain {
          CutMore(old(messageList), was, messageList, data, offset, n);
          remain, offset, parts := remain - n, offset + n, parts + 1;
        } else {
          BackUp(MAX_BODY_LENGTH - remain);
          CutMore(old(messageList), was, messageList, data, offset, n);
          AllCut(old(messageList), messageList, data);
          return;
        }
      }
      AllCut(old(messageList), messageList, data);
    }

    /** `MessageOut::GetMessages`: the fragments with their headers set. */
    method GetMessages() returns (list: seq<Fragment>)
      requires Valid()
      modifies this`messageList
      ensures Valid() && list == Stamp(old(messageList), messageType, messageId)
      ensures messageList == list
    {
      list := messageList;
      var sequence := 0;
      for i := 0 to |list|
        invariant |list| == |old(messageList)| && sequence == i % TWO_32
        invariant forall j :: 0 <= j < i ==>
          list[j] == Fragment(MULTI_PART, messageId, j % TWO_32, old(messageList)[j].body)
        invariant forall j :: i <= j < |list| ==> list[j] == old(messageList)[j]
      {
        list := list[i := Fragment(MULTI_PART, messageId, sequence, list[i].body)];
        sequence := (sequence + 1) % TWO_32;
      }
      if list != [] {
        var last := |list| - 1;
        list := list[last := list[last].(msgType := messageType)];
      }
      StampBodies(messageList, list);
      messageList := list;
    }
  }

  /** Up to offset, the data has been appended, in fragments none of which is empty. */
  ghost predicate Cut(was: seq<Fragment>, now: seq<Fragment>, data: seq<byte>, offset: nat) {
    && |was| <= |now| && offset <= |data|
    && Bodies(now) == Bodies(was) + data[..offset]
    && (forall i :: 0 <= i < |was| ==> now[i].body == was[i].body)
    && (forall i :: |was| <= i < |now| ==> now[i].body != [])
  }

  lemma {:induction false} NothingCut(was: seq<Fragment>, data: seq<byte>)
    ensures Cut(was, was, data, 0)
  {
  }

  lemma {:induction false} AllCut(was: seq<Fragment>, now: seq<Fragment>, data: seq<byte>)
    requires Cut(was, now, data, |data|)
    ensures Bodies(now) == Bodies(was) + data
  {
    assert data[..|data|] == data;
  }

  lemma {:induction false} CutMore(was: seq<Fragment>, before: seq<Fragment>, now: seq<Fragment>, data: seq<byte>,
                                   offset: nat, n: nat)
    requires Cut(was, before, data, offset) && n > 0 && offset + n <= |data| && |now| == |before| + 1
    requires forall i :: 0 <= i < |before| ==> now[i].body == before[i].body
    requires now[|before|].body == data[offset..offset + n]
    ensures Cut(was, now, data, offset + n)
  {
    hide Bodies;
    OneMore(before, now);
    var piece := data[offset..offset + n];
    assert data[..offset] + piece == data[..offset + n];
    assert Bodies(was) + data[..offset] + piece == Bodies(was) + (data[..offset] + piece);
    assert forall i :: 0 <= i < |was| ==> now[i].body == before[i].body;
    assert forall i :: |was| <= i < |before| ==> now[i].body == before[i].body;
  }

  /** The same bodies and one more. */
  lemma {:induction false} OneMore(before: seq<Fragment>, now: seq<Fragment>)
    requires |now| == |before| + 1 && forall i :: 0 <= i < |before| ==> now[i].body == before[i].body
    ensures Bodies(now) == Bodies(before) + now[|before|].body
  {
    hide Bodies;
    assert now == now[..|before|] + [now[|before|]];
    BodiesSnoc(now[..|before|], now[|before|]);
    StampBodies(now[..|before|], before);
  }

  // ---------------------------------------------------------------- receiving

  /** A complete message: parts in order, and only the last one typed. */
  predicate Complete(list: seq<Fragment>) {
    && list != []
    && (forall i :: 0 <= i < |list| ==> list[i].sequence == i % TWO_32)
    && (forall i :: 0 <= i < |list| - 1 ==> list[i].msgType == MULTI_PART)
    && list[|list| - 1].msgType != MULTI_PART
  }

  /** `MessageIn::DecodeMessages`: accepts exactly the complete messages and finds their type. */
  method DecodeMessages(list: seq<Fragment>) returns (ok: bool, msgType: nat)
    ensures ok <==> Complete(list)
    ensures ok ==> msgType == list[|list| - 1].msgType
  {
    var iter, haveType, verify := 0, false, 0;
    msgType := CHAT_MESSAGE;
    while iter < |list|
      invariant iter <= |list| && verify == iter % TWO_32
      invariant !haveType
      invariant forall i :: 0 <= i < iter ==> list[i].sequence == i % TWO_32 && list[i].msgType == MULTI_PART
    {
      if list[iter].sequence != verify {
        return false, msgType;
      }
      verify := (verify + 1) % TWO_32;
      if list[iter].msgType != MULTI_PART {
        msgType := list[iter].msgType;
        iter := iter + 1;
        haveType := true;
        break;
      }
      iter := iter + 1;
    }
    if iter != |list| {
      return false, msgType;
    }
    ok := haveType;
  }

  /** Stamped fragments of a typed message are complete. */
  lemma {:induction false} StampComplete(list: seq<Fragment>, msgType: nat, id: nat)
    requires list != [] && msgType != MULTI_PART
    ensures Complete(Stamp(list, msgType, id)) && Bodies(Stamp(list, msgType, id)) == Bodies(list)
  {
    StampBodies(list, Stamp(list, msgType, id));
  }
}
