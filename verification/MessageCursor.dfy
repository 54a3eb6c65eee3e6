/**
 Reading a received message: a zero-copy cursor over its fragments, which behaves like one
 position in the concatenated payload (common/net-message, class MessageIn).
 */
module MessageCursor {
  import opened Bytes
  import opened NetMessage

  /** The lists on which the cursor always works: the first fragment holds data, or none does. */
  predicate Readable(list: seq<Fragment>) {
    list == [] || list[0].body != [] || Bodies(list) == []
  }

  /** Index of the first fragment that holds data. */
  function FirstData(list: seq<Fragment>): (i: nat)
    requires Bodies(list) != []
    ensures i < |list| && list[i].body != [] && forall j :: 0 <= j < i ==> list[j].body == []
  {
    if list[0].body != [] then 0 else 1 + FirstData(list[1..])
  }

  /** The cursor's fields inside the loop of `Next`. */
  datatype Seek = Seek(payloadRead: nat, readOffset: nat, readIndex: nat, readLength: nat)

  /** One round of the loop of `Next`, while `readLength` is 0 and the end is not reached. */
  function Round(list: seq<Fragment>, s: Seek): (t: Seek)
    requires s.readIndex < |list|
  {
    var n := |list[s.readIndex].body|;
    if s.readOffset == n then Seek(s.payloadRead + s.readOffset, 0, s.readIndex + 1, 0)
    else s.(readLength := n)
  }

  /** n rounds of the loop. */
  function Rounds(list: seq<Fragment>, s: Seek, n: nat): (t: Seek) {
    if n == 0 then s
    else
      var t := Rounds(list, s, n - 1);
      if t.readLength == 0 && t.readIndex < |list| then Round(list, t) else t
  }

  /** Some number of rounds leads from s to t. */
  ghost predicate SeeksTo(list: seq<Fragment>, s: Seek, t: Seek) {
    exists n: nat :: Rounds(list, s, n) == t
  }

  lemma {:induction false} FirstBody(list: seq<Fragment>)
    requires Bodies(list) != []
    ensures Bodies(list[..FirstData(list)]) == []
    ensures forall i :: 0 <= i <= |list| && Bodies(list[..i]) == [] ==> i <= FirstData(list)
  {
    var f := FirstData(list);
    EmptyFront(list, f);
    forall i | f < i <= |list| ensures Bodies(list[..i]) != [] {
      assert list[..i][..f + 1] == list[..f + 1];
      BodiesAt(list[..i], f);
    }
  }

  lemma {:induction false} EmptyFront(list: seq<Fragment>, i: nat)
    requires i <= |list| && forall j :: 0 <= j < i ==> list[j].body == []
    ensures Bodies(list[..i]) == []
  {
    if i > 0 {
      assert list[..i] == list[..i - 1] + [list[i - 1]];
      EmptyFront(list, i - 1);
      BodiesSnoc(list[..i - 1], list[i - 1]);
    }
  }

  /** `MessageIn` */
  class MessageIn {
    const messageList: seq<Fragment>
    var messageType: nat
    var messageId: nat
    var payloadRead: nat
    var readOffset: nat
    /** Arbitrary until the first fragment is left: `Next` rewinds it while nothing was read. */
    var readIndex: nat

    /** The fragment the cursor is in. */
    ghost function Index(): (i: nat)
      reads this
    {
      if payloadRead > 0 then readIndex
      else if readOffset > 0 && Bodies(messageList) != [] then FirstData(messageList)
      else 0
    }

    ghost predicate Valid()
      reads this
    {
      && Index() <= |messageList|
      && payloadRead == |Bodies(messageList[..Index()])|
      && readOffset <= if Index() < |messageList| then |messageList[Index()].body| else 0
    }

    /** Part of the first data has been read, and fragments without data come before it. */
    ghost predicate Stuck()
      reads this
    {
      payloadRead == 0 && readOffset > 0 && messageList != [] && messageList[0].body == []
    }

    /**
     The list is readable, or a fragment with data has been left, or what is asked for is in the first such
     fragment, of which nothing has been read.
     */
    ghost predicate Reachable(count: int)
      reads this
    {
      ReachableFrom(payloadRead, readOffset, count)
    }

    ghost predicate ReachableFrom(read: nat, offset: nat, count: int) {
      || Readable(messageList) || read > 0 || count <= 0
      || (offset == 0 && count <= |messageList[FirstData(messageList)].body|)
    }

    /** `ByteCount`: the position in the payload. */
    function ByteCount(): (n: nat)
      reads this
    {
      payloadRead + readOffset
    }

    /** Where the loop of `Next` starts. */
    ghost function Start(): (s: Seek)
      reads this
    {
      Seek(payloadRead, readOffset, if payloadRead == 0 then 0 else readIndex, 0)
    }

    constructor (list: seq<Fragment>)
      ensures messageList == list && Valid() && !Stuck() && ByteCount() == 0
    {
      messageList := list;
      messageType, messageId := CHAT_MESSAGE, 0;
      payloadRead, readOffset := 0, 0;
      readIndex := *;
    }

    /** `DecodeMessages` */
    method Decode() returns (ok: bool)
      modifies this`messageType
      ensures ok <==> Complete(messageList)
      ensures ok ==> messageType == messageList[|messageList| - 1].msgType
    {
      ok, messageType := DecodeMessages(messageList);
    }

    /** `GetSize` */
    method GetSize() returns (total: nat)
      ensures total == |Bodies(messageList)|
    {
      hide Bodies;
      total := 0;
      PrefixNone(messageList);
      for i := 0 to |messageList|
        invariant total == |Bodies(messageList[..i])|
      {
        BodiesAt(messageList, i);
        total := total + |messageList[i].body|;
      }
      assert messageList[..|messageList|] == messageList;
    }

    /** `ToOut`: the same fragments, ready to be sent on with the same type and id. */
    method ToOut() returns (out: MessageOut)
      requires ListOk(messageList)
      ensures fresh(out) && out.Valid() && out.messageList == messageList
      ensures out.messageType == messageType && out.messageId == messageId
      ensures out.payloadWritten == |Bodies(messageList)|
    {
      var size := GetSize();
      out := new MessageOut.Relay(messageType, messageId, messageList, size);
    }

    /** The position never leaves the payload. */
    lemma {:induction false} InPayload()
      requires Valid()
      ensures ByteCount() <= |Bodies(messageList)|
    {
      if Index() < |messageList| {
        BodiesAt(messageList, Index());
      } else {
        assert messageList[..Index()] == messageList;
      }
    }

    /** A cursor on a readable list is never stuck. */
    lemma {:induction false} NeverStuck()
      requires Valid() && Readable(messageList)
      ensures !Stuck()
    {
      if messageList != [] && Bodies(messageList) == [] {
        assert messageList[0].body == [];
      }
    }

    method Reset()
      modifies this`payloadRead, this`readOffset
      ensures Valid() && !Stuck() && ByteCount() == 0
    {
      payloadRead, readOffset := 0, 0;
    }

    /**
     `Next`: hands out the rest of the current fragment, or the next one that holds data; at the
     end of the payload it fails and stays there.
     */
    method Next() returns (ok: bool, chunk: seq<byte>)
      requires Valid() && !Stuck()
      modifies this`payloadRead, this`readOffset, this`readIndex
      ensures Valid() && (Readable(messageList) ==> !Stuck())
      ensures ok == (old(ByteCount()) < |Bodies(messageList)|)
      ensures ByteCount() <= |Bodies(messageList)|
      ensures !ok ==> ByteCount() == old(ByteCount())
      ensures ok ==> ByteCount() > old(ByteCount()) && chunk == Bodies(messageList)[old(ByteCount())..ByteCount()]
      ensures ok ==> readOffset >= |chunk| && (payloadRead == 0 ==> readIndex == FirstData(messageList))
      ensures ok ==> readIndex < |messageList| && readOffset == |messageList[readIndex].body|
      ensures ok ==> forall n {:trigger old(Reachable(n))} ::
        old(Reachable(n)) ==> |chunk| > n || Reachable(n - |chunk|)
      ensures ok ==> SeeksTo(messageList, old(Start()), Seek(payloadRead, readOffset - |chunk|, readIndex, readOffset))
      ensures !ok ==> SeeksTo(messageList, old(Start()), Seek(payloadRead, readOffset, |messageList|, 0))
    {
      hide Bodies, SeeksTo, Rounds, ReachableFrom;
      chunk := [];
      StartsBefore();
      ghost var start := Start();
      var readLength := Find();
      if readLength == 0 {
        AtEnd();
        return false, [];
      }
      BodiesAt(messageList, readIndex);
      chunk := messageList[readIndex].body[readOffset..];
      readOffset := readLength;
      ok := true;
      Landed();
      StillReachable(old(payloadRead), old(readOffset), |chunk|);
    }

    /** The loop of `Next`: moves on to the next fragment of which there is something left; 0 at the end. */
    method Find() returns (readLength: nat)
      requires Placed(if payloadRead == 0 then 0 else readIndex)
      modifies this`payloadRead, this`readOffset, this`readIndex
      ensures Placed(readIndex) && ByteCount() == old(ByteCount()) && payloadRead >= old(payloadRead)
      ensures if readLength == 0 then readIndex == |messageList|
              else readIndex < |messageList| && readLength == |messageList[readIndex].body| && readOffset < readLength
      ensures SeeksTo(messageList, old(Start()), Seek(payloadRead, readOffset, readIndex, readLength))
    {
      hide Bodies;
      if payloadRead == 0 {
        readIndex := 0;
      }
      readLength := 0;
      ghost var start, rounds := Seek(payloadRead, readOffset, readIndex, 0), 0;
      while readLength == 0
        invariant Placed(readIndex)
        invariant ByteCount() == old(ByteCount()) && payloadRead >= old(payloadRead)
        invariant readLength != 0 ==>
          readIndex < |messageList| && readLength == |messageList[readIndex].body| && readOffset < readLength
        invariant start == old(Start())
        invariant Rounds(messageList, start, rounds) == Seek(payloadRead, readOffset, readIndex, readLength)
        decreases |messageList| - readIndex, if readLength == 0 then 1 else 0
      {
        if readIndex == |messageList| {
          return;
        }
        BodiesAt(messageList, readIndex);
        OneRound(messageList, start, rounds);
        readLength := |messageList[readIndex].body|;
        if readOffset == readLength {
          payloadRead := payloadRead + readOffset;
          readOffset, readLength := 0, 0;
          readIndex := readIndex + 1;
        }
        rounds := rounds + 1;
      }
    }

    /** The cursor is in fragment i. */
    ghost predicate Placed(i: nat)
      reads this
    {
      && i <= |messageList| && payloadRead == |Bodies(messageList[..i])|
      && readOffset <= if i < |messageList| then |messageList[i].body| else 0
    }

    /** `BackUp`: steps back within the current fragment, or does nothing. */
    method BackUp(count: int)
      modifies this`readOffset
      ensures old(Valid()) ==> Valid()
      ensures ByteCount() == if 0 <= count <= old(readOffset) then old(ByteCount()) - count else old(ByteCount())
    {
      if count >= 0 && count <= readOffset {
        readOffset := readOffset - count;
      }
    }

    /** `Skip`: succeeds exactly when count bytes remain, and stops at the end otherwise. */
    method Skip(count: int) returns (ok: bool)
      requires Valid() && Reachable(count)
      modifies this`payloadRead, this`readOffset, this`readIndex
      ensures Valid()
      ensures ok == (count <= |Bodies(messageList)| - old(ByteCount()) || count <= 0)
      ensures count <= 0 ==> ByteCount() == old(ByteCount())
      ensures count > 0 ==> ByteCount() == if ok then old(ByteCount()) + count else |Bodies(messageList)|
    {
      hide Bodies, Readable, Valid, Stuck, Reachable;
      InPayload();
      var left := count;
      while left > 0
        invariant Valid() && ByteCount() <= |Bodies(messageList)|
        invariant count > 0 ==> left >= 0 && ByteCount() + left == old(ByteCount()) + count
        invariant count <= 0 ==> left == count && ByteCount() == old(ByteCount())
        invariant Reachable(left)
        decreases left
      {
        NotStuck(left);
        var more, chunk := Next();
        if !more {
          return false;
        }
        if |chunk| <= left {
          left := left - |chunk|;
        } else {
          BackUp(|chunk| - left);
          return true;
        }
      }
      ok := true;
    }

    /** `ReadBuffer`: copies what fits and what remains, and leaves the rest of the buffer alone. */
    method ReadBuffer(body: array<byte>)
      requires Valid() && Reachable(body.Length)
      modifies this`payloadRead, this`readOffset, this`readIndex, body
      ensures Valid()
      ensures var start := old(ByteCount());
              var n := Min(body.Length, |Bodies(messageList)| - start);
              0 <= n && ByteCount() == start + n && Filled(old(body[..]), body[..], Bodies(messageList), start, n)
    {
      hide Bodies, Readable, Valid, Stuck, Reachable, Filled;
      InPayload();
      StartFilled(body[..], Bodies(messageList), ByteCount());
      var offset := 0;
      ghost var start, all, was := ByteCount(), Bodies(messageList), body[..];
      ghost var now := was;
      while offset < body.Length
        invariant Valid() && offset <= body.Length
        invariant start + offset == ByteCount() <= |all|
        invariant body[..] == now && Filled(was, now, all, start, offset)
        invariant Reachable(body.Length - offset)
        decreases body.Length - offset
      {
        NotStuck(body.Length - offset);
        var more, chunk := Next();
        if !more {
          return;
        }
        var n := if offset + |chunk| <= body.Length then |chunk| else body.Length - offset;
        CopyChunk(body, offset, chunk, n);
        FillMore(was, now, body[..], all, start, offset, chunk, n);
        now := body[..];
        if offset + |chunk| <= body.Length {
          offset := offset + n;
        } else {
          BackUp(|chunk| - n);
          return;
        }
      }
    }

    /** `ReadString`: everything that has not been read yet. */
    method ReadString() returns (body: seq<byte>)
      requires Valid() && Readable(messageList)
      modifies this`payloadRead, this`readOffset, this`readIndex
      ensures Valid() && ByteCount() == |Bodies(messageList)|
      ensures |body| == |Bodies(messageList)| - old(ByteCount())
      ensures body == Bodies(messageList)[old(ByteCount())..]
    {
      hide Bodies, Readable, Valid, Stuck;
      InPayload();
      NeverStuck();
      body := [];
      ghost var start, all := ByteCount(), Bodies(messageList);
      var more, chunk := Next();
      while more
        invariant Valid() && !Stuck() && start + |body| <= ByteCount() <= |all|
        invariant more ==> chunk == all[start + |body|..ByteCount()]
        invariant !more ==> ByteCount() == start + |body| == |all|
        invariant body == all[start..start + |body|]
        decreases |all| - ByteCount(), more
      {
        assert all[start..ByteCount()] == all[start..start + |body|] + chunk;
        body := body + chunk;
        more, chunk := Next();
      }
      assert all[start..|all|] == all[start..];
    }

    // What `Valid` says at the three places where the loop of `Next` can be.

    lemma {:induction false} StartsBefore()
      requires Valid() && !Stuck()
      ensures Placed(if payloadRead == 0 then 0 else readIndex)
    {
      PrefixNone(messageList);
    }

    /** The loop of `Next` ends if and only if the cursor is not stuck. */
    lemma {:induction false} EndsIff()
      requires Valid()
      ensures !Stuck() <==> exists n: nat :: Ended(messageList, Rounds(messageList, Start(), n))
    {
      hide Bodies;
      if Stuck() {
        forall n: nat ensures !Ended(messageList, Rounds(messageList, Start(), n)) {
          StaysPut(messageList, readOffset, n);
        }
      } else {
        StartsBefore();
        var n := Ends(messageList, Start());
        assert Ended(messageList, Rounds(messageList, Start(), n));
      }
    }

    lemma {:induction false} AtEnd()
      requires readIndex == |messageList| && Placed(readIndex)
      ensures Valid() && !Stuck() && ByteCount() == |Bodies(messageList)|
    {
      assert messageList[..readIndex] == messageList;
      PrefixNone(messageList);
    }

    lemma {:induction false} Landed()
      requires readIndex < |messageList| && payloadRead == |Bodies(messageList[..readIndex])|
      requires 0 < readOffset == |messageList[readIndex].body|
      ensures Valid() && (payloadRead == 0 ==> readIndex == FirstData(messageList))
      ensures Readable(messageList) ==> !Stuck()
    {
      hide Bodies;
      BodiesAt(messageList, readIndex);
      assert |Bodies(messageList)| > 0;
      FirstBody(messageList);
      if payloadRead == 0 {
        assert Bodies(messageList[..readIndex]) == [];
        assert readIndex >= FirstData(messageList);
      }
    }

    /** What could be reached before a chunk was handed out can be reached after it, or is in the chunk. */
    lemma {:induction false} StillReachable(wasRead: nat, wasOffset: nat, n: nat)
      requires payloadRead >= wasRead && n <= readOffset && payloadRead + readOffset == wasRead + wasOffset + n
      requires payloadRead == 0 ==>
                 && Bodies(messageList) != [] && readOffset == |messageList[FirstData(messageList)].body|
      ensures forall count {:trigger ReachableFrom(wasRead, wasOffset, count)} ::
                ReachableFrom(wasRead, wasOffset, count) ==> n > count || Reachable(count - n)
    {
    }

    lemma {:induction false} NotStuck(count: int)
      requires Valid() && Reachable(count) && count > 0
      ensures !Stuck()
    {
      if Readable(messageList) {
        NeverStuck();
      }
    }
  }

  /** The next round of the loop of `Next`. */
  lemma {:induction false} OneRound(list: seq<Fragment>, s: Seek, n: nat)
    requires var t := Rounds(list, s, n); t.readLength == 0 && t.readIndex < |list|
    ensures Rounds(list, s, n + 1) == Round(list, Rounds(list, s, n))
  {
  }

  /** The buffer was copied into up to n, from position start of the payload. */
  ghost predicate Filled(was: seq<byte>, now: seq<byte>, all: seq<byte>, start: nat, n: nat) {
    && |was| == |now| && n <= |now| && start + n <= |all|
    && now[..n] == all[start..start + n] && now[n..] == was[n..]
  }

  lemma {:induction false} StartFilled(was: seq<byte>, all: seq<byte>, start: nat)
    requires start <= |all|
    ensures Filled(was, was, all, start, 0)
  {
  }

  lemma {:induction false} FillMore(was: seq<byte>, now: seq<byte>, next: seq<byte>, all: seq<byte>, start: nat,
                                    offset: nat, chunk: seq<byte>, n: nat)
    requires Filled(was, now, all, start, offset) && n <= |chunk| && offset + n <= |now| == |next|
    requires start + offset + |chunk| <= |all| && chunk == all[start + offset..start + offset + |chunk|]
    requires next == now[..offset] + chunk[..n] + now[offset + n..]
    ensures Filled(was, next, all, start, offset + n)
  {
    assert next[..offset + n] == now[..offset] + chunk[..n];
    assert all[start..start + offset + n] == all[start..start + offset] + chunk[..n];
    assert next[offset + n..] == now[offset + n..] == now[offset..][n..] == was[offset..][n..] == was[offset + n..];
  }

  /** `memcpy(body + offset, chunk, n)` */
  method CopyChunk(body: array<byte>, offset: nat, chunk: seq<byte>, n: nat)
    requires offset + n <= body.Length && n <= |chunk|
    modifies body
    ensures body[..] == old(body[..offset]) + chunk[..n] + old(body[offset + n..])
  {
    forall i | 0 <= i < n {
      body[offset + i] := chunk[i];
    }
  }

  function Min(a: int, b: int): (r: int) {
    if a < b then a else b
  }

  lemma {:induction false} PrefixNone(list: seq<Fragment>)
    ensures Bodies(list[..0]) == []
  {
  }

  // ---------------------------------------------------------------- when the loop ends

  predicate Ended(list: seq<Fragment>, s: Seek) {
    s.readLength != 0 || s.readIndex >= |list|
  }

  /** From within a fragment the loop ends. */
  lemma {:induction false} Ends(list: seq<Fragment>, s: Seek) returns (n: nat)
    requires s.readLength == 0 && s.readIndex <= |list|
    requires s.readOffset <= if s.readIndex < |list| then |list[s.readIndex].body| else 0
    ensures Ended(list, Rounds(list, s, n))
    decreases |list| - s.readIndex
  {
    if s.readIndex == |list| {
      n := 0;
    } else if s.readOffset < |list[s.readIndex].body| {
      n := 1;
      assert Rounds(list, s, 0) == s;
    } else {
      n := Ends(list, Round(list, s));
      RoundFirst(list, s, n);
      n := n + 1;
    }
  }

  lemma {:induction false} RoundFirst(list: seq<Fragment>, s: Seek, n: nat)
    requires s.readLength == 0 && s.readIndex < |list|
    ensures Rounds(list, s, n + 1) == Rounds(list, Round(list, s), n)
  {
    if n == 0 {
      assert Rounds(list, s, 0) == s;
    } else {
      RoundFirst(list, s, n - 1);
    }
  }

  // ---------------------------------------------------------------- lists that are not readable

  /**
   On a list that is not readable the first `Next` finds the first fragment with data, at an
   index above 0 and with nothing counted as read; the second then rewinds and never leaves its loop.
   */
  lemma {:induction false} UnreadableSpins(list: seq<Fragment>, n: nat)
    requires !Readable(list)
    ensures var i := FirstData(list);
            var first := Rounds(list, Seek(0, 0, 0, 0), i + 1);
            && i > 0 && first == Seek(0, 0, i, |list[i].body|)
            && (var second := Rounds(list, Seek(0, |list[i].body|, 0, 0), n);
                second.readLength == 0 && second.readIndex < |list|)
  {
    var i := FirstData(list);
    SkipsEmpty(list, i);
    StaysPut(list, |list[i].body|, n);
  }

  lemma {:induction false} SkipsEmpty(list: seq<Fragment>, i: nat)
    requires i <= |list| && forall j :: 0 <= j < i ==> list[j].body == []
    ensures Rounds(list, Seek(0, 0, 0, 0), i) == Seek(0, 0, i, 0)
  {
    if i > 0 {
      SkipsEmpty(list, i - 1);
    }
  }

  lemma {:induction false} StaysPut(list: seq<Fragment>, offset: nat, n: nat)
    requires list != [] && list[0].body == [] && offset > 0
    ensures Rounds(list, Seek(0, offset, 0, 0), n) == Seek(0, offset, 0, 0)
  {
    if n > 0 {
      StaysPut(list, offset, n - 1);
    }
  }
}
