/**
 The two connection classes, reduced to the fields that the transport uses. Their methods do
 what the steps of `Transport` say, so what is proved there of all runs holds of them.
 */
module Connections {
  import opened Bytes
  import opened NetMessage
  import opened Transport

  /** `ClientConnection` on the server, `ServerConnection` on the client. */
  class Connection {
    /** The client's read loop takes SYNC messages out before reassembly. */
    const client: bool
    var writeMsgQueue: seq<Fragment>
    var readMessages: map<nat, seq<Fragment>>
    /** The messages handed to `process_message` or to the registered handlers. */
    var dispatched: seq<Delivery>

    constructor (client: bool)
      ensures this.client == client && writeMsgQueue == []
      ensures Reassembly() == EMPTY
    {
      this.client := client;
      writeMsgQueue, readMessages, dispatched := [], map[], [];
    }

    ghost function Reassembly(): (a: Assembly)
      reads this
    {
      Assembly(readMessages, dispatched)
    }

    /** This end is the sender of state s. */
    ghost predicate SendsAs(s: State)
      reads this
    {
      s.queue == writeMsgQueue
    }

    /** This end is the receiver of state s. */
    ghost predicate ReadsAs(s: State)
      reads this
    {
      s.assembly == Reassembly()
    }

    /** The locked section of `QueueWrite(MessageOut&)` and of `Send`. */
    method QueueWrite(msg: MessageOut, ghost s: State) returns (startWrite: bool)
      requires msg.Valid() && SendsAs(s)
      modifies this`writeMsgQueue, msg`messageList
      ensures var t := AfterQueueWrite(s, Msg(msg.messageType, msg.messageId, old(msg.messageList)));
              SendsAs(t) && t.pending == s.pending + if startWrite then 1 else 0
      ensures msg.Valid()
    {
      startWrite := writeMsgQueue == [];
      var list := msg.GetMessages();
      for i := 0 to |list|
        modifies this`writeMsgQueue
        invariant writeMsgQueue == old(writeMsgQueue) + list[..i]
      {
        assert list[..i + 1] == list[..i] + [list[i]];
        writeMsgQueue := writeMsgQueue + [list[i]];
      }
      assert list[..|list|] == list;
    }

    /** `do_write`: the bytes of the front of the queue, header first. */
    method DoWrite(ghost s: State) returns (bytes: seq<byte>)
      requires SendsAs(s) && s.queue != [] && s.pending > 0
      ensures SendsAs(AfterDoWrite(s)) && AfterDoWrite(s).writes == s.writes + [bytes]
    {
      var front := writeMsgQueue[0];
      bytes := EncodeHeader(HeaderOf(front)) + front.body;
    }

    /** The locked section of the completion handler in `do_write`. */
    method WriteDone(ghost s: State, ghost op: nat) returns (moreToWrite: bool)
      requires SendsAs(s) && s.queue != [] && op < |s.writes|
      modifies this`writeMsgQueue
      ensures SendsAs(AfterWriteDone(s, op))
      ensures AfterWriteDone(s, op).pending == s.pending + if moreToWrite then 1 else 0
    {
      writeMsgQueue := writeMsgQueue[1..];
      moreToWrite := writeMsgQueue != [];
    }

    /** The completion handler in `read_body`, for the header and the bytes just read. */
    method BodyRead(h: Header, body: seq<byte>, ghost s: State)
      requires ReadsAs(s) && s.reading == AwaitBody(h) && |s.channel| >= h.length && body == s.channel[..h.length]
      modifies this`readMessages, `dispatched
      ensures ReadsAs(AfterReadBody(s, client))
    {
      var last := Fragment(h.msgType, h.id, h.sequence, body);
      if client && last.msgType == SYNC {
        dispatched := dispatched + [Delivery(SYNC, last.body)];
      } else if last.msgType == MULTI_PART {
        if last.id !in readMessages {
          readMessages := readMessages[last.id := [last]];
        } else {
          readMessages := readMessages[last.id := readMessages[last.id] + [last]];
        }
        assert [] + [last] == [last];
      } else {
        var list: seq<Fragment> := [];
        if last.id in readMessages {
          list := readMessages[last.id];
        }
        list := list + [last];
        var ok, msgType := DecodeMessages(list);
        if ok {
          dispatched := dispatched + [Delivery(msgType, Bodies(list))];
        }
        readMessages := readMessages - {last.id};
      }
    }
  }
}
