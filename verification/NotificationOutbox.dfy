/**
 The outbox writer: a business transaction records every message twice, once
 per channel, inside its own transaction.
 */
module NotificationOutbox {

  datatype Channel = ChannelInApp | ChannelEmail

  datatype NoticeType =
    | RequestSubmitted
    | RequestCancelledByStudent
    | RequestAccepted
    | RequestRejected
    | RequestCancelledByAdmin

  /** A message about one enrollment request, addressed to one student. */
  datatype Message = Message(recipient: nat, kind: NoticeType, request: nat)

  /** One row of the notifications table, always inserted in PENDING state. */
  datatype Notice = Notice(message: Message, channel: Channel)

  const CHANNELS := [ChannelInApp, ChannelEmail]

  /** The rows one message turns into, in insertion order. */
  function Rows(m: Message): seq<Notice> {
    [Notice(m, ChannelInApp), Notice(m, ChannelEmail)]
  }

  function CountOn(rows: seq<Notice>, m: Message, c: Channel): nat {
    if rows == [] then 0
    else (if rows[|rows| - 1] == Notice(m, c) then 1 else 0) + CountOn(rows[..|rows| - 1], m, c)
  }

  lemma {:induction false} CountOnAppend(a: seq<Notice>, b: seq<Notice>, m: Message, c: Channel)
    ensures CountOn(a + b, m, c) == CountOn(a, m, c) + CountOn(b, m, c)
  {
    if b == [] {
      assert a + b == a;
    } else {
      var n := |b| - 1;
      assert (a + b)[..|a + b| - 1] == a + b[..n];
      CountOnAppend(a, b[..n], m, c);
    }
  }

  /** The pending inserts of an open transaction. */
  class TransactionOutbox {
    var inserted: seq<Notice>

    constructor ()
      ensures inserted == []
    {
      inserted := [];
    }

    /**
     Inserts one row per channel; `failing` is the statement the database
     refuses, if any. Either both rows are there or the caller is told to roll
     back, and no other row is touched.
     */
    method Enqueue(m: Message, failing: nat) returns (ok: bool)
      modifies this
      ensures ok <==> failing >= |CHANNELS|
      ensures ok ==> inserted == old(inserted) + Rows(m)
      ensures !ok ==> inserted == old(inserted) + Rows(m)[..failing]
    {
      for i := 0 to |CHANNELS|
        invariant i <= failing
        invariant inserted == old(inserted) + Rows(m)[..i]
      {
        if i == failing {
          return false;
        }
        inserted := inserted + [Notice(m, CHANNELS[i])];
      }
      return true;
    }
  }
}
