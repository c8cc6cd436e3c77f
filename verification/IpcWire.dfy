/**
 The channel and its bytes together: what one end is asked to send, written as lines of JSON and
 cut anywhere, is what the other end is given.
 */
module IpcWire {
  import opened Prelude
  import opened Utf8
  import opened StringDecoder
  import opened Ipc
  import opened IpcFraming

  /** The text of each message. */
  function Texts(json: Message -> seq<Scalar>, ms: seq<Message>): seq<seq<Scalar>> {
    seq(|ms|, i requires 0 <= i < |ms| => json(ms[i]))
  }

  /**
   On every run and for every way of cutting the bytes that end a has written: the reader at
   the other end gets the texts of the messages that were read and of those on the wire, in order;
   and if nothing waits in the queue, the texts of all calls of `send`.
   */
  lemma WireDelivers(es: seq<Event>, json: Message -> seq<Scalar>, chunks: seq<seq<Byte>>)
    requires After(es).Some? && forall m :: NEWLINE !in json(m)
    requires Flatten(chunks) == Encode(OnWire(Texts(json, After(es).value.a.written)))
    ensures var p := After(es).value;
      && Delivered(NOTHING, [], chunks) == (Texts(json, p.b.received + p.a.out), [])
      && (QueueOf(p.a) == [] ==> Delivered(NOTHING, [], chunks).0 == Texts(json, p.a.calls))
  {
    var p := After(es).value;
    SendOrder(es);
    AnyChunking(Texts(json, p.a.written), chunks);
    assert p.a.written + [] == p.a.written;
  }
}
