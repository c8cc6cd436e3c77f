/**
 `connectionListener` of lib/_http_server.js over its objects: the responses are
 `OutgoingMessage` objects that share the socket of the connection, and every method changes
 them as `HttpPipeline` says.
 */
module HttpListener {
  import opened Prelude
  import opened HttpOutgoing
  import opened HttpPipeline

  ghost function Values(ms: seq<OutgoingMessage>): (r: seq<Message>)
    reads ms
    ensures |r| == |ms|
  {
    seq(|ms|, i requires 0 <= i < |ms| reads ms => ms[i].Abs())
  }

  /** Different objects, each with this socket or none. */
  ghost predicate Sharing(ms: seq<OutgoingMessage>, socket: Socket)
    reads ms
  {
    && (forall i, j :: 0 <= i < j < |ms| ==> ms[i] != ms[j])
    && (forall i :: 0 <= i < |ms| ==> ms[i].connection == null || ms[i].connection == socket)
  }

  /** The variables of `connectionListener`. `ok` is false if an assertion failed. */
  class ConnectionListener {
    const socket: Socket
    var messages: seq<OutgoingMessage>
    var last: set<nat>
    var incoming: seq<nat>
    var outgoing: seq<nat>
    var httpMessage: Option<nat>
    var ended: bool
    ghost var done: nat

    ghost predicate Valid()
      reads this, messages
    {
      Sharing(messages, socket)
    }

    ghost function Abs(): Conn
      reads this, messages, socket
    {
      Conn(Values(messages), last, incoming, outgoing, httpMessage, socket.Abs(), ended, done)
    }

    constructor (socket: Socket)
      requires socket.Abs() == Sock([], Open)
      ensures Valid() && Abs() == NewConn() && this.socket == socket
    {
      this.socket := socket;
      messages, last, incoming, outgoing := [], {}, [], [];
      httpMessage, ended, done := None, false, 0;
    }

    method DetachSocket(k: nat)
      requires Valid() && k < |messages|
      modifies this`incoming, this`httpMessage, this`done, messages[k]
      ensures Valid() && Abs() == Detached(old(Abs()), k)
    {
      if incoming != [] {
        incoming := incoming[1..];
      }
      var res := messages[k];
      res.connection := null;
      httpMessage := None;
      if socket.status == Open {
        done := done + 1;
      }
      assert Values(messages) == old(Values(messages))[k := messages[k].Abs()];
    }

    /** `emit`: everything went out, and the response was finished before. */
    method AttachSocket(k: nat) returns (emit: bool)
      requires Valid() && k < |messages|
      modifies this`httpMessage, messages[k], socket
      ensures Valid() && Abs() == Attached(old(Abs()), k)
      ensures emit == (messages[k].output == [] && messages[k].finished)
    {
      httpMessage := Some(k);
      messages[k].connection := socket;
      emit := messages[k].FlushOutput(socket);
      assert Values(messages) == old(Values(messages))[k := messages[k].Abs()];
    }

    /** The 'finish' listener of response k. */
    method ResponseFinished(k: nat) returns (ok: bool)
      requires Valid() && Sane(Abs()) && k < |messages|
      modifies this`incoming, this`outgoing, this`httpMessage, this`done, messages, socket
      ensures Valid()
      ensures ok <==> OnFinish(old(Abs()), k).Some?
      ensures ok ==> Abs() == OnFinish(old(Abs()), k).value
      decreases |outgoing|, 0
    {
      if (incoming != [] && incoming[0] != k) || httpMessage != Some(k) {
        return false;
      }
      DetachSocket(k);
      if k in last {
        if socket.status == Open {
          socket.status := Shut;
        }
        return true;
      }
      if outgoing == [] {
        return true;
      }
      var m := outgoing[0];
      outgoing := outgoing[1..];
      ok := AssignSocket(m);
    }

    /** `assignSocket`, which flushes and may so finish the response. */
    method AssignSocket(k: nat) returns (ok: bool)
      requires Valid() && Sane(Abs()) && k < |messages|
      modifies this`incoming, this`outgoing, this`httpMessage, this`done, messages, socket
      ensures Valid()
      ensures ok <==> Assign(old(Abs()), k).Some?
      ensures ok ==> Abs() == Assign(old(Abs()), k).value
      decreases |outgoing|, 1
    {
      if httpMessage.Some? {
        return false;
      }
      var emit := AttachSocket(k);
      if emit {
        ok := ResponseFinished(k);
      } else {
        ok := true;
      }
    }

    /** The request is listed, with a new response. */
    method Enlist(header: Text, chunked: bool, hasBody: bool, trailer: Text)
      requires Valid()
      modifies this`incoming, this`messages
      ensures Valid() && |messages| == |old(messages)| + 1
      ensures old(messages) <= messages && fresh(messages[|old(messages)|])
      ensures Abs() == Listed(old(Abs()), NewMessage(header, chunked, hasBody, trailer))
    {
      incoming := incoming + [|messages|];
      var res := new OutgoingMessage(header, chunked, hasBody, trailer);
      messages := messages + [res];
      assert Values(messages) == old(Values(messages)) + [res.Abs()];
    }

    /** `parser.onIncoming` */
    method OnIncoming(header: Text, chunked: bool, hasBody: bool, trailer: Text) returns (ok: bool)
      requires Valid() && Sane(Abs())
      modifies this, messages, socket
      ensures Valid() && |messages| == |old(messages)| + 1
      ensures old(messages) <= messages && fresh(messages[|old(messages)|])
      ensures ok <==> OnRequest(old(Abs()), header, chunked, hasBody, trailer).Some?
      ensures ok ==> Abs() == OnRequest(old(Abs()), header, chunked, hasBody, trailer).value
    {
      var k := |messages|;
      Enlist(header, chunked, hasBody, trailer);
      if httpMessage.Some? {
        outgoing := outgoing + [k];
        ok := true;
      } else {
        ok := AssignSocket(k);
      }
    }

    /** `write` of response k. */
    method WriteResponse(k: nat, d: Data)
      requires Valid() && k < |messages|
      modifies messages[k], socket`bytes
      ensures Valid() && Abs() == OnWrite(old(Abs()), k, d)
    {
      messages[k].WriteBody(d, socket);
      assert Values(messages) == old(Values(messages))[k := messages[k].Abs()];
    }

    /** `end` of response k. */
    method EndResponse(k: nat, final: Option<Data>) returns (ok: bool)
      requires Valid() && Sane(Abs()) && k < |messages|
      modifies this`incoming, this`outgoing, this`httpMessage, this`done, messages, socket
      ensures Valid()
      ensures ok <==> OnEndOf(old(Abs()), k, final).Some?
      ensures ok ==> Abs() == OnEndOf(old(Abs()), k, final).value
    {
      if messages[k].finished {
        return true;
      }
      var emit, throws := messages[k].EndBody(final, socket);
      assert Values(messages) == old(Values(messages))[k := messages[k].Abs()];
      if throws {
        return false;
      }
      if emit {
        ok := ResponseFinished(k);
      } else {
        ok := true;
      }
    }

    /** `socket.onend` */
    method SocketEnded(allowHalfOpen: bool)
      requires Valid() && Sane(Abs())
      modifies this`incoming, this`last, this`ended, socket`status
      ensures Valid() && Abs() == OnSocketEnd(old(Abs()), allowHalfOpen)
    {
      ended := true;
      if !allowHalfOpen {
        incoming := [];
        if socket.status == Open {
          socket.status := Shut;
        }
      } else if outgoing != [] {
        last := last + {outgoing[|outgoing| - 1]};
      } else if httpMessage.Some? {
        last := last + {httpMessage.value};
      } else if socket.status == Open {
        socket.status := Shut;
      }
    }
  }
}
