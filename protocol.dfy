/**
 * The values that travel between the chat server and its Socket.IO clients.
 * A socket id and a timestamp are opaque: the server only stores and
 * compares them.
 */
module Protocol {

  /** `socket.id`, a string chosen by the transport. */
  type SocketId = string

  /** A `new Date()` captured when an event is handled, as milliseconds. */
  type Time = int

  /** A stored chat message `{ username, text, timestamp }`. */
  datatype Msg = Msg(username: string, text: string, timestamp: Time)

  /** The payload of one server emission, by event name. */
  datatype Event =
    | UserJoined(username: string, users: seq<string>)   // "userJoined"
    | ChatHistory(history: seq<Msg>)                      // "chatHistory"
    | NewMessage(msg: Msg)                                // "message"
    | UserLeft(username: string, users: seq<string>)      // "userLeft"

  /** `io.emit` reaches every connected socket; `socket.emit` only one. */
  datatype Target = All | Only(socket: SocketId)

  /** What one emission delivers to `socket`: its event, when the target
      includes the socket. */
  function Delivered(socket: SocketId, emission: (Target, Event)): seq<Event>
  {
    if emission.0 == All || emission.0 == Only(socket) then [emission.1] else []
  }

  /** The events of `outbox`, in emission order, that reach a socket which
      stays connected throughout. */
  function ReceivedBy(socket: SocketId, outbox: seq<(Target, Event)>): (r: seq<Event>)
    ensures |r| <= |outbox|
  {
    if outbox == [] then [] else Delivered(socket, outbox[0]) + ReceivedBy(socket, outbox[1..])
  }

  /** Delivery is compositional: a socket receives the events of two
      consecutive stretches of emissions one after the other. */
  lemma {:induction false} ReceivedByAppend(socket: SocketId, a: seq<(Target, Event)>, b: seq<(Target, Event)>)
    ensures ReceivedBy(socket, a + b) == ReceivedBy(socket, a) + ReceivedBy(socket, b)
  {
    if a == [] {
      assert a + b == b;
    } else {
      var d := Delivered(socket, a[0]);
      calc {
        ReceivedBy(socket, a + b);
        Delivered(socket, (a + b)[0]) + ReceivedBy(socket, (a + b)[1..]);
        { assert (a + b)[0] == a[0] && (a + b)[1..] == a[1..] + b; }
        d + ReceivedBy(socket, a[1..] + b);
        { ReceivedByAppend(socket, a[1..], b); }
        d + (ReceivedBy(socket, a[1..]) + ReceivedBy(socket, b));
        (d + ReceivedBy(socket, a[1..])) + ReceivedBy(socket, b);
      }
    }
  }

  /** A broadcast reaches every socket; a private emission only its target. */
  lemma ReceivedBySingle(socket: SocketId, target: Target, e: Event)
    ensures ReceivedBy(socket, [(target, e)]) == if target == All || target == Only(socket) then [e] else []
  {
    assert [(target, e)][1..] == [];
  }
}
