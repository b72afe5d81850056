/**
 * The raw-WebSocket chat component (`RealTimeChat`): the username gate,
 * socket creation, the typed-frame dispatch of incoming data, the send
 * guard, and the leave-and-close cleanup.
 */
module RawClient {
  import opened Protocol
  import opened Wrappers
  import JsText

  /** `WebSocket.readyState`. */
  datatype ReadyState = Connecting | Open | Closing | Closed

  /** `connectionStatus`. */
  datatype Status = Disconnected | Connected | Error

  /** A frame received from the server, once `JSON.parse` has read it. */
  datatype Incoming = Incoming(kind: string, username: string, text: string)

  /** A frame the component sends, before `JSON.stringify`; its `type`
      field is "join", "leave" or "message". */
  datatype Outgoing =
    | JoinFrame(username: string)
    | LeaveFrame(username: string)
    | MessageFrame(username: string, text: string)

  /** One element of `messages`; `id` is the `Date.now()` of its arrival. */
  datatype Entry =
    | UserEntry(id: int, username: string, text: string, timestamp: Time, isMine: bool)
    | SystemEntry(id: int, text: string, timestamp: Time)

  /** The frame types the `onmessage` switch handles. */
  predicate Known(kind: string)
  {
    kind == "message" || kind == "join" || kind == "leave"
  }

  /** The `setMessages` update of `ws.onmessage` for one parsed frame: a
      known type appends one entry and keeps the earlier ones; any other
      type leaves the list as it was. */
  function Dispatch(messages: seq<Entry>, data: Incoming, me: string, id: int, now: Time): (r: seq<Entry>)
    ensures Known(data.kind) ==> |r| == |messages| + 1 && r[..|messages|] == messages
    ensures !Known(data.kind) ==> r == messages
    ensures data.kind == "message" ==>
      && r[|messages|].UserEntry?
      && r[|messages|].username == data.username
      && r[|messages|].text == data.text
      && (r[|messages|].isMine <==> data.username == me)
    ensures data.kind == "join" ==>
      r[|messages|] == SystemEntry(id, data.username + " has joined the chat", now)
    ensures data.kind == "leave" ==>
      r[|messages|] == SystemEntry(id, data.username + " has left the chat", now)
  {
    if data.kind == "message" then
      messages + [UserEntry(id, data.username, data.text, now, data.username == me)]
    else if data.kind == "join" then
      messages + [SystemEntry(id, data.username + " has joined the chat", now)]
    else if data.kind == "leave" then
      messages + [SystemEntry(id, data.username + " has left the chat", now)]
    else
      messages
  }

  /** One frame carries the name, and message text is trimmed and
      non-empty. */
  predicate FrameOk(f: Outgoing, name: string)
  {
    && f.username == name
    && (f.MessageFrame? ==> f.text != [] && !JsText.IsSpace(f.text[0]) && !JsText.IsSpace(f.text[|f.text| - 1]))
  }

  /** The frame invariant of `RawChat.Valid`. */
  ghost predicate WellFormed(sent: seq<Outgoing>, name: string)
  {
    forall i :: 0 <= i < |sent| ==> FrameOk(sent[i], name)
  }

  lemma FramesKeepValid(sent: seq<Outgoing>, frame: Outgoing, name: string)
    requires WellFormed(sent, name) && FrameOk(frame, name)
    ensures WellFormed(sent + [frame], name)
  {
    assert forall i :: 0 <= i < |sent| ==> (sent + [frame])[i] == sent[i];
  }

  /** The frame `handleSendMessage` sends for input that is not blank. */
  lemma MessageFrameWellFormed(input: string, name: string)
    requires !JsText.Blank(input)
    ensures FrameOk(MessageFrame(name, JsText.Trim(input)), name)
  {
    var t := JsText.Trim(input);
    assert t != [];
  }

  class RawChat {
    var messages: seq<Entry>
    var inputMessage: string
    var username: string
    var isUsernameSet: bool
    var socket: Option<ReadyState>
    var status: Status
    /** Every frame sent on the socket, oldest first. */
    var sent: seq<Outgoing>

    /** A socket exists only once a non-blank name was accepted, and every
        frame sent carries that name; a message frame carries trimmed,
        non-empty text. */
    ghost predicate Valid()
      reads this
    {
      && (isUsernameSet ==> !JsText.Blank(username))
      && (socket.Some? ==> isUsernameSet)
      && (sent != [] ==> socket.Some?)
      && WellFormed(sent, username)
    }

    constructor ()
      ensures Valid()
      ensures messages == [] && inputMessage == "" && username == ""
      ensures !isUsernameSet && socket == None && status == Disconnected && sent == []
    {
      messages := [];
      inputMessage := "";
      username := "";
      isUsernameSet := false;
      socket := None;
      status := Disconnected;
      sent := [];
    }

    /** The username field's `onChange`; the field is shown only until a
        name has been accepted. */
    method EditUsername(name: string)
      requires Valid()
      modifies this
      ensures Valid()
      ensures username == if old(isUsernameSet) then old(username) else name
      ensures messages == old(messages) && inputMessage == old(inputMessage)
      ensures isUsernameSet == old(isUsernameSet) && socket == old(socket)
      ensures status == old(status) && sent == old(sent)
    {
      if !isUsernameSet {
        username := name;
      }
    }

    /** The message field's `onChange`. */
    method EditInput(text: string)
      requires Valid()
      modifies this
      ensures Valid()
      ensures inputMessage == text
      ensures messages == old(messages) && username == old(username)
      ensures isUsernameSet == old(isUsernameSet) && socket == old(socket)
      ensures status == old(status) && sent == old(sent)
    {
      inputMessage := text;
    }

    /** `handleUsernameSubmit`: the name is accepted only when its trimmed
        form is non-empty; the stored name keeps its white space. */
    method SubmitUsername()
      requires Valid()
      modifies this
      ensures Valid()
      ensures isUsernameSet == (old(isUsernameSet) || !JsText.Blank(username))
      ensures username == old(username) && messages == old(messages)
      ensures inputMessage == old(inputMessage) && socket == old(socket)
      ensures status == old(status) && sent == old(sent)
    {
      if !JsText.Blank(username) {
        isUsernameSet := true;
      }
    }

    /** The connect effect: a socket is created only when the name is set
        and no socket exists yet. */
    method Connect()
      requires Valid()
      modifies this
      ensures Valid()
      ensures socket == if old(isUsernameSet) && old(socket) == None then Some(Connecting) else old(socket)
      ensures messages == old(messages) && inputMessage == old(inputMessage)
      ensures username == old(username) && isUsernameSet == old(isUsernameSet)
      ensures status == old(status) && sent == old(sent)
    {
      if isUsernameSet && socket == None {
        socket := Some(Connecting);
      }
    }

    /** `ws.onopen`: the socket is open, the status connected, and exactly
        one join frame with the username is sent. */
    method OnOpen()
      requires Valid()
      modifies this
      ensures Valid()
      ensures old(socket) == Some(Connecting) ==>
        socket == Some(Open) && status == Connected && sent == old(sent) + [JoinFrame(username)]
      ensures old(socket) != Some(Connecting) ==>
        socket == old(socket) && status == old(status) && sent == old(sent)
      ensures messages == old(messages) && inputMessage == old(inputMessage)
      ensures username == old(username) && isUsernameSet == old(isUsernameSet)
    {
      if socket == Some(Connecting) {
        socket := Some(Open);
        status := Connected;
        FramesKeepValid(sent, JoinFrame(username), username);
        sent := sent + [JoinFrame(username)];
      }
    }

    /** `ws.onmessage` with the parsed frame; `id` and `now` are the
        `Date.now()` and `new Date()` of its arrival. */
    method OnMessage(data: Incoming, id: int, now: Time)
      requires Valid()
      modifies this
      ensures Valid()
      ensures messages == if old(socket).Some? then Dispatch(old(messages), data, username, id, now) else old(messages)
      ensures inputMessage == old(inputMessage) && username == old(username)
      ensures isUsernameSet == old(isUsernameSet) && socket == old(socket)
      ensures status == old(status) && sent == old(sent)
    {
      if socket.Some? {
        messages := Dispatch(messages, data, username, id, now);
      }
    }

    /** `ws.onclose`. */
    method OnClose()
      requires Valid()
      modifies this
      ensures Valid()
      ensures old(socket).Some? ==> socket == Some(Closed) && status == Disconnected
      ensures old(socket).None? ==> socket == None && status == old(status)
      ensures messages == old(messages) && inputMessage == old(inputMessage)
      ensures username == old(username) && isUsernameSet == old(isUsernameSet) && sent == old(sent)
    {
      if socket.Some? {
        socket := Some(Closed);
        status := Disconnected;
      }
    }

    /** `ws.onerror`. */
    method OnError()
      requires Valid()
      modifies this
      ensures Valid()
      ensures status == if old(socket).Some? then Error else old(status)
      ensures messages == old(messages) && inputMessage == old(inputMessage)
      ensures username == old(username) && isUsernameSet == old(isUsernameSet)
      ensures socket == old(socket) && sent == old(sent)
    {
      if socket.Some? {
        status := Error;
      }
    }

    /** `handleSendMessage`: nothing happens when the trimmed input is
        empty or the socket is missing or not open; otherwise one message
        frame with the username and the TRIMMED input is sent and the input
        cleared. */
    method SendMessage()
      requires Valid()
      modifies this
      ensures Valid()
      ensures var go := !JsText.Blank(old(inputMessage)) && socket == Some(Open);
        && (go ==> sent == old(sent) + [MessageFrame(username, JsText.Trim(old(inputMessage)))] && inputMessage == "")
        && (!go ==> sent == old(sent) && inputMessage == old(inputMessage))
      ensures messages == old(messages) && username == old(username)
      ensures isUsernameSet == old(isUsernameSet) && socket == old(socket) && status == old(status)
    {
      if JsText.Blank(inputMessage) || socket != Some(Open) {
        return;
      }
      var frame := MessageFrame(username, JsText.Trim(inputMessage));
      MessageFrameWellFormed(inputMessage, username);
      FramesKeepValid(sent, frame, username);
      sent := sent + [frame];
      inputMessage := "";
    }

    /** The effect's cleanup on unmount: an open socket gets a leave frame
        and is closed; in any other state nothing happens. */
    method Cleanup()
      requires Valid()
      modifies this
      ensures Valid()
      ensures old(socket) == Some(Open) ==>
        sent == old(sent) + [LeaveFrame(username)] && socket == Some(Closing)
      ensures old(socket) != Some(Open) ==> sent == old(sent) && socket == old(socket)
      ensures messages == old(messages) && inputMessage == old(inputMessage)
      ensures username == old(username) && isUsernameSet == old(isUsernameSet) && status == old(status)
    {
      if socket == Some(Open) {
        FramesKeepValid(sent, LeaveFrame(username), username);
        sent := sent + [LeaveFrame(username)];
        socket := Some(Closing);
      }
    }
  }
}
