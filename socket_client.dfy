/**
 * The live chat component (`ChatWithSocketIO`): how each Socket.IO event
 * rewrites the message list, the connection status, the send guard, the
 * chat picker, and how a message bubble is classified for display.
 */
module SocketClient {
  import opened Protocol
  import opened Wrappers
  import JsText

  /** `connectionStatus`. */
  datatype Status = Connecting | Connected | Disconnected | Error

  /** One element of `messages`. Messages relayed from the server carry no
      `isSystem` field, which JavaScript reads as false. */
  datatype Entry = Entry(username: string, text: string, timestamp: Time, isSystem: bool)

  /** One element of the fixed `chats` list. */
  datatype Chat = Chat(id: int, username: string, lastMessage: string, time: string, unread: int, isOnline: bool)

  /** What the component emits to the server. */
  datatype Emit = EmitJoin(username: string) | EmitSendMessage(text: string)

  /** The CSS class chosen for a message bubble. */
  datatype Bubble = SystemMessage | SentMessage | ReceivedMessage

  const SystemName: string := "System"

  function JoinedText(name: string): string { name + " has joined the chat" }

  function LeftText(name: string): string { name + " has left the chat" }

  function FromServer(m: Msg): Entry
  {
    Entry(m.username, m.text, m.timestamp, false)
  }

  /** The list a `chatHistory` payload becomes: the server's messages, in
      order, none of them a system notice. */
  function Entries(h: seq<Msg>): (r: seq<Entry>)
    ensures |r| == |h|
    ensures forall i :: 0 <= i < |h| ==> r[i] == FromServer(h[i])
    ensures forall e :: e in r ==> !e.isSystem
  {
    if h == [] then [] else [FromServer(h[0])] + Entries(h[1..])
  }

  /** The `setMessages` update made by the listener of one server event;
      `now` is the client's own `new Date()` for presence notices. */
  function Apply(messages: seq<Entry>, e: Event, now: Time): (r: seq<Entry>)
    ensures !e.ChatHistory? ==> |r| == |messages| + 1 && r[..|messages|] == messages
    ensures e.NewMessage? ==> r[|messages|] == FromServer(e.msg)
    ensures e.UserJoined? ==>
      r[|messages|] == Entry(SystemName, e.username + " has joined the chat", now, true)
    ensures e.UserLeft? ==>
      r[|messages|] == Entry(SystemName, e.username + " has left the chat", now, true)
    ensures e.ChatHistory? ==> |r| == |e.history|
    ensures e.ChatHistory? ==> forall i :: 0 <= i < |r| ==>
      && r[i].username == e.history[i].username
      && r[i].text == e.history[i].text
      && r[i].timestamp == e.history[i].timestamp
      && !r[i].isSystem
  {
    match e
    case NewMessage(m) => messages + [FromServer(m)]
    case UserJoined(name, _) => messages + [Entry(SystemName, JoinedText(name), now, true)]
    case UserLeft(name, _) => messages + [Entry(SystemName, LeftText(name), now, true)]
    case ChatHistory(h) => Entries(h)
  }

  /** The message list after a run of events, oldest first. */
  function ApplyAll(messages: seq<Entry>, events: seq<Event>, now: Time): seq<Entry>
    decreases events
  {
    if events == [] then messages else ApplyAll(Apply(messages, events[0], now), events[1..], now)
  }

  /** Whatever came before a `chatHistory` is lost: the list afterwards
      depends only on the history received and the later events. */
  lemma {:induction false} HistoryResets(messages: seq<Entry>, before: seq<Event>, h: seq<Msg>,
                                         after: seq<Event>, now: Time)
    ensures ApplyAll(messages, before + [ChatHistory(h)] + after, now) == ApplyAll(Entries(h), after, now)
    decreases before
  {
    if before == [] {
      assert [ChatHistory(h)] + after == [ChatHistory(h)] + after;
      assert ([ChatHistory(h)] + after)[1..] == after;
    } else {
      HistoryResets(Apply(messages, before[0], now), before[1..], h, after, now);
      assert (before + [ChatHistory(h)] + after)[1..] == before[1..] + [ChatHistory(h)] + after;
    }
  }

  /** The bubble class: system notices first, then own messages (sender
      equals the local username), everything else received. */
  function Style(e: Entry, me: string): (b: Bubble)
    ensures b == SystemMessage <==> e.isSystem
    ensures b == SentMessage <==> !e.isSystem && e.username == me
    ensures b == ReceivedMessage <==> !e.isSystem && e.username != me
  {
    if e.isSystem then SystemMessage
    else if e.username == me then SentMessage
    else ReceivedMessage
  }

  /** The sender label is rendered exactly for received bubbles. */
  function ShowsSender(e: Entry, me: string): (r: bool)
    ensures r <==> Style(e, me) == ReceivedMessage
  {
    !e.isSystem && e.username != me
  }

  class ChatClient {
    /** The `username` prop. */
    const username: string
    var messages: seq<Entry>
    var messageInput: string
    var hasSocket: bool
    var status: Status
    var activeChat: Option<Chat>
    /** Everything emitted to the server, oldest first. */
    var emitted: seq<Emit>

    /** The event listeners are registered only once a socket exists and
        the username is non-empty. */
    predicate Listening()
      reads this
    {
      hasSocket && username != ""
    }

    constructor (username: string)
      ensures this.username == username
      ensures messages == [] && messageInput == "" && !hasSocket
      ensures status == Connecting && activeChat == None && emitted == []
    {
      this.username := username;
      messages := [];
      messageInput := "";
      hasSocket := false;
      status := Connecting;
      activeChat := None;
      emitted := [];
    }

    /** The mount effect creates the socket. */
    method Mount()
      modifies this
      ensures hasSocket
      ensures messages == old(messages) && messageInput == old(messageInput)
      ensures status == old(status) && activeChat == old(activeChat) && emitted == old(emitted)
    {
      hasSocket := true;
    }

    /** The input's `onChange`. */
    method Type(text: string)
      modifies this
      ensures messageInput == text
      ensures messages == old(messages) && hasSocket == old(hasSocket)
      ensures status == old(status) && activeChat == old(activeChat) && emitted == old(emitted)
    {
      messageInput := text;
    }

    /** "connect": the status becomes connected and one `join` carrying
        the component's username is emitted. */
    method OnConnect()
      modifies this
      ensures Listening() ==> status == Connected && emitted == old(emitted) + [EmitJoin(username)]
      ensures !Listening() ==> status == old(status) && emitted == old(emitted)
      ensures messages == old(messages) && messageInput == old(messageInput)
      ensures hasSocket == old(hasSocket) && activeChat == old(activeChat)
    {
      if hasSocket && username != "" {
        status := Connected;
        emitted := emitted + [EmitJoin(username)];
      }
    }

    /** "disconnect". */
    method OnDisconnect()
      modifies this
      ensures status == if Listening() then Disconnected else old(status)
      ensures messages == old(messages) && messageInput == old(messageInput)
      ensures hasSocket == old(hasSocket) && activeChat == old(activeChat) && emitted == old(emitted)
    {
      if hasSocket && username != "" {
        status := Disconnected;
      }
    }

    /** "connect_error". */
    method OnConnectError()
      modifies this
      ensures status == if Listening() then Error else old(status)
      ensures messages == old(messages) && messageInput == old(messageInput)
      ensures hasSocket == old(hasSocket) && activeChat == old(activeChat) && emitted == old(emitted)
    {
      if hasSocket && username != "" {
        status := Error;
      }
    }

    /** "message", "userJoined", "userLeft" and "chatHistory". */
    method Receive(e: Event, now: Time)
      modifies this
      ensures messages == if Listening() then Apply(old(messages), e, now) else old(messages)
      ensures messageInput == old(messageInput) && status == old(status)
      ensures hasSocket == old(hasSocket) && activeChat == old(activeChat) && emitted == old(emitted)
    {
      if hasSocket && username != "" {
        messages := Apply(messages, e, now);
      }
    }

    /** `handleSendMessage`: when the trimmed input is non-empty, a socket
        exists and the status is connected, the UNtrimmed input is emitted
        and the field cleared; otherwise nothing happens. */
    method SendMessage()
      modifies this
      ensures var go := !JsText.Blank(old(messageInput)) && hasSocket && status == Connected;
        && (go ==> emitted == old(emitted) + [EmitSendMessage(old(messageInput))] && messageInput == "")
        && (!go ==> emitted == old(emitted) && messageInput == old(messageInput))
      ensures messages == old(messages) && status == old(status)
      ensures hasSocket == old(hasSocket) && activeChat == old(activeChat)
    {
      if !JsText.Blank(messageInput) && hasSocket && status == Connected {
        emitted := emitted + [EmitSendMessage(messageInput)];
        messageInput := "";
      }
    }

    /** `handleChatSelect`: the chat becomes active and the list is replaced
        by one ordinary entry built from the chat's name and last message. */
    method SelectChat(chat: Chat, now: Time)
      modifies this
      ensures activeChat == Some(chat)
      ensures messages == [Entry(chat.username, chat.lastMessage, now, false)]
      ensures messageInput == old(messageInput) && status == old(status)
      ensures hasSocket == old(hasSocket) && emitted == old(emitted)
    {
      activeChat := Some(chat);
      messages := [Entry(chat.username, chat.lastMessage, now, false)];
    }
  }
}
