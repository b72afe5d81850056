# Real-time chat: session engine and client reducers in Dafny

This project models the core of a small real-time chat system and proves
properties of the model.

- **The Socket.IO server.** It holds two pieces of state for the whole
  process:
  - `connectedUsers`, which maps a socket id to a display name;
  - `messageHistory`, a log that starts with one welcome message and is
    capped at 100 entries.

  The handlers `join`, `sendMessage` and `disconnect` change that state
  and emit events. Node runs each handler to completion, so each one is a
  single method of the class `ChatServer.Server`. The emissions are
  appended to an `outbox`, each tagged `All` (`io.emit`) or `Only(socket)`
  (`socket.emit`).
- **The live client `ChatWithSocketIO`.** Each Socket.IO event rewrites the
  message list; the model covers that, the connection status, the send
  guard, the chat picker, and how a bubble is classified for display.
- **The raw-WebSocket client `RealTimeChat`.** The model covers the
  username gate, socket creation, `onopen`, the typed-frame dispatch in
  `onmessage`, the send guard and the leave-and-close cleanup.
- **The login form `LoginPage`.** The model covers the ordered validation
  chain, which picks at most one error, and how the request's outcome
  becomes either an error or a successful login.

JavaScript semantics that the source relies on are written out:

- `String.prototype.trim` uses the ECMAScript white-space and
  line-terminator code points (`JsText`).
- `String.length` counts UTF-16 code units (`JsText.Utf16Length`).
- `connectedUsers[id]` is falsy when the key is absent or bound to `""`
  (`ChatServer.HasName`).
- `Object.values` enumerates keys in insertion order, and overwriting a key
  keeps its place. `Server.order` records that order.

The modules are:

| file | module | models |
|---|---|---|
| `js_text.dfy` | `JsText` | `trim`, UTF-16 `length` |
| `protocol.dfy` | `Protocol` | messages, server events, emission targets, who receives what |
| `message_log.dfy` | `MessageLog` | the bounded history and its push/shift step |
| `chat_server.dfy` | `ChatServer` | `connectedUsers`, `messageHistory` and the three socket handlers |
| `socket_client.dfy` | `SocketClient` | `ChatWithSocketIO` |
| `raw_client.dfy` | `RawClient` | `RealTimeChat` |
| `login_page.dfy` | `Login` | `LoginPage` |
| `join_flow.dfy` | `JoinFlow` | the server and the live client together |
| `wrappers.dfy` | `Wrappers` | `Option` |

Timestamps (`new Date()`) and ids (`Date.now()`) are parameters of the
operations. The outcome of the awaited login request is also a parameter.

## Model

| member | source | states |
|---|---|---|
| ChatServer.Server.constructor | chat-server/server.js:32-35 | At process start nobody is connected, the history is exactly `[{System, "Welcome to the chat!", now}]`, and nothing has been emitted. |
| ChatServer.Server.Join | chat-server/server.js:153-167 | Binds `socket` to `name` and overwrites any earlier binding, with no validation. Other entries are unchanged, and a new key goes to the end of the enumeration order. The history is untouched. Exactly two events are emitted, in order: `userJoined` to everyone, carrying the names of the new registry, then `chatHistory` with the current history to the joiner alone. The invariant (distinct key order matching the registry, 1 ≤ history ≤ 100) is kept. |
| ChatServer.Server.SendMessage | chat-server/server.js:170-194 | A socket that is unbound or bound to `""` changes nothing and emits nothing. Otherwise the message is pushed, built from the sender's name, the verbatim text and the time. The oldest entry is dropped when the log exceeds 100. Exactly that message is broadcast, and the registry is never changed. |
| ChatServer.Server.Disconnect | chat-server/server.js:197-212 | A socket bound to a non-empty name loses exactly its entry and is removed from the key order. `userLeft` is broadcast with the remaining names. An unbound or empty-name socket changes and emits nothing, so an empty-name entry is never removed. The history is untouched. |
| ChatServer.Server.Users | chat-server/server.js:162 | The `users` payload has exactly one name per bound socket. |
| ChatServer.Server.UsersAreTheNames | chat-server/server.js:160-163 | Every bound name, including a joiner's, occurs in the `users` payload, and every payload element is a bound name. |
| ChatServer.ValuesIn | chat-server/server.js:162 | `Object.values` lists, position by position, the name bound to each key in enumeration order. |
| ChatServer.Without | chat-server/server.js:204 | After `delete`, the enumeration order holds exactly the other keys. It stays duplicate-free and is unchanged when the key was absent. |
| ChatServer.KeySetAppend | chat-server/server.js:157 | A key appended to the order is added to the key set and nothing else is. |
| ChatServer.KeySetWithout | chat-server/server.js:204 | Deleting a key from the order removes exactly that key from the key set. |
| ChatServer.DistinctCount | chat-server/server.js:162 | A duplicate-free key order has as many keys as the registry. |
| MessageLog.LastN | chat-server/server.js:185-190 | The last `n` entries: their length is `min(|s|, n)` and they form a suffix of `s`. |
| MessageLog.Push | chat-server/server.js:185-190 | One `push` followed by at most one `shift` keeps exactly the most recent `cap` entries of a log within its bound. |
| MessageLog.PushEvictsOldest | chat-server/server.js:185-190 | Below the bound a push only appends. At the bound it drops exactly the oldest entry. The new message is the last entry, and the length stays between 1 and the bound. |
| MessageLog.LastNAbsorbs | chat-server/server.js:188-190 | Truncating before appending more does not change the final last-`n` window. |
| MessageLog.PushAllKeepsMostRecent | chat-server/server.js:185-190 | After any sequence of sends, the history is the most recent ≤ `cap` entries of the old log followed by the sends, in arrival order. |
| MessageLog.SeedEvictedFirst | chat-server/server.js:185-190 | Starting from the welcome seed, the seed stays first while fewer than `cap` messages have been sent, and it is the first entry evicted. With `cap` or more sends, the log is exactly the last `cap` sends. |
| Protocol.ReceivedBy | chat-server/server.js:160-166 | A socket receives at most as many events as were emitted (which ones, and in what order, is stated by `ReceivedByAppend` and `ReceivedBySingle`). |
| Protocol.ReceivedByAppend | chat-server/server.js:160-166 | Delivery is compositional: the events from two consecutive stretches of emissions arrive in order. |
| Protocol.ReceivedBySingle | chat-server/server.js:160-166 | `io.emit` reaches every socket, and `socket.emit` reaches only its own socket. |
| JoinFlow.JoinInbox | chat-server/server.js:160-166 | A join delivers `[userJoined, chatHistory]` to the joiner, and only `userJoined` to any other socket. |
| JoinFlow.JoinNoticeIsWiped | chat-app/src/components/ChatWithSocketIO.js:88-114 | When the joiner applies its two join events, the list is exactly the received history, so the "has joined" notice of its own join is gone. |
| JoinFlow.FirstJoin | chat-app/src/components/ChatWithSocketIO.js:71-114 | A client connecting to a fresh server ends up showing only the welcome message. It appears as an ordinary (non-system) message from "System", styled as received. |
| JoinFlow.SessionInbox | chat-server/server.js:153-212 | The events that one socket receives from the emissions of a two-user session. |
| JoinFlow.TwoUserSession | chat-server/server.js:153-212 | Two sockets join, the second sends a message and leaves. The first socket sees, in order: its own join with itself as sole user, the history, the second join listing both names in join order, the message, and the departure listing only itself. |
| JsText.TrimStart | chat-app/src/components/RealTimeChat.js:121 | The result is a suffix of the input, everything dropped is white space, and it does not start with white space. |
| JsText.TrimEnd | chat-app/src/components/RealTimeChat.js:121 | The result is a prefix of the input, everything dropped is white space, and it does not end with white space. |
| JsText.Trim | chat-app/src/components/RealTimeChat.js:121 | `s.trim()` is an infix of `s` and does not start or end with white space. It is empty exactly when `s` is all white space (`Blank`). |
| JsText.EmptyTrimIsAllSpace | chat-app/src/components/ChatWithSocketIO.js:135 | `!s.trim()` holds exactly when every character is white space. |
| JsText.Utf16Length | chat-app/src/components/LoginPage.js:33 | `s.length` lies between the number of code points and twice that, and equals it when every code point is in the BMP. |
| SocketClient.Entries | chat-app/src/components/ChatWithSocketIO.js:112-114 | A received history becomes the list element by element, in order, and no entry is a system notice. |
| SocketClient.Apply | chat-app/src/components/ChatWithSocketIO.js:84-114 | `message`, `userJoined` and `userLeft` each append one entry and keep the earlier ones. The appended entry is the message, or a "System" notice with `isSystem` and the text "<name> has joined the chat" / "<name> has left the chat". `chatHistory` replaces the list by the history field by field. |
| SocketClient.HistoryResets | chat-app/src/components/ChatWithSocketIO.js:112-114 | Whatever came before a `chatHistory` event is lost: the list afterwards depends only on the history and the later events. |
| SocketClient.Style | chat-app/src/components/ChatWithSocketIO.js:219-225 | A bubble is a system message iff `isSystem`, sent iff not system and the sender is the own username, and received iff not system and the sender is someone else. |
| SocketClient.ShowsSender | chat-app/src/components/ChatWithSocketIO.js:227-229 | The sender label is shown exactly for received bubbles. |
| SocketClient.ChatClient.constructor | chat-app/src/components/ChatWithSocketIO.js:6-11 | The initial component state: no messages, empty input, no socket, status "connecting", no active chat. |
| SocketClient.ChatClient.Mount | chat-app/src/components/ChatWithSocketIO.js:59-61 | The mount effect creates the socket and changes nothing else. |
| SocketClient.ChatClient.Type | chat-app/src/components/ChatWithSocketIO.js:243 | Typing sets the input and nothing else. |
| SocketClient.ChatClient.OnConnect | chat-app/src/components/ChatWithSocketIO.js:70-74 | With listeners registered (socket and non-empty username), the status becomes connected and exactly one `join` with the username is emitted. Otherwise nothing changes. |
| SocketClient.ChatClient.OnDisconnect | chat-app/src/components/ChatWithSocketIO.js:76-78 | The status becomes disconnected, and nothing else changes. |
| SocketClient.ChatClient.OnConnectError | chat-app/src/components/ChatWithSocketIO.js:80-82 | The status becomes error, and nothing else changes. |
| SocketClient.ChatClient.Receive | chat-app/src/components/ChatWithSocketIO.js:84-114 | A server event updates the list by `Apply` when listeners are registered; nothing else changes. |
| SocketClient.ChatClient.SendMessage | chat-app/src/components/ChatWithSocketIO.js:133-139 | It emits only if the trimmed input is non-empty, the socket exists and the status is connected. It then emits the untrimmed input and clears the field. Otherwise nothing changes. |
| SocketClient.ChatClient.SelectChat | chat-app/src/components/ChatWithSocketIO.js:149-160 | The chat becomes active, and the list is replaced by one non-system entry with the chat's username and last message. |
| RawClient.Dispatch | chat-app/src/components/RealTimeChat.js:32-73 | A known frame type appends one entry and keeps the earlier ones, and an unknown type leaves the list unchanged. For `message`, the entry's `isMine` is true iff the sender equals the local username. `join` and `leave` append a system entry with the fixed joined/left phrase. |
| RawClient.FramesKeepValid | chat-app/src/components/RealTimeChat.js:24-29 | Sending a well-formed frame keeps every frame sent carrying the username. |
| RawClient.MessageFrameWellFormed | chat-app/src/components/RealTimeChat.js:118-122 | For non-blank input, the message frame's text is non-empty and has no white space at either end. |
| RawClient.RawChat.constructor | chat-app/src/components/RealTimeChat.js:5-10 | The initial state: no messages, empty input and name, name not set, no socket, status disconnected. |
| RawClient.RawChat.EditUsername | chat-app/src/components/RealTimeChat.js:139-148 | The name field edits the username only while no name has been accepted. |
| RawClient.RawChat.EditInput | chat-app/src/components/RealTimeChat.js:204 | Typing sets the input and nothing else. |
| RawClient.RawChat.SubmitUsername | chat-app/src/components/RealTimeChat.js:128-133 | `isUsernameSet` becomes true only when the trimmed name is non-empty, and the stored name is not trimmed. |
| RawClient.RawChat.Connect | chat-app/src/components/RealTimeChat.js:14-17 | A socket is created only when the name is set and no socket exists yet. |
| RawClient.RawChat.OnOpen | chat-app/src/components/RealTimeChat.js:19-30 | The socket opens, the status becomes connected, and exactly one join frame with the username is sent. |
| RawClient.RawChat.OnMessage | chat-app/src/components/RealTimeChat.js:32-73 | An incoming frame updates the list by `Dispatch`, and nothing else changes. |
| RawClient.RawChat.OnClose | chat-app/src/components/RealTimeChat.js:75-78 | The status becomes disconnected. |
| RawClient.RawChat.OnError | chat-app/src/components/RealTimeChat.js:80-83 | The status becomes error. |
| RawClient.RawChat.SendMessage | chat-app/src/components/RealTimeChat.js:107-126 | It does nothing when the trimmed input is empty or the socket is missing or not open. Otherwise it sends exactly one message frame with the username and the trimmed input, then clears the input. |
| RawClient.RawChat.Cleanup | chat-app/src/components/RealTimeChat.js:88-98 | Only an open socket gets a leave frame with the username and is then closed. In any other state nothing happens. |
| Login.Validate | chat-app/src/components/LoginPage.js:19-64 | A blank username gives "Username is required", checked first in both modes. When registering, a blank email gives "Email is required", and then a password that is blank or shorter than 6 raw UTF-16 units gives "Password must be at least 6 characters". When logging in, only a blank password is refused ("Password is required"). There is no error exactly when every check passes. |
| Login.FailureText | chat-app/src/components/LoginPage.js:48-88 | After a request that did not succeed, the error is the thrown message, else the body's `error` field, else "Registration failed" / "Login failed". |
| Login.LoginForm.constructor | chat-app/src/components/LoginPage.js:6-11 | The initial form: empty fields, login mode, no error, not loading. |
| Login.LoginForm.Edit | chat-app/src/components/LoginPage.js:113-139 | The input handlers and the mode toggle set the fields and nothing else. |
| Login.LoginForm.Submit | chat-app/src/components/LoginPage.js:13-92 | A failed validation sends no request and shows its error. Otherwise exactly one request with the raw fields is sent. `onLoginSuccess` receives the entered username exactly when the response is ok; any other outcome shows `FailureText`. `loading` is false on every exit. |

## Left out

- REST routes `/api/register`, `/api/login` and `/api/verify-token`: these are MongoDB queries, password hashing and JWT signing, which are library calls outside this code.
- Server setup: database connection, Express, CORS, the HTTP listener, the root route and console logging. These are I/O only.
- Transport:
  - Socket.IO and WebSocket delivery, transport failures, and the `connection` event are not modelled.
  - `Protocol.ReceivedBy` treats `io.emit` as reaching a socket that stays connected throughout.
  - Sockets that connect or disconnect between emissions are not modelled.
- Concurrency: the handlers are atomic under Node's event loop, so the model is a sequence of method calls.
- Timestamps and `formatTime`: times are opaque parameters, and the locale-dependent formatting is not modelled.
- `JSON.parse` and `JSON.stringify` in `RealTimeChat`: frames are modelled after parsing and before serialisation. A frame whose fields are not strings is not modelled.
- Payload type: the name carried by a `join` payload is modelled as a string. JavaScript would accept any value there.
- Object key order: keys that look like array indices, which JavaScript enumerates first in numeric order, are not modelled. Socket ids are not of that form.
- `fetch`, `response.json()` and `localStorage` in `LoginPage`: the awaited outcome is a parameter (`Outcome`).
- Login.LoginForm.Submit runs to completion in one step. The intermediate state while the request is pending (`error` cleared and `loading` true) is not observable in the model.
- Hooks in `ChatWithSocketIO`:
  - `socket.disconnect()` on unmount and the listener removal of the effect cleanup are not modelled.
  - Re-registering listeners when the username prop changes is not modelled. The prop is a constant of `ChatClient`.
- Rendering: auto-scroll, all JSX and CSS, and the hard-coded chat list contents are not modelled. The bubble classification and the sender label are the exception.
- chat-app/src/components/UserProfile.js and chat-app/src/App.js are not part of this model. They contain only hard-coded UI data, view switching and I/O.
- ChatServer.Server.Join: its contract gives the `users` payload as `Users()` of the new state. That the joiner's name occurs in it follows from `UsersAreTheNames` together with the new binding, and is not repeated in the method's contract.
