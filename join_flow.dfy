/**
 * The server and the live client together: what a joining client ends up
 * showing, and what a connected participant observes over a short session.
 */
module JoinFlow {
  import opened Protocol
  import ChatServer
  import SocketClient

  /** Of a join's two emissions, every socket receives the broadcast and
      only the joiner the history. */
  lemma JoinInbox(to: SocketId, joiner: SocketId, name: string, users: seq<string>, history: seq<Msg>)
    ensures ReceivedBy(to, ChatServer.JoinEmissions(joiner, name, users, history))
      == if to == joiner then [UserJoined(name, users), ChatHistory(history)] else [UserJoined(name, users)]
  {
    var e1 := [(All, UserJoined(name, users))];
    var e2 := [(Only(joiner), ChatHistory(history))];
    assert ChatServer.JoinEmissions(joiner, name, users, history) == e1 + e2;
    ReceivedByAppend(to, e1, e2);
    ReceivedBySingle(to, All, UserJoined(name, users));
    ReceivedBySingle(to, Only(joiner), ChatHistory(history));
  }

  /** The joiner receives its own `userJoined` and then `chatHistory`;
      since the history replaces the whole list, the join notice the first
      event appended is gone and the list is exactly the history. */
  lemma {:induction false} JoinNoticeIsWiped(socket: SocketId, name: string, users: seq<string>,
                                             history: seq<Msg>, messages: seq<SocketClient.Entry>, now: Time)
    ensures var inbox := ReceivedBy(socket, ChatServer.JoinEmissions(socket, name, users, history));
      && inbox == [UserJoined(name, users), ChatHistory(history)]
      && SocketClient.ApplyAll(messages, inbox, now) == SocketClient.Entries(history)
      && SocketClient.Entry("System", name + " has joined the chat", now, true)
           !in SocketClient.ApplyAll(messages, inbox, now)
  {
    JoinInbox(socket, socket, name, users, history);
    var inbox := [UserJoined(name, users), ChatHistory(history)];
    SocketClient.HistoryResets(messages, [UserJoined(name, users)], history, [], now);
    assert [UserJoined(name, users)] + [ChatHistory(history)] + [] == inbox;
  }

  /** A fresh server and a client named `name` (non-empty, so the client
      listens): the client connects and emits `join`, the server handles
      it, and the two events addressed to the client are delivered. The
      client then shows the welcome message alone, as an ordinary message
      from "System" rather than a system notice. */
  method FirstJoin(socket: SocketId, name: string, start: Time, now: Time)
    returns (shown: seq<SocketClient.Entry>)
    requires name != ""
    ensures shown == [SocketClient.Entry("System", "Welcome to the chat!", start, false)]
    ensures name != "System" ==> SocketClient.Style(shown[0], name) == SocketClient.ReceivedMessage
  {
    var server := new ChatServer.Server(start);
    var client := new SocketClient.ChatClient(name);
    client.Mount();
    client.OnConnect();
    assert client.emitted == [SocketClient.EmitJoin(name)];
    server.Join(socket, client.emitted[0].username);
    assert server.outbox == ChatServer.JoinEmissions(socket, name, server.Users(), server.history);
    var inbox := ReceivedBy(socket, server.outbox);
    JoinNoticeIsWiped(socket, name, server.Users(), server.history, client.messages, now);
    assert inbox == [UserJoined(name, server.Users()), ChatHistory(server.history)];
    client.Receive(inbox[0], now);
    client.Receive(inbox[1], now);
    shown := client.messages;
  }

  /** What socket `a` receives of the emissions of the two-user session. */
  lemma SessionInbox(a: SocketId, b: SocketId, welcome: Msg, m: Msg)
    requires a != b
    ensures ReceivedBy(a,
      ChatServer.JoinEmissions(a, "alice", ["alice"], [welcome])
      + ChatServer.JoinEmissions(b, "bob", ["alice", "bob"], [welcome])
      + [(All, NewMessage(m))] + [(All, UserLeft("bob", ["alice"]))])
      == [UserJoined("alice", ["alice"]), ChatHistory([welcome]), UserJoined("bob", ["alice", "bob"]),
          NewMessage(m), UserLeft("bob", ["alice"])]
  {
    var j1 := ChatServer.JoinEmissions(a, "alice", ["alice"], [welcome]);
    var j2 := ChatServer.JoinEmissions(b, "bob", ["alice", "bob"], [welcome]);
    var e3 := [(All, NewMessage(m))];
    var e4 := [(All, UserLeft("bob", ["alice"]))];
    calc {
      ReceivedBy(a, j1 + j2 + e3 + e4);
      { ReceivedByAppend(a, j1 + j2 + e3, e4); }
      ReceivedBy(a, j1 + j2 + e3) + ReceivedBy(a, e4);
      { ReceivedByAppend(a, j1 + j2, e3); }
      ReceivedBy(a, j1 + j2) + ReceivedBy(a, e3) + ReceivedBy(a, e4);
      { ReceivedByAppend(a, j1, j2); }
      ReceivedBy(a, j1) + ReceivedBy(a, j2) + ReceivedBy(a, e3) + ReceivedBy(a, e4);
      { JoinInbox(a, a, "alice", ["alice"], [welcome]);
        JoinInbox(a, b, "bob", ["alice", "bob"], [welcome]);
        ReceivedBySingle(a, All, NewMessage(m));
        ReceivedBySingle(a, All, UserLeft("bob", ["alice"])); }
      [UserJoined("alice", ["alice"]), ChatHistory([welcome])] + [UserJoined("bob", ["alice", "bob"])]
        + [NewMessage(m)] + [UserLeft("bob", ["alice"])];
    }
  }

  /** Two sockets join in turn, the second sends one message and leaves.
      The first observes, in order: its own join with itself as the only
      user, the seeded history, the second join with both names in join
      order, the message, and the departure with itself remaining. */
  method TwoUserSession(a: SocketId, b: SocketId, start: Time, sent: Time)
    returns (seenByA: seq<Event>)
    requires a != b
    ensures seenByA == [
      UserJoined("alice", ["alice"]),
      ChatHistory([ChatServer.Welcome(start)]),
      UserJoined("bob", ["alice", "bob"]),
      NewMessage(Msg("bob", "hi", sent)),
      UserLeft("bob", ["alice"])]
  {
    var welcome := ChatServer.Welcome(start);
    var m := Msg("bob", "hi", sent);
    var server := new ChatServer.Server(start);
    server.Join(a, "alice");
    ghost var j1 := ChatServer.JoinEmissions(a, "alice", ["alice"], [welcome]);
    assert server.outbox == j1 && server.order == [a] by {
      assert server.Users() == ["alice"];
    }
    assert b !in server.registry;
    server.Join(b, "bob");
    ghost var j2 := ChatServer.JoinEmissions(b, "bob", ["alice", "bob"], [welcome]);
    assert server.order == [a] + [b];
    assert server.outbox == j1 + j2 by {
      assert server.Users() == ["alice", "bob"];
    }
    server.SendMessage(b, "hi", sent);
    assert server.registry == map[a := "alice", b := "bob"] && server.order == [a, b];
    assert ChatServer.Without([a, b], b) == [a] by {
      assert [a, b][1..] == [b] && [b][1..] == [];
    }
    server.Disconnect(b);
    assert server.outbox == j1 + j2 + [(All, NewMessage(m))] + [(All, UserLeft("bob", ["alice"]))] by {
      assert server.Users() == ["alice"];
    }
    SessionInbox(a, b, welcome, m);
    seenByA := ReceivedBy(a, server.outbox);
  }
}
