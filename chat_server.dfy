/**
 * The Socket.IO session engine of the chat server: the process-wide
 * registry `connectedUsers` (socket id -> display name), the bounded
 * `messageHistory`, and the three per-socket handlers `join`,
 * `sendMessage` and `disconnect`. Node runs each handler to completion,
 * so each is one atomic method; what the handlers emit is appended, in
 * order, to `outbox`.
 */
module ChatServer {
  import opened Protocol
  import opened MessageLog

  const SystemName: string := "System"
  const WelcomeText: string := "Welcome to the chat!"

  /** The message the history is seeded with at process start. */
  function Welcome(now: Time): Msg
  {
    Msg(SystemName, WelcomeText, now)
  }

  predicate Distinct(s: seq<SocketId>)
  {
    forall i, j :: 0 <= i < j < |s| ==> s[i] != s[j]
  }

  /** JavaScript's truthiness of `connectedUsers[socket.id]`: the socket is
      bound, and bound to a non-empty name. */
  predicate HasName(registry: map<SocketId, string>, socket: SocketId)
  {
    socket in registry && registry[socket] != ""
  }

  /** `Object.values(connectedUsers)`: the bound names, in key order. */
  function ValuesIn(keys: seq<SocketId>, registry: map<SocketId, string>): (r: seq<string>)
    requires forall k :: k in keys ==> k in registry
    ensures |r| == |keys|
    ensures forall i :: 0 <= i < |r| ==> r[i] == registry[keys[i]]
  {
    if keys == [] then [] else [registry[keys[0]]] + ValuesIn(keys[1..], registry)
  }

  /** The key order after `delete`: the other keys, in their old order. */
  function Without(s: seq<SocketId>, x: SocketId): (r: seq<SocketId>)
    ensures forall k :: k in r <==> k in s && k != x
    ensures Distinct(s) ==> Distinct(r)
    ensures x !in s ==> r == s
  {
    if s == [] then []
    else if s[0] == x then Without(s[1..], x)
    else
      var rest := Without(s[1..], x);
      assert Distinct(s) ==> Distinct(s[1..]) && s[0] !in rest;
      [s[0]] + rest
  }

  lemma AppendFresh(s: seq<SocketId>, x: SocketId)
    requires Distinct(s) && x !in s
    ensures Distinct(s + [x])
  {
  }

  /** The socket ids listed in `s`, as a set. */
  function KeySet(s: seq<SocketId>): set<SocketId>
  {
    if s == [] then {} else {s[0]} + KeySet(s[1..])
  }

  lemma {:induction false} KeySetMembers(s: seq<SocketId>)
    ensures forall k :: k in KeySet(s) <==> k in s
  {
    if s != [] {
      KeySetMembers(s[1..]);
      assert forall k :: k in s <==> k == s[0] || k in s[1..];
    }
  }

  lemma {:induction false} KeySetAppend(s: seq<SocketId>, x: SocketId)
    ensures KeySet(s + [x]) == KeySet(s) + {x}
  {
    if s != [] {
      assert (s + [x])[1..] == s[1..] + [x];
      KeySetAppend(s[1..], x);
    }
  }

  lemma {:induction false} KeySetWithout(s: seq<SocketId>, x: SocketId)
    ensures KeySet(Without(s, x)) == KeySet(s) - {x}
  {
    if s != [] {
      KeySetWithout(s[1..], x);
    }
  }

  /** A duplicate-free sequence has as many elements as its set. */
  lemma {:induction false} DistinctCount(s: seq<SocketId>)
    requires Distinct(s)
    ensures |KeySet(s)| == |s|
  {
    if s != [] {
      DistinctCount(s[1..]);
      KeySetMembers(s[1..]);
      assert s[0] !in s[1..];
    }
  }

  /** What `join` emits: `userJoined` to everyone, then `chatHistory` to
      the joining socket alone. */
  function JoinEmissions(socket: SocketId, name: string, users: seq<string>, history: seq<Msg>)
    : seq<(Target, Event)>
  {
    [(All, UserJoined(name, users)), (Only(socket), ChatHistory(history))]
  }

  class Server {
    var registry: map<SocketId, string>
    /** The keys of `registry` in the order a JavaScript object enumerates
        them: first insertion first, unchanged by overwriting a key. */
    var order: seq<SocketId>
    var history: seq<Msg>
    /** Every emission so far, with its recipients, oldest first. */
    var outbox: seq<(Target, Event)>

    ghost predicate Valid()
      reads this
    {
      && Distinct(order)
      && registry.Keys == KeySet(order)
      && 1 <= |history| <= Capacity
    }

    /** The `users` payload of presence events: one name per bound socket. */
    function Users(): (r: seq<string>)
      reads this
      requires Valid()
      ensures |r| == |registry|
    {
      KeySetMembers(order);
      DistinctCount(order);
      ValuesIn(order, registry)
    }

    /** Every bound name is in `Users()`, and nothing else is. */
    lemma UsersAreTheNames()
      requires Valid()
      ensures forall k :: k in registry ==> registry[k] in Users()
      ensures forall i :: 0 <= i < |Users()| ==> Users()[i] in registry.Values
    {
      var r := Users();
      KeySetMembers(order);
      forall k | k in registry ensures registry[k] in r {
        var i :| 0 <= i < |order| && order[i] == k;
        assert r[i] == registry[k];
      }
    }

    /** Process start: nobody connected, the history seeded with the
        welcome message, nothing emitted. */
    constructor (now: Time)
      ensures Valid()
      ensures registry == map[] && order == []
      ensures history == [Welcome(now)]
      ensures outbox == []
    {
      registry := map[];
      order := [];
      history := [Welcome(now)];
      outbox := [];
    }

    /** `socket.on("join")`: binds the name to the socket, replacing any
        earlier name and accepting any string; broadcasts `userJoined` with
        the names including the joiner, then sends the history to the
        joiner alone. The history itself is not touched. */
    method Join(socket: SocketId, name: string)
      requires Valid()
      modifies this
      ensures Valid()
      ensures registry == old(registry)[socket := name]
      ensures order == if socket in old(registry) then old(order) else old(order) + [socket]
      ensures history == old(history)
      ensures outbox == old(outbox) + JoinEmissions(socket, name, Users(), history)
    {
      assert socket in registry <==> socket in order by {
        KeySetMembers(order);
      }
      registry := registry[socket := name];
      if socket !in order {
        ghost var before := order;
        order := order + [socket];
        assert Valid() by {
          AppendFresh(before, socket);
          KeySetAppend(before, socket);
        }
      } else {
        assert Valid() by {
          assert registry.Keys == old(registry).Keys;
        }
      }
      var users := Users();
      outbox := outbox + JoinEmissions(socket, name, users, history);
    }

    /** `socket.on("sendMessage")`: a socket without a (non-empty) name is
        ignored; otherwise the message, stamped with the sender's name, the
        verbatim text and the current time, is pushed onto the history (the
        oldest entry dropped past the capacity) and broadcast. The registry
        never changes. */
    method SendMessage(socket: SocketId, text: string, now: Time)
      requires Valid()
      modifies this
      ensures Valid()
      ensures registry == old(registry) && order == old(order)
      ensures HasName(old(registry), socket) ==>
        var m := Msg(old(registry)[socket], text, now);
        && history == Push(old(history), m, Capacity)
        && outbox == old(outbox) + [(All, NewMessage(m))]
      ensures !HasName(old(registry), socket) ==>
        history == old(history) && outbox == old(outbox)
    {
      if socket in registry && registry[socket] != "" {
        var m := Msg(registry[socket], text, now);
        PushEvictsOldest(history, m, Capacity);
        history := history + [m];
        if |history| > Capacity {
          history := history[1..];
        }
        outbox := outbox + [(All, NewMessage(m))];
      }
    }

    /** `socket.on("disconnect")`: a socket with a non-empty name loses its
        entry and everyone is told who left and who remains; a socket that
        never joined, or joined with the empty name, changes nothing. */
    method Disconnect(socket: SocketId)
      requires Valid()
      modifies this
      ensures Valid()
      ensures history == old(history)
      ensures HasName(old(registry), socket) ==>
        && registry == old(registry) - {socket}
        && order == Without(old(order), socket)
        && outbox == old(outbox) + [(All, UserLeft(old(registry)[socket], Users()))]
      ensures !HasName(old(registry), socket) ==>
        registry == old(registry) && order == old(order) && outbox == old(outbox)
    {
      if socket in registry && registry[socket] != "" {
        var name := registry[socket];
        ghost var before := order;
        registry := registry - {socket};
        order := Without(order, socket);
        assert Valid() by {
          KeySetWithout(before, socket);
        }
        outbox := outbox + [(All, UserLeft(name, Users()))];
      }
    }
  }
}
