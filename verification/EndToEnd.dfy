/** Both programs together: what the server object has written to a user, read by that user's client
    object. */
module EndToEnd {
  import opened Types
  import opened Messages
  import opened PacketBuffers
  import Assoc
  import ChatClient
  import ChatServer
  import Handshake
  import Invariants
  import S = ServerSpec

  function Flat(writes: seq<seq<byte>>): seq<byte> {
    if writes == [] then [] else writes[0] + Flat(writes[1..])
  }

  lemma {:induction false} FlatAppends(writes: seq<seq<byte>>, w: seq<byte>)
    ensures Flat(writes + [w]) == Flat(writes) + w
    decreases |writes|
  {
    if writes == [] {
      assert [w][1..] == [];
      assert ([] + [w])[0] == w && ([] + [w])[1..] == [];
    } else {
      assert (writes + [w])[1..] == writes[1..] + [w];
      FlatAppends(writes[1..], w);
    }
  }

  /** The network: every byte written arrives, in order. */
  method Transmit(writes: seq<seq<byte>>) returns (bytes: seq<byte>)
    ensures bytes == Flat(writes)
  {
    bytes := [];
    var i := 0;
    while i < |writes|
      invariant 0 <= i <= |writes| && bytes == Flat(writes[..i])
    {
      FlatAppends(writes[..i], writes[i]);
      assert writes[..i + 1] == writes[..i] + [writes[i]];
      bytes := bytes + writes[i];
      i := i + 1;
    }
    assert writes[..i] == writes;
  }

  /** The bytes written to a user are those of the packets sent to it. */
  lemma {:induction false} WritesAreBytes(writes: seq<seq<byte>>, ps: seq<Packet>)
    requires |writes| == |ps|
    requires forall k :: 0 <= k < |ps| ==> Sendable(ps[k]) && writes[k] == Wire(ps[k])
    ensures Flat(writes) == ChatClient.Bytes(ps)
    decreases |ps|
  {
    hide Sendable, Wire;
    if ps != [] {
      WritesAreBytes(writes[1..], ps[1..]);
    }
  }

  lemma UserOk(server: ChatServer.Server, u: ChatServer.User)
    requires server.Valid() && u in server.all
    ensures u.Ok() && ChatServer.Id(u) < |server.Abs().users| && server.Abs().users[ChatServer.Id(u)] == u.Record()
  {
    server.PersonIs(u);
  }

  /** What those bytes do to a client that starts with them. */
  lemma WhatArrives(server: ChatServer.Server, u: ChatServer.User, c: Handshake.Credentials, st: ChatClient.ClientState)
    requires server.Valid() && Invariants.Inv(server.Abs()) && u in server.all && u.socket.open
    requires Handshake.CanSend(c) && st.userList == [] && !st.ended
    ensures u.Ok()
    ensures var r := ChatClient.ReadAll(server.accounts.sha1, c, st, Flat(u.socket.writes));
            && (r.ended <==> ChatClient.SomethingStops(u.sent))
            && (!r.ended ==>
                  if u.room.Some? then Assoc.Keys(r.userList) == Assoc.Keys(S.Members(server.Abs(), u.room.value))
                  else Assoc.Keys(r.userList) <= {u.username})
  {
    hide Invariants.Inv, ChatClient.ReadAll, ChatClient.SomethingStops, Wire, Sendable;
    UserOk(server, u);
    ChatClient.ClientShowsItsRoom(server.Abs(), ChatServer.Id(u), c, st);
    WritesAreBytes(u.socket.writes, u.sent);
  }

  /** A client object that has just started reads everything the server object has written to its
      user. It shows the names in the table of the user's room, or at most its own outside of rooms;
      it has ended exactly if something among the packets stops a client. */
  method Deliver(server: ChatServer.Server, u: ChatServer.User, client: ChatClient.Client)
    requires server.Valid() && Invariants.Inv(server.Abs()) && u in server.all && u.socket.open
    requires client.Valid() && !client.ended && client.userList.Model() == [] && client.sha1 == server.accounts.sha1
    requires client.socket !in server.Sockets()
    modifies client, client.userList, client.userList.spine, client.socket`writes, client.socket`pending
    ensures server.Valid() && server.Abs() == old(server.Abs()) && client.Valid()
    ensures u.Ok() && (client.ended <==> ChatClient.SomethingStops(u.sent))
    ensures !client.ended ==>
              if u.room.Some? then
                Assoc.Keys(client.userList.Model()) == Assoc.Keys(S.Members(server.Abs(), u.room.value))
              else Assoc.Keys(client.userList.Model()) <= {u.username}
  {
    hide Invariants.Inv, ChatClient.ReadAll, ChatClient.SomethingStops, ChatServer.Server.Valid, ChatServer.Server.Abs,
      ChatServer.User.Ok, ChatClient.Client.Valid, Assoc.Keys, S.Members;
    WhatArrives(server, u, client.Typed(), client.Abs());
    client.socket.pending := Transmit(u.socket.writes);
    client.CatchUp();
    server.Untouched();
  }
}
