/** The server as objects: shared User and Room records that the handlers overwrite, proved to
    compute the functions of ServerSpec on the value Abs() of the whole heap state. */
module ChatServer {
  import opened Types
  import opened Messages
  import opened PacketBuffers
  import Assoc
  import Accounts
  import Building
  import Framing
  import Guarantees
  import Invariants
  import LinkedLists
  import Rounds
  import S = ServerSpec

  // ---- user.c ----

  class User {
    const socket: Socket
    const serverToken: uint32
    var username: string
    var state: S.UserState
    var clientToken: uint32
    var room: Option<string>
    ghost var sent: seq<Packet>  // what the bytes written to the socket stand for

    ghost predicate Ok()
      reads this, socket
    {
      && Clean(username) && |username| < MAX_NAME
      && |socket.writes| == |sent|
      && forall k :: 0 <= k < |sent| ==> Sendable(sent[k]) && socket.writes[k] == Wire(sent[k])
    }

    ghost function Record(): S.UserRecord
      reads this, socket
    {
      S.UserRecord(username, state, clientToken, serverToken, room, socket.open, sent)
    }

    /** create_user */
    constructor (socket: Socket, serverToken: uint32)
      requires socket.open && socket.writes == []
      ensures this.socket == socket && Ok()
      ensures Record() == S.UserRecord("Not logged in", S.UserState.Connected, 0, serverToken, None, true, [])
    {
      this.socket, this.serverToken := socket, serverToken;
      username, state, clientToken, room := "Not logged in", S.UserState.Connected, 0, None;
      sent := [];
    }

    /** set_username: strncpy of MAX_NAME - 1 characters. */
    method SetUsername(name: string)
      modifies this`username
      ensures username == Truncate(name, MAX_NAME)
    {
      username := if |name| < MAX_NAME then name else name[..MAX_NAME - 1];
    }

    /** send_buffer to this user's socket. */
    method Send(b: PacketBuffer, ghost p: Packet)
      requires Ok() && b.Valid() && Sendable(p) && b.Contents() == Wire(p)
      modifies this`sent, socket`writes
      ensures Ok()
      ensures Record() == old(Record()).(sent := if socket.open then old(sent) + [p] else old(sent))
    {
      hide Wire, Sendable;
      socket.Write(b.data[..b.Length()]);
      if socket.open {
        sent := sent + [p];
      }
    }
  }

  // ---- room.c ----

  class Room {
    const name: string
    var users: Assoc.Table<User>

    /** room_create */
    constructor (name: string)
      ensures this.name == Truncate(name, S.MAX_ROOM_LENGTH) && users == []
    {
      this.name := if |name| < S.MAX_ROOM_LENGTH then name else name[..S.MAX_ROOM_LENGTH - 1];
      users := [];
    }

    /** room_add_user: the name now stands for this user, and no other name is affected. */
    method AddUser(user: User)
      modifies this`users
      ensures users == Assoc.Add(old(users), user.username, user)
      ensures old(Assoc.Unique(users)) ==>
                Assoc.Unique(users) && Assoc.Find(users, user.username) == Some(user) &&
                forall name :: name != user.username ==> Assoc.Find(users, name) == Assoc.Find(old(users), name)
    {
      hide Assoc.Add, Assoc.Find;
      if Assoc.Unique(users) {
        Assoc.AddRefinesMapUpdate(users, user.username, user, user.username);
        forall name | name != user.username
          ensures Assoc.Find(Assoc.Add(users, user.username, user), name) == Assoc.Find(users, name)
        {
          Assoc.AddRefinesMapUpdate(users, user.username, user, name);
        }
      }
      users := Assoc.Add(users, user.username, user);
    }

    /** room_remove_user: the name stands for nobody, and no other name is affected. */
    method RemoveUser(user: User)
      modifies this`users
      ensures users == Assoc.Remove(old(users), user.username)
      ensures old(Assoc.Unique(users)) ==>
                Assoc.Unique(users) && Assoc.Find(users, user.username) == None &&
                forall name :: name != user.username ==> Assoc.Find(users, name) == Assoc.Find(old(users), name)
    {
      hide Assoc.Remove, Assoc.Find;
      if Assoc.Unique(users) {
        Assoc.RemoveKeepsUnique(users, user.username);
        forall name: string
          ensures Assoc.Find(Assoc.Remove(users, user.username), name) ==
                  if name == user.username then None else Assoc.Find(users, name)
        {
          Assoc.FindRemoved(users, user.username, name);
        }
      }
      users := Assoc.Remove(users, user.username);
    }
  }

  // ---- collections of objects as collections of connection numbers ----

  function Id(u: User): nat {
    u.socket.fd
  }

  function Ids(us: seq<User>): (r: seq<nat>)
    ensures |r| == |us|
    ensures forall i :: 0 <= i < |us| ==> r[i] == Id(us[i])
  {
    seq(|us|, i requires 0 <= i < |us| => Id(us[i]))
  }

  function TableIds(t: Assoc.Table<User>): (r: Assoc.Table<nat>)
    ensures |r| == |t|
    ensures forall i :: 0 <= i < |t| ==> r[i] == (t[i].0, Id(t[i].1))
  {
    seq(|t|, i requires 0 <= i < |t| => (t[i].0, Id(t[i].1)))
  }

  lemma SameIndex<V, W>(t: Assoc.Table<V>, r: Assoc.Table<W>, k: string)
    requires |t| == |r| && forall i :: 0 <= i < |t| ==> t[i].0 == r[i].0
    ensures Assoc.IndexOf(t, k) == Assoc.IndexOf(r, k)
  {
    Assoc.IndexIs(r, k, Assoc.IndexOf(t, k));
  }

  lemma TableIdsCommute(t: Assoc.Table<User>, k: string, u: User)
    ensures Assoc.Has(TableIds(t), k) <==> Assoc.Has(t, k)
    ensures Assoc.Has(t, k) ==> Assoc.Find(TableIds(t), k) == Some(Id(Assoc.Find(t, k).value))
    ensures TableIds(Assoc.Add(t, k, u)) == Assoc.Add(TableIds(t), k, Id(u))
    ensures TableIds(Assoc.Remove(t, k)) == Assoc.Remove(TableIds(t), k)
    ensures Assoc.Values(TableIds(t)) == Ids(Assoc.Values(t))
  {
    SameIndex(t, TableIds(t), k);
  }

  // ---- server.c ----

  class Server {
    ghost var all: seq<User>  // every user ever accepted; number i is connection i
    var newUsers: seq<User>
    var oldUsers: Assoc.Table<User>
    var rooms: Assoc.Table<Room>
    var crashed: bool         // a failed assertion or exit has ended the process
    var accounts: Accounts.AccountStore

    ghost function Users(): set<User>
      reads this
    {
      set u | u in all
    }

    ghost function Sockets(): set<Socket>
      reads this
    {
      set u | u in all :: u.socket
    }

    ghost function Rooms(): set<Room>
      reads this
    {
      set i | 0 <= i < |rooms| :: rooms[i].1
    }

    ghost predicate Shape()
      reads this, Rooms()
    {
      && (forall i :: 0 <= i < |all| ==> Id(all[i]) == i)
      && (forall i :: 0 <= i < |newUsers| ==> newUsers[i] in all)
      && (forall i :: 0 <= i < |oldUsers| ==> oldUsers[i].1 in all)
      && (forall i, j :: 0 <= i < j < |rooms| ==> rooms[i].1 != rooms[j].1)
      && (forall i :: 0 <= i < |rooms| ==> InAll(rooms[i].1.users))
    }

    ghost predicate InAll(t: Assoc.Table<User>)
      reads this
    {
      forall i :: 0 <= i < |t| ==> t[i].1 in all
    }

    ghost predicate Valid()
      reads this, Users(), Sockets(), Rooms()
    {
      Shape() && forall i :: 0 <= i < |all| ==> all[i].Ok()
    }

    ghost function Records(): (r: seq<S.UserRecord>)
      reads this, Users(), Sockets()
      ensures |r| == |all|
      ensures forall i :: 0 <= i < |all| ==> r[i] == all[i].Record()
    {
      seq(|all|, i requires 0 <= i < |all| reads this, Users(), Sockets() => all[i].Record())
    }

    ghost function RoomRecords(): (r: Assoc.Table<S.RoomRecord>)
      reads this, Rooms()
      ensures |r| == |rooms|
      ensures forall i :: 0 <= i < |rooms| ==>
                r[i] == (rooms[i].0, S.RoomRecord(rooms[i].1.name, TableIds(rooms[i].1.users)))
    {
      seq(|rooms|, i requires 0 <= i < |rooms| reads this, Rooms() =>
        (rooms[i].0, S.RoomRecord(rooms[i].1.name, TableIds(rooms[i].1.users))))
    }

    /** The state of the machine in ServerSpec that this heap stands for. */
    ghost function Abs(): S.State
      reads this, Users(), Sockets(), Rooms(), accounts
    {
      S.State(Records(), Ids(newUsers), TableIds(oldUsers), RoomRecords(), accounts.contents, accounts.sha1,
              accounts.descriptors, accounts.streams, crashed)
    }

    /** How many connections use a descriptor. */
    function Connections(): nat
      reads this
    {
      |newUsers| + |oldUsers|
    }

    lemma DescriptorsInUse()
      requires Valid()
      ensures S.Exhausted(Abs()) <==> Connections() + accounts.streams >= accounts.descriptors
    {
    }

    /** main */
    constructor (accounts: Accounts.AccountStore)
      requires accounts.streams == 0
      ensures Valid() && this.accounts == accounts && all == [] && rooms == []
      ensures S.Initial(Abs()) && Abs().file == accounts.contents && Abs().sha1 == accounts.sha1
      ensures Abs().descriptors == accounts.descriptors
      ensures Accounts.WellFormed(accounts.contents) ==> Guarantees.Reachable(Abs()) && Invariants.Inv(Abs())
    {
      hide Invariants.Inv, Guarantees.Reachable, Accounts.WellFormed;
      all, newUsers, oldUsers, rooms, crashed := [], [], [], [], false;
      this.accounts := accounts;
      new;
      if Accounts.WellFormed(accounts.contents) {
        Rounds.InitialIsReachable(Abs());
      }
    }

    // ---- one object changed ----

    /** Only this user's fields and its socket changed. */
    twostate lemma UserChanged(u: User)
      requires old(Valid()) && u in all && u.Ok()
      requires all == old(all) && newUsers == old(newUsers) && oldUsers == old(oldUsers) && rooms == old(rooms)
      requires crashed == old(crashed) && accounts == old(accounts) && unchanged(accounts)
      requires forall v :: v in all && v != u ==> v.Record() == old(v.Record()) && (old(v.Ok()) ==> v.Ok())
      requires forall r :: r in Rooms() ==> r.users == old(r.users)
      ensures Valid() && Abs() == S.SetPerson(old(Abs()), Id(u), u.Record())
    {
      assert all[Id(u)] == u;
      forall i | 0 <= i < |all|
        ensures all[i].Ok() && (i != Id(u) ==> Records()[i] == old(Records())[i])
      {
      }
      assert Records() == old(Records())[Id(u) := u.Record()];
      assert RoomRecords() == old(RoomRecords());
    }

    /** Reading a packet, or allocating elsewhere, changes nothing here. */
    twostate lemma Untouched()
      requires old(Valid()) && unchanged(this) && unchanged(accounts)
      requires forall v :: v in all ==> unchanged(v) && unchanged(v.socket)
      requires forall r :: r in Rooms() ==> r.users == old(r.users)
      ensures Valid() && Abs() == old(Abs())
    {
      assert Records() == old(Records());
      assert RoomRecords() == old(RoomRecords());
    }

    lemma PersonIs(u: User)
      requires Valid() && u in all
      ensures S.Person(Abs(), Id(u)) == u.Record() && Id(u) < |all| && all[Id(u)] == u
      ensures Clean(u.username) && |u.username| < MAX_NAME
    {
    }

    // ---- sending ----

    /** Write a finished packet to one user. */
    method SendBuffer(u: User, b: PacketBuffer, ghost p: Packet)
      requires Valid() && u in all && b.Valid() && Sendable(p) && b.Contents() == Wire(p)
      modifies u`sent, u.socket`writes
      ensures Valid() && Abs() == S.Send(old(Abs()), Id(u), p)
    {
      hide Wire, Sendable;
      PersonIs(u);
      u.Send(b, p);
      UserChanged(u);
      assert old(Records())[Id(u)] == old(u.Record());
    }

    method SendPacket(u: User, p: Packet)
      requires Valid() && u in all && Sendable(p)
      modifies u`sent, u.socket`writes
      ensures Valid() && Abs() == S.Send(old(Abs()), Id(u), p)
    {
      hide Wire, Sendable, S.Send;
      var b := Building.Build(p);
      Untouched();
      SendBuffer(u, b, p);
    }

    /** send_error */
    method SendError(u: User, m: S.Misuse)
      requires Valid() && u in all
      modifies u`sent, u.socket`writes
      ensures Valid() && Abs() == S.Complain(old(Abs()), Id(u), m)
    {
      hide Wire, Valid, Abs, S.Send, S.MisuseText;
      SendPacket(u, ErrorReport(S.MisuseText(m)));
    }

    lemma SayableIsSendable(kind: EventKind, name: string, text: string)
      requires Sayable(name, text)
      ensures Sendable(ChatEvent(kind, name, text))
    {
    }

    ghost predicate Sayable(name: string, text: string) {
      Clean(name) && |name| < MAX_NAME && Clean(text) && |text| <= MAX_PACKET
    }

    /** send_chat */
    method SendChat(kind: EventKind, to: string, from: string, text: string) returns (ok: bool)
      requires Valid() && Sayable(from, text)
      modifies Users()`sent, Sockets()`writes
      ensures Valid() && Abs() == S.Chat(old(Abs()), kind, to, from, text)
      ensures ok <==> Assoc.Has(oldUsers, to)
    {
      hide Wire, S.Send, Valid, Abs, Assoc.Find, Assoc.Has;
      OldUserIs(to);
      var user := Assoc.Find(oldUsers, to);
      if user.None? {
        return false;
      }
      SendPacket(user.value, ChatEvent(kind, from, text));
      return true;
    }

    /** Looking a name up gives the object that stands for the number found by the machine. */
    lemma OldUserIs(name: string)
      requires Valid()
      ensures Assoc.Find(oldUsers, name).Some? <==> Assoc.Has(oldUsers, name)
      ensures Assoc.Has(Abs().oldUsers, name) <==> Assoc.Has(oldUsers, name)
      ensures Assoc.Find(Abs().oldUsers, name) ==
              if Assoc.Has(oldUsers, name) then Some(Id(Assoc.Find(oldUsers, name).value)) else None
      ensures Assoc.Has(oldUsers, name) ==>
                Assoc.Find(oldUsers, name).value in all && Assoc.Find(oldUsers, name).value.Ok()
    {
      SameIndex(oldUsers, TableIds(oldUsers), name);
      if Assoc.Has(oldUsers, name) {
        var u := oldUsers[Assoc.IndexOf(oldUsers, name)].1;
        assert u in all;
        assert all[Id(u)] == u;
      }
    }

    method Tell(u: User, kind: EventKind, text: string)
      requires Valid() && u in all && Clean(text) && |text| <= MAX_PACKET
      modifies Users()`sent, Sockets()`writes
      ensures Valid() && Abs() == S.Tell(old(Abs()), Id(u), kind, text)
    {
      hide S.Chat, Valid, Abs;
      PersonIs(u);
      var _ := SendChat(kind, u.username, u.username, text);
    }

    // ---- rooms ----

    ghost predicate IsRoom(key: string, room: Room)
      reads this
    {
      Assoc.Find(rooms, key) == Some(room)
    }

    /** The table of a room object is the table that the machine has under its key. */
    lemma RoomIs(key: string, room: Room)
      requires Valid() && IsRoom(key, room)
      ensures room in Rooms() && InAll(room.users)
      ensures Assoc.Has(Abs().rooms, key) && S.Members(Abs(), key) == TableIds(room.users)
      ensures S.Members(Abs(), key) == Assoc.Find(Abs().rooms, key).value.users
    {
      SameIndex(rooms, RoomRecords(), key);
      assert rooms[Assoc.IndexOf(rooms, key)].1 == room;
    }

    lemma NoRoomIs(key: string)
      requires Valid()
      ensures Assoc.Has(Abs().rooms, key) <==> Assoc.Has(rooms, key)
    {
      SameIndex(rooms, RoomRecords(), key);
    }

    /** room_message */
    method RoomMessage(ghost key: string, room: Room, kind: EventKind, from: string, text: string)
      requires Valid() && IsRoom(key, room) && Sayable(from, text)
      modifies Users()`sent, Sockets()`writes
      ensures Valid() && Abs() == S.RoomMessage(old(Abs()), key, kind, from, text)
    {
      hide Wire, S.Send, Valid, Abs, S.Members, Sendable;
      var users := Assoc.Values(room.users);
      ghost var p := ChatEvent(kind, from, text);
      ghost var ids := Ids(users);
      RoomIs(key, room);
      assert Assoc.Values(TableIds(room.users)) == ids;
      SayableIsSendable(kind, from, text);
      var b := Building.Build(ChatEvent(kind, from, text));
      var i := 0;
      while i < |users|
        invariant 0 <= i <= |users| && Valid() && b.Valid() && b.Contents() == Wire(p)
        invariant S.SendAll(Abs(), ids[i..], p) == S.SendAll(old(Abs()), ids, p)
      {
        assert users[i] == room.users[i].1;
        assert ids[i..][0] == Id(users[i]) && ids[i..][1..] == ids[i + 1..];
        SendBuffer(users[i], b, p);
        i := i + 1;
      }
    }

    /** room_send_users_in_channel */
    method SendUsersInChannel(ghost key: string, room: Room, u: User)
      requires Valid() && IsRoom(key, room) && u in all
      modifies Users()`sent, Sockets()`writes
      ensures Valid() && Abs() == S.SendUsersInChannel(old(Abs()), Id(u), Assoc.Values(S.Members(old(Abs()), key)))
    {
      hide Wire, S.Send, Valid, Abs, S.Members;
      var users := Assoc.Values(room.users);
      ghost var ids := Ids(users);
      RoomIs(key, room);
      assert Assoc.Values(TableIds(room.users)) == ids;
      var i := 0;
      while i < |users|
        invariant 0 <= i <= |users| && Valid()
        invariant S.SendUsersInChannel(Abs(), Id(u), ids[i..]) == S.SendUsersInChannel(old(Abs()), Id(u), ids)
      {
        var member := users[i];
        assert member == room.users[i].1;
        assert ids[i..][0] == Id(member) && ids[i..][1..] == ids[i + 1..];
        PersonIs(member);
        SendPacket(u, ChatEvent(UserInChannel, member.username, ""));
        i := i + 1;
      }
    }

    /** Only this room's table of users changed. */
    twostate lemma RoomChanged(room: Room)
      requires old(Valid()) && room in old(Rooms()) && InAll(room.users)
      requires all == old(all) && newUsers == old(newUsers) && oldUsers == old(oldUsers) && rooms == old(rooms)
      requires crashed == old(crashed) && accounts == old(accounts) && unchanged(accounts)
      requires forall v :: v in all ==> unchanged(v) && unchanged(v.socket)
      requires forall r :: r in Rooms() && r != room ==> r.users == old(r.users)
      ensures Valid()
      ensures forall key :: IsRoom(key, room) ==> Abs() == S.SetMembers(old(Abs()), key, TableIds(room.users))
    {
      hide Wire, Sendable;
      forall i | 0 <= i < |rooms|
        ensures InAll(rooms[i].1.users) && (rooms[i].1 != room ==> RoomRecords()[i] == old(RoomRecords())[i])
      {
        assert rooms[i].1 in Rooms();
      }
      assert Records() == old(Records());
      forall key | IsRoom(key, room)
        ensures Abs() == S.SetMembers(old(Abs()), key, TableIds(room.users))
      {
        var k := Assoc.IndexOf(rooms, key);
        SameIndex(rooms, old(RoomRecords()), key);
        assert rooms[k].1 == room;
        assert RoomRecords() == old(RoomRecords())[k := (key, S.RoomRecord(room.name, TableIds(room.users)))];
      }
    }

    /** room_add_user and room_remove_user, on the machine's state. */
    method AddToRoom(ghost key: string, room: Room, u: User)
      requires Valid() && IsRoom(key, room) && u in all
      modifies room`users
      ensures Valid() && IsRoom(key, room)
      ensures Abs() == S.SetMembers(old(Abs()), key, Assoc.Add(S.Members(old(Abs()), key), u.username, Id(u)))
    {
      hide Wire, Valid, Abs, S.Members, S.SetMembers, Assoc.Add;
      RoomIs(key, room);
      TableIdsCommute(room.users, u.username, u);
      StillInAll(room.users, u.username, u);
      room.AddUser(u);
      RoomChanged(room);
    }

    method RemoveFromRoom(ghost key: string, room: Room, u: User)
      requires Valid() && IsRoom(key, room) && u in all
      modifies room`users
      ensures Valid() && IsRoom(key, room)
      ensures Abs() == S.SetMembers(old(Abs()), key, Assoc.Remove(S.Members(old(Abs()), key), u.username))
    {
      hide Wire, Valid, Abs, S.Members, S.SetMembers, Assoc.Remove;
      RoomIs(key, room);
      TableIdsCommute(room.users, u.username, u);
      StillInAll(room.users, u.username, u);
      room.RemoveUser(u);
      RoomChanged(room);
    }

    lemma StillInAll(t: Assoc.Table<User>, name: string, u: User)
      requires InAll(t) && u in all
      ensures InAll(Assoc.Add(t, name, u)) && InAll(Assoc.Remove(t, name))
    {
      RemainingInAll(t, name);
    }

    lemma RemainingInAll(t: Assoc.Table<User>, name: string)
      requires InAll(t)
      ensures InAll(Assoc.Remove(t, name))
    {
      var r := Assoc.Remove(t, name);
      forall i | 0 <= i < |r|
        ensures r[i].1 in all
      {
        assert r[i] == t[if i < Assoc.IndexOf(t, name) then i else i + 1];
      }
    }

    /** set_user_state and set_user_room */
    method SetStateAndRoom(u: User, state: S.UserState, room: Option<string>)
      requires Valid() && u in all
      modifies u`state, u`room
      ensures Valid()
      ensures Abs() == S.SetPerson(old(Abs()), Id(u), S.Person(old(Abs()), Id(u)).(state := state, room := room))
    {
      hide Wire, Sendable;
      PersonIs(u);
      u.state, u.room := state, room;
      UserChanged(u);
    }

    /** The part of process_command_join that leaves the old room. */
    method LeaveRoom(u: User)
      requires Valid() && u in all
      modifies Users()`sent, Sockets()`writes, Rooms()`users
      ensures Valid() && Abs() == S.LeaveRoom(old(Abs()), Id(u))
    {
      hide S.SetMembers, S.RoomMessage, Assoc.Find, Assoc.Has;
      PersonIs(u);
      if u.room.Some? {
        NoRoomIs(u.room.value);
        FoundOrNot(u.room.value);
        var room := Assoc.Find(rooms, u.room.value);
        if room.Some? {
          RoomIs(u.room.value, room.value);
          assert u.Ok();
          RemoveFromRoom(u.room.value, room.value, u);
          RoomMessage(u.room.value, room.value, UserLeaveChannel, u.username, "");
        }
      }
    }

    lemma FoundOrNot(key: string)
      ensures Assoc.Find(rooms, key).Some? <==> Assoc.Has(rooms, key)
    {
    }

    /** The part of process_command_join that finds the room or creates it. */
    method OpenRoom(u: User, param: string) returns (room: Room)
      requires Valid() && u in all
      modifies this`rooms, Users()`sent, Sockets()`writes
      ensures Valid() && IsRoom(param, room) && Abs() == S.OpenRoom(old(Abs()), Id(u), param)
      ensures forall r :: r in Rooms() ==> r in old(Rooms()) || fresh(r)
    {
      hide S.Tell, Valid, Abs, Assoc.Add, Assoc.Has;
      NoRoomIs(param);
      FoundOrNot(param);
      var found := Assoc.Find(rooms, param);
      if found.Some? {
        return found.value;
      }
      Tell(u, Info, S.CreatingText());
      room := CreateRoom(param);
    }

    /** room_create and table_add. */
    method CreateRoom(param: string) returns (room: Room)
      requires Valid() && !Assoc.Has(rooms, param)
      modifies this`rooms
      ensures Valid() && IsRoom(param, room)
      ensures Abs() == old(Abs()).(rooms := Assoc.Add(old(Abs()).rooms, param, S.RoomCreate(param)))
      ensures forall r :: r in Rooms() ==> r in old(Rooms()) || fresh(r)
    {
      hide Wire, Sendable, Assoc.Find, Assoc.Has, Assoc.Add;
      ghost var before, records := rooms, RoomRecords();
      room := new Room(param);
      OldRoomsAreOthers();
      rooms := rooms + [(param, room)];
      NewRoom(before, param, room, records);
      RoomAdded();
    }

    lemma OldRoomsAreOthers()
      ensures forall i :: 0 <= i < |rooms| ==> rooms[i].1 in Rooms()
    {
    }

    /** Only a room without users was added. */
    twostate lemma RoomAdded()
      requires old(Valid()) && |rooms| == |old(rooms)| + 1 && rooms[..|old(rooms)|] == old(rooms)
      requires rooms[|old(rooms)|].1.users == [] && rooms[|old(rooms)|].1 !in old(Rooms())
      requires all == old(all) && newUsers == old(newUsers) && oldUsers == old(oldUsers)
      requires crashed == old(crashed) && accounts == old(accounts) && unchanged(accounts)
      requires forall v :: v in all ==> unchanged(v) && unchanged(v.socket)
      requires forall r :: r in old(Rooms()) ==> r.users == old(r.users)
      ensures Valid() && Abs() == old(Abs()).(rooms := RoomRecords())
    {
      hide Wire, Sendable;
      assert Records() == old(Records());
      forall i | 0 <= i < |old(rooms)|
        ensures rooms[i].1 == old(rooms)[i].1 && rooms[i].1 in old(Rooms())
      {
        assert rooms[i] == rooms[..|old(rooms)|][i];
      }
    }

    lemma NewRoom(before: Assoc.Table<Room>, param: string, room: Room, records: Assoc.Table<S.RoomRecord>)
      requires !Assoc.Has(before, param) && rooms == before + [(param, room)]
      requires |records| == |before|
      requires forall i :: 0 <= i < |before| ==>
        records[i] == (before[i].0, S.RoomRecord(before[i].1.name, TableIds(before[i].1.users)))
      requires room.users == [] && room.name == Truncate(param, S.MAX_ROOM_LENGTH)
      ensures IsRoom(param, room) && RoomRecords() == Assoc.Add(records, param, S.RoomCreate(param))
    {
      Assoc.IndexIs(rooms, param, |before|);
      SameIndex(before, records, param);
      assert TableIds(room.users) == [];
    }

    /** process_command_join */
    method ProcessCommandJoin(u: User, param: string)
      requires Valid() && u in all && Clean(param)
      modifies this`rooms, Users(), Sockets()`writes, Rooms()`users
      ensures Valid() && Abs() == S.Join(old(Abs()), Id(u), param)
      ensures forall r :: r in Rooms() ==> r in old(Rooms()) || fresh(r)
    {
      hide S.LeaveRoom, S.GoNowhere, S.EnterRoom, S.Tell;
      if SameIgnoringCase(param, "backstage") {
        Tell(u, Error, S.RestrictedText());
      } else if |param| > 0 && |param| < S.MIN_ROOM_LENGTH {
        assert false;  // no string is shorter than one character and not empty
      } else if |param| >= S.MAX_ROOM_LENGTH {
        Tell(u, Error, S.TooLongText());
      } else {
        LeaveRoom(u);
        if |param| == 0 {
          GoNowhere(u);
        } else {
          EnterRoom(u, param);
        }
      }
    }

    method GoNowhere(u: User)
      requires Valid() && u in all
      modifies Users(), Sockets()`writes
      ensures Valid() && Abs() == S.GoNowhere(old(Abs()), Id(u))
    {
      hide S.Tell;
      Tell(u, Info, S.LeavingText());
      Tell(u, Channel, "");
      SetStateAndRoom(u, S.NotInChannel, None);
    }

    method EnterRoom(u: User, param: string)
      requires Valid() && u in all && Clean(param) && |param| < S.MAX_ROOM_LENGTH
      modifies this`rooms, Users(), Sockets()`writes, Rooms()`users
      ensures Valid() && Abs() == S.EnterRoom(old(Abs()), Id(u), param)
      ensures forall r :: r in Rooms() ==> r in old(Rooms()) || fresh(r)
    {
      hide S.Tell, S.OpenRoom, S.SendUsersInChannel, S.SetMembers, S.RoomMessage, S.Members, Assoc.Find, Valid, Abs;
      var room := OpenRoom(u, param);
      Tell(u, Channel, param);
      SendUsersInChannel(param, room, u);
      SetStateAndRoom(u, S.JoinedChannel, Some(param));
      PersonIs(u);
      RoomIs(param, room);
      AddToRoom(param, room, u);
      PersonIs(u);
      RoomMessage(param, room, UserJoinChannel, u.username, "");
    }

    // ---- the other commands ----

    /** process_command_w */
    method ProcessCommandW(u: User, param: string)
      requires Valid() && u in all && Clean(param) && |param| <= MAX_PACKET
      modifies Users()`sent, Sockets()`writes
      ensures Valid() && Abs() == S.Whisper(old(Abs()), Id(u), param)
    {
      hide S.Tell, S.Chat, Valid, Abs, Assoc.Find, Assoc.Has;
      PersonIs(u);
      var k := IndexOfChar(param, ' ');
      if k == |param| {
        Tell(u, Error, S.WhisperUsage());
        return;
      }
      OldUserIs(param[..k]);
      var to := Assoc.Find(oldUsers, param[..k]);
      if to.None? {
        Tell(u, Error, S.NotLoggedOnText());
      } else {
        PersonIs(to.value);
        var _ := SendChat(WhisperFrom, to.value.username, u.username, param[k + 1..]);
        var _ := SendChat(WhisperTo, u.username, to.value.username, param[k + 1..]);
      }
    }

    /** The replies of /help, /finger, /who and /rooms. */
    method SendListing(u: User, lines: seq<S.Notice>)
      requires Valid() && u in all
      modifies Users()`sent, Sockets()`writes
      ensures Valid() && Abs() == S.Listing(old(Abs()), Id(u), lines)
    {
      hide S.Tell, Valid, Abs;
      var i := 0;
      while i < |lines|
        invariant 0 <= i <= |lines| && Valid()
        invariant S.Listing(Abs(), Id(u), lines[i..]) == S.Listing(old(Abs()), Id(u), lines)
      {
        assert lines[i..][0] == lines[i] && lines[i..][1..] == lines[i + 1..];
        Tell(u, if lines[i].kind.Error? then Error else Info, lines[i].text);
        i := i + 1;
      }
    }

    method Crash()
      requires Valid()
      modifies this`crashed
      ensures Valid() && Abs() == S.Crash(old(Abs()))
    {
      hide Wire, Sendable;
      ghost var users, records := Records(), RoomRecords();
      crashed := true;
      assert Records() == users && RoomRecords() == records;
    }

    /** The talk branch of process_SID_CHATCOMMAND. */
    method Say(u: User, text: string)
      requires Valid() && u in all && Clean(text) && |text| <= MAX_PACKET
      modifies this`crashed, Users()`sent, Sockets()`writes
      ensures Valid() && Abs() == S.Say(old(Abs()), Id(u), text)
    {
      hide S.Tell, S.RoomMessage, Valid, Abs, Assoc.Find, Assoc.Has;
      PersonIs(u);
      if u.room.None? {
        Tell(u, Error, S.NotInRoomText());
      } else {
        NoRoomIs(u.room.value);
        FoundOrNot(u.room.value);
        var room := Assoc.Find(rooms, u.room.value);
        if room.None? {
          Crash();
        } else {
          RoomMessage(u.room.value, room.value, Talk, u.username, text);
        }
      }
    }

    /** process_SID_CHATCOMMAND once the string is read. */
    method ProcessMessage(u: User, text: string, lines: seq<S.Notice>)
      requires Valid() && u in all && Clean(text) && |text| <= MAX_PACKET
      modifies this`rooms, this`crashed, Users(), Sockets()`writes, Rooms()`users
      ensures Valid() && Abs() == S.Message(old(Abs()), Id(u), text, lines)
      ensures forall r :: r in Rooms() ==> r in old(Rooms()) || fresh(r)
    {
      hide S.Say, S.Join, S.Listing, S.Whisper, S.Tell, Valid, Abs, S.Named;
      if text != "" && text[0] == '/' {
        var line := text[1..];
        var k := IndexOfChar(line, ' ');
        var command, param := line[..k], if k < |line| then line[k + 1..] else "";
        if S.Named(command, S.JOIN_NAMES) {
          ProcessCommandJoin(u, param);
        } else if S.Named(command, S.HELP_NAMES) {
          SendListing(u, lines);
        } else if S.Named(command, S.FINGER_NAMES) {
          SendListing(u, lines);
        } else if S.Named(command, S.WHISPER_NAMES) {
          ProcessCommandW(u, param);
        } else if S.Named(command, S.WHO_NAMES) {
          SendListing(u, lines);
        } else if S.Named(command, S.ROOMS_NAMES) {
          SendListing(u, lines);
        } else {
          Tell(u, Error, S.UnknownCommandText());
        }
      } else {
        Say(u, text);
      }
    }

    // ---- packet handlers ----

    /** A packet as read_buffer leaves it. */
    ghost predicate Fresh(packet: PacketBuffer)
      reads packet, packet.data
    {
      packet.Valid() && packet.position == 4 && |packet.Contents()| <= MAX_PACKET
    }

    method ProcessChatCommand(u: User, packet: PacketBuffer, lines: seq<S.Notice>)
      requires Valid() && u in all && Fresh(packet)
      modifies this`rooms, this`crashed, Users(), Sockets()`writes, Rooms()`users, packet`position
      ensures Valid() && Abs() == S.ChatCommandHandler(old(Abs()), Id(u), old(packet.Contents()), lines)
      ensures forall r :: r in Rooms() ==> r in old(Rooms()) || fresh(r)
    {
      hide S.Message, S.Complain, Valid, Abs;
      PersonIs(u);
      if u.state != S.JoinedChannel && u.state != S.NotInChannel {
        SendError(u, S.WrongState(S.ChatRequest));
      } else {
        var ok, text := packet.ReadString(0);
        Untouched();
        if !ok {
          Crash();
        } else {
          ProcessMessage(u, text, lines);
        }
      }
    }

    /** process_SID_CLIENT_INFORMATION. The token is stored after the last read: where a later
        read ends the program, nobody can see the difference. */
    method ProcessClientInformation(u: User, packet: PacketBuffer)
      requires Valid() && u in all && Fresh(packet)
      modifies this`crashed, u, u.socket`writes, packet`position
      ensures Valid() && Abs() == S.ClientInformationHandler(old(Abs()), Id(u), old(packet.Contents()))
    {
      hide S.Complain, S.Send, Valid, Abs, ParseClientInformation;
      PersonIs(u);
      if u.state != S.UserState.Connected {
        SendError(u, S.WrongState(S.InformationRequest));
      } else {
        var ok, token := ReadClientInformation(packet);
        Untouched();
        if !ok {
          Crash();
        } else {
          SetTokenAndState(u, token);
          SendPacket(u, ServerInformation(u.serverToken));
        }
      }
    }

    method ReadClientInformation(packet: PacketBuffer) returns (ok: bool, token: uint32)
      requires Fresh(packet)
      modifies packet`position
      ensures ParseClientInformation(old(packet.Contents())) == if ok then Some(token) else None
    {
      ok, token := packet.ReadNextInt32();
      if !ok { return; }
      var time, version;
      ok, time := packet.ReadNextInt32();
      if !ok { return; }
      ok, version := packet.ReadNextInt32();
      if !ok { return; }
      var country, system;
      ok, country := packet.ReadString(0);
      if !ok { return; }
      ok, system := packet.ReadString(0);
    }

    method SetTokenAndState(u: User, token: uint32)
      requires Valid() && u in all
      modifies u`clientToken, u`state
      ensures Valid()
      ensures Abs() == S.SetPerson(old(Abs()), Id(u),
                         S.Person(old(Abs()), Id(u)).(clientToken := token, state := S.SentClientInformation))
    {
      hide Wire, Sendable;
      PersonIs(u);
      u.clientToken, u.state := token, S.SentClientInformation;
      UserChanged(u);
    }

    method ReadCredentials(packet: PacketBuffer) returns (ok: bool, digest: Digest, name: string)
      requires Fresh(packet)
      modifies packet`position
      ensures ParseCredentials(old(packet.Contents())) == if ok then Some((digest, name)) else None
    {
      digest, name := seq(HASH_LENGTH, i => 0), "";
      var bytes: seq<byte>;
      ok, bytes := packet.ReadNextBytes(HASH_LENGTH);
      if !ok { return; }
      digest := bytes;
      ok, name := packet.ReadString(1);
    }

    /** process_SID_LOGIN */
    method ProcessLogin(u: User, packet: PacketBuffer)
      requires Valid() && u in all && Fresh(packet)
      modifies this`crashed, this`newUsers, this`oldUsers, accounts`streams, u, u.socket`writes, packet`position
      ensures Valid() && Abs() == S.LoginHandler(old(Abs()), Id(u), old(packet.Contents()))
    {
      hide S.Complain, S.Send, Valid, Abs, ParseCredentials, S.Promote, Assoc.Find, Assoc.Has, S.Crash;
      PersonIs(u);
      if u.state != S.SentClientInformation {
        SendError(u, S.WrongState(S.LoginRequest));
        return;
      }
      var ok, digest, name := ReadCredentials(packet);
      Untouched();
      if !ok {
        Crash();
        return;
      }
      var status;
      ok, status := FindStatus(u, digest, name);
      if !ok {
        Crash();
        return;
      }
      CredentialsAreClean(old(packet.Contents()));
      SendPacket(u, LoginResponse(status, name));
      if status.LoginSuccess? {
        Promote(u, name);
      }
    }

    lemma CredentialsAreClean(b: seq<byte>)
      requires ParseCredentials(b).Some? && |b| <= MAX_PACKET
      ensures Clean(ParseCredentials(b).value.1) && |ParseCredentials(b).value.1| <= MAX_PACKET
    {
    }

    /** Whether the name is in use, and if not what the account file says. */
    method FindStatus(u: User, digest: Digest, name: string) returns (ok: bool, status: Accounts.LoginStatus)
      requires Valid() && u in all
      modifies accounts`streams
      ensures Valid() && Abs() == old(Abs())
      ensures S.LoginStatus(old(Abs()), old(u.Record()), digest, name) == if ok then Some(status) else None
    {
      hide Accounts.Login, Assoc.Find, Assoc.Has, Wire, Sendable;
      ghost var users, records := Records(), RoomRecords();
      OldUserIs(name);
      DescriptorsInUse();
      if Assoc.Find(oldUsers, name).Some? {
        return true, Accounts.AccountInUse;
      }
      ok, status := accounts.AccountLogin(name, digest, u.clientToken, u.serverToken, Connections());
      assert Records() == users && RoomRecords() == records;
    }

    /** The bookkeeping of a successful login: set_username, set_user_state, list_remove_value and
        table_add. */
    method Promote(u: User, name: string)
      requires Valid() && u in all && Clean(name)
      modifies this`newUsers, this`oldUsers, u`username, u`state
      ensures Valid() && Abs() == S.Promote(old(Abs()), Id(u), name)
    {
      hide Wire, Sendable, Valid, Abs, S.SetPerson, Assoc.Add, LinkedLists.WithoutFirst;
      PersonIs(u);
      SetNameAndState(u, name);
      PersonIs(u);
      MoveToOldUsers(u);
    }

    /** list_remove_value and table_add. */
    method MoveToOldUsers(u: User)
      requires Valid() && u in all
      modifies this`newUsers, this`oldUsers
      ensures Valid()
      ensures Abs() == old(Abs()).(newUsers := LinkedLists.WithoutFirst(old(Abs()).newUsers, Id(u)),
                                   oldUsers := Assoc.Add(old(Abs()).oldUsers, u.username, Id(u)))
    {
      hide Wire, Sendable, Assoc.Add, LinkedLists.WithoutFirst;
      ghost var users, records := Records(), RoomRecords();
      RemovedIds(newUsers, u);
      AddedOldUser(u);
      newUsers := LinkedLists.WithoutFirst(newUsers, u);
      oldUsers := Assoc.Add(oldUsers, u.username, u);
      assert Records() == users && RoomRecords() == records;
    }

    method SetNameAndState(u: User, name: string)
      requires Valid() && u in all && Clean(name)
      modifies u`username, u`state
      ensures Valid()
      ensures Abs() == S.SetPerson(old(Abs()), Id(u),
                         S.Person(old(Abs()), Id(u)).(username := Truncate(name, MAX_NAME), state := S.NotInChannel))
      ensures u.username == Truncate(name, MAX_NAME)
    {
      hide Wire, Sendable;
      PersonIs(u);
      u.SetUsername(name);
      u.state := S.NotInChannel;
      UserChanged(u);
    }

    /** Different users have different numbers, so removing one removes the other. */
    lemma RemovedIds(us: seq<User>, u: User)
      requires Valid() && u in all && forall i :: 0 <= i < |us| ==> us[i] in all
      ensures Ids(LinkedLists.WithoutFirst(us, u)) == LinkedLists.WithoutFirst(Ids(us), Id(u))
      ensures forall i :: 0 <= i < |LinkedLists.WithoutFirst(us, u)| ==> LinkedLists.WithoutFirst(us, u)[i] in all
    {
      hide Wire, Sendable, LinkedLists.FirstIndex;
      var k := LinkedLists.FirstIndex(us, u);
      PersonIs(u);
      forall i | 0 <= i < |us|
        ensures all[Id(us[i])] == us[i]
      {
        PersonIs(us[i]);
      }
      assert forall i :: 0 <= i < k ==> Ids(us)[i] != Id(u);
      LinkedLists.FirstIndexIs(Ids(us), Id(u), k);
      if k < |us| {
        CutIds(us, k);
      }
    }

    lemma CutIds(us: seq<User>, k: nat)
      requires k < |us|
      ensures Ids(us[..k] + us[k + 1..]) == Ids(us)[..k] + Ids(us)[k + 1..]
      ensures forall u :: u in us[..k] + us[k + 1..] ==> u in us
    {
    }

    lemma AddedOldUser(u: User)
      requires Valid() && u in all
      ensures TableIds(Assoc.Add(oldUsers, u.username, u)) == Assoc.Add(TableIds(oldUsers), u.username, Id(u))
      ensures InAll(Assoc.Add(oldUsers, u.username, u))
    {
      TableIdsCommute(oldUsers, u.username, u);
      StillInAll(oldUsers, u.username, u);
    }

    /** process_SID_CREATE */
    method ProcessCreate(u: User, packet: PacketBuffer)
      requires Valid() && u in all && Fresh(packet)
      modifies this`crashed, accounts, u`sent, u.socket`writes, packet`position
      ensures Valid() && Abs() == S.CreateHandler(old(Abs()), Id(u), old(packet.Contents()))
    {
      hide S.Complain, S.Send, Valid, Abs, ParseCredentials, Accounts.Create, S.Crash, S.Exhausted, Accounts.ValidName;
      PersonIs(u);
      if u.state != S.SentClientInformation {
        SendError(u, S.WrongState(S.CreateRequest));
        return;
      }
      var ok, hash, name := ReadCredentials(packet);
      Untouched();
      if !ok {
        Crash();
        return;
      }
      CredentialsAreClean(old(packet.Contents()));
      var status;
      ok, status := CreateAccount(name, hash);
      if !ok {
        Crash();
        return;
      }
      SendPacket(u, CreateResponse(status, name));
    }

    method CreateAccount(name: string, hash: Digest) returns (ok: bool, status: Accounts.CreateStatus)
      requires Valid()
      modifies accounts
      ensures Valid()
      ensures ok <==> !(Accounts.ValidName(name) && S.Exhausted(old(Abs())))
      ensures !ok ==> Abs() == old(Abs())
      ensures var (result, file) := Accounts.Create(old(Abs()).file, name, hash);
              ok ==> status == result && Abs() == S.AfterCreate(old(Abs()), result, file)
    {
      hide Wire, Sendable, Accounts.Create, Accounts.ValidName;
      ghost var users, records := Records(), RoomRecords();
      DescriptorsInUse();
      ok, status := accounts.AccountCreate(name, hash, Connections());
      assert Records() == users && RoomRecords() == records;
    }

    // ---- the select loop ----

    /** process_next_packet: false when the connection should be closed. */
    method ProcessNextPacket(u: User, lines: seq<S.Notice>) returns (alive: bool)
      requires Valid() && u in all
      modifies this`rooms, this`crashed, this`newUsers, this`oldUsers, accounts
      modifies Users(), Sockets()`writes, u.socket`pending, Rooms()`users
      ensures Valid()
      ensures var o := Framing.ReadFrame(old(u.socket.pending)).0;
              && alive == !o.Closed?
              && Abs() == if o.Packet? then S.Handle(old(Abs()), Id(u), o.bytes, lines) else old(Abs())
      ensures forall r :: r in Rooms() ==> r in old(Rooms()) || fresh(r)
    {
      hide S.Handle, Valid, Abs, Framing.ReadFrame;
      var packet;
      alive, packet := u.socket.ReadBuffer();
      InputRead();
      if packet != null {
        Dispatch(u, packet, lines);
      }
    }

    /** Taking bytes from sockets changes nothing here. */
    twostate lemma InputRead()
      requires old(Valid()) && unchanged(this) && unchanged(accounts)
      requires forall v :: v in all ==> unchanged(v) && unchanged(v.socket`writes) && unchanged(v.socket`open)
      requires forall r :: r in Rooms() ==> r.users == old(r.users)
      ensures Valid() && Abs() == old(Abs())
    {
      assert Records() == old(Records());
      assert RoomRecords() == old(RoomRecords());
    }

    /** The switch on the packet code. */
    method Dispatch(u: User, packet: PacketBuffer, lines: seq<S.Notice>)
      requires Valid() && u in all && Fresh(packet)
      modifies this`rooms, this`crashed, this`newUsers, this`oldUsers, accounts
      modifies Users(), Sockets()`writes, Rooms()`users, packet`position
      ensures Valid() && Abs() == S.Handle(old(Abs()), Id(u), old(packet.Contents()), lines)
      ensures forall r :: r in Rooms() ==> r in old(Rooms()) || fresh(r)
    {
      hide S.Complain, Valid, Abs, S.ClientInformationHandler, S.LoginHandler, S.CreateHandler, S.ChatCommandHandler,
        ParseText, S.Crash;
      ghost var contents := packet.Contents();
      var code := packet.data[1];
      assert code == contents[1];
      if code == SID_NULL {
      } else if code == SID_CLIENT_INFORMATION {
        ProcessClientInformation(u, packet);
      } else if code == SID_LOGIN {
        ProcessLogin(u, packet);
      } else if code == SID_CREATE {
        ProcessCreate(u, packet);
      } else if code == SID_REQUEST_ROOM_LIST {
        SendError(u, S.NoRoomList);
      } else if code == SID_CHATCOMMAND {
        ProcessChatCommand(u, packet, lines);
      } else if code == SID_ERROR {
        var ok := ReadComplaint(packet);
        Untouched();
        if !ok {
          Crash();
        }
      } else if code in [SID_SERVER_INFORMATION, SID_LOGIN_RESPONSE, SID_CREATE_RESPONSE,
                         SID_ROOM_LIST, SID_CHATEVENT] {
        SendError(u, S.ServerOnly);
      } else {
        SendError(u, S.UnknownCode);
      }
    }

    /** process_SID_ERROR, without its display. */
    method ReadComplaint(packet: PacketBuffer) returns (ok: bool)
      requires Fresh(packet)
      modifies packet`position
      ensures ok <==> ParseText(old(packet.Contents())).Some?
    {
      var text;
      ok, text := packet.ReadString(0);
    }

    /** The listening socket is ready: accept a connection and remember it as a new user. Connections
        are numbered in the order of their acceptance. Without a free descriptor accept(2) gives
        none. */
    method AcceptConnection(fd: nat, token: uint32)
      requires Valid() && !crashed && fd == |all|
      modifies this`all, this`newUsers
      ensures Valid() && Abs() == S.AcceptConnection(old(Abs()), token)
      ensures old(all) <= all && forall u :: u in all ==> u in old(all) || (fresh(u) && fresh(u.socket))
    {
      hide Wire, Sendable;
      DescriptorsInUse();
      if Connections() + accounts.streams < accounts.descriptors {
        var socket := new Socket(fd);
        var u := new User(socket, token);
        all, newUsers := all + [u], newUsers + [u];
        UserAdded(u);
      }
    }

    /** Only this new user was added. */
    twostate lemma UserAdded(new u: User)
      requires old(Valid()) && all == old(all) + [u] && newUsers == old(newUsers) + [u] && Id(u) == |old(all)| && u.Ok()
      requires oldUsers == old(oldUsers) && rooms == old(rooms) && crashed == old(crashed)
      requires accounts == old(accounts) && unchanged(accounts)
      requires forall v :: v in old(all) ==> unchanged(v) && unchanged(v.socket)
      requires forall r :: r in Rooms() ==> r.users == old(r.users)
      ensures Valid()
      ensures Abs() == old(Abs()).(users := old(Abs()).users + [u.Record()], newUsers := old(Abs()).newUsers + [Id(u)])
    {
      hide Wire, Sendable;
      assert forall i :: 0 <= i < |old(all)| ==> all[i] == old(all)[i];
      assert Records() == old(Records()) + [u.Record()];
      assert RoomRecords() == old(RoomRecords());
      assert Ids(newUsers) == Ids(old(newUsers)) + [Id(u)];
      assert forall v :: v in old(all) ==> v in all;
    }

    /** One turn of the loop over the authenticated users. */
    method PollOld(u: User, lines: seq<S.Notice>)
      requires Valid() && u in all && !crashed
      modifies this`rooms, this`crashed, this`newUsers, this`oldUsers, accounts
      modifies Users(), Sockets()`writes, u.socket`pending, u.socket`open, Rooms()`users
      ensures Valid()
      ensures Abs() == S.PollOld(old(Abs()), Id(u), Framing.ReadFrame(old(u.socket.pending)).0, lines)
      ensures forall r :: r in Rooms() ==> r in old(Rooms()) || fresh(r)
    {
      hide S.Handle, Valid, Abs, Framing.ReadFrame, S.Close, Assoc.Remove;
      NotCrashed();
      var alive := ProcessNextPacket(u, lines);
      if !alive {
        PersonIs(u);
        DropOldUser(u.username);
        CloseSocket(u);
      }
    }

    method PollNew(u: User, lines: seq<S.Notice>)
      requires Valid() && u in all && !crashed
      modifies this`rooms, this`crashed, this`newUsers, this`oldUsers, accounts
      modifies Users(), Sockets()`writes, u.socket`pending, u.socket`open, Rooms()`users
      ensures Valid()
      ensures Abs() == S.PollNew(old(Abs()), Id(u), Framing.ReadFrame(old(u.socket.pending)).0, lines)
      ensures forall r :: r in Rooms() ==> r in old(Rooms()) || fresh(r)
    {
      hide S.Handle, Valid, Abs, Framing.ReadFrame, S.Close, LinkedLists.WithoutFirst;
      NotCrashed();
      var alive := ProcessNextPacket(u, lines);
      if !alive {
        DropNewUser(u);
        CloseSocket(u);
      }
    }

    lemma NotCrashed()
      requires Valid()
      ensures Abs().crashed == crashed
    {
    }

    method DropOldUser(name: string)
      requires Valid()
      modifies this`oldUsers
      ensures Valid() && Abs() == old(Abs()).(oldUsers := Assoc.Remove(old(Abs()).oldUsers, name))
    {
      hide Wire, Sendable, Assoc.Remove;
      ghost var users, records := Records(), RoomRecords();
      RemovedOldUser(name);
      oldUsers := Assoc.Remove(oldUsers, name);
      assert Records() == users && RoomRecords() == records;
    }

    lemma RemovedOldUser(name: string)
      requires Valid()
      ensures TableIds(Assoc.Remove(oldUsers, name)) == Assoc.Remove(TableIds(oldUsers), name)
      ensures InAll(Assoc.Remove(oldUsers, name))
    {
      hide Wire, Sendable;
      SameIndex(oldUsers, TableIds(oldUsers), name);
      RemainingInAll(oldUsers, name);
    }

    method DropNewUser(u: User)
      requires Valid() && u in all
      modifies this`newUsers
      ensures Valid() && Abs() == old(Abs()).(newUsers := LinkedLists.WithoutFirst(old(Abs()).newUsers, Id(u)))
    {
      hide Wire, Sendable, LinkedLists.WithoutFirst;
      ghost var users, records := Records(), RoomRecords();
      RemovedIds(newUsers, u);
      newUsers := LinkedLists.WithoutFirst(newUsers, u);
      assert Records() == users && RoomRecords() == records;
    }

    method CloseSocket(u: User)
      requires Valid() && u in all
      modifies u.socket`open
      ensures Valid() && Abs() == S.Close(old(Abs()), Id(u))
    {
      hide Wire, Sendable;
      PersonIs(u);
      u.socket.open := false;
      assert forall v :: v in all && v != u ==> v.socket != u.socket;
      UserChanged(u);
    }

    /** What select and read_buffer will report for the ready connections. */
    ghost function Answers(ready: set<nat>, lines: nat -> seq<S.Notice>): Rounds.Ready
      reads this, Sockets()
    {
      map i: nat | i in ready && i < |all| :: Rounds.Answer(Framing.ReadFrame(all[i].socket.pending).0, lines(i))
    }

    /** The answers for the users still to come are what they were at the start. */
    ghost predicate Pending(users: seq<User>, from: nat, ready: set<nat>,
                            lines: nat -> seq<S.Notice>, answers: Rounds.Ready)
      reads this, set u | u in users :: u.socket
    {
      && (forall k :: from <= k < |users| ==> users[k] in all)
      && forall k :: from <= k < |users| ==>
           && (Id(users[k]) in ready <==> Id(users[k]) in answers)
           && (Id(users[k]) in ready ==>
                 answers[Id(users[k])] == Rounds.Answer(Framing.ReadFrame(users[k].socket.pending).0,
                                                        lines(Id(users[k]))))
    }

    /** One iteration of the loop over the authenticated users. */
    method OldUsersTurn(users: seq<User>, i: nat, ready: set<nat>,
                        lines: nat -> seq<S.Notice>, ghost answers: Rounds.Ready)
      requires Valid() && i < |users| && Rounds.Distinct(Ids(users)) && Pending(users, i, ready, lines, answers)
      modifies this`rooms, this`crashed, this`newUsers, this`oldUsers, accounts
      modifies Users(), users[i].socket`pending, users[i].socket`open, Sockets()`writes, Rooms()`users
      ensures Valid() && Pending(users, i + 1, ready, lines, answers)
      ensures var id := Id(users[i]);
              Abs() == if id in answers then S.PollOld(old(Abs()), id, answers[id].reading, answers[id].lines)
                       else old(Abs())
      ensures forall r :: r in Rooms() ==> r in old(Rooms()) || fresh(r)
    {
      hide S.PollOld, Valid, Abs, Framing.ReadFrame;
      var u := users[i];
      OthersHaveOtherSockets(users, i);
      NotCrashed();
      if Id(u) in ready {
        if !crashed {
          PollOld(u, lines(Id(u)));
        } else {
          PollingADeadServer(Abs(), Id(u), answers[Id(u)]);
        }
      }
    }

    /** The loop over the snapshot of old_users. */
    method PollOldUsers(users: seq<User>, ready: set<nat>, lines: nat -> seq<S.Notice>, ghost answers: Rounds.Ready)
      requires Valid() && Rounds.Distinct(Ids(users)) && Pending(users, 0, ready, lines, answers)
      modifies this`rooms, this`crashed, this`newUsers, this`oldUsers, accounts
      modifies Users(), set u | u in users :: u.socket, Sockets()`writes, Rooms()`users
      ensures Valid() && Abs() == Rounds.PollAllOld(old(Abs()), Ids(users), answers)
      ensures forall r :: r in Rooms() ==> r in old(Rooms()) || fresh(r)
    {
      hide S.PollOld, Valid, Abs, Pending;
      ghost var ids := Ids(users);
      var i := 0;
      while i < |users|
        invariant 0 <= i <= |users| && Valid() && Pending(users, i, ready, lines, answers)
        invariant Rounds.PollAllOld(Abs(), ids[i..], answers) == Rounds.PollAllOld(old(Abs()), ids, answers)
        invariant forall r :: r in Rooms() ==> r in old(Rooms()) || fresh(r)
      {
        assert ids[i..][0] == Id(users[i]) && ids[i..][1..] == ids[i + 1..];
        OldUsersTurn(users, i, ready, lines, answers);
        i := i + 1;
      }
      assert ids[i..] == [];
    }

    lemma PollingADeadServer(s: S.State, i: nat, a: Rounds.Answer)
      requires s.crashed
      ensures S.PollOld(s, i, a.reading, a.lines) == s && S.PollNew(s, i, a.reading, a.lines) == s
    {
    }

    lemma OthersHaveOtherSockets(users: seq<User>, i: nat)
      requires Rounds.Distinct(Ids(users)) && i < |users|
      ensures forall k :: i < k < |users| ==> users[k].socket != users[i].socket
    {
      assert forall k :: i < k < |users| ==> Ids(users)[i] != Ids(users)[k];
    }

    /** One iteration of the loop over the new users. */
    method NewUsersTurn(users: seq<User>, i: nat, ready: set<nat>,
                        lines: nat -> seq<S.Notice>, ghost answers: Rounds.Ready)
      requires Valid() && i < |users| && Rounds.Distinct(Ids(users)) && Pending(users, i, ready, lines, answers)
      modifies this`rooms, this`crashed, this`newUsers, this`oldUsers, accounts
      modifies Users(), users[i].socket`pending, users[i].socket`open, Sockets()`writes, Rooms()`users
      ensures Valid() && Pending(users, i + 1, ready, lines, answers)
      ensures var id := Id(users[i]);
              Abs() == if id in answers then S.PollNew(old(Abs()), id, answers[id].reading, answers[id].lines)
                       else old(Abs())
      ensures forall r :: r in Rooms() ==> r in old(Rooms()) || fresh(r)
    {
      hide S.PollNew, Valid, Abs, Framing.ReadFrame;
      var u := users[i];
      OthersHaveOtherSockets(users, i);
      NotCrashed();
      if Id(u) in ready {
        if !crashed {
          PollNew(u, lines(Id(u)));
        } else {
          PollingADeadServer(Abs(), Id(u), answers[Id(u)]);
        }
      }
    }

    method PollNewUsers(users: seq<User>, ready: set<nat>, lines: nat -> seq<S.Notice>, ghost answers: Rounds.Ready)
      requires Valid() && Rounds.Distinct(Ids(users)) && Pending(users, 0, ready, lines, answers)
      modifies this`rooms, this`crashed, this`newUsers, this`oldUsers, accounts
      modifies Users(), set u | u in users :: u.socket, Sockets()`writes, Rooms()`users
      ensures Valid() && Abs() == Rounds.PollAllNew(old(Abs()), Ids(users), answers)
      ensures forall r :: r in Rooms() ==> r in old(Rooms()) || fresh(r)
    {
      hide S.PollNew, Valid, Abs, Pending;
      ghost var ids := Ids(users);
      var i := 0;
      while i < |users|
        invariant 0 <= i <= |users| && Valid() && Pending(users, i, ready, lines, answers)
        invariant Rounds.PollAllNew(Abs(), ids[i..], answers) == Rounds.PollAllNew(old(Abs()), ids, answers)
        invariant forall r :: r in Rooms() ==> r in old(Rooms()) || fresh(r)
      {
        assert ids[i..][0] == Id(users[i]) && ids[i..][1..] == ids[i + 1..];
        NewUsersTurn(users, i, ready, lines, answers);
        i := i + 1;
      }
      assert ids[i..] == [];
    }

    /** The two snapshots hold different users, each once. */
    lemma Snapshots()
      requires Valid() && Invariants.Inv(Abs())
      ensures Rounds.Distinct(Ids(Assoc.Values(oldUsers))) && Rounds.Distinct(Ids(newUsers))
      ensures forall u, v :: u in Assoc.Values(oldUsers) && v in newUsers ==> u.socket != v.socket
      ensures Ids(Assoc.Values(oldUsers)) == Assoc.Values(Abs().oldUsers) && Ids(newUsers) == Abs().newUsers
    {
      hide Invariants.Inv, Wire, Sendable;
      var olds := Assoc.Values(oldUsers);
      assert Assoc.Values(TableIds(oldUsers)) == Ids(olds);
      Rounds.SnapshotsAreSound(Abs());
      forall u, v | u in olds && v in newUsers
        ensures u.socket != v.socket
      {
        var i :| 0 <= i < |olds| && olds[i] == u;
        var j :| 0 <= j < |newUsers| && newUsers[j] == v;
        assert Ids(olds)[i] == Id(u) && Ids(newUsers)[j] == Id(v);
      }
    }

    lemma PendingAtFirst(users: seq<User>, ready: set<nat>, lines: nat -> seq<S.Notice>)
      requires Valid() && forall k :: 0 <= k < |users| ==> users[k] in all
      ensures Pending(users, 0, ready, lines, Answers(ready, lines))
    {
      hide Wire, Sendable, Framing.ReadFrame;
      forall k | 0 <= k < |users|
        ensures Id(users[k]) < |all| && all[Id(users[k])] == users[k]
      {
        PersonIs(users[k]);
      }
    }

    /** Both loops, over snapshots that have no user in common. */
    method PollSnapshots(olds: seq<User>, news: seq<User>, ready: set<nat>, lines: nat -> seq<S.Notice>,
                         ghost answers: Rounds.Ready)
      requires Valid() && Rounds.Distinct(Ids(olds)) && Rounds.Distinct(Ids(news))
      requires forall u, v :: u in olds && v in news ==> u.socket != v.socket
      requires Pending(olds, 0, ready, lines, answers) && Pending(news, 0, ready, lines, answers)
      modifies this`rooms, this`crashed, this`newUsers, this`oldUsers, accounts
      modifies Users(), set u | u in olds :: u.socket, set u | u in news :: u.socket, Sockets()`writes, Rooms()`users
      ensures Valid()
      ensures Abs() == Rounds.PollAllNew(Rounds.PollAllOld(old(Abs()), Ids(olds), answers), Ids(news), answers)
    {
      hide Valid, Abs, Rounds.PollAllOld, Rounds.PollAllNew, Framing.ReadFrame, Rounds.Distinct;
      PollOldUsers(olds, ready, lines, answers);
      assert forall k :: 0 <= k < |news| ==> news[k].socket.pending == old(news[k].socket.pending);
      assert Pending(news, 0, ready, lines, answers);
      PollNewUsers(news, ready, lines, answers);
    }

    /** The listening socket, when select reports it. */
    method AcceptIfReady(listen: bool, fd: nat, token: uint32, ghost ready: set<nat>, ghost lines: nat -> seq<S.Notice>)
      requires Valid() && !crashed && fd == |all|
      modifies this`all, this`newUsers
      ensures Valid() && Abs() == if listen then S.AcceptConnection(old(Abs()), token) else old(Abs())
      ensures forall u :: u in all ==> u in old(all) || (fresh(u) && fresh(u.socket))
      ensures forall users, answers :: old(allocated(users)) && old(Pending(users, 0, ready, lines, answers)) ==>
                Pending(users, 0, ready, lines, answers)
    {
      hide Valid, Abs, S.AcceptConnection, Framing.ReadFrame;
      if listen {
        AcceptConnection(fd, token);
        assert forall u :: u in old(all) ==> u in all;
      }
    }

    /** do_select after select has returned with at least one ready descriptor: one round of the
        machine, and so a run of single events that keeps every invariant. */
    method DoSelect(listen: bool, fd: nat, token: uint32, ready: set<nat>, lines: nat -> seq<S.Notice>)
      requires Valid() && Invariants.Inv(Abs()) && !crashed && fd == |all|
      modifies this, accounts, Users(), Sockets(), Rooms()`users
      ensures Valid() && Invariants.Inv(Abs())
      ensures var listening := if listen then Some(token) else None;
              && Abs() == Rounds.Round(old(Abs()), listening, old(Answers(ready, lines)))
              && Abs() == S.Run(old(Abs()), Rounds.RoundEvents(old(Abs()), listening, old(Answers(ready, lines))))
      ensures Guarantees.Reachable(old(Abs())) ==> Guarantees.Reachable(Abs())
    {
      hide Guarantees.Reachable, Invariants.Inv, Valid, Abs, Rounds.PollAllOld, Rounds.PollAllNew, S.AcceptConnection,
        Rounds.RoundEvents, Pending, Answers, Rounds.Distinct, S.Run;
      ghost var s, answers := Abs(), Answers(ready, lines);
      var newUserList := newUsers;
      var oldUserList := Assoc.Values(oldUsers);
      Snapshots();
      SnapshotsInAll();
      PendingAtFirst(oldUserList, ready, lines);
      PendingAtFirst(newUserList, ready, lines);
      AcceptIfReady(listen, fd, token, ready, lines);
      PollSnapshots(oldUserList, newUserList, ready, lines, answers);
      ghost var listening := if listen then Some(token) else None;
      Rounds.RoundIsARun(s, listening, answers);
      if Guarantees.Reachable(s) {
        Rounds.ReachableRun(s, Rounds.RoundEvents(s, listening, answers));
      }
    }

    lemma SnapshotsInAll()
      requires Valid()
      ensures forall k :: 0 <= k < |oldUsers| ==> Assoc.Values(oldUsers)[k] in all
      ensures forall k :: 0 <= k < |newUsers| ==> newUsers[k] in all
    {
    }
  }
}
