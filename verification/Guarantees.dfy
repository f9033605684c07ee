/** The main results about every run of the server. */
module Guarantees {
  import opened Types
  import opened Messages
  import opened ServerSpec
  import opened Invariants
  import Assoc
  import Accounts
  import Delivery
  import Joining
  import LinkedLists
  import Roster
  import Stepping

  /** A state that some run reaches from an empty server over a well-formed account file. */
  ghost predicate Reachable(s: State) {
    exists s0, es :: Initial(s0) && Accounts.WellFormed(s0.file) && s == Run(s0, es)
  }

  lemma ReachableInv(s: State)
    requires Reachable(s)
    ensures Inv(s)
  {
    hide Inv;
    var s0, es :| Initial(s0) && Accounts.WellFormed(s0.file) && s == Run(s0, es);
    Stepping.InitialInv(s0);
    Stepping.RunKeeps(s0, es);
  }

  // ---- users ----

  ghost predicate IsConnected(s: State, i: nat) {
    i < |s.users| && s.users[i].open
  }

  /** The claim of server.c:42-45, and which side a user is on. */
  lemma UsersArePartitioned(s: State, i: nat)
    requires Inv(s)
    ensures IsConnected(s, i) <==> i in s.newUsers || i in Assoc.Values(s.oldUsers)
    ensures !(i in s.newUsers && i in Assoc.Values(s.oldUsers))
    ensures i in s.newUsers ==>
              s.users[i].state in {UserState.Connected, SentClientInformation} && s.users[i].room == None
    ensures i in Assoc.Values(s.oldUsers) ==>
              s.users[i].state in {NotInChannel, JoinedChannel} &&
              Assoc.Find(s.oldUsers, s.users[i].username) == Some(i)
    ensures Assoc.Unique(s.oldUsers)
    ensures forall a, b :: 0 <= a < b < |s.newUsers| ==> s.newUsers[a] != s.newUsers[b]
    ensures forall a, b :: 0 <= a < b < |s.oldUsers| ==> s.oldUsers[a].1 != s.oldUsers[b].1
  {
    hide Rooms, Roster.View, Accounts.ValidName;
    Stepping.CollectionsMatchStates(s, i);
    if i in s.newUsers {
      var a :| 0 <= a < |s.newUsers| && s.newUsers[a] == i;
      assert NewOk(s, s.newUsers[a]);
    }
    if i in Assoc.Values(s.oldUsers) {
      assert Registered(s, i);
    }
    forall a, b | 0 <= a < b < |s.oldUsers|
      ensures s.oldUsers[a].1 != s.oldUsers[b].1
    {
      assert OldOk(s, s.oldUsers[a].0, s.oldUsers[a].1) && OldOk(s, s.oldUsers[b].0, s.oldUsers[b].1);
    }
  }

  // ---- rooms ----

  /** Users and rooms point at each other: a connected user's room exists and stores it under its
      own name, and whatever a room stores under a name is a user of that name who is in that
      room. So nobody is in two rooms, and the lookup on the talk path never fails. */
  lemma BackPointersAgree(s: State, i: nat, room: string, name: string)
    requires Inv(s)
    ensures IsConnected(s, i) && s.users[i].room == Some(room) ==>
              Assoc.Has(s.rooms, room) && Assoc.Find(Members(s, room), s.users[i].username) == Some(i)
    ensures Assoc.Find(Members(s, room), name) == Some(i) ==>
              && i < |s.users| && s.users[i].username == name
              && s.users[i].state == JoinedChannel && s.users[i].room == Some(room)
    ensures Assoc.Unique(Members(s, room))
  {
    hide Accounts.ValidName, Roster.View, Partition;
    Joining.MembersOk(s, room);
    if IsConnected(s, i) {
      assert Placed(s, i);
    }
    if Assoc.Find(Members(s, room), name) == Some(i) {
      var b := Assoc.IndexOf(Members(s, room), name);
      assert EntryOk(s, room, Members(s, room)[b].0, Members(s, room)[b].1);
    }
  }

  /** Every registered room is stored under its own, untruncated name, 1 to 15 characters long and
      not "backstage" in any capitals. */
  lemma RoomNamesAreSound(s: State, room: string)
    requires Inv(s) && Assoc.Has(s.rooms, room)
    ensures Assoc.Find(s.rooms, room).value.name == room
    ensures 1 <= |room| <= 15 && !SameIgnoringCase(room, "backstage")
    ensures Assoc.Unique(s.rooms)
  {
    var a := Assoc.IndexOf(s.rooms, room);
    assert RoomOk(s, s.rooms[a].0, s.rooms[a].1);
  }

  // ---- the roster ----

  /** A client that has taken k of its packets from the connection shows some list. Once it has
      taken the rest, the list holds exactly the names in its room's table; outside rooms it holds
      at most the client's own name. */
  lemma RosterIsReplicated(s: State, i: nat, k: nat)
    requires Inv(s) && IsConnected(s, i) && k <= |s.users[i].sent|
    ensures var u := s.users[i];
            var shown := Roster.Replay([], u.sent[..k]);
            var names := Assoc.Keys(Roster.Replay(shown, u.sent[k..]));
            if u.room.Some? then names == Assoc.Keys(Members(s, u.room.value))
            else names <= {u.username} && (i in s.newUsers ==> names == {})
  {
    hide Accounts.ValidName, Rooms, Partition;
    Roster.ReplayResumes([], s.users[i].sent, k);
    Stepping.CollectionsMatchStates(s, i);
    assert Synced(s, i);
  }

  // ---- what only grows ----

  /** Rooms are never removed, and a member is added only as the acting user. */
  ghost predicate RoomsGrow(s: State, r: State, i: nat) {
    forall room ::
      && (Assoc.Has(s.rooms, room) ==> Assoc.Has(r.rooms, room))
      && forall k :: k in Assoc.Values(Members(r, room)) ==> k == i || k in Assoc.Values(Members(s, room))
  }

  lemma SameRoomsGrow(s: State, r: State, i: nat)
    requires r.rooms == s.rooms
    ensures RoomsGrow(s, r, i)
  {
    forall room
      ensures Members(r, room) == Members(s, room)
    {
    }
  }

  lemma RemovedValues(t: Assoc.Table<nat>, name: string, k: nat)
    requires k in Assoc.Values(Assoc.Remove(t, name))
    ensures k in Assoc.Values(t)
  {
    var b :| 0 <= b < |Assoc.Remove(t, name)| && Assoc.Remove(t, name)[b].1 == k;
    assert Assoc.Values(t)[if b < Assoc.IndexOf(t, name) then b else b + 1] == k;
  }

  lemma AddedValues(t: Assoc.Table<nat>, name: string, i: nat, k: nat)
    requires k in Assoc.Values(Assoc.Add(t, name, i))
    ensures k == i || k in Assoc.Values(t)
  {
    var b :| 0 <= b < |Assoc.Add(t, name, i)| && Assoc.Add(t, name, i)[b].1 == k;
    if k != i {
      assert Assoc.Values(t)[b] == k;
    }
  }

  lemma LeaveRoomGrows(s: State, i: nat)
    requires Inv(s) && i < |s.users| && s.users[i].open && IsOld(s.users[i])
    ensures RoomsGrow(s, LeaveRoom(s, i), i)
  {
    hide Inv, LeaveRoom, Assoc.Has, Assoc.Remove, Assoc.Values, Members;
    Delivery.LeaveIsExact(s, i);
    var r := LeaveRoom(s, i);
    forall room, k | k in Assoc.Values(Members(r, room))
      ensures k in Assoc.Values(Members(s, room))
    {
      if s.users[i].room == Some(room) {
        RemovedValues(Members(s, room), s.users[i].username, k);
      }
    }
  }

  lemma EnterRoomGrows(s: State, i: nat, room: string)
    requires InvExcept(s, {i}) && Joining.Nowhere(s, i) && i < |s.users| && s.users[i].open && IsOld(s.users[i])
    requires 1 <= |room| < MAX_ROOM_LENGTH && !SameIgnoringCase(room, "backstage") && Clean(room)
    ensures RoomsGrow(s, EnterRoom(s, i, room), i)
  {
    hide InvExcept, EnterRoom, Assoc.Has, Assoc.Add, Assoc.Values, Members, Joining.Nowhere;
    Delivery.EnterIsExact(s, i, room);
    var r := EnterRoom(s, i, room);
    forall other, k | k in Assoc.Values(Members(r, other))
      ensures k == i || k in Assoc.Values(Members(s, other))
    {
      if other == room {
        AddedValues(Members(s, room), s.users[i].username, i, k);
      }
    }
  }

  lemma JoinGrows(s: State, i: nat, room: string)
    requires Inv(s) && i < |s.users| && s.users[i].open && IsOld(s.users[i]) && Clean(room)
    ensures RoomsGrow(s, Join(s, i, room), i) && OnlyUsersAndRooms(s, Join(s, i, room))
  {
    hide InvExcept, LeaveRoom, EnterRoom, RoomsGrow, Joining.Nowhere, Send, Chat;
    JoinKeepsTheRest(s, i, room);
    if !Delivery.Admissible(room) {
      Delivery.RefusedJoinOnlyComplains(s, i, room);
      SendKeepsRooms(s, i, ChatEvent(Error, s.users[i].username, RestrictedText()));
      SendKeepsRooms(s, i, ChatEvent(Error, s.users[i].username, TooLongText()));
      SameRoomsGrow(s, Join(s, i, room), i);
    } else {
      var s1 := LeaveRoom(s, i);
      Joining.LeaveRoomKeeps(s, i);
      LeaveRoomGrows(s, i);
      if room == "" {
        Delivery.LeavingChatIsExact(s, i);
        SameRoomsGrow(s1, Join(s, i, room), i);
      } else {
        EnterRoomGrows(s1, i, room);
      }
      RoomsGrowIsTransitive(s, s1, Join(s, i, room), i);
    }
  }

  lemma SendKeepsRooms(s: State, i: nat, p: Packet)
    ensures Send(s, i, p).rooms == s.rooms
  {
  }

  lemma RoomsGrowIsTransitive(s: State, r: State, t: State, i: nat)
    requires RoomsGrow(s, r, i) && RoomsGrow(r, t, i)
    ensures RoomsGrow(s, t, i)
  {
    hide Members;
  }

  /** Collections of users, account file, descriptors and the process itself are as before. */
  ghost predicate OnlyUsersAndRooms(s: State, r: State) {
    r == s.(users := r.users, rooms := r.rooms)
  }

  lemma {:induction false} SendingKeepsTheRest(s: State, i: nat, ids: seq<nat>, p: Packet)
    ensures OnlyUsersAndRooms(s, SendAll(s, ids, p)) && OnlyUsersAndRooms(s, SendUsersInChannel(s, i, ids))
    decreases |ids|
  {
    if ids != [] {
      SendingKeepsTheRest(Send(s, ids[0], p), i, ids[1..], p);
      SendingKeepsTheRest(Send(s, i, ChatEvent(UserInChannel, Person(s, ids[0]).username, "")), i, ids[1..], p);
    }
  }

  lemma RoomMessageKeepsTheRest(s: State, room: string, kind: EventKind, from: string, text: string)
    ensures OnlyUsersAndRooms(s, RoomMessage(s, room, kind, from, text))
  {
    SendingKeepsTheRest(s, 0, Assoc.Values(Members(s, room)), ChatEvent(kind, from, text));
  }

  lemma OpenRoomKeepsTheRest(s: State, i: nat, room: string)
    ensures OnlyUsersAndRooms(s, Tell(OpenRoom(s, i, room), i, Channel, room))
  {
    hide Assoc.Find, Assoc.Has, Assoc.Add;
  }

  lemma EnterRoomKeepsTheRest(s: State, i: nat, room: string)
    ensures OnlyUsersAndRooms(s, EnterRoom(s, i, room))
  {
    hide SendUsersInChannel, RoomMessage, Members, OpenRoom, Chat, Assoc.Find, Assoc.Add, Assoc.Values;
    OpenRoomKeepsTheRest(s, i, room);
    var s2 := Tell(OpenRoom(s, i, room), i, Channel, room);
    SendingKeepsTheRest(s2, i, Assoc.Values(Members(s2, room)), ErrorReport(""));
    var s3 := SendUsersInChannel(s2, i, Assoc.Values(Members(s2, room)));
    var s4 := SetPerson(s3, i, Person(s3, i).(state := JoinedChannel, room := Some(room)));
    var s5 := SetMembers(s4, room, Assoc.Add(Members(s4, room), Person(s4, i).username, i));
    RoomMessageKeepsTheRest(s5, room, UserJoinChannel, Person(s5, i).username, "");
  }

  lemma LeaveRoomKeepsTheRest(s: State, i: nat)
    ensures OnlyUsersAndRooms(s, LeaveRoom(s, i))
  {
    hide RoomMessage, Assoc.Remove, Assoc.Find, Assoc.Has, Assoc.Add, Members;
    var u := Person(s, i);
    if u.room.Some? {
      var s1 := SetMembers(s, u.room.value, Assoc.Remove(Members(s, u.room.value), u.username));
      RoomMessageKeepsTheRest(s1, u.room.value, UserLeaveChannel, u.username, "");
    }
  }

  lemma GoNowhereKeepsTheRest(s: State, i: nat)
    ensures OnlyUsersAndRooms(s, GoNowhere(s, i))
  {
    hide Assoc.Find;
  }

  lemma JoinKeepsTheRest(s: State, i: nat, room: string)
    ensures OnlyUsersAndRooms(s, Join(s, i, room))
  {
    hide LeaveRoom, GoNowhere, EnterRoom, Assoc.Find, SameIgnoringCase;
    LeaveRoomKeepsTheRest(s, i);
    GoNowhereKeepsTheRest(LeaveRoom(s, i), i);
    EnterRoomKeepsTheRest(LeaveRoom(s, i), i, room);
  }

  /** Accounts are only added: a stored hash never changes. */
  ghost predicate FileGrows(f: string, g: string) {
    forall name :: Accounts.Stored(f, name).Some? ==> Accounts.Stored(g, name) == Accounts.Stored(f, name)
  }

  lemma MessageGrows(s: State, i: nat, text: string, lines: seq<Notice>)
    requires Inv(s) && i < |s.users| && s.users[i].open && IsOld(s.users[i])
    requires Clean(text) && |text| <= MAX_PACKET
    ensures RoomsGrow(s, Message(s, i, text, lines), i) && OnlyUsersAndRooms(s, Message(s, i, text, lines))
  {
    hide InvExcept, Join, Listing, Whisper, Say, Named, Chat, RoomsGrow, Partition, Rooms;
    Stepping.SayKeeps(s, i, text);
    SameRoomsGrow(s, Say(s, i, text), i);
    if text != "" && text[0] == '/' {
      var line := text[1..];
      var k := IndexOfChar(line, ' ');
      var param := if k < |line| then line[k + 1..] else "";
      JoinGrows(s, i, param);
      Stepping.ListingKeeps(s, i, lines);
      Stepping.WhisperKeeps(s, i, param);
      Joining.ErrorToSelf(s, i, UnknownCommandText());
      SameRoomsGrow(s, Listing(s, i, lines), i);
      SameRoomsGrow(s, Whisper(s, i, param), i);
      SameRoomsGrow(s, Tell(s, i, Error, UnknownCommandText()), i);
    }
  }

  /** Rooms and stored accounts persist, and the acting user stays connected. */
  ghost predicate HandlerGrows(s: State, r: State, i: nat) {
    RoomsGrow(s, r, i) && FileGrows(s.file, r.file) && i < |r.users| && r.users[i].open
  }

  lemma CreateGrows(s: State, i: nat, b: seq<byte>)
    requires Inv(s) && i < |s.users| && s.users[i].open
    ensures HandlerGrows(s, CreateHandler(s, i, b), i)
  {
    hide InvExcept, ParseCredentials, Accounts.Create, Accounts.Stored, Accounts.ValidName, Exhausted, RoomsGrow,
      MisuseText;
    var r := CreateHandler(s, i, b);
    SameRoomsGrow(s, r, i);
    if ParseCredentials(b).Some? {
      var (hash, name) := ParseCredentials(b).value;
      InvHasFile(s);
      forall other
        ensures Accounts.Stored(s.file, other).Some? ==>
                  Accounts.Stored(Accounts.Create(s.file, name, hash).1, other) == Accounts.Stored(s.file, other)
      {
        Accounts.CreateRoundTrip(s.file, name, hash, other);
      }
    }
  }

  lemma LoginGrows(s: State, i: nat, b: seq<byte>)
    requires i < |s.users| && s.users[i].open
    ensures HandlerGrows(s, LoginHandler(s, i, b), i)
  {
    hide ParseCredentials, LoginStatus, LinkedLists.WithoutFirst, Assoc.Add, RoomsGrow, MisuseText;
    SameRoomsGrow(s, LoginHandler(s, i, b), i);
  }

  lemma ClientInformationGrows(s: State, i: nat, b: seq<byte>)
    requires i < |s.users| && s.users[i].open
    ensures HandlerGrows(s, ClientInformationHandler(s, i, b), i)
  {
    hide ParseClientInformation, RoomsGrow, MisuseText;
    SameRoomsGrow(s, ClientInformationHandler(s, i, b), i);
  }

  lemma ChatCommandGrows(s: State, i: nat, b: seq<byte>, lines: seq<Notice>)
    requires Inv(s) && i < |s.users| && s.users[i].open && |b| <= MAX_PACKET
    ensures HandlerGrows(s, ChatCommandHandler(s, i, b, lines), i)
  {
    hide InvExcept, ParseText, Message, RoomsGrow, MisuseText, Accounts.Stored;
    var r := ChatCommandHandler(s, i, b, lines);
    if IsOld(s.users[i]) && ParseText(b).Some? {
      MessageGrows(s, i, ParseText(b).value, lines);
      Delivery.MessageKeepsIdentity(s, i, ParseText(b).value, lines);
    } else {
      SameRoomsGrow(s, r, i);
    }
  }

  lemma ReplyGrows(s: State, i: nat)
    requires i < |s.users| && s.users[i].open
    ensures HandlerGrows(s, s, i) && HandlerGrows(s, Crash(s), i)
    ensures forall m :: HandlerGrows(s, Complain(s, i, m), i)
  {
    hide RoomsGrow, MisuseText;
    SameRoomsGrow(s, s, i);
    SameRoomsGrow(s, Crash(s), i);
    forall m
      ensures HandlerGrows(s, Complain(s, i, m), i)
    {
      SameRoomsGrow(s, Complain(s, i, m), i);
    }
  }

  lemma HandleGrows(s: State, i: nat, b: seq<byte>, lines: seq<Notice>)
    requires Inv(s) && i < |s.users| && s.users[i].open && 4 <= |b| <= MAX_PACKET
    ensures HandlerGrows(s, Handle(s, i, b, lines), i)
  {
    hide InvExcept, ParseText, CreateHandler, LoginHandler, ClientInformationHandler, ChatCommandHandler, Complain,
      Crash, HandlerGrows;
    CreateGrows(s, i, b);
    LoginGrows(s, i, b);
    ClientInformationGrows(s, i, b);
    ChatCommandGrows(s, i, b, lines);
    ReplyGrows(s, i);
  }

  lemma InvHasFile(s: State)
    requires Inv(s)
    ensures Accounts.WellFormed(s.file)
  {
  }

  /** Over any event, rooms and stored accounts persist. */
  lemma StepGrows(s: State, e: Event)
    requires Inv(s)
    ensures RoomsGrow(s, Step(s, e), if e.Poll? then e.who else 0) && FileGrows(s.file, Step(s, e).file)
  {
    hide InvExcept, Handle, RoomsGrow, Accounts.Stored, LinkedLists.WithoutFirst, Assoc.Remove, Assoc.Values;
    var r := Step(s, e);
    match e
    case Accept(token) =>
      SameRoomsGrow(s, r, 0);
    case Poll(i, o, lines) =>
      Stepping.CollectionsMatchStates(s, i);
      if o.Packet? && i < |s.users| && s.users[i].open && !s.crashed {
        HandleGrows(s, i, o.bytes, lines);
      } else {
        SameRoomsGrow(s, r, i);
      }
  }

  /** Rooms and accounts of a reachable state are still there after any further run. */
  lemma {:induction false} RoomsAndAccountsPersist(s: State, es: seq<Event>, room: string, name: string)
    requires Inv(s)
    ensures Assoc.Has(s.rooms, room) ==> Assoc.Has(Run(s, es).rooms, room)
    ensures Accounts.Stored(s.file, name).Some? ==>
            Accounts.Stored(Run(s, es).file, name) == Accounts.Stored(s.file, name)
    decreases |es|
  {
    hide Inv, Step, Accounts.Stored, Assoc.Has;
    if es != [] {
      var n := |es| - 1;
      RoomsAndAccountsPersist(s, es[..n], room, name);
      Stepping.RunKeeps(s, es[..n]);
      StepGrows(Run(s, es[..n]), es[n]);
    }
  }
}
