/** process_command_join keeps the invariants: a user leaves its room, is in no room for a moment,
    and then either settles outside or enters the next one. */
module Joining {
  import opened Types
  import opened Messages
  import opened ServerSpec
  import opened Invariants
  import Assoc
  import Accounts
  import Roster

  // ---- sending to a table of users ----

  lemma {:induction false} SendAllEffect(s: State, ids: seq<nat>, p: Packet)
    requires forall a, b :: 0 <= a < b < |ids| ==> ids[a] != ids[b]
    ensures var r := SendAll(s, ids, p);
            && OnlySent(s, r)
            && forall j :: 0 <= j < |s.users| ==>
                 r.users[j].sent == if j in ids && s.users[j].open then s.users[j].sent + [p] else s.users[j].sent
    decreases |ids|
  {
    if ids != [] {
      var s1 := Send(s, ids[0], p);
      SendEffect(s, ids[0], p);
      SendAllEffect(s1, ids[1..], p);
      OnlySentIsTransitive(s, s1, SendAll(s1, ids[1..], p));
      assert ids[0] !in ids[1..];
      assert forall j :: j in ids <==> j == ids[0] || j in ids[1..];
    }
  }

  /** Every entry of a room's table stands under its own user's name, so no user is in it twice. */
  lemma MembersAreDistinct(s: State, room: string, t: Assoc.Table<nat>)
    requires TableOk(s, room, t)
    ensures var ids := Assoc.Values(t); forall a, b :: 0 <= a < b < |ids| ==> ids[a] != ids[b]
  {
    var ids := Assoc.Values(t);
    forall a, b | 0 <= a < b < |ids|
      ensures ids[a] != ids[b]
    {
      assert EntryOk(s, room, t[a].0, t[a].1) && EntryOk(s, room, t[b].0, t[b].1);
      assert t[a].0 != t[b].0;
    }
  }

  lemma InTable(s: State, room: string, t: Assoc.Table<nat>, i: nat)
    requires TableOk(s, room, t) && i < |s.users|
    ensures i in Assoc.Values(t) <==> Assoc.Find(t, s.users[i].username) == Some(i)
    ensures i in Assoc.Values(t) ==> EntryOk(s, room, s.users[i].username, i)
  {
    if i in Assoc.Values(t) {
      var b :| 0 <= b < |t| && t[b].1 == i;
      assert EntryOk(s, room, t[b].0, t[b].1);
      Assoc.IndexUnique(t, b);
    }
    if Assoc.Find(t, s.users[i].username) == Some(i) {
      var b := Assoc.IndexOf(t, s.users[i].username);
      assert Assoc.Values(t)[b] == i;
    }
  }

  lemma MembersOk(s: State, room: string)
    requires Rooms(s)
    ensures TableOk(s, room, Members(s, room))
  {
    if Assoc.Has(s.rooms, room) {
      var a := Assoc.IndexOf(s.rooms, room);
      assert RoomOk(s, s.rooms[a].0, s.rooms[a].1);
    }
  }

  // ---- replacing a room's table ----

  lemma SetMembersEffect(s: State, room: string, t: Assoc.Table<nat>)
    requires Rooms(s) && Assoc.Has(s.rooms, room) && TableOk(s, room, t)
    ensures var r := SetMembers(s, room, t);
            && r == s.(rooms := r.rooms)
            && Rooms(r)
            && Members(r, room) == t
            && (forall other :: other != room ==> Members(r, other) == Members(s, other))
            && (forall other :: Assoc.Has(r.rooms, other) <==> Assoc.Has(s.rooms, other))
  {
    var r := SetMembers(s, room, t);
    var was := Assoc.Find(s.rooms, room).value;
    var k := Assoc.IndexOf(s.rooms, room);
    assert RoomOk(s, s.rooms[k].0, s.rooms[k].1);
    forall other
      ensures Assoc.Find(r.rooms, other) == if other == room then Some(was.(users := t)) else Assoc.Find(s.rooms, other)
      ensures Assoc.Unique(r.rooms)
      ensures other != room ==> Members(r, other) == Members(s, other)
      ensures Assoc.Has(r.rooms, other) <==> Assoc.Has(s.rooms, other)
    {
      Assoc.AddRefinesMapUpdate(s.rooms, room, was.(users := t), other);
    }
    forall a | 0 <= a < |r.rooms|
      ensures RoomOk(r, r.rooms[a].0, r.rooms[a].1)
    {
      assert RoomOk(s, s.rooms[a].0, s.rooms[a].1);
      SameTable(s, r, r.rooms[a].0, r.rooms[a].1.users);
    }
  }

  /** No room's table holds this user. */
  ghost predicate Nowhere(s: State, i: nat) {
    forall room :: i !in Assoc.Values(Members(s, room))
  }

  lemma SameRoomsSameNowhere(s: State, r: State, i: nat)
    requires Nowhere(s, i) && r.rooms == s.rooms
    ensures Nowhere(r, i)
  {
    forall room
      ensures i !in Assoc.Values(Members(r, room))
    {
      assert Members(r, room) == Members(s, room);
    }
  }

  // ---- leaving ----

  lemma RemovedTableOk(s: State, room: string, t: Assoc.Table<nat>, name: string)
    requires TableOk(s, room, t)
    ensures TableOk(s, room, Assoc.Remove(t, name))
  {
    Assoc.RemoveKeepsUnique(t, name);
    var r := Assoc.Remove(t, name);
    forall b | 0 <= b < |r|
      ensures EntryOk(s, room, r[b].0, r[b].1)
    {
      assert r[b] == t[if b < Assoc.IndexOf(t, name) then b else b + 1];
    }
  }

  /** The table without the leaver, before anybody is told. */
  lemma TakenOut(s: State, i: nat, room: string)
    requires Inv(s) && i < |s.users| && s.users[i].open && IsOld(s.users[i]) && s.users[i].room == Some(room)
    ensures var t := Assoc.Remove(Members(s, room), s.users[i].username);
            var s1 := SetMembers(s, room, t);
            && Assoc.Has(s.rooms, room)
            && s1 == s.(rooms := s1.rooms) && Partition(s1) && Rooms(s1) && Nowhere(s1, i)
            && Members(s1, room) == t && TableOk(s1, room, t)
            && (forall other :: other != room ==> Members(s1, other) == Members(s, other))
            && (forall j :: 0 <= j < |s.users| && j != i ==> Placed(s1, j))
            && (var ids := Assoc.Values(t); forall a, b :: 0 <= a < b < |ids| ==> ids[a] != ids[b])
  {
    hide Sendable, Accounts.WellFormed, Roster.View, Accounts.ValidName, Assoc.Values, Assoc.Remove, RoomOk;
    assert Placed(s, i);
    var t := Assoc.Remove(Members(s, room), s.users[i].username);
    var s1 := SetMembers(s, room, t);
    MembersOk(s, room);
    RemovedTableOk(s, room, Members(s, room), s.users[i].username);
    SetMembersEffect(s, room, t);
    forall j | 0 <= j < |s.users| && j != i
      ensures Placed(s1, j)
    {
      LeavingKeepsOthersPlaced(s, i, j, room);
    }
    SameTable(s, s1, room, t);
    MembersAreDistinct(s1, room, t);
    LeftIsNowhere(s, s1, i, room);
    SamePartition(s, s1);
  }

  lemma SamePartition(s: State, r: State)
    requires Partition(s) && r == s.(rooms := r.rooms)
    ensures Partition(r)
  {
    hide Accounts.ValidName, Assoc.Find;
    forall a | 0 <= a < |r.newUsers|
      ensures NewOk(r, r.newUsers[a])
    {
      assert NewOk(s, s.newUsers[a]);
    }
    forall a | 0 <= a < |r.oldUsers|
      ensures OldOk(r, r.oldUsers[a].0, r.oldUsers[a].1)
    {
      assert OldOk(s, s.oldUsers[a].0, s.oldUsers[a].1);
    }
    forall j | 0 <= j < |r.users| && r.users[j].open
      ensures Registered(r, j)
    {
      assert Registered(s, j);
    }
  }

  lemma LeaveRoomKeeps(s: State, i: nat)
    requires Inv(s) && i < |s.users| && s.users[i].open && IsOld(s.users[i])
    ensures var r := LeaveRoom(s, i);
            && InvExcept(r, {i}) && Nowhere(r, i)
            && |r.users| == |s.users| && r.users[i] == s.users[i]
            && r == s.(users := r.users, rooms := r.rooms)
  {
    hide Sendable, Accounts.WellFormed, Roster.View, Accounts.ValidName, SendAll, Assoc.Values, Assoc.Remove,
      Assoc.Find, Partition, RoomOk, Nowhere, SetMembers;
    var u := s.users[i];
    if u.room.None? {
      UnplacedIsNowhere(s, i);
    } else {
      var room := u.room.value;
      var t, p := Assoc.Remove(Members(s, room), u.username), ChatEvent(UserLeaveChannel, u.username, "");
      TakenOut(s, i, room);
      var s1 := SetMembers(s, room, t);
      var r := SendAll(s1, Assoc.Values(t), p);
      SendAllEffect(s1, Assoc.Values(t), p);
      OnlySentKeeps(s1, r);
      SameRoomsSameNowhere(s1, r, i);
      NowhereIsUntold(s1, i, room);
      forall j | 0 <= j < |s.users| && j != i
        ensures Synced(r, j)
      {
        LeavingSyncs(s, s1, r, i, j, room);
      }
      LeaveIsSendable(s, i);
      SentStaySendable(s1, r, p);
    }
  }

  lemma NowhereIsUntold(s: State, i: nat, room: string)
    requires Nowhere(s, i)
    ensures i !in Assoc.Values(Members(s, room))
  {
  }

  lemma LeaveIsSendable(s: State, i: nat)
    requires Partition(s) && i < |s.users| && s.users[i].open && IsOld(s.users[i])
    ensures Sendable(ChatEvent(UserLeaveChannel, s.users[i].username, ""))
    ensures Sendable(ChatEvent(UserJoinChannel, s.users[i].username, ""))
  {
    OldUserIsFound(s, i);
  }

  lemma SentStaySendable(s: State, r: State, p: Packet)
    requires Sendable(p) && |r.users| == |s.users|
    requires forall j :: 0 <= j < |s.users| ==> AllSendable(s.users[j].sent)
    requires forall j :: 0 <= j < |s.users| ==> r.users[j].sent in {s.users[j].sent, s.users[j].sent + [p]}
    ensures forall j :: 0 <= j < |r.users| ==> AllSendable(r.users[j].sent)
  {
    hide Sendable;
  }

  lemma UnplacedIsNowhere(s: State, i: nat)
    requires Rooms(s) && i < |s.users| && s.users[i].room.None?
    ensures Nowhere(s, i)
  {
    forall room
      ensures i !in Assoc.Values(Members(s, room))
    {
      MembersOk(s, room);
      InTable(s, room, Members(s, room), i);
    }
  }

  lemma LeftIsNowhere(s: State, s1: State, i: nat, room: string)
    requires Rooms(s) && i < |s.users| && s.users[i].room == Some(room)
    requires s1.users == s.users && Rooms(s1)
    requires Members(s1, room) == Assoc.Remove(Members(s, room), s.users[i].username)
    requires forall other :: other != room ==> Members(s1, other) == Members(s, other)
    ensures Nowhere(s1, i)
  {
    forall other
      ensures i !in Assoc.Values(Members(s1, other))
    {
      MembersOk(s1, other);
      InTable(s1, other, Members(s1, other), i);
      if other == room {
        MembersOk(s, room);
        Assoc.FindRemoved(Members(s, room), s.users[i].username, s.users[i].username);
      }
    }
  }

  lemma LeavingKeepsOthersPlaced(s: State, i: nat, j: nat, room: string)
    requires Inv(s) && i < |s.users| && s.users[i].open && IsOld(s.users[i]) && s.users[i].room == Some(room)
    requires j < |s.users| && j != i && Assoc.Has(s.rooms, room)
    ensures Placed(SetMembers(s, room, Assoc.Remove(Members(s, room), s.users[i].username)), j)
  {
    hide Sendable, Accounts.WellFormed, Roster.View, Accounts.ValidName, Assoc.Remove, RoomOk;
    var t := Assoc.Remove(Members(s, room), s.users[i].username);
    MembersOk(s, room);
    RemovedTableOk(s, room, Members(s, room), s.users[i].username);
    SetMembersEffect(s, room, t);
    assert Placed(s, j);
    if s.users[j].open && s.users[j].room == Some(room) {
      NamesAreDistinct(s, i, j);
      Assoc.FindRemoved(Members(s, room), s.users[i].username, s.users[j].username);
    }
  }

  /** Of the other clients, exactly those in the room hear of the departure. */
  lemma LeavingSyncs(s: State, s1: State, r: State, i: nat, j: nat, room: string)
    requires Inv(s) && i < |s.users| && s.users[i].open && IsOld(s.users[i]) && s.users[i].room == Some(room)
    requires j < |s.users| && j != i && s1.users == s.users && |r.users| == |s.users| && r.rooms == s1.rooms
    requires var t := Assoc.Remove(Members(s, room), s.users[i].username);
             && Members(s1, room) == t && TableOk(s1, room, t)
             && r.users[j] == s.users[j].(sent := r.users[j].sent)
             && r.users[j].sent == if j in Assoc.Values(t) && s.users[j].open
                  then s.users[j].sent + [ChatEvent(UserLeaveChannel, s.users[i].username, "")] else s.users[j].sent
    requires forall other :: other != room ==> Members(s1, other) == Members(s, other)
    requires Placed(s1, j)
    ensures Synced(r, j)
  {
    hide Sendable, Accounts.WellFormed, Accounts.ValidName, Assoc.Remove, RoomOk, Roster.Replay;
    var t := Assoc.Remove(Members(s, room), s.users[i].username);
    var u := s.users[j];
    assert Synced(s, j);
    assert u.room.Some? ==> Members(r, u.room.value) == Members(s1, u.room.value);
    if u.open {
      InTable(s1, room, t, j);
      if u.room == Some(room) {
        Roster.ViewAfter(u.sent, ChatEvent(UserLeaveChannel, s.users[i].username, ""));
        MembersOk(s, room);
        Assoc.RemoveKeepsUnique(Members(s, room), s.users[i].username);
      }
    }
  }

  // ---- settling ----

  /** A send_chat to oneself reaches exactly oneself. */
  lemma TellEffect(s: State, i: nat, kind: EventKind, text: string)
    requires Partition(s) && i < |s.users| && s.users[i].open && IsOld(s.users[i])
    ensures Tell(s, i, kind, text) == Send(s, i, ChatEvent(kind, s.users[i].username, text))
    ensures Clean(text) && |text| <= MAX_PACKET ==> Sendable(ChatEvent(kind, s.users[i].username, text))
  {
    OldUserIsFound(s, i);
  }

  /** Any packet to the user who is between rooms. */
  lemma SendInLimbo(s: State, i: nat, p: Packet)
    requires InvExcept(s, {i}) && Nowhere(s, i) && i < |s.users| && s.users[i].open && Sendable(p)
    ensures var r := Send(s, i, p);
            && InvExcept(r, {i}) && Nowhere(r, i) && OnlySent(s, r)
            && r.users[i].sent == s.users[i].sent + [p]
            && Roster.View(r.users[i].sent) == Roster.Shown(Roster.View(s.users[i].sent), p)
  {
    hide Sendable, Accounts.WellFormed, Roster.View, Roster.Shown, RoomOk, Accounts.ValidName;
    var r := Send(s, i, p);
    SendEffect(s, i, p);
    OnlySentKeeps(s, r);
    SameRoomsSameNowhere(s, r, i);
    Roster.ViewAfter(s.users[i].sent, p);
    forall j | 0 <= j < |r.users| && j != i
      ensures Synced(r, j)
    {
      assert Synced(s, j);
    }
    SentStaySendable(s, r, p);
  }

  /** Changing the state and room of the user who is between rooms disturbs nobody. */
  lemma SetRoomInLimbo(s: State, i: nat, state: UserState, room: Option<string>)
    requires InvExcept(s, {i}) && Nowhere(s, i) && i < |s.users| && s.users[i].open && IsOld(s.users[i])
    requires state == NotInChannel || state == JoinedChannel
    ensures var r := SetPerson(s, i, s.users[i].(state := state, room := room));
            InvExcept(r, {i}) && Nowhere(r, i) && r == s.(users := r.users) && |r.users| == |s.users|
  {
    hide Sendable, Accounts.WellFormed, Roster.View, Accounts.ValidName;
    var r := SetPerson(s, i, s.users[i].(state := state, room := room));
    SameRoomsSameNowhere(s, r, i);
    forall a | 0 <= a < |r.newUsers|
      ensures NewOk(r, r.newUsers[a])
    {
      assert NewOk(s, s.newUsers[a]);
    }
    forall a | 0 <= a < |r.oldUsers|
      ensures OldOk(r, r.oldUsers[a].0, r.oldUsers[a].1)
    {
      assert OldOk(s, s.oldUsers[a].0, s.oldUsers[a].1);
    }
    forall j | 0 <= j < |r.users| && r.users[j].open
      ensures Registered(r, j)
    {
      assert Registered(s, j);
    }
    forall a | 0 <= a < |r.rooms|
      ensures RoomOk(r, r.rooms[a].0, r.rooms[a].1)
    {
      assert RoomOk(s, s.rooms[a].0, s.rooms[a].1);
      RoomWithoutUser(s, r, i, a);
    }
    forall j | 0 <= j < |r.users| && j != i
      ensures Placed(r, j) && Synced(r, j)
    {
      assert Placed(s, j) && Synced(s, j);
    }
    assert forall j :: 0 <= j < |r.users| ==> r.users[j].sent == s.users[j].sent;
  }

  lemma RoomWithoutUser(s: State, r: State, i: nat, a: nat)
    requires Rooms(s) && Nowhere(s, i) && a < |s.rooms| && |r.users| == |s.users|
    requires forall j :: 0 <= j < |s.users| && j != i ==> r.users[j] == s.users[j]
    ensures TableOk(r, s.rooms[a].0, s.rooms[a].1.users)
  {
    hide Sendable, Accounts.ValidName;
    var (room, t) := (s.rooms[a].0, s.rooms[a].1.users);
    assert RoomOk(s, s.rooms[a].0, s.rooms[a].1);
    Assoc.IndexUnique(s.rooms, a);
    assert Members(s, room) == t;
    forall b | 0 <= b < |t|
      ensures t[b].1 < |r.users| && r.users[t[b].1] == s.users[t[b].1]
    {
      assert EntryOk(s, room, t[b].0, t[b].1);
      assert Assoc.Values(t)[b] == t[b].1;
    }
    SameTable(s, r, room, t);
  }

  lemma GoNowhereKeeps(s: State, i: nat)
    requires InvExcept(s, {i}) && Nowhere(s, i) && i < |s.users| && s.users[i].open && IsOld(s.users[i])
    ensures Inv(GoNowhere(s, i))
  {
    hide InvExcept, Sendable, Accounts.WellFormed, Roster.View, Accounts.ValidName, Send, Partition, Rooms;
    LimboIsPartitioned(s, i);
    var name := s.users[i].username;
    TellEffect(s, i, Info, LeavingText());
    SendInLimbo(s, i, ChatEvent(Info, name, LeavingText()));
    var s1 := Tell(s, i, Info, LeavingText());
    LimboIsPartitioned(s1, i);
    TellEffect(s1, i, Channel, "");
    SendInLimbo(s1, i, ChatEvent(Channel, name, ""));
    var s2 := Tell(s1, i, Channel, "");
    SetRoomInLimbo(s2, i, NotInChannel, None);
    SettledOutside(GoNowhere(s, i), i);
  }

  lemma LimboIsPartitioned(s: State, i: nat)
    requires InvExcept(s, {i})
    ensures Partition(s)
  {
  }

  lemma SettledOutside(s: State, i: nat)
    requires InvExcept(s, {i}) && i < |s.users|
    requires s.users[i].state == NotInChannel && s.users[i].room == None
    requires Roster.View(s.users[i].sent) == {s.users[i].username}
    ensures Inv(s)
  {
  }

  // ---- entering ----

  lemma OpenRoomKeeps(s: State, i: nat, room: string)
    requires InvExcept(s, {i}) && Nowhere(s, i) && i < |s.users| && s.users[i].open && IsOld(s.users[i])
    requires 1 <= |room| < MAX_ROOM_LENGTH && !SameIgnoringCase(room, "backstage")
    ensures var r := OpenRoom(s, i, room);
            && InvExcept(r, {i}) && Nowhere(r, i) && Assoc.Has(r.rooms, room)
            && r == s.(users := r.users, rooms := r.rooms) && OnlySent(s, r.(rooms := s.rooms))
            && (forall j :: 0 <= j < |s.users| && j != i ==> r.users[j] == s.users[j])
            && (forall other :: Members(r, other) == Members(s, other))
  {
    hide Sendable, Accounts.WellFormed, Roster.View, Accounts.ValidName, RoomOk;
    if !Assoc.Has(s.rooms, room) {
      TellEffect(s, i, Info, CreatingText());
      var s1 := Tell(s, i, Info, CreatingText());
      SendEffect(s, i, ChatEvent(Info, s.users[i].username, CreatingText()));
      SendInLimbo(s, i, ChatEvent(Info, s.users[i].username, CreatingText()));
      NewRoomKeeps(s1, i, room);
    }
  }

  lemma NewRoomKeeps(s: State, i: nat, room: string)
    requires InvExcept(s, {i}) && Nowhere(s, i) && !Assoc.Has(s.rooms, room)
    requires 1 <= |room| < MAX_ROOM_LENGTH && !SameIgnoringCase(room, "backstage")
    ensures var r := s.(rooms := Assoc.Add(s.rooms, room, RoomCreate(room)));
            && InvExcept(r, {i}) && Nowhere(r, i) && Assoc.Has(r.rooms, room)
            && (forall other :: Members(r, other) == Members(s, other))
  {
    hide Sendable, Accounts.WellFormed, Roster.View, Accounts.ValidName;
    var r := s.(rooms := Assoc.Add(s.rooms, room, RoomCreate(room)));
    forall other
      ensures Assoc.Unique(r.rooms) && Members(r, other) == Members(s, other)
      ensures Assoc.Has(s.rooms, other) || other == room ==> Assoc.Has(r.rooms, other)
    {
      Assoc.AddRefinesMapUpdate(s.rooms, room, RoomCreate(room), other);
    }
    forall a | 0 <= a < |r.rooms|
      ensures RoomOk(r, r.rooms[a].0, r.rooms[a].1)
    {
      if a < |s.rooms| {
        assert RoomOk(s, s.rooms[a].0, s.rooms[a].1);
        SameTable(s, r, r.rooms[a].0, r.rooms[a].1.users);
      }
    }
    forall j | 0 <= j < |s.users| && j != i
      ensures Placed(r, j) && Synced(r, j)
    {
      assert Placed(s, j) && Synced(s, j);
    }
    assert Partition(r);
  }

  ghost predicate AllIn(s: State, room: string, users: seq<nat>) {
    forall k :: 0 <= k < |users| ==> users[k] < |s.users| && EntryOk(s, room, s.users[users[k]].username, users[k])
  }

  ghost function NamesOf(s: State, users: seq<nat>): set<string> {
    set k | 0 <= k < |users| :: Person(s, users[k]).username
  }

  /** After the list of users has been sent, the client shows whom it showed before and them. */
  lemma {:induction false} SendUsersInChannelKeeps(s: State, i: nat, room: string, users: seq<nat>)
    requires InvExcept(s, {i}) && Nowhere(s, i) && i < |s.users| && s.users[i].open
    requires AllIn(s, room, users)
    ensures var r := SendUsersInChannel(s, i, users);
            && InvExcept(r, {i}) && Nowhere(r, i) && OnlySent(s, r)
            && (forall j :: 0 <= j < |s.users| && j != i ==> r.users[j] == s.users[j])
            && Roster.View(r.users[i].sent) ==
               Roster.View(s.users[i].sent) + NamesOf(s, users)
    decreases |users|
  {
    hide InvExcept, Accounts.WellFormed, Roster.View, Accounts.ValidName, Nowhere;
    if users != [] {
      var name := s.users[users[0]].username;
      assert EntryOk(s, room, name, users[0]);
      Accounts.ValidNameIsClean(name);
      var p := ChatEvent(UserInChannel, name, "");
      var s1 := Send(s, i, p);
      SendEffect(s, i, p);
      SendInLimbo(s, i, p);
      forall k | 0 <= k < |users[1..]|
        ensures users[1..][k] < |s1.users| && EntryOk(s1, room, s1.users[users[1..][k]].username, users[1..][k])
      {
        assert EntryOk(s, room, s.users[users[k + 1]].username, users[k + 1]);
      }
      SendUsersInChannelKeeps(s1, i, room, users[1..]);
      FirstNameAndRest(s, s1, users);
      OnlySentIsTransitive(s, s1, SendUsersInChannel(s, i, users));
    }
  }

  lemma FirstNameAndRest(s: State, s1: State, users: seq<nat>)
    requires users != [] && |s1.users| == |s.users|
    requires forall j :: 0 <= j < |s.users| ==> s1.users[j].username == s.users[j].username
    ensures NamesOf(s, users) == {Person(s, users[0]).username} + NamesOf(s1, users[1..])
  {
    forall x | x in NamesOf(s, users)
      ensures x in {Person(s, users[0]).username} + NamesOf(s1, users[1..])
    {
      var k :| 0 <= k < |users| && Person(s, users[k]).username == x;
      assert k > 0 ==> users[1..][k - 1] == users[k];
    }
    forall x | x in NamesOf(s1, users[1..])
      ensures x in NamesOf(s, users)
    {
      var k :| 0 <= k < |users[1..]| && Person(s1, users[1..][k]).username == x;
      assert users[k + 1] == users[1..][k];
    }
  }

  lemma MemberNames(s: State, room: string, t: Assoc.Table<nat>)
    requires TableOk(s, room, t)
    ensures AllIn(s, room, Assoc.Values(t)) && NamesOf(s, Assoc.Values(t)) == Assoc.Keys(t)
  {
    var ids := Assoc.Values(t);
    forall k | 0 <= k < |ids|
      ensures ids[k] < |s.users| && EntryOk(s, room, s.users[ids[k]].username, ids[k])
      ensures Person(s, ids[k]).username == t[k].0
    {
      assert EntryOk(s, room, t[k].0, t[k].1);
    }
    forall x | x in Assoc.Keys(t)
      ensures x in NamesOf(s, ids)
    {
      var k :| 0 <= k < |t| && t[k].0 == x;
      assert Person(s, ids[k]).username == x;
    }
  }

  lemma AddedTableOk(s: State, room: string, t: Assoc.Table<nat>, name: string, i: nat)
    requires TableOk(s, room, t) && EntryOk(s, room, name, i)
    ensures TableOk(s, room, Assoc.Add(t, name, i))
  {
    Assoc.AddRefinesMapUpdate(t, name, i, name);
    var r := Assoc.Add(t, name, i);
    forall b | 0 <= b < |r|
      ensures EntryOk(s, room, r[b].0, r[b].1)
    {
      if b < |t| {
        assert EntryOk(s, room, t[b].0, t[b].1);
      }
    }
  }

  /** The last two steps of joining: enter the table, then tell everybody in it. */
  lemma AnnounceKeeps(s: State, i: nat, room: string)
    requires InvExcept(s, {i}) && Nowhere(s, i) && i < |s.users| && s.users[i].open
    requires s.users[i].state == JoinedChannel && s.users[i].room == Some(room) && Assoc.Has(s.rooms, room)
    requires Roster.View(s.users[i].sent) == Assoc.Keys(Members(s, room)) + {s.users[i].username}
    ensures var name := s.users[i].username;
            var s1 := SetMembers(s, room, Assoc.Add(Members(s, room), name, i));
            Inv(RoomMessage(s1, room, UserJoinChannel, name, ""))
  {
    hide Sendable, Accounts.WellFormed, Roster.View, Accounts.ValidName, SendAll, Assoc.Values, Assoc.Add, RoomOk,
      Assoc.Find;
    var name := s.users[i].username;
    var t := Assoc.Add(Members(s, room), name, i);
    var p := ChatEvent(UserJoinChannel, name, "");
    OldUserIsFound(s, i);
    LeaveIsSendable(s, i);
    MembersOk(s, room);
    AddedTableOk(s, room, Members(s, room), name, i);
    SetMembersEffect(s, room, t);
    var s1 := SetMembers(s, room, t);
    var r := SendAll(s1, Assoc.Values(t), p);
    forall j | 0 <= j < |s.users|
      ensures Placed(s1, j)
    {
      JoiningPlaces(s, s1, i, j, room);
    }
    SameTable(s, s1, room, t);
    MembersAreDistinct(s1, room, t);
    SendAllEffect(s1, Assoc.Values(t), p);
    OnlySentKeeps(s1, r);
    forall j | 0 <= j < |s.users|
      ensures Synced(r, j)
    {
      JoiningSyncs(s, s1, r, i, j, room);
    }
    SentStaySendable(s1, r, p);
  }

  lemma JoiningPlaces(s: State, s1: State, i: nat, j: nat, room: string)
    requires InvExcept(s, {i}) && i < |s.users| && s.users[i].open && j < |s.users|
    requires s.users[i].state == JoinedChannel && s.users[i].room == Some(room) && Assoc.Has(s.rooms, room)
    requires s1.users == s.users && Members(s1, room) == Assoc.Add(Members(s, room), s.users[i].username, i)
    requires forall other :: other != room ==> Members(s1, other) == Members(s, other)
    requires forall other :: Assoc.Has(s1.rooms, other) <==> Assoc.Has(s.rooms, other)
    ensures Placed(s1, j)
  {
    hide Sendable, Accounts.WellFormed, Roster.View, Accounts.ValidName, RoomOk, Assoc.Add, Assoc.Find;
    MembersOk(s, room);
    Assoc.AddRefinesMapUpdate(Members(s, room), s.users[i].username, i, s.users[j].username);
    if j != i && s.users[j].open && s.users[j].room == Some(room) {
      assert Placed(s, j);
      NamesAreDistinct(s, i, j);
    } else if j != i {
      assert Placed(s, j);
    }
  }

  /** The clients in the room, the newcomer included, and no others hear of the arrival. */
  lemma JoiningSyncs(s: State, s1: State, r: State, i: nat, j: nat, room: string)
    requires InvExcept(s, {i}) && i < |s.users| && s.users[i].open && j < |s.users|
    requires s.users[i].room == Some(room)
    requires Roster.View(s.users[i].sent) == Assoc.Keys(Members(s, room)) + {s.users[i].username}
    requires s1.users == s.users && |r.users| == |s.users| && r.rooms == s1.rooms
    requires var t := Assoc.Add(Members(s, room), s.users[i].username, i);
             && Members(s1, room) == t && TableOk(s1, room, t)
             && r.users[j] == s.users[j].(sent := r.users[j].sent)
             && r.users[j].sent == if j in Assoc.Values(t) && s.users[j].open
                  then s.users[j].sent + [ChatEvent(UserJoinChannel, s.users[i].username, "")] else s.users[j].sent
    requires forall other :: other != room ==> Members(s1, other) == Members(s, other)
    requires Placed(s1, j)
    ensures Synced(r, j)
  {
    hide Sendable, Accounts.WellFormed, Accounts.ValidName, RoomOk, Assoc.Add, Roster.Replay;
    var name := s.users[i].username;
    var t := Assoc.Add(Members(s, room), name, i);
    var u := s.users[j];
    assert j != i ==> Synced(s, j);
    assert u.room.Some? ==> Members(r, u.room.value) == Members(s1, u.room.value);
    if u.open {
      InTable(s1, room, t, j);
      if u.room == Some(room) {
        Roster.ViewAfter(u.sent, ChatEvent(UserJoinChannel, name, ""));
        MembersOk(s, room);
        Assoc.AddRefinesMapUpdate(Members(s, room), name, i, name);
      }
    }
  }

  lemma EnterRoomKeeps(s: State, i: nat, room: string)
    requires InvExcept(s, {i}) && Nowhere(s, i) && i < |s.users| && s.users[i].open && IsOld(s.users[i])
    requires 1 <= |room| < MAX_ROOM_LENGTH && !SameIgnoringCase(room, "backstage") && Clean(room)
    ensures Inv(EnterRoom(s, i, room))
  {
    hide InvExcept, Sendable, Accounts.WellFormed, Roster.View, Accounts.ValidName, Send, Partition, Rooms, OpenRoom,
      SendUsersInChannel, RoomMessage, SetMembers, Members, Nowhere, SendAll;
    var name := s.users[i].username;
    var s1 := OpenRoom(s, i, room);
    OpenRoomKeeps(s, i, room);
    LimboIsPartitioned(s1, i);
    var p := ChatEvent(Channel, name, room);
    TellEffect(s1, i, Channel, room);
    SendInLimbo(s1, i, p);
    var s2 := Tell(s1, i, Channel, room);
    LimboHasRooms(s2, i);
    var t := Members(s2, room);
    MembersOk(s2, room);
    MemberNames(s2, room, t);
    SendUsersInChannelKeeps(s2, i, room, Assoc.Values(t));
    var s3 := SendUsersInChannel(s2, i, Assoc.Values(t));
    SetRoomInLimbo(s3, i, JoinedChannel, Some(room));
    var s4 := SetPerson(s3, i, Person(s3, i).(state := JoinedChannel, room := Some(room)));
    SameRoomsSameMembers(s2, s4, room);
    AnnounceKeeps(s4, i, room);
    SetMembersKeepsUsers(s4, room, Assoc.Add(Members(s4, room), name, i));
  }

  lemma SetMembersKeepsUsers(s: State, room: string, t: Assoc.Table<nat>)
    ensures SetMembers(s, room, t).users == s.users
  {
  }

  lemma LimboHasRooms(s: State, i: nat)
    requires InvExcept(s, {i})
    ensures Rooms(s)
  {
  }

  lemma SameRoomsSameMembers(s: State, r: State, room: string)
    requires r.rooms == s.rooms
    ensures Members(r, room) == Members(s, room)
  {
  }

  /** Every join, refused or not, keeps all the invariants. */
  lemma JoinKeeps(s: State, i: nat, room: string)
    requires Inv(s) && i < |s.users| && s.users[i].open && IsOld(s.users[i]) && Clean(room)
    ensures Inv(Join(s, i, room))
  {
    hide InvExcept, Sendable, Send, Partition, Rooms, EnterRoom, LeaveRoom, GoNowhere, Nowhere, Chat;
    var name := s.users[i].username;
    InvIsPartitioned(s);
    OldUserIsFound(s, i);
    if SameIgnoringCase(room, "backstage") {
      ErrorToSelf(s, i, RestrictedText());
    } else if |room| >= MAX_ROOM_LENGTH {
      ErrorToSelf(s, i, TooLongText());
    } else {
      LeaveRoomKeeps(s, i);
      if room == "" {
        GoNowhereKeeps(LeaveRoom(s, i), i);
      } else {
        EnterRoomKeeps(LeaveRoom(s, i), i, room);
      }
    }
  }

  lemma InvIsPartitioned(s: State)
    requires Inv(s)
    ensures Partition(s) && Rooms(s)
  {
  }

  lemma ErrorToSelf(s: State, i: nat, text: string)
    requires Inv(s) && i < |s.users| && s.users[i].open && IsOld(s.users[i]) && Clean(text) && |text| <= MAX_PACKET
    ensures Inv(Tell(s, i, Error, text)) && OnlySent(s, Tell(s, i, Error, text))
    ensures Inv(Tell(s, i, Info, text)) && OnlySent(s, Tell(s, i, Info, text))
  {
    hide InvExcept, Partition;
    var name := s.users[i].username;
    InvIsPartitioned(s);
    OldUserIsFound(s, i);
    QuietChat(s, {}, Error, name, name, text);
    QuietChat(s, {}, Info, name, name, text);
  }
}
