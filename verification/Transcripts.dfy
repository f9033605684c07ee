/** What a user who joins a room is sent, packet for packet and in order. */
module Transcripts {
  import opened Types
  import opened Messages
  import opened ServerSpec
  import opened Invariants
  import Accounts
  import Assoc
  import Delivery
  import Effects
  import Joining
  import Roster

  /** The notice that a room is being created for the user. */
  function Creation(s: State, name: string, room: string): seq<Packet> {
    if Assoc.Has(s.rooms, room) then [] else [ChatEvent(Info, name, "Creating new channel for you")]
  }

  /** One packet for each user already there. */
  function Introductions(names: seq<string>): (ps: seq<Packet>)
    ensures |ps| == |names|
    ensures forall k :: 0 <= k < |names| ==> ps[k] == ChatEvent(UserInChannel, names[k], "")
  {
    seq(|names|, k requires 0 <= k < |names| => ChatEvent(UserInChannel, names[k], ""))
  }

  function KeysInOrder<V>(t: Assoc.Table<V>): (names: seq<string>)
    ensures |names| == |t|
    ensures forall k :: 0 <= k < |t| ==> names[k] == t[k].0
  {
    seq(|t|, k requires 0 <= k < |t| => t[k].0)
  }

  lemma OpenRoomTranscript(s: State, i: nat, room: string)
    requires Partition(s) && i < |s.users| && s.users[i].open && IsOld(s.users[i])
    ensures var r := OpenRoom(s, i, room);
            && |r.users| == |s.users|
            && r.users[i] == s.users[i].(sent := s.users[i].sent + Creation(s, s.users[i].username, room))
  {
    hide Partition, Accounts.ValidName, Send, Assoc.Find;
    Joining.TellEffect(s, i, Info, CreatingText());
    SendEffect(s, i, ChatEvent(Info, s.users[i].username, CreatingText()));
  }

  lemma {:induction false} IntroductionsAreSent(s: State, i: nat, ids: seq<nat>, names: seq<string>)
    requires i < |s.users| && s.users[i].open && |ids| == |names|
    requires forall k :: 0 <= k < |ids| ==> ids[k] < |s.users| && s.users[ids[k]].username == names[k]
    ensures var r := SendUsersInChannel(s, i, ids);
            && OnlySent(s, r)
            && r.users[i].sent == s.users[i].sent + Introductions(names)
    decreases |ids|
  {
    hide Send, Introductions;
    if ids == [] {
      assert Introductions(names) == [];
    } else {
      var p := ChatEvent(UserInChannel, names[0], "");
      var s1 := Send(s, i, p);
      SendEffect(s, i, p);
      forall k | 0 <= k < |ids[1..]|
        ensures ids[1..][k] < |s1.users| && s1.users[ids[1..][k]].username == names[1..][k]
      {
        assert ids[1..][k] == ids[k + 1] && names[1..][k] == names[k + 1];
      }
      IntroductionsAreSent(s1, i, ids[1..], names[1..]);
      OnlySentIsTransitive(s, s1, SendUsersInChannel(s1, i, ids[1..]));
      FirstIntroduction(s.users[i].sent, names);
    }
  }

  lemma FirstIntroduction(before: seq<Packet>, names: seq<string>)
    requires names != []
    ensures before + Introductions(names) ==
            before + [ChatEvent(UserInChannel, names[0], "")] + Introductions(names[1..])
  {
  }

  lemma MembersAreNamed(s: State, room: string, t: Assoc.Table<nat>)
    requires TableOk(s, room, t)
    ensures forall k :: 0 <= k < |t| ==>
            Assoc.Values(t)[k] < |s.users| && s.users[Assoc.Values(t)[k]].username == t[k].0
  {
    forall k | 0 <= k < |t|
      ensures Assoc.Values(t)[k] < |s.users| && s.users[Assoc.Values(t)[k]].username == t[k].0
    {
      assert EntryOk(s, room, t[k].0, t[k].1);
    }
  }

  /** The newcomer hears of its own arrival. */
  lemma AnnouncedToSelf(s: State, i: nat, room: string)
    requires InvExcept(s, {i}) && i < |s.users| && s.users[i].open
    requires s.users[i].state == JoinedChannel && s.users[i].room == Some(room) && Assoc.Has(s.rooms, room)
    ensures var name := s.users[i].username;
            var t := Assoc.Add(Members(s, room), name, i);
            var r := RoomMessage(SetMembers(s, room, t), room, UserJoinChannel, name, "");
            |r.users| == |s.users| && r.users[i].sent == s.users[i].sent + [ChatEvent(UserJoinChannel, name, "")]
  {
    hide Sendable, Accounts.WellFormed, Roster.View, Accounts.ValidName, SendAll, Assoc.Values, Assoc.Add, RoomOk,
      Assoc.Find;
    var name := s.users[i].username;
    var t, p := Assoc.Add(Members(s, room), name, i), ChatEvent(UserJoinChannel, name, "");
    OldUserIsFound(s, i);
    Joining.MembersOk(s, room);
    Joining.AddedTableOk(s, room, Members(s, room), name, i);
    Joining.SetMembersEffect(s, room, t);
    var s1 := SetMembers(s, room, t);
    SameTable(s, s1, room, t);
    Joining.MembersAreDistinct(s1, room, t);
    Joining.SendAllEffect(s1, Assoc.Values(t), p);
    Joining.InTable(s1, room, t, i);
    Assoc.AddRefinesMapUpdate(Members(s, room), name, i, name);
  }

  lemma EnterTranscript(s: State, i: nat, room: string)
    requires InvExcept(s, {i}) && Joining.Nowhere(s, i) && i < |s.users| && s.users[i].open && IsOld(s.users[i])
    requires 1 <= |room| < MAX_ROOM_LENGTH && !SameIgnoringCase(room, "backstage") && Clean(room)
    ensures var r, name := EnterRoom(s, i, room), s.users[i].username;
            && |r.users| == |s.users|
            && r.users[i].sent == s.users[i].sent + Creation(s, name, room) + [ChatEvent(Channel, name, room)] +
                                  Introductions(KeysInOrder(Members(s, room))) + [ChatEvent(UserJoinChannel, name, "")]
  {
    hide InvExcept, Sendable, Accounts.WellFormed, Roster.View, Accounts.ValidName, Send, Partition, Rooms, OpenRoom,
      SendUsersInChannel, RoomMessage, SetMembers, Members, Joining.Nowhere, SendAll, Assoc.Add, Assoc.Has, Creation;
    var name := s.users[i].username;
    var s1 := OpenRoom(s, i, room);
    Joining.LimboIsPartitioned(s, i);
    OpenRoomTranscript(s, i, room);
    Joining.OpenRoomKeeps(s, i, room);
    Joining.LimboIsPartitioned(s1, i);
    var p := ChatEvent(Channel, name, room);
    Joining.TellEffect(s1, i, Channel, room);
    SendEffect(s1, i, p);
    Joining.SendInLimbo(s1, i, p);
    var s2 := Tell(s1, i, Channel, room);
    Joining.LimboHasRooms(s2, i);
    var t := Members(s2, room);
    Joining.SameRoomsSameMembers(s1, s2, room);
    Joining.MembersOk(s2, room);
    MembersAreNamed(s2, room, t);
    Joining.MemberNames(s2, room, t);
    Joining.SendUsersInChannelKeeps(s2, i, room, Assoc.Values(t));
    IntroductionsAreSent(s2, i, Assoc.Values(t), KeysInOrder(t));
    var s3 := SendUsersInChannel(s2, i, Assoc.Values(t));
    Joining.SetRoomInLimbo(s3, i, JoinedChannel, Some(room));
    var s4 := SetPerson(s3, i, Person(s3, i).(state := JoinedChannel, room := Some(room)));
    Joining.SameRoomsSameMembers(s2, s4, room);
    AnnouncedToSelf(s4, i, room);
    Joining.SetMembersKeepsUsers(s4, room, Assoc.Add(Members(s4, room), name, i));
  }

  /** An admissible join sends the user, in this order: the notice of creation if the room is new,
      the room's name, everybody it finds there in the order of the room's table, and its own
      arrival. It is not itself among those it finds: an entry of its own name is a departed user. */
  lemma JoinTranscript(s: State, i: nat, room: string)
    requires Inv(s) && i < |s.users| && s.users[i].open && IsOld(s.users[i]) && Clean(room)
    requires Delivery.Admissible(room) && room != ""
    ensures var r, name := Join(s, i, room), s.users[i].username;
            var found := Members(LeaveRoom(s, i), room);
            && |r.users| == |s.users|
            && found == (if s.users[i].room == Some(room) then Assoc.Remove(Members(s, room), name)
                         else Members(s, room))
            && (forall k :: 0 <= k < |found| && found[k].0 == name ==>
                  found[k].1 < |s.users| && !s.users[found[k].1].open)
            && r.users[i].sent == s.users[i].sent + Creation(s, name, room) + [ChatEvent(Channel, name, room)] +
                                  Introductions(KeysInOrder(found)) + [ChatEvent(UserJoinChannel, name, "")]
  {
    hide InvExcept, Sendable, Send, Partition, Rooms, EnterRoom, LeaveRoom, GoNowhere, Joining.Nowhere, Chat, Members,
      Assoc.Remove, Assoc.Add, Assoc.Find, Assoc.Has;
    var s1 := LeaveRoom(s, i);
    Joining.LeaveRoomKeeps(s, i);
    Delivery.LeaveIsExact(s, i);
    EnterTranscript(s1, i, room);
    OwnNameIsDeparted(s1, i, room);
    OpenAsBefore(s, s1, i);
    var name := s.users[i].username;
    var found := Members(s1, room);
    LeftTable(s, i, room);
    assert Creation(s1, name, room) == Creation(s, name, room);
    assert Join(s, i, room) == EnterRoom(s1, i, room);
    forall k | 0 <= k < |found| && found[k].0 == name
      ensures found[k].1 < |s.users| && !s.users[found[k].1].open
    {
    }
  }

  lemma LeftTable(s: State, i: nat, room: string)
    requires Inv(s) && i < |s.users| && s.users[i].open && IsOld(s.users[i])
    ensures Members(LeaveRoom(s, i), room) ==
            if s.users[i].room == Some(room) then Assoc.Remove(Members(s, room), s.users[i].username)
            else Members(s, room)
  {
    hide Inv, LeaveRoom, Members, Assoc.Remove;
    Delivery.LeaveIsExact(s, i);
  }

  lemma OpenAsBefore(s: State, r: State, i: nat)
    requires Inv(s) && i < |s.users| && s.users[i].open && IsOld(s.users[i]) && r == LeaveRoom(s, i)
    ensures |r.users| == |s.users| && forall j :: 0 <= j < |s.users| ==> r.users[j].open == s.users[j].open
  {
    hide InvExcept, LeaveRoom, Joining.Nowhere;
    Effects.LeaveRoomExtends(s, i);
    Joining.LeaveRoomKeeps(s, i);
    assert forall j :: 0 <= j < |s.users| ==> Effects.Grows(s.users[j], r.users[j], j == i);
  }

  /** What is listed under the name of a user who is nowhere is a departed user. */
  lemma OwnNameIsDeparted(s: State, i: nat, room: string)
    requires InvExcept(s, {i}) && Joining.Nowhere(s, i) && i < |s.users| && s.users[i].open && IsOld(s.users[i])
    ensures var t := Members(s, room);
            forall k :: 0 <= k < |t| && t[k].0 == s.users[i].username ==> t[k].1 < |s.users| && !s.users[t[k].1].open
  {
    hide Sendable, Accounts.WellFormed, Roster.View, Accounts.ValidName, Members;
    Joining.MembersOk(s, room);
    var t := Members(s, room);
    forall k | 0 <= k < |t| && t[k].0 == s.users[i].username
      ensures t[k].1 < |s.users| && !s.users[t[k].1].open
    {
      assert EntryOk(s, room, t[k].0, t[k].1);
      assert Assoc.Values(t)[k] == t[k].1;
      if s.users[t[k].1].open {
        NamesAreDistinct(s, i, t[k].1);
      }
    }
  }
}
