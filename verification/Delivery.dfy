/** Who receives what, exactly: joins, talk and whispers. */
module Delivery {
  import opened Types
  import opened Messages
  import opened ServerSpec
  import opened Invariants
  import Assoc
  import Accounts
  import Joining
  import Stepping
  import Roster

  /** In a settled state a connected user is among a room's members exactly when it says so. */
  lemma MembersAreThoseInTheRoom(s: State, j: nat, room: string)
    requires Inv(s) && j < |s.users| && s.users[j].open
    ensures j in Assoc.Values(Members(s, room)) <==> s.users[j].room == Some(room)
  {
    hide Accounts.ValidName, Sendable, Roster.View;
    Joining.MembersOk(s, room);
    Joining.InTable(s, room, Members(s, room), j);
    assert Placed(s, j);
  }

  /** Talk: one packet to each connected user of the room, the speaker included, and none to any
      other connected user. The lookup of the room never fails. */
  lemma TalkReachesExactlyTheRoom(s: State, i: nat, room: string, text: string)
    requires Inv(s) && i < |s.users| && s.users[i].open && s.users[i].room == Some(room)
    ensures var r := Say(s, i, text);
            && OnlySent(s, r)
            && forall j :: 0 <= j < |s.users| && s.users[j].open ==>
                 r.users[j].sent == s.users[j].sent +
                   (if s.users[j].room == Some(room) then [ChatEvent(Talk, s.users[i].username, text)] else [])
  {
    hide Accounts.ValidName, Sendable, Roster.View, Rooms, Partition, SendAll, Assoc.Values;
    assert Placed(s, i);
    var t, p := Members(s, room), ChatEvent(Talk, s.users[i].username, text);
    Joining.MembersOk(s, room);
    Joining.MembersAreDistinct(s, room, t);
    Joining.SendAllEffect(s, Assoc.Values(t), p);
    forall j | 0 <= j < |s.users| && s.users[j].open
      ensures Say(s, i, text).users[j].sent == s.users[j].sent + (if s.users[j].room == Some(room) then [p] else [])
    {
      MembersAreThoseInTheRoom(s, j, room);
    }
  }

  /** What a talk sends to any connected user of the room is within the client's limit on packets
      exactly when the speaker's name and the text have at most 9590 characters together. The server
      itself accepts texts of up to 9595. */
  lemma TalkFitsExactly(s: State, i: nat, j: nat, room: string, text: string)
    requires Inv(s) && i < |s.users| && s.users[i].open && s.users[i].room == Some(room)
    requires j < |s.users| && s.users[j].open && s.users[j].room == Some(room)
    requires Clean(text) && |text| <= 9595
    ensures var p, r := ChatEvent(Talk, s.users[i].username, text), Say(s, i, text);
            && |r.users| == |s.users| && r.users[j].sent == s.users[j].sent + [p] && Sendable(p)
            && (|Wire(p)| <= MAX_PACKET <==> |s.users[i].username| + |text| <= 9590)
  {
    hide Accounts.ValidName, Roster.View, InvExcept, Partition, Rooms, Wire, Say;
    Joining.InvIsPartitioned(s);
    PlacedIsOld(s, i);
    OldUserIsFound(s, i);
    TalkReachesExactlyTheRoom(s, i, room, text);
    ChatEventFitsExactly(Talk, s.users[i].username, text);
  }

  lemma PlacedIsOld(s: State, i: nat)
    requires Inv(s) && i < |s.users| && s.users[i].open && s.users[i].room.Some?
    ensures IsOld(s.users[i])
  {
    hide Roster.View, Accounts.ValidName;
    assert Placed(s, i);
  }

  /** What "/w you text" takes for the addressee and for the message. */
  function Addressed(you: string): string {
    you[..IndexOfChar(you, ' ')]
  }

  function Remainder(you: string, text: string): string {
    var n := IndexOfChar(you, ' ');
    if n == |you| then text else you[n + 1..] + (" " + text)
  }

  lemma WhisperSplits(you: string, text: string)
    ensures var param := you + (" " + text);
            var n := IndexOfChar(param, ' ');
            n < |param| && param[..n] == Addressed(you) && param[n + 1..] == Remainder(you, text)
    ensures Addressed(you) == you <==> IndexOfChar(you, ' ') == |you|
  {
    hide IndexOfChar;
    var n := IndexOfChar(you, ' ');
    FirstSpace(you, text);
    SplitAt(you, text, n);
    if n < |you| {
      assert |Addressed(you)| < |you|;
    } else {
      assert you[..n] == you;
    }
  }

  lemma FirstSpace(you: string, text: string)
    ensures IndexOfChar(you + (" " + text), ' ') == IndexOfChar(you, ' ')
  {
    hide IndexOfChar;
    var param := you + (" " + text);
    assert forall j :: 0 <= j < |you| ==> param[j] == you[j];
    assert param[|you|] == ' ';
    IndexOfCharIs(param, ' ', IndexOfChar(you, ' '));
  }

  lemma SplitAt(a: string, b: string, n: nat)
    requires n <= |a|
    ensures (a + (" " + b))[..n] == a[..n]
    ensures (a + (" " + b))[n + 1..] == if n < |a| then a[n + 1..] + (" " + b) else b
  {
  }

  /** Where a whisper goes, whatever is typed for the name: to the user of that name up to its first
      space, with the rest of it in front of the text, and an echo to the sender; or, if nobody has
      that name, nowhere but an error to the sender. */
  lemma WhisperGoesToTheFirstWord(s: State, i: nat, you: string, text: string)
    requires Inv(s) && i < |s.users| && s.users[i].open && IsOld(s.users[i])
    ensures var me := s.users[i].username;
            var to, rest := Assoc.Find(s.oldUsers, Addressed(you)), Remainder(you, text);
            Whisper(s, i, you + (" " + text)) ==
            if to.None? then Send(s, i, ChatEvent(Error, me, NotLoggedOnText()))
            else Send(Send(s, to.value, ChatEvent(WhisperFrom, me, rest)), i,
                           ChatEvent(WhisperTo, Addressed(you), rest))
  {
    hide Accounts.ValidName, Sendable, Roster.View, InvExcept, Partition, Rooms, Send, Addressed, Remainder,
      IndexOfChar, Assoc.IndexOf, Tell;
    Joining.InvIsPartitioned(s);
    OldUserIsFound(s, i);
    WhisperSplits(you, text);
    Joining.TellEffect(s, i, Error, NotLoggedOnText());
    var to := Assoc.Find(s.oldUsers, Addressed(you));
    if to.Some? {
      FoundIsOldUser(s, Addressed(you));
      SendEffect(s, to.value, ChatEvent(WhisperFrom, s.users[i].username, Remainder(you, text)));
    }
  }

  /** A whisper reaches its addressee and is echoed to the sender; nobody else receives anything. */
  lemma WhisperReachesExactlyTwo(s: State, i: nat, k: nat, text: string)
    requires Inv(s) && i < |s.users| && s.users[i].open && IsOld(s.users[i])
    requires k < |s.users| && s.users[k].open && IsOld(s.users[k])
    requires IndexOfChar(s.users[k].username, ' ') == |s.users[k].username|
    ensures var me, you := s.users[i].username, s.users[k].username;
            var r := Whisper(s, i, you + (" " + text));
            && OnlySent(s, r)
            && (forall j :: 0 <= j < |s.users| && j != i && j != k ==> r.users[j] == s.users[j])
            && (if i == k then
                  r.users[i].sent == s.users[i].sent + [ChatEvent(WhisperFrom, me, text),
                                                        ChatEvent(WhisperTo, me, text)]
                else
                  && r.users[k].sent == s.users[k].sent + [ChatEvent(WhisperFrom, me, text)]
                  && r.users[i].sent == s.users[i].sent + [ChatEvent(WhisperTo, you, text)])
  {
    hide Accounts.ValidName, Sendable, Roster.View, InvExcept, Partition, Rooms, Send, Addressed, Remainder, Whisper;
    var me, you := s.users[i].username, s.users[k].username;
    Joining.InvIsPartitioned(s);
    OldUserIsFound(s, k);
    WhisperSplits(you, text);
    SpacelessRemainder(you, text);
    WhisperGoesToTheFirstWord(s, i, you, text);
    var s1 := Send(s, k, ChatEvent(WhisperFrom, me, text));
    SendEffect(s, k, ChatEvent(WhisperFrom, me, text));
    SendEffect(s1, i, ChatEvent(WhisperTo, you, text));
    OnlySentIsTransitive(s, s1, Send(s1, i, ChatEvent(WhisperTo, you, text)));
  }

  lemma SpacelessRemainder(you: string, text: string)
    requires IndexOfChar(you, ' ') == |you|
    ensures Remainder(you, text) == text
  {
  }

  /** A whisper reaches the connected user it names if and only if that name has no space. With a
      space the user named is not affected at all. */
  lemma WhisperReachesExactlySpacelessNames(s: State, i: nat, k: nat, text: string)
    requires Inv(s) && i < |s.users| && s.users[i].open && IsOld(s.users[i])
    requires k < |s.users| && s.users[k].open && IsOld(s.users[k]) && k != i
    ensures var me, you := s.users[i].username, s.users[k].username;
            var r := Whisper(s, i, you + (" " + text));
            && |r.users| == |s.users|
            && (r.users[k].sent == s.users[k].sent + [ChatEvent(WhisperFrom, me, text)] <==>
                  IndexOfChar(you, ' ') == |you|)
            && (IndexOfChar(you, ' ') < |you| ==> r.users[k] == s.users[k])
  {
    hide Accounts.ValidName, Sendable, Roster.View, InvExcept, Partition, Rooms, Addressed, Remainder;
    var me, you := s.users[i].username, s.users[k].username;
    Joining.InvIsPartitioned(s);
    OldUserIsFound(s, k);
    WhisperSplits(you, text);
    WhisperGoesToTheFirstWord(s, i, you, text);
    if IndexOfChar(you, ' ') == |you| {
      WhisperReachesExactlyTwo(s, i, k, text);
    } else if Assoc.Has(s.oldUsers, Addressed(you)) {
      FoundIsOldUser(s, Addressed(you));
    }
  }

  /** Such names can be registered. */
  lemma ANameWithASpace()
    ensures Accounts.ValidName("RON BOWES") && Addressed("RON BOWES") == "RON"
    ensures Remainder("RON BOWES", "hi") == "BOWES hi"
  {
    IndexOfCharIs("RON BOWES", ' ', 3);
    assert "RON BOWES"[..3] == "RON";
  }

  // ---- joins ----

  function LeaveNotice(s: State, i: nat, j: nat): seq<Packet>
    requires i < |s.users| && j < |s.users|
  {
    if s.users[i].room.Some? && s.users[j].room == s.users[i].room
    then [ChatEvent(UserLeaveChannel, s.users[i].username, "")] else []
  }

  function JoinNotice(s: State, i: nat, j: nat, room: string): seq<Packet>
    requires i < |s.users| && j < |s.users|
  {
    if s.users[j].room == Some(room) then [ChatEvent(UserJoinChannel, s.users[i].username, "")] else []
  }

  /** Exactly the other connected users of the old room are told; the user leaves its table. */
  lemma LeaveIsExact(s: State, i: nat)
    requires Inv(s) && i < |s.users| && s.users[i].open && IsOld(s.users[i])
    ensures var r := LeaveRoom(s, i);
            && |r.users| == |s.users|
            && (forall j :: 0 <= j < |s.users| && j != i && s.users[j].open ==>
                  r.users[j] == s.users[j].(sent := s.users[j].sent + LeaveNotice(s, i, j)))
            && (forall room :: Members(r, room) ==
                  if s.users[i].room == Some(room) then Assoc.Remove(Members(s, room), s.users[i].username)
                  else Members(s, room))
            && (forall room :: Assoc.Has(r.rooms, room) <==> Assoc.Has(s.rooms, room))
  {
    hide Accounts.ValidName, Sendable, Roster.View, SendAll, Assoc.Remove, RoomOk;
    assert Placed(s, i);
    var u, r := s.users[i], LeaveRoom(s, i);
    if u.room.Some? {
      var room := u.room.value;
      var t, p := Assoc.Remove(Members(s, room), u.username), ChatEvent(UserLeaveChannel, u.username, "");
      var s1 := SetMembers(s, room, t);
      Joining.MembersOk(s, room);
      Joining.RemovedTableOk(s, room, Members(s, room), u.username);
      Joining.SetMembersEffect(s, room, t);
      SameTable(s, s1, room, t);
      Joining.MembersAreDistinct(s1, room, t);
      Joining.SendAllEffect(s1, Assoc.Values(t), p);
      assert forall other :: Members(r, other) == Members(s1, other);
      forall j | 0 <= j < |s.users| && j != i && s.users[j].open
        ensures r.users[j] == s.users[j].(sent := s.users[j].sent + LeaveNotice(s, i, j))
      {
        Joining.InTable(s1, room, t, j);
        Joining.LeavingKeepsOthersPlaced(s, i, j, room);
      }
    } else {
      assert forall j :: 0 <= j < |s.users| ==> LeaveNotice(s, i, j) == [];
    }
  }

  /** Exactly the connected users of the new room are told, and the user enters its table. */
  lemma EnterIsExact(s: State, i: nat, room: string)
    requires InvExcept(s, {i}) && Joining.Nowhere(s, i) && i < |s.users| && s.users[i].open && IsOld(s.users[i])
    requires 1 <= |room| < MAX_ROOM_LENGTH && !SameIgnoringCase(room, "backstage") && Clean(room)
    ensures var r := EnterRoom(s, i, room);
            && |r.users| == |s.users|
            && (forall j :: 0 <= j < |s.users| && j != i && s.users[j].open ==>
                  r.users[j] == s.users[j].(sent := s.users[j].sent + JoinNotice(s, i, j, room)))
            && r.users[i] == s.users[i].(state := JoinedChannel, room := Some(room), sent := r.users[i].sent)
            && (forall other :: Members(r, other) ==
                  if other == room then Assoc.Add(Members(s, room), s.users[i].username, i) else Members(s, other))
            && (forall other :: Assoc.Has(r.rooms, other) <==> Assoc.Has(s.rooms, other) || other == room)
  {
    hide InvExcept, Sendable, Accounts.WellFormed, Roster.View, Accounts.ValidName, Send, Partition, Rooms, OpenRoom,
      SendUsersInChannel, RoomMessage, SetMembers, Members, Joining.Nowhere, SendAll, Assoc.Add, Assoc.Has;
    var name := s.users[i].username;
    var s1 := OpenRoom(s, i, room);
    Joining.OpenRoomKeeps(s, i, room);
    Joining.LimboHasRooms(s, i);
    OpenRoomIsExact(s, i, room);
    Joining.LimboIsPartitioned(s1, i);
    var p := ChatEvent(Channel, name, room);
    Joining.TellEffect(s1, i, Channel, room);
    SendEffect(s1, i, p);
    Joining.SendInLimbo(s1, i, p);
    var s2 := Tell(s1, i, Channel, room);
    Joining.LimboHasRooms(s2, i);
    var t := Members(s2, room);
    Joining.MembersOk(s2, room);
    Joining.MemberNames(s2, room, t);
    Joining.SendUsersInChannelKeeps(s2, i, room, Assoc.Values(t));
    var s3 := SendUsersInChannel(s2, i, Assoc.Values(t));
    Joining.SetRoomInLimbo(s3, i, JoinedChannel, Some(room));
    var s4 := SetPerson(s3, i, Person(s3, i).(state := JoinedChannel, room := Some(room)));
    forall other
      ensures Members(s4, other) == Members(s1, other)
    {
      Joining.SameRoomsSameMembers(s1, s4, other);
    }
    AnnounceIsExact(s4, i, room);
    Joining.SetMembersKeepsUsers(s4, room, Assoc.Add(Members(s4, room), name, i));
    assert forall j :: 0 <= j < |s.users| && j != i ==> s4.users[j] == s.users[j];
  }

  lemma OpenRoomIsExact(s: State, i: nat, room: string)
    requires Rooms(s) && i < |s.users|
    ensures forall other :: Assoc.Has(OpenRoom(s, i, room).rooms, other) <==> Assoc.Has(s.rooms, other) || other == room
  {
    hide Partition, Accounts.WellFormed, RoomOk;
    forall other
      ensures Assoc.Has(OpenRoom(s, i, room).rooms, other) <==> Assoc.Has(s.rooms, other) || other == room
    {
      Assoc.AddRefinesMapUpdate(s.rooms, room, RoomCreate(room), other);
      Assoc.HasIsKeys(s.rooms, other);
      Assoc.HasIsKeys(Assoc.Add(s.rooms, room, RoomCreate(room)), other);
    }
  }

  lemma AnnounceIsExact(s: State, i: nat, room: string)
    requires InvExcept(s, {i}) && Joining.Nowhere(s, i) && i < |s.users| && s.users[i].open
    requires s.users[i].state == JoinedChannel && s.users[i].room == Some(room) && Assoc.Has(s.rooms, room)
    ensures var name := s.users[i].username;
            var t := Assoc.Add(Members(s, room), name, i);
            var r := RoomMessage(SetMembers(s, room, t), room, UserJoinChannel, name, "");
            && |r.users| == |s.users|
            && (forall j :: 0 <= j < |s.users| && j != i && s.users[j].open ==>
                  r.users[j] == s.users[j].(sent := s.users[j].sent + JoinNotice(s, i, j, room)))
            && r.users[i] == s.users[i].(sent := r.users[i].sent)
            && (forall other :: Members(r, other) == if other == room then t else Members(s, other))
            && (forall other :: Assoc.Has(r.rooms, other) <==> Assoc.Has(s.rooms, other))
  {
    hide Sendable, Accounts.WellFormed, Roster.View, Accounts.ValidName, SendAll, Assoc.Values, Assoc.Add, RoomOk,
      Assoc.Find;
    var name := s.users[i].username;
    var t, p := Assoc.Add(Members(s, room), name, i), ChatEvent(UserJoinChannel, name, "");
    OldUserIsFound(s, i);
    Joining.MembersOk(s, room);
    Joining.AddedTableOk(s, room, Members(s, room), name, i);
    Joining.SetMembersEffect(s, room, t);
    var s1 := SetMembers(s, room, t);
    var r := SendAll(s1, Assoc.Values(t), p);
    SameTable(s, s1, room, t);
    Joining.MembersAreDistinct(s1, room, t);
    Joining.SendAllEffect(s1, Assoc.Values(t), p);
    assert forall other :: Members(r, other) == Members(s1, other);
    forall j | 0 <= j < |s.users| && j != i && s.users[j].open
      ensures r.users[j] == s.users[j].(sent := s.users[j].sent + JoinNotice(s, i, j, room))
    {
      Joining.InTable(s1, room, t, j);
      Joining.JoiningPlaces(s, s1, i, j, room);
    }
  }

  predicate Admissible(room: string) {
    !SameIgnoringCase(room, "backstage") && |room| < MAX_ROOM_LENGTH
  }

  /** A refused join changes nothing but the error message to the user. */
  lemma RefusedJoinOnlyComplains(s: State, i: nat, room: string)
    requires Inv(s) && i < |s.users| && s.users[i].open && IsOld(s.users[i]) && !Admissible(room)
    ensures Join(s, i, room) ==
            Send(s, i, ChatEvent(Error, s.users[i].username,
                                 if SameIgnoringCase(room, "backstage") then RestrictedText() else TooLongText()))
  {
    hide InvExcept, Send;
    Joining.InvIsPartitioned(s);
    Joining.TellEffect(s, i, Error, RestrictedText());
    Joining.TellEffect(s, i, Error, TooLongText());
  }

  /** An admissible join moves exactly this user, tells exactly the other connected users of the
      two rooms, the departure first, and leaves every other room alone. */
  lemma JoinIsExact(s: State, i: nat, room: string)
    requires Inv(s) && i < |s.users| && s.users[i].open && IsOld(s.users[i]) && Clean(room)
    requires Admissible(room) && room != ""
    ensures var r, name := Join(s, i, room), s.users[i].username;
            && |r.users| == |s.users|
            && r.users[i] == s.users[i].(state := JoinedChannel, room := Some(room), sent := r.users[i].sent)
            && Assoc.Find(Members(r, room), name) == Some(i)
            && (forall j :: 0 <= j < |s.users| && j != i && s.users[j].open ==>
                  r.users[j] == s.users[j].(sent := s.users[j].sent + LeaveNotice(s, i, j) + JoinNotice(s, i, j, room)))
            && (forall other | other != room ::
                  Members(r, other) == if s.users[i].room == Some(other) then Assoc.Remove(Members(s, other), name)
                                       else Members(s, other))
            && Members(r, room) == Assoc.Add(Members(LeaveRoom(s, i), room), name, i)
            && Assoc.Keys(Members(r, room)) == Assoc.Keys(Members(s, room)) + {name}
            && (forall other :: Assoc.Has(r.rooms, other) <==> Assoc.Has(s.rooms, other) || other == room)
  {
    hide InvExcept, Sendable, Send, Partition, Rooms, EnterRoom, LeaveRoom, GoNowhere, Joining.Nowhere, Chat, Members,
      Assoc.Remove, Assoc.Add, Assoc.Find, Assoc.Has;
    var name, s1 := s.users[i].username, LeaveRoom(s, i);
    Joining.LeaveRoomKeeps(s, i);
    LeaveIsExact(s, i);
    EnterIsExact(s1, i, room);
    Joining.InvIsPartitioned(s);
    Joining.LimboHasRooms(s1, i);
    Joining.MembersOk(s, room);
    Joining.MembersOk(s1, room);
    AddedAfterRemoved(Members(s, room), name, i);
  }

  lemma AddedAfterRemoved(t: Assoc.Table<nat>, name: string, i: nat)
    requires Assoc.Unique(t)
    ensures Assoc.Find(Assoc.Add(t, name, i), name) == Some(i)
    ensures Assoc.Find(Assoc.Add(Assoc.Remove(t, name), name, i), name) == Some(i)
    ensures Assoc.Keys(Assoc.Add(t, name, i)) == Assoc.Keys(t) + {name}
    ensures Assoc.Keys(Assoc.Add(Assoc.Remove(t, name), name, i)) == Assoc.Keys(t) + {name}
  {
    hide Assoc.Add, Assoc.Remove, Assoc.Find;
    Assoc.RemoveKeepsUnique(t, name);
    Assoc.AddRefinesMapUpdate(t, name, i, name);
    Assoc.AddRefinesMapUpdate(Assoc.Remove(t, name), name, i, name);
  }

  /** Joining without a name takes the user out of its room, and its client shows itself alone. */
  lemma LeavingChatIsExact(s: State, i: nat)
    requires Inv(s) && i < |s.users| && s.users[i].open && IsOld(s.users[i])
    ensures var r := Join(s, i, "");
            && |r.users| == |s.users|
            && r.users[i] == s.users[i].(state := NotInChannel, room := None, sent := s.users[i].sent +
                 [ChatEvent(Info, s.users[i].username, LeavingText()), ChatEvent(Channel, s.users[i].username, "")])
            && Roster.View(r.users[i].sent) == {s.users[i].username}
            && (forall j :: 0 <= j < |s.users| && j != i && s.users[j].open ==>
                  r.users[j] == s.users[j].(sent := s.users[j].sent + LeaveNotice(s, i, j)))
            && r.rooms == LeaveRoom(s, i).rooms
  {
    hide InvExcept, Sendable, Send, Partition, Rooms, LeaveRoom, Joining.Nowhere, Chat, Roster.View;
    Joining.LeaveRoomKeeps(s, i);
    LeaveIsExact(s, i);
    var s0, name := LeaveRoom(s, i), s.users[i].username;
    Joining.LimboIsPartitioned(s0, i);
    Joining.TellEffect(s0, i, Info, LeavingText());
    var s1 := Tell(s0, i, Info, LeavingText());
    SendEffect(s0, i, ChatEvent(Info, name, LeavingText()));
    Joining.SendInLimbo(s0, i, ChatEvent(Info, name, LeavingText()));
    Joining.LimboIsPartitioned(s1, i);
    Joining.TellEffect(s1, i, Channel, "");
    SendEffect(s1, i, ChatEvent(Channel, name, ""));
    Roster.ViewAfter(s1.users[i].sent, ChatEvent(Channel, name, ""));
  }

  // ---- what stays with a user ----

  /** Name, tokens and connection of an authenticated user are fixed by every command. */
  ghost predicate SameIdentity(u: UserRecord, v: UserRecord) {
    && v.username == u.username
    && v.clientToken == u.clientToken
    && v.serverToken == u.serverToken
    && v.open == u.open
    && IsOld(v)
  }

  lemma MessageKeepsIdentity(s: State, i: nat, text: string, lines: seq<Notice>)
    requires Inv(s) && i < |s.users| && s.users[i].open && IsOld(s.users[i])
    requires Clean(text) && |text| <= MAX_PACKET
    ensures var r := Message(s, i, text, lines); |r.users| == |s.users| && SameIdentity(s.users[i], r.users[i])
  {
    hide InvExcept, Join, Listing, Whisper, Say, Named, Chat, Partition, Rooms;
    Stepping.SayKeeps(s, i, text);
    if text != "" && text[0] == '/' {
      var line := text[1..];
      var k := IndexOfChar(line, ' ');
      var param := if k < |line| then line[k + 1..] else "";
      JoinKeepsIdentity(s, i, param);
      Stepping.ListingKeeps(s, i, lines);
      Stepping.WhisperKeeps(s, i, param);
      Joining.ErrorToSelf(s, i, UnknownCommandText());
    }
  }

  lemma JoinKeepsIdentity(s: State, i: nat, room: string)
    requires Inv(s) && i < |s.users| && s.users[i].open && IsOld(s.users[i]) && Clean(room)
    ensures var r := Join(s, i, room); |r.users| == |s.users| && SameIdentity(s.users[i], r.users[i])
  {
    hide InvExcept, Join;
    if !Admissible(room) {
      RefusedJoinOnlyComplains(s, i, room);
    } else if room == "" {
      LeavingChatIsExact(s, i);
    } else {
      JoinIsExact(s, i, room);
    }
  }
}
