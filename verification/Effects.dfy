/** What one event can change: its own user's record, and the packets sent to authenticated users. */
module Effects {
  import opened Types
  import opened Messages
  import opened ServerSpec
  import opened Invariants
  import Assoc
  import Accounts
  import Joining
  import Stepping

  /** Only user i's own record changes; what was sent stays sent; a user who has not logged in
      receives nothing from the events of others. */
  ghost predicate Extends(s: State, r: State, i: nat) {
    && |r.users| == |s.users|
    && r.sha1 == s.sha1
    && forall j :: 0 <= j < |s.users| ==> Grows(s.users[j], r.users[j], j == i)
  }

  ghost predicate Grows(u: UserRecord, v: UserRecord, mine: bool) {
    && u.sent <= v.sent
    && u.serverToken == v.serverToken
    && (!mine ==> v == u.(sent := v.sent))
    && (!mine && !IsOld(u) ==> v == u)
  }

  lemma ExtendsIsTransitive(s: State, r: State, t: State, i: nat)
    requires Extends(s, r, i) && Extends(r, t, i)
    ensures Extends(s, t, i)
  {
    forall j | 0 <= j < |s.users|
      ensures Grows(s.users[j], t.users[j], j == i)
    {
      assert Grows(s.users[j], r.users[j], j == i) && Grows(r.users[j], t.users[j], j == i);
    }
  }

  lemma SendExtends(s: State, i: nat, k: nat, p: Packet)
    requires k == i || (k < |s.users| ==> IsOld(s.users[k]))
    ensures Extends(s, Send(s, k, p), i)
  {
  }

  lemma {:induction false} SendAllExtends(s: State, i: nat, ids: seq<nat>, p: Packet)
    requires forall k :: 0 <= k < |ids| ==> ids[k] < |s.users| && IsOld(s.users[ids[k]])
    ensures Extends(s, SendAll(s, ids, p), i)
    decreases |ids|
  {
    if ids != [] {
      var s1 := Send(s, ids[0], p);
      SendExtends(s, i, ids[0], p);
      SendEffect(s, ids[0], p);
      forall k | 0 <= k < |ids[1..]|
        ensures ids[1..][k] < |s1.users| && IsOld(s1.users[ids[1..][k]])
      {
        assert ids[1..][k] == ids[k + 1];
      }
      SendAllExtends(s1, i, ids[1..], p);
      ExtendsIsTransitive(s, s1, SendAll(s, ids, p), i);
    }
  }

  lemma ChatExtends(s: State, i: nat, kind: EventKind, to: string, from: string, text: string)
    requires Partition(s)
    ensures Extends(s, Chat(s, kind, to, from, text), i)
  {
    if Assoc.Has(s.oldUsers, to) {
      FoundIsOldUser(s, to);
      SendExtends(s, i, Assoc.Find(s.oldUsers, to).value, ChatEvent(kind, from, text));
    }
  }

  lemma {:induction false} SendUsersInChannelExtends(s: State, i: nat, users: seq<nat>)
    ensures Extends(s, SendUsersInChannel(s, i, users), i)
    decreases |users|
  {
    if users != [] {
      var p := ChatEvent(UserInChannel, Person(s, users[0]).username, "");
      SendExtends(s, i, i, p);
      SendUsersInChannelExtends(Send(s, i, p), i, users[1..]);
      ExtendsIsTransitive(s, Send(s, i, p), SendUsersInChannel(s, i, users), i);
    }
  }

  lemma RoomMessageExtends(s: State, i: nat, room: string, kind: EventKind, from: string, text: string)
    requires Rooms(s)
    ensures Extends(s, RoomMessage(s, room, kind, from, text), i)
  {
    Joining.MembersOk(s, room);
    Joining.MemberNames(s, room, Members(s, room));
    SendAllExtends(s, i, Assoc.Values(Members(s, room)), ChatEvent(kind, from, text));
  }

  lemma SameUsersExtend(s: State, r: State, i: nat)
    requires r.users == s.users && r.sha1 == s.sha1
    ensures Extends(s, r, i)
  {
  }

  lemma LeaveRoomExtends(s: State, i: nat)
    requires Inv(s) && i < |s.users| && s.users[i].open && IsOld(s.users[i])
    ensures Extends(s, LeaveRoom(s, i), i)
  {
    hide InvExcept, Extends, RoomMessage, Assoc.Remove, Accounts.ValidName;
    Joining.InvIsPartitioned(s);
    SameUsersExtend(s, s, i);
    var u := s.users[i];
    if u.room.Some? && Assoc.Has(s.rooms, u.room.value) {
      var t := Assoc.Remove(Members(s, u.room.value), u.username);
      var s1 := SetMembers(s, u.room.value, t);
      Joining.MembersOk(s, u.room.value);
      Joining.RemovedTableOk(s, u.room.value, Members(s, u.room.value), u.username);
      Joining.SetMembersEffect(s, u.room.value, t);
      SameUsersExtend(s, s1, i);
      RoomMessageExtends(s1, i, u.room.value, UserLeaveChannel, u.username, "");
      ExtendsIsTransitive(s, s1, LeaveRoom(s, i), i);
    }
  }

  lemma SetPersonExtends(s: State, i: nat, u: UserRecord)
    requires i < |s.users| && u.sent == s.users[i].sent && u.serverToken == s.users[i].serverToken
    ensures Extends(s, SetPerson(s, i, u), i)
  {
  }

  lemma TellPartitioned(s: State, i: nat, kind: EventKind, text: string)
    requires Partition(s) && Rooms(s)
    ensures Partition(Tell(s, i, kind, text)) && Rooms(Tell(s, i, kind, text))
    ensures OnlySent(s, Tell(s, i, kind, text))
  {
    hide Partition, Rooms;
    var r, name := Tell(s, i, kind, text), Person(s, i).username;
    if Assoc.Has(s.oldUsers, name) {
      SendEffect(s, Assoc.Find(s.oldUsers, name).value, ChatEvent(kind, name, text));
      OnlySentKeeps(s, r);
    }
  }

  lemma GoNowhereExtends(s: State, i: nat)
    requires Partition(s) && Rooms(s) && i < |s.users|
    ensures Extends(s, GoNowhere(s, i), i)
  {
    hide Partition, Rooms, Extends;
    var name := s.users[i].username;
    var s1 := Tell(s, i, Info, LeavingText());
    ChatExtends(s, i, Info, name, name, LeavingText());
    TellPartitioned(s, i, Info, LeavingText());
    var s2 := Tell(s1, i, Channel, "");
    ChatExtends(s1, i, Channel, name, name, "");
    TellPartitioned(s1, i, Channel, "");
    ExtendsIsTransitive(s, s1, s2, i);
    SetPersonExtends(s2, i, s2.users[i].(state := NotInChannel, room := None));
    ExtendsIsTransitive(s, s2, GoNowhere(s, i), i);
  }

  lemma OpenRoomExtends(s: State, i: nat, room: string)
    requires Partition(s) && Rooms(s) && i < |s.users|
    ensures Extends(s, OpenRoom(s, i, room), i)
  {
    var name := s.users[i].username;
    ChatExtends(s, i, Info, name, name, CreatingText());
    SameUsersExtend(s, s, i);
  }

  /** The part of EnterRoom that works on rooms that are already open. */
  lemma EnterRoomExtends(s: State, i: nat, room: string)
    requires InvExcept(s, {i}) && Joining.Nowhere(s, i) && i < |s.users| && s.users[i].open && IsOld(s.users[i])
    requires 1 <= |room| < MAX_ROOM_LENGTH && !SameIgnoringCase(room, "backstage") && Clean(room)
    ensures Extends(s, EnterRoom(s, i, room), i)
  {
    hide InvExcept, Partition, Rooms, Extends, OpenRoom, SendUsersInChannel, RoomMessage, SetMembers, Joining.Nowhere,
      Assoc.Add, Assoc.Has, Assoc.Find, Members, Sendable, SendAll, Chat, Accounts.ValidName;
    var name := s.users[i].username;
    Joining.LimboIsPartitioned(s, i);
    Joining.LimboHasRooms(s, i);
    var s1 := OpenRoom(s, i, room);
    Joining.OpenRoomKeeps(s, i, room);
    OpenRoomExtends(s, i, room);
    Joining.LimboIsPartitioned(s1, i);
    Joining.LimboHasRooms(s1, i);
    var s2 := Tell(s1, i, Channel, room);
    ChatExtends(s1, i, Channel, s1.users[i].username, s1.users[i].username, room);
    ExtendsIsTransitive(s, s1, s2, i);
    TellPartitioned(s1, i, Channel, room);
    var t := Members(s2, room);
    var s3 := SendUsersInChannel(s2, i, Assoc.Values(t));
    SendUsersInChannelExtends(s2, i, Assoc.Values(t));
    ExtendsIsTransitive(s, s2, s3, i);
    EnteringExtends(s, s1, s2, s3, i, room);
  }

  lemma EnteringExtends(s: State, s1: State, s2: State, s3: State, i: nat, room: string)
    requires InvExcept(s1, {i}) && Joining.Nowhere(s1, i) && i < |s1.users| && s1.users[i].open && IsOld(s1.users[i])
    requires s1 == OpenRoom(s, i, room) && Clean(room) && |room| < MAX_ROOM_LENGTH && Assoc.Has(s1.rooms, room)
    requires s2 == Tell(s1, i, Channel, room)
    requires s3 == SendUsersInChannel(s2, i, Assoc.Values(Members(s2, room)))
    requires Extends(s, s3, i)
    ensures Extends(s, EnterRoom(s, i, room), i)
  {
    hide InvExcept, Partition, Rooms, Extends, OpenRoom, SendUsersInChannel, RoomMessage, SetMembers, Joining.Nowhere,
      Assoc.Add, Assoc.Find, Members, Sendable, SendAll, Chat, Accounts.ValidName, Send;
    var name := s1.users[i].username;
    Joining.LimboIsPartitioned(s1, i);
    Joining.TellEffect(s1, i, Channel, room);
    Joining.SendInLimbo(s1, i, ChatEvent(Channel, name, room));
    Joining.LimboHasRooms(s2, i);
    Joining.MembersOk(s2, room);
    Joining.MemberNames(s2, room, Members(s2, room));
    Joining.SendUsersInChannelKeeps(s2, i, room, Assoc.Values(Members(s2, room)));
    Joining.SetRoomInLimbo(s3, i, JoinedChannel, Some(room));
    var s4 := SetPerson(s3, i, Person(s3, i).(state := JoinedChannel, room := Some(room)));
    SetPersonExtends(s3, i, Person(s3, i).(state := JoinedChannel, room := Some(room)));
    ExtendsIsTransitive(s, s3, s4, i);
    Joining.LimboIsPartitioned(s4, i);
    Joining.LimboHasRooms(s4, i);
    OldUserIsFound(s4, i);
    Joining.MembersOk(s4, room);
    Joining.AddedTableOk(s4, room, Members(s4, room), name, i);
    Joining.SetMembersEffect(s4, room, Assoc.Add(Members(s4, room), name, i));
    var s5 := SetMembers(s4, room, Assoc.Add(Members(s4, room), name, i));
    SameUsersExtend(s4, s5, i);
    ExtendsIsTransitive(s, s4, s5, i);
    RoomMessageExtends(s5, i, room, UserJoinChannel, name, "");
    ExtendsIsTransitive(s, s5, RoomMessage(s5, room, UserJoinChannel, name, ""), i);
  }

  lemma JoinExtends(s: State, i: nat, room: string)
    requires Inv(s) && i < |s.users| && s.users[i].open && IsOld(s.users[i]) && Clean(room)
    ensures Extends(s, Join(s, i, room), i)
  {
    hide InvExcept, Partition, Rooms, Extends, LeaveRoom, GoNowhere, EnterRoom, Joining.Nowhere, Chat;
    Joining.InvIsPartitioned(s);
    var name := s.users[i].username;
    ChatExtends(s, i, Error, name, name, RestrictedText());
    ChatExtends(s, i, Error, name, name, TooLongText());
    if !SameIgnoringCase(room, "backstage") && |room| < MAX_ROOM_LENGTH {
      var s1 := LeaveRoom(s, i);
      LeaveRoomExtends(s, i);
      Joining.LeaveRoomKeeps(s, i);
      Joining.LimboIsPartitioned(s1, i);
      Joining.LimboHasRooms(s1, i);
      if room == "" {
        GoNowhereExtends(s1, i);
        ExtendsIsTransitive(s, s1, GoNowhere(s1, i), i);
      } else {
        EnterRoomExtends(s1, i, room);
        ExtendsIsTransitive(s, s1, EnterRoom(s1, i, room), i);
      }
    }
  }

  lemma {:induction false} ListingExtends(s: State, i: nat, lines: seq<Notice>)
    requires Partition(s) && Rooms(s)
    ensures Extends(s, Listing(s, i, lines), i)
    decreases |lines|
  {
    hide Partition, Rooms, Extends;
    SameUsersExtend(s, s, i);
    if lines != [] {
      var kind := if lines[0].kind.Error? then Error else Info;
      var s1, name := Tell(s, i, kind, lines[0].text), Person(s, i).username;
      ChatExtends(s, i, kind, name, name, lines[0].text);
      TellPartitioned(s, i, kind, lines[0].text);
      ListingExtends(s1, i, lines[1..]);
      ExtendsIsTransitive(s, s1, Listing(s, i, lines), i);
    }
  }

  lemma WhisperExtends(s: State, i: nat, param: string)
    requires Inv(s) && i < |s.users| && s.users[i].open && IsOld(s.users[i])
    requires Clean(param) && |param| <= MAX_PACKET
    ensures Extends(s, Whisper(s, i, param), i)
  {
    hide InvExcept, Partition, Rooms, Extends, Chat, Sendable;
    Joining.InvIsPartitioned(s);
    var me, k := s.users[i].username, IndexOfChar(param, ' ');
    ChatExtends(s, i, Error, me, me, WhisperUsage());
    ChatExtends(s, i, Error, me, me, NotLoggedOnText());
    if k < |param| && Assoc.Find(s.oldUsers, param[..k]).Some? {
      var to := Assoc.Find(s.oldUsers, param[..k]).value;
      FoundIsOldUser(s, param[..k]);
      OldUserIsFound(s, i);
      OldUserIsFound(s, to);
      var you, text := s.users[to].username, param[k + 1..];
      Stepping.WhispersAreSendable(me, text);
      var s1 := Chat(s, WhisperFrom, you, me, text);
      ChatExtends(s, i, WhisperFrom, you, me, text);
      QuietChat(s, {}, WhisperFrom, you, me, text);
      Joining.InvIsPartitioned(s1);
      ChatExtends(s1, i, WhisperTo, me, you, text);
      ExtendsIsTransitive(s, s1, Chat(s1, WhisperTo, me, you, text), i);
    }
  }

  lemma SayExtends(s: State, i: nat, text: string)
    requires Inv(s) && i < |s.users|
    ensures Extends(s, Say(s, i, text), i)
  {
    hide InvExcept, Partition, Rooms, Extends, Chat, RoomMessage;
    Joining.InvIsPartitioned(s);
    var u := s.users[i];
    ChatExtends(s, i, Error, u.username, u.username, NotInRoomText());
    SameUsersExtend(s, Crash(s), i);
    if u.room.Some? {
      RoomMessageExtends(s, i, u.room.value, Talk, u.username, text);
    }
  }

  lemma MessageExtends(s: State, i: nat, text: string, lines: seq<Notice>)
    requires Inv(s) && i < |s.users| && s.users[i].open && IsOld(s.users[i])
    requires Clean(text) && |text| <= MAX_PACKET
    ensures Extends(s, Message(s, i, text, lines), i)
  {
    hide InvExcept, Partition, Rooms, Extends, Join, Listing, Whisper, Say, Named, Chat;
    Joining.InvIsPartitioned(s);
    SayExtends(s, i, text);
    if text != "" && text[0] == '/' {
      var line := text[1..];
      var k := IndexOfChar(line, ' ');
      var param := if k < |line| then line[k + 1..] else "";
      JoinExtends(s, i, param);
      ListingExtends(s, i, lines);
      WhisperExtends(s, i, param);
      var name := s.users[i].username;
      ChatExtends(s, i, Error, name, name, UnknownCommandText());
    }
  }

  lemma HandleExtends(s: State, i: nat, b: seq<byte>, lines: seq<Notice>)
    requires Inv(s) && i < |s.users| && s.users[i].open && 4 <= |b| <= MAX_PACKET
    ensures Extends(s, Handle(s, i, b, lines), i)
  {
    hide InvExcept, ParseText, ParseClientInformation, ParseCredentials, Message, LoginStatus, Accounts.Create, Send,
      Promote, Extends, MisuseText;
    SameUsersExtend(s, s, i);
    SameUsersExtend(s, Crash(s), i);
    ComplaintsExtend(s, i);
    if b[1] == SID_CLIENT_INFORMATION {
      ClientInformationExtends(s, i, b);
    } else if b[1] == SID_LOGIN {
      LoginExtends(s, i, b);
    } else if b[1] == SID_CREATE && ParseCredentials(b).Some? {
      var (hash, name) := ParseCredentials(b).value;
      var (status, file) := Accounts.Create(s.file, name, hash);
      var s1 := AfterCreate(s, status, file);
      SameUsersExtend(s, s1, i);
      SendExtends(s1, i, i, CreateResponse(status, name));
      ExtendsIsTransitive(s, s1, Send(s1, i, CreateResponse(status, name)), i);
    } else if b[1] == SID_CHATCOMMAND && IsOld(s.users[i]) && ParseText(b).Some? {
      MessageExtends(s, i, ParseText(b).value, lines);
    }
  }

  lemma ComplaintsExtend(s: State, i: nat)
    ensures forall m :: Extends(s, Complain(s, i, m), i)
  {
    forall m
      ensures Extends(s, Complain(s, i, m), i)
    {
      SendExtends(s, i, i, ErrorReport(MisuseText(m)));
    }
  }

  lemma ClientInformationExtends(s: State, i: nat, b: seq<byte>)
    requires i < |s.users|
    ensures Extends(s, ClientInformationHandler(s, i, b), i)
  {
    hide ParseClientInformation, Extends, Send, MisuseText;
    var u := s.users[i];
    ComplaintsExtend(s, i);
    SameUsersExtend(s, Crash(s), i);
    var token := ParseClientInformation(b);
    if token.Some? {
      var u' := u.(clientToken := token.value, state := SentClientInformation);
      SetPersonExtends(s, i, u');
      var s1 := SetPerson(s, i, u');
      SendExtends(s1, i, i, ServerInformation(u.serverToken));
      ExtendsIsTransitive(s, s1, Send(s1, i, ServerInformation(u.serverToken)), i);
    }
  }

  lemma LoginExtends(s: State, i: nat, b: seq<byte>)
    requires i < |s.users|
    ensures Extends(s, LoginHandler(s, i, b), i)
  {
    hide ParseCredentials, Extends, Send, LoginStatus, Assoc.Add, MisuseText;
    ComplaintsExtend(s, i);
    SameUsersExtend(s, Crash(s), i);
    if ParseCredentials(b).Some? {
      var (digest, name) := ParseCredentials(b).value;
      var status := LoginStatus(s, s.users[i], digest, name);
      if status.Some? {
        SendExtends(s, i, i, LoginResponse(status.value, name));
        var s1 := Send(s, i, LoginResponse(status.value, name));
        SendEffect(s, i, LoginResponse(status.value, name));
        var u := Person(s1, i).(username := Truncate(name, MAX_NAME), state := NotInChannel);
        SetPersonExtends(s1, i, u);
        SameUsersExtend(SetPerson(s1, i, u), Promote(s1, i, name), i);
        ExtendsIsTransitive(s1, SetPerson(s1, i, u), Promote(s1, i, name), i);
        ExtendsIsTransitive(s, s1, Promote(s1, i, name), i);
      }
    }
  }

  /** The frame of one poll, whichever loop it happens in. */
  lemma PollExtends(s: State, i: nat, o: Reading, lines: seq<Notice>)
    requires Inv(s) && i < |s.users| && s.users[i].open
    ensures Extends(s, PollOld(s, i, o, lines), i) && Extends(s, PollNew(s, i, o, lines), i)
  {
    hide InvExcept, Handle, Extends;
    SameUsersExtend(s, s, i);
    if o.Packet? {
      HandleExtends(s, i, o.bytes, lines);
    }
    CloseExtends(s, i);
  }

  lemma CloseExtends(s: State, i: nat)
    requires i < |s.users|
    ensures forall t, ids :: Extends(s, Close(s.(oldUsers := t, newUsers := ids), i), i)
  {
  }
}
