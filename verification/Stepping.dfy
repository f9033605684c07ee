/** Every event keeps every invariant, so they hold in all reachable states. */
module Stepping {
  import opened Types
  import opened Messages
  import opened ServerSpec
  import opened Invariants
  import Assoc
  import Accounts
  import Joining
  import LinkedLists
  import Roster

  // ---- commands of authenticated users ----

  lemma {:induction false} ListingKeeps(s: State, i: nat, lines: seq<Notice>)
    requires Inv(s) && i < |s.users| && s.users[i].open && IsOld(s.users[i])
    ensures Inv(Listing(s, i, lines)) && OnlySent(s, Listing(s, i, lines))
    decreases |lines|
  {
    hide Inv, Tell;
    if lines != [] {
      Joining.ErrorToSelf(s, i, lines[0].text);
      var s1 := Tell(s, i, if lines[0].kind.Error? then Error else Info, lines[0].text);
      ListingKeeps(s1, i, lines[1..]);
      OnlySentIsTransitive(s, s1, Listing(s, i, lines));
    }
  }

  lemma WhisperKeeps(s: State, i: nat, param: string)
    requires Inv(s) && i < |s.users| && s.users[i].open && IsOld(s.users[i])
    requires Clean(param) && |param| <= MAX_PACKET
    ensures Inv(Whisper(s, i, param)) && OnlySent(s, Whisper(s, i, param))
  {
    hide InvExcept, Partition, Rooms, Chat, Sendable;
    var k := IndexOfChar(param, ' ');
    Joining.InvIsPartitioned(s);
    if k == |param| {
      Joining.ErrorToSelf(s, i, WhisperUsage());
    } else {
      var to := Assoc.Find(s.oldUsers, param[..k]);
      if to.None? {
        Joining.ErrorToSelf(s, i, NotLoggedOnText());
      } else {
        FoundIsOldUser(s, param[..k]);
        OldUserIsFound(s, i);
        OldUserIsFound(s, to.value);
        var me, you, text := s.users[i].username, s.users[to.value].username, param[k + 1..];
        WhispersAreSendable(me, text);
        WhispersAreSendable(you, text);
        QuietChat(s, {}, WhisperFrom, you, me, text);
        var s1 := Chat(s, WhisperFrom, you, me, text);
        QuietChat(s1, {}, WhisperTo, me, you, text);
        OnlySentIsTransitive(s, s1, Chat(s1, WhisperTo, me, you, text));
      }
    }
  }

  lemma WhispersAreSendable(name: string, text: string)
    requires Clean(name) && |name| < MAX_NAME && Clean(text) && |text| <= MAX_PACKET
    ensures Sendable(ChatEvent(WhisperFrom, name, text)) && Sendable(ChatEvent(WhisperTo, name, text))
    ensures Sendable(ChatEvent(Talk, name, text))
  {
  }

  lemma SayKeeps(s: State, i: nat, text: string)
    requires Inv(s) && i < |s.users| && s.users[i].open && IsOld(s.users[i])
    requires Clean(text) && |text| <= MAX_PACKET
    ensures Inv(Say(s, i, text)) && OnlySent(s, Say(s, i, text))
  {
    hide Sendable, Partition, Rooms, SendAll;
    Joining.InvIsPartitioned(s);
    assert Placed(s, i);
    if s.users[i].room.None? {
      Joining.ErrorToSelf(s, i, NotInRoomText());
    } else {
      OldUserIsFound(s, i);
      WhispersAreSendable(s.users[i].username, text);
      QuietSendAll(s, {}, Assoc.Values(Members(s, s.users[i].room.value)), ChatEvent(Talk, s.users[i].username, text));
    }
  }

  lemma CommandKeeps(s: State, i: nat, command: string, param: string, lines: seq<Notice>)
    requires Inv(s) && i < |s.users| && s.users[i].open && IsOld(s.users[i])
    requires Clean(param) && |param| <= MAX_PACKET
    ensures Inv(Command(s, i, command, param, lines))
  {
    hide Inv, Join, Listing, Whisper, Tell, Named;
    Joining.JoinKeeps(s, i, param);
    ListingKeeps(s, i, lines);
    WhisperKeeps(s, i, param);
    Joining.ErrorToSelf(s, i, UnknownCommandText());
  }

  lemma MessageKeeps(s: State, i: nat, text: string, lines: seq<Notice>)
    requires Inv(s) && i < |s.users| && s.users[i].open && IsOld(s.users[i])
    requires Clean(text) && |text| <= MAX_PACKET
    ensures Inv(Message(s, i, text, lines))
  {
    hide Inv, Command, Say;
    if text != "" && text[0] == '/' {
      var line := text[1..];
      var k := IndexOfChar(line, ' ');
      CommandKeeps(s, i, line[..k], if k < |line| then line[k + 1..] else "", lines);
    } else {
      SayKeeps(s, i, text);
    }
  }

  // ---- changes to one record or to the collections ----

  /** Rooms are untouched as long as nobody who is in one changes name, state or room. */
  lemma RoomsKept(s: State, r: State)
    requires Rooms(s) && r.rooms == s.rooms && |r.users| >= |s.users|
    requires forall j :: 0 <= j < |s.users| && s.users[j].state == JoinedChannel ==>
      r.users[j].username == s.users[j].username && r.users[j].state == JoinedChannel &&
      r.users[j].room == s.users[j].room
    ensures Rooms(r)
  {
    hide Accounts.ValidName;
    forall a | 0 <= a < |r.rooms|
      ensures RoomOk(r, r.rooms[a].0, r.rooms[a].1)
    {
      var (room, t) := (s.rooms[a].0, s.rooms[a].1.users);
      assert RoomOk(s, room, s.rooms[a].1);
      forall b | 0 <= b < |t|
        ensures EntryOk(r, room, t[b].0, t[b].1)
      {
        assert EntryOk(s, room, t[b].0, t[b].1);
      }
    }
  }

  /** The other users notice nothing. */
  lemma OthersKept(s: State, r: State, i: nat)
    requires Inv(s) && r.rooms == s.rooms && |r.users| >= |s.users|
    requires forall j :: 0 <= j < |s.users| && j != i ==> r.users[j] == s.users[j]
    ensures forall j :: 0 <= j < |s.users| && j != i ==> Placed(r, j) && Synced(r, j) && AllSendable(r.users[j].sent)
  {
    hide Assoc.Find, Assoc.Has, Roster.View, Sendable, Rooms, Partition;
    forall j | 0 <= j < |s.users| && j != i
      ensures Placed(r, j) && Synced(r, j) && AllSendable(r.users[j].sent)
    {
      assert Placed(s, j) && Synced(s, j) && AllSendable(s.users[j].sent);
      assert forall room :: Members(r, room) == Members(s, room);
    }
  }

  lemma AcceptKeeps(s: State, token: uint32)
    requires Inv(s)
    ensures Inv(AcceptConnection(s, token))
  {
    hide Accounts.WellFormed, Rooms, Partition, Sendable, Exhausted;
    if !s.crashed && !Exhausted(s) {
      var r := AcceptConnection(s, token);
      RoomsKept(s, r);
      OthersKept(s, r, |s.users|);
      AcceptPartitions(s, token);
      assert Roster.View([]) == {};
    }
  }

  lemma AcceptPartitions(s: State, token: uint32)
    requires Partition(s)
    ensures Partition(AcceptConnection(s, token))
  {
    hide Accounts.ValidName, Exhausted, Assoc.Find;
    var r, n := AcceptConnection(s, token), |s.users|;
    if !s.crashed && !Exhausted(s) {
      forall a | 0 <= a < |r.newUsers|
        ensures NewOk(r, r.newUsers[a]) && (a < |s.newUsers| ==> r.newUsers[a] != n)
      {
        assert a < |s.newUsers| ==> NewOk(s, s.newUsers[a]);
      }
      forall a | 0 <= a < |r.oldUsers|
        ensures OldOk(r, r.oldUsers[a].0, r.oldUsers[a].1)
      {
        assert OldOk(s, s.oldUsers[a].0, s.oldUsers[a].1);
      }
      forall i | 0 <= i < |r.users| && r.users[i].open
        ensures Registered(r, i)
      {
        assert i < n ==> Registered(s, i);
        assert r.newUsers[|s.newUsers|] == n;
        assert forall x :: x in s.newUsers ==> x in r.newUsers;
      }
    }
  }

  /** A new user that stays new. */
  lemma NewUserKeeps(s: State, i: nat, u: UserRecord)
    requires Inv(s) && i < |s.users| && s.users[i].open && !IsOld(s.users[i])
    requires u.open && !IsOld(u) && u.room.None? && u.sent == s.users[i].sent
    ensures Inv(SetPerson(s, i, u))
  {
    hide Accounts.WellFormed, Rooms, Sendable, Roster.View, Assoc.Find;
    var r := SetPerson(s, i, u);
    RoomsKept(s, r);
    OthersKept(s, r, i);
    assert Registered(s, i);
    forall a | 0 <= a < |r.newUsers|
      ensures NewOk(r, r.newUsers[a])
    {
      assert NewOk(s, s.newUsers[a]);
    }
    forall a | 0 <= a < |r.oldUsers|
      ensures OldOk(r, r.oldUsers[a].0, r.oldUsers[a].1)
    {
      assert OldOk(s, s.oldUsers[a].0, s.oldUsers[a].1);
    }
    forall j | 0 <= j < |r.users| && r.users[j].open
      ensures Registered(r, j)
    {
      assert Registered(s, j);
    }
    assert Synced(s, i) && AllSendable(s.users[i].sent);
    var a :| 0 <= a < |s.newUsers| && s.newUsers[a] == i;
    assert NewOk(s, s.newUsers[a]);
  }

  lemma WithoutIsAllButOne(ids: seq<nat>, i: nat)
    requires forall a, b :: 0 <= a < b < |ids| ==> ids[a] != ids[b]
    ensures var r := LinkedLists.WithoutFirst(ids, i);
            && (forall a, b :: 0 <= a < b < |r| ==> r[a] != r[b])
            && (forall j :: j in r <==> j in ids && j != i)
  {
    var r, k := LinkedLists.WithoutFirst(ids, i), LinkedLists.FirstIndex(ids, i);
    if k < |ids| {
      assert forall a :: 0 <= a < k ==> r[a] == ids[a];
      assert forall a :: k <= a < |r| ==> r[a] == ids[a + 1];
      forall j | j in ids && j != i
        ensures j in r
      {
        var a :| 0 <= a < |ids| && ids[a] == j;
        assert r[if a < k then a else a - 1] == j;
      }
    }
  }

  /** A login moves a user from one collection to the other and overwrites nobody. */
  lemma PromoteKeeps(s: State, i: nat, name: string)
    requires Inv(s) && i < |s.users| && s.users[i].open && !IsOld(s.users[i])
    requires Accounts.ValidName(name) && !Assoc.Has(s.oldUsers, name)
    ensures Inv(Promote(s, i, name))
  {
    hide Accounts.WellFormed, Accounts.ValidName, Rooms, Partition, Sendable, Roster.View, LinkedLists.WithoutFirst,
      Assoc.Add;
    var r := Promote(s, i, name);
    RoomsKept(s, r);
    OthersKept(s, r, i);
    PromotePartitions(s, i, name);
    NewUsersHaveNoRoom(s, i);
    assert Synced(s, i) && AllSendable(s.users[i].sent);
  }

  lemma PromotePartitions(s: State, i: nat, name: string)
    requires Partition(s) && i < |s.users| && s.users[i].open && !IsOld(s.users[i])
    requires Accounts.ValidName(name) && !Assoc.Has(s.oldUsers, name)
    ensures Partition(Promote(s, i, name)) && Promote(s, i, name).users[i].username == name
  {
    hide LinkedLists.WithoutFirst, Assoc.Has, Accounts.ValidName;
    var r := Promote(s, i, name);
    Accounts.ValidNameIsClean(name);
    WithoutIsAllButOne(s.newUsers, i);
    Assoc.AddRefinesMapUpdate(s.oldUsers, name, i, name);
    forall a | 0 <= a < |r.newUsers|
      ensures NewOk(r, r.newUsers[a])
    {
      assert r.newUsers[a] in s.newUsers;
      var b :| 0 <= b < |s.newUsers| && s.newUsers[b] == r.newUsers[a];
      assert NewOk(s, s.newUsers[b]);
    }
    forall a | 0 <= a < |r.oldUsers|
      ensures OldOk(r, r.oldUsers[a].0, r.oldUsers[a].1)
    {
      AddedEntry(s.oldUsers, name, i, a);
      assert a < |s.oldUsers| ==> OldOk(s, s.oldUsers[a].0, s.oldUsers[a].1);
    }
    forall j | 0 <= j < |r.users| && r.users[j].open
      ensures Registered(r, j)
    {
      assert Registered(s, j);
      Assoc.AddRefinesMapUpdate(s.oldUsers, name, i, r.users[j].username);
      Assoc.HasIsKeys(s.oldUsers, name);
    }
  }

  lemma AddedEntry(t: Assoc.Table<nat>, name: string, i: nat, a: nat)
    requires !Assoc.Has(t, name) && a < |Assoc.Add(t, name, i)|
    ensures Assoc.Add(t, name, i)[a] == if a < |t| then t[a] else (name, i)
  {
  }

  /** A closed connection leaves its collection. Its room keeps it. */
  lemma CloseOldKeeps(s: State, i: nat)
    requires Inv(s) && i < |s.users| && s.users[i].open && IsOld(s.users[i])
    ensures Inv(Close(s.(oldUsers := Assoc.Remove(s.oldUsers, s.users[i].username)), i))
  {
    hide Accounts.WellFormed, Rooms, Sendable, Roster.View, Assoc.Remove;
    var name := s.users[i].username;
    var r := Close(s.(oldUsers := Assoc.Remove(s.oldUsers, name)), i);
    RoomsKept(s, r);
    OthersKept(s, r, i);
    Assoc.RemoveKeepsUnique(s.oldUsers, name);
    OldUserIsFound(s, i);
    forall a | 0 <= a < |r.newUsers|
      ensures NewOk(r, r.newUsers[a])
    {
      assert NewOk(s, s.newUsers[a]);
    }
    forall a | 0 <= a < |r.oldUsers|
      ensures OldOk(r, r.oldUsers[a].0, r.oldUsers[a].1)
    {
      RemainingEntry(s.oldUsers, name, a);
      var b :| 0 <= b < |s.oldUsers| && s.oldUsers[b] == r.oldUsers[a];
      assert OldOk(s, s.oldUsers[b].0, s.oldUsers[b].1);
    }
    forall j | 0 <= j < |r.users| && r.users[j].open
      ensures Registered(r, j)
    {
      assert Registered(s, j);
      Assoc.FindRemoved(s.oldUsers, name, s.users[j].username);
    }
  }

  lemma RemainingEntry<V>(t: Assoc.Table<V>, k: string, a: nat)
    requires Assoc.Unique(t) && a < |Assoc.Remove(t, k)|
    ensures Assoc.Remove(t, k)[a].0 != k
    ensures exists b :: 0 <= b < |t| && t[b] == Assoc.Remove(t, k)[a]
  {
    hide Assoc.IndexOf;
    assert Assoc.Remove(t, k)[a] == t[if a < Assoc.IndexOf(t, k) then a else a + 1];
  }

  lemma CloseNewKeeps(s: State, i: nat)
    requires Inv(s) && i < |s.users| && s.users[i].open && !IsOld(s.users[i])
    ensures Inv(Close(s.(newUsers := LinkedLists.WithoutFirst(s.newUsers, i)), i))
  {
    hide Accounts.WellFormed, Rooms, Sendable, Roster.View, LinkedLists.WithoutFirst;
    var r := Close(s.(newUsers := LinkedLists.WithoutFirst(s.newUsers, i)), i);
    RoomsKept(s, r);
    OthersKept(s, r, i);
    WithoutIsAllButOne(s.newUsers, i);
    forall a | 0 <= a < |r.newUsers|
      ensures NewOk(r, r.newUsers[a])
    {
      assert r.newUsers[a] in s.newUsers;
      var b :| 0 <= b < |s.newUsers| && s.newUsers[b] == r.newUsers[a];
      assert NewOk(s, s.newUsers[b]);
    }
    forall a | 0 <= a < |r.oldUsers|
      ensures OldOk(r, r.oldUsers[a].0, r.oldUsers[a].1)
    {
      assert OldOk(s, s.oldUsers[a].0, s.oldUsers[a].1);
    }
    forall j | 0 <= j < |r.users| && r.users[j].open
      ensures Registered(r, j)
    {
      assert Registered(s, j);
    }
  }

  // ---- packet handlers ----

  lemma CrashKeeps(s: State)
    requires Inv(s)
    ensures Inv(Crash(s))
  {
    hide Accounts.WellFormed, Sendable, Roster.View;
    var r := Crash(s);
    OnlyCrashed(s, r);
  }

  /** Neither the file, its open streams nor the crash flag takes part in the invariants about users
      and rooms. */
  lemma OnlyCrashed(s: State, r: State)
    requires Inv(s) && r == s.(crashed := r.crashed, file := r.file, leaked := r.leaked) && Accounts.WellFormed(r.file)
    ensures Inv(r)
  {
    hide Accounts.WellFormed, Sendable, Roster.View;
    RoomsKept(s, r);
    OthersKept(s, r, |s.users|);
    assert Partition(r) by {
      forall a | 0 <= a < |r.newUsers|
        ensures NewOk(r, r.newUsers[a])
      {
        assert NewOk(s, s.newUsers[a]);
      }
      forall a | 0 <= a < |r.oldUsers|
        ensures OldOk(r, r.oldUsers[a].0, r.oldUsers[a].1)
      {
        assert OldOk(s, s.oldUsers[a].0, s.oldUsers[a].1);
      }
      forall j | 0 <= j < |r.users| && r.users[j].open
        ensures Registered(r, j)
      {
        assert Registered(s, j);
      }
    }
  }

  lemma ComplainKeeps(s: State, i: nat, m: Misuse)
    requires Inv(s)
    ensures Inv(Complain(s, i, m))
  {
    hide InvExcept;
    QuietSend(s, {}, i, ErrorReport(MisuseText(m)));
  }

  lemma ClientInformationKeeps(s: State, i: nat, b: seq<byte>)
    requires Inv(s) && i < |s.users| && s.users[i].open
    ensures Inv(ClientInformationHandler(s, i, b))
  {
    hide InvExcept, ParseClientInformation, Send;
    var u := s.users[i];
    ComplainKeeps(s, i, WrongState(InformationRequest));
    CrashKeeps(s);
    var token := ParseClientInformation(b);
    if u.state == UserState.Connected && token.Some? {
      NewUsersHaveNoRoom(s, i);
      var u' := u.(clientToken := token.value, state := SentClientInformation);
      NewUserKeeps(s, i, u');
      QuietSend(SetPerson(s, i, u'), {}, i, ServerInformation(u.serverToken));
    }
  }

  lemma NewUsersHaveNoRoom(s: State, i: nat)
    requires Inv(s) && i < |s.users| && s.users[i].open && !IsOld(s.users[i])
    ensures s.users[i].room.None? && i in s.newUsers
  {
    assert Registered(s, i);
    var a :| 0 <= a < |s.newUsers| && s.newUsers[a] == i;
    assert NewOk(s, s.newUsers[a]);
  }

  /** The status of every login in a reachable state. The file being well-formed, the exit on a
      malformed line is not among the ends; a login that succeeds is for a valid name. */
  lemma LoginStatusIsSound(s: State, i: nat, digest: Digest, name: string)
    requires Inv(s) && i < |s.users|
    ensures var u, stored := s.users[i], Accounts.Stored(s.file, name);
            LoginStatus(s, u, digest, name) ==
            if Assoc.Has(s.oldUsers, name) then Some(Accounts.AccountInUse)
            else if Exhausted(s) then None
            else if stored.None? then Some(Accounts.UnknownAccount)
            else if s.sha1(Accounts.Salted(u.clientToken, u.serverToken, stored.value)) == digest
              then Some(Accounts.LoginSuccess)
            else Some(Accounts.IncorrectPassword)
    ensures LoginStatus(s, s.users[i], digest, name) == Some(Accounts.LoginSuccess) ==> Accounts.ValidName(name)
  {
    hide Accounts.FindLine, Accounts.ParseHash, Accounts.Salted, Accounts.ValidName, Partition, Rooms, Assoc.Has,
      Exhausted;
    Accounts.FoundNamesAreValid(s.file, name);
  }

  lemma LoginKeeps(s: State, i: nat, b: seq<byte>)
    requires Inv(s) && i < |s.users| && s.users[i].open && |b| <= MAX_PACKET
    ensures Inv(LoginHandler(s, i, b))
  {
    hide InvExcept, ParseCredentials, Send, LoginStatus, Promote, Accounts.ValidName, Assoc.Has;
    ComplainKeeps(s, i, WrongState(LoginRequest));
    CrashKeeps(s);
    var credentials := ParseCredentials(b);
    if s.users[i].state == SentClientInformation && credentials.Some? {
      var (digest, name) := credentials.value;
      var status := LoginStatus(s, s.users[i], digest, name);
      LoginStatusIsSound(s, i, digest, name);
      if status.Some? {
        QuietSend(s, {}, i, LoginResponse(status.value, name));
        if status.value.LoginSuccess? {
          PromoteKeeps(Send(s, i, LoginResponse(status.value, name)), i, name);
        }
      }
    }
  }

  lemma CreateKeeps(s: State, i: nat, b: seq<byte>)
    requires Inv(s) && i < |s.users| && s.users[i].open && |b| <= MAX_PACKET
    ensures Inv(CreateHandler(s, i, b))
  {
    hide Partition, Rooms, ParseCredentials, Send, Accounts.Create, Accounts.WellFormed, Accounts.ValidName,
      Placed, Synced, Exhausted;
    ComplainKeeps(s, i, WrongState(CreateRequest));
    CrashKeeps(s);
    var credentials := ParseCredentials(b);
    if s.users[i].state == SentClientInformation && credentials.Some? {
      var (hash, name) := credentials.value;
      var (status, file) := Accounts.Create(s.file, name, hash);
      Accounts.CreateRoundTrip(s.file, name, hash, name);
      var s1 := AfterCreate(s, status, file);
      OnlyCrashed(s, s1);
      QuietSend(s1, {}, i, CreateResponse(status, name));
    }
  }

  lemma ChatCommandKeeps(s: State, i: nat, b: seq<byte>, lines: seq<Notice>)
    requires Inv(s) && i < |s.users| && s.users[i].open && |b| <= MAX_PACKET
    ensures Inv(ChatCommandHandler(s, i, b, lines))
  {
    hide Inv, ParseText, Message;
    ComplainKeeps(s, i, WrongState(ChatRequest));
    CrashKeeps(s);
    if IsOld(s.users[i]) && ParseText(b).Some? {
      MessageKeeps(s, i, ParseText(b).value, lines);
    }
  }

  lemma HandleKeeps(s: State, i: nat, b: seq<byte>, lines: seq<Notice>)
    requires Inv(s) && i < |s.users| && s.users[i].open && 4 <= |b| <= MAX_PACKET
    ensures Inv(Handle(s, i, b, lines))
  {
    hide Inv, ClientInformationHandler, LoginHandler, CreateHandler, ChatCommandHandler, Complain, ParseText;
    ClientInformationKeeps(s, i, b);
    LoginKeeps(s, i, b);
    CreateKeeps(s, i, b);
    ChatCommandKeeps(s, i, b, lines);
    CrashKeeps(s);
    ComplainKeeps(s, i, NoRoomList);
    ComplainKeeps(s, i, ServerOnly);
    ComplainKeeps(s, i, UnknownCode);
  }

  // ---- steps and runs ----

  lemma PollOldKeeps(s: State, i: nat, o: Reading, lines: seq<Notice>)
    requires Inv(s) && i < |s.users| && s.users[i].open && IsOld(s.users[i])
    ensures Inv(PollOld(s, i, o, lines))
  {
    hide Inv, Handle, Close;
    CloseOldKeeps(s, i);
    if o.Packet? {
      HandleKeeps(s, i, o.bytes, lines);
    }
  }

  lemma PollNewKeeps(s: State, i: nat, o: Reading, lines: seq<Notice>)
    requires Inv(s) && i < |s.users| && s.users[i].open && !IsOld(s.users[i])
    ensures Inv(PollNew(s, i, o, lines))
  {
    hide Inv, Handle, Close;
    CloseNewKeeps(s, i);
    if o.Packet? {
      HandleKeeps(s, i, o.bytes, lines);
    }
  }

  /** Membership in the two collections is exactly the user's own state. */
  lemma CollectionsMatchStates(s: State, i: nat)
    requires Inv(s)
    ensures i in s.newUsers <==> i < |s.users| && s.users[i].open && !IsOld(s.users[i])
    ensures i in Assoc.Values(s.oldUsers) <==> i < |s.users| && s.users[i].open && IsOld(s.users[i])
  {
    if i in s.newUsers {
      var a :| 0 <= a < |s.newUsers| && s.newUsers[a] == i;
      assert NewOk(s, s.newUsers[a]);
    }
    if i in Assoc.Values(s.oldUsers) {
      var a :| 0 <= a < |s.oldUsers| && s.oldUsers[a].1 == i;
      assert OldOk(s, s.oldUsers[a].0, s.oldUsers[a].1);
    }
    if i < |s.users| && s.users[i].open {
      assert Registered(s, i);
      if IsOld(s.users[i]) {
        assert Assoc.Values(s.oldUsers)[Assoc.IndexOf(s.oldUsers, s.users[i].username)] == i;
      }
    }
  }

  lemma StepKeeps(s: State, e: Event)
    requires Inv(s)
    ensures Inv(Step(s, e))
  {
    hide Inv, PollOld, PollNew, AcceptConnection;
    match e
    case Accept(token) => AcceptKeeps(s, token);
    case Poll(i, o, lines) =>
      CollectionsMatchStates(s, i);
      if i in s.newUsers {
        PollNewKeeps(s, i, o, lines);
      } else if i in Assoc.Values(s.oldUsers) {
        PollOldKeeps(s, i, o, lines);
      }
  }

  /** The invariants hold in every state of every run. */
  lemma {:induction false} RunKeeps(s: State, es: seq<Event>)
    requires Inv(s)
    ensures Inv(Run(s, es))
    decreases |es|
  {
    hide Inv, Step;
    if es != [] {
      RunKeeps(s, es[..|es| - 1]);
      StepKeeps(Run(s, es[..|es| - 1]), es[|es| - 1]);
    }
  }

  lemma InitialInv(s: State)
    requires Initial(s) && Accounts.WellFormed(s.file)
    ensures Inv(s)
  {
  }
}
