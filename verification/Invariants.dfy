/** What every step of the server keeps. */
module Invariants {
  import opened Types
  import opened Messages
  import opened ServerSpec
  import Assoc
  import Accounts
  import Roster

  // ---- the collections of users ----

  predicate IsOld(u: UserRecord) {
    u.state == NotInChannel || u.state == JoinedChannel
  }

  ghost predicate NewOk(s: State, i: nat) {
    i < |s.users| && s.users[i].open && !IsOld(s.users[i]) && s.users[i].room.None?
  }

  ghost predicate OldOk(s: State, name: string, i: nat) {
    i < |s.users| && s.users[i].open && IsOld(s.users[i]) && s.users[i].username == name && Accounts.ValidName(name)
  }

  /** server.c:42-45: new_users and old_users are disjoint and together hold every connected user;
      moreover each holds a user once, old_users under its own name, and the user's state says
      which of the two it is in. */
  ghost predicate Partition(s: State) {
    && (forall a, b :: 0 <= a < b < |s.newUsers| ==> s.newUsers[a] != s.newUsers[b])
    && (forall a :: 0 <= a < |s.newUsers| ==> NewOk(s, s.newUsers[a]))
    && Assoc.Unique(s.oldUsers)
    && (forall a :: 0 <= a < |s.oldUsers| ==> OldOk(s, s.oldUsers[a].0, s.oldUsers[a].1))
    && (forall i :: 0 <= i < |s.users| && s.users[i].open ==> Registered(s, i))
  }

  ghost predicate Registered(s: State, i: nat)
    requires i < |s.users|
  {
    if IsOld(s.users[i]) then Assoc.Find(s.oldUsers, s.users[i].username) == Some(i) else i in s.newUsers
  }

  // ---- rooms ----

  ghost predicate EntryOk(s: State, room: string, name: string, i: nat) {
    && i < |s.users|
    && s.users[i].username == name
    && s.users[i].state == JoinedChannel
    && s.users[i].room == Some(room)
    && Accounts.ValidName(name)
  }

  ghost predicate RoomOk(s: State, room: string, r: RoomRecord) {
    && r.name == room
    && 1 <= |room| < MAX_ROOM_LENGTH
    && !SameIgnoringCase(room, "backstage")
    && TableOk(s, room, r.users)
  }

  ghost predicate TableOk(s: State, room: string, t: Assoc.Table<nat>) {
    && Assoc.Unique(t)
    && forall b :: 0 <= b < |t| ==> EntryOk(s, room, t[b].0, t[b].1)
  }

  ghost predicate Rooms(s: State) {
    && Assoc.Unique(s.rooms)
    && forall a :: 0 <= a < |s.rooms| ==> RoomOk(s, s.rooms[a].0, s.rooms[a].1)
  }

  /** A connected user with a room is stored in that room under its own name. */
  ghost predicate Placed(s: State, i: nat)
    requires i < |s.users|
  {
    var u := s.users[i];
    u.open ==>
      && (u.state == JoinedChannel <==> u.room.Some?)
      && (u.room.Some? ==>
            Assoc.Has(s.rooms, u.room.value) && Assoc.Find(Members(s, u.room.value), u.username) == Some(i))
  }

  /** What a connected client shows once it has caught up is the room's table of users. */
  ghost predicate Synced(s: State, i: nat)
    requires i < |s.users|
  {
    var u := s.users[i];
    u.open ==>
      if u.room.Some? then Roster.View(u.sent) == Assoc.Keys(Members(s, u.room.value))
      else Roster.View(u.sent) <= if IsOld(u) then {u.username} else {}
  }

  ghost predicate AllSendable(ps: seq<Packet>) {
    forall k :: 0 <= k < |ps| ==> Sendable(ps[k])
  }

  /** All of it, where the users in x are halfway through a change of room. */
  ghost predicate InvExcept(s: State, x: set<nat>) {
    && Partition(s)
    && Rooms(s)
    && Accounts.WellFormed(s.file)
    && (forall i :: 0 <= i < |s.users| && i !in x ==> Placed(s, i) && Synced(s, i))
    && (forall i :: 0 <= i < |s.users| ==> AllSendable(s.users[i].sent))
  }

  ghost predicate Inv(s: State) {
    InvExcept(s, {})
  }

  // ---- sending changes nothing but what was sent ----

  ghost predicate OnlySent(s: State, r: State) {
    && r == s.(users := r.users)
    && |r.users| == |s.users|
    && forall i :: 0 <= i < |s.users| ==> r.users[i] == s.users[i].(sent := r.users[i].sent)
  }

  lemma OnlySentKeeps(s: State, r: State)
    requires OnlySent(s, r) && Partition(s) && Rooms(s)
    ensures Partition(r) && Rooms(r)
    ensures forall i :: 0 <= i < |s.users| ==> (Placed(s, i) <==> Placed(r, i))
  {
    forall a | 0 <= a < |r.newUsers|
      ensures NewOk(r, r.newUsers[a])
    {
      assert NewOk(s, s.newUsers[a]);
    }
    forall a | 0 <= a < |r.oldUsers|
      ensures OldOk(r, r.oldUsers[a].0, r.oldUsers[a].1)
    {
      assert OldOk(s, s.oldUsers[a].0, s.oldUsers[a].1);
    }
    forall i | 0 <= i < |r.users| && r.users[i].open
      ensures Registered(r, i)
    {
      assert Registered(s, i);
    }
    forall a | 0 <= a < |r.rooms|
      ensures RoomOk(r, r.rooms[a].0, r.rooms[a].1)
    {
      assert RoomOk(s, s.rooms[a].0, s.rooms[a].1);
      SameTable(s, r, s.rooms[a].0, s.rooms[a].1.users);
    }
  }

  lemma SameTable(s: State, r: State, room: string, t: Assoc.Table<nat>)
    requires TableOk(s, room, t)
    requires forall b :: 0 <= b < |t| ==>
      t[b].1 < |r.users| && r.users[t[b].1] == s.users[t[b].1].(sent := r.users[t[b].1].sent)
    ensures TableOk(r, room, t)
  {
    forall b | 0 <= b < |t|
      ensures EntryOk(r, room, t[b].0, t[b].1)
    {
      assert EntryOk(s, room, t[b].0, t[b].1);
    }
  }

  /** A packet that does not touch the client's user list. */
  predicate Quiet(p: Packet) {
    p.ChatEvent? ==> p.kind !in {UserJoinChannel, UserInChannel, UserLeaveChannel, Channel}
  }

  lemma SendEffect(s: State, i: nat, p: Packet)
    ensures var r := Send(s, i, p);
            && OnlySent(s, r)
            && forall j :: 0 <= j < |s.users| ==>
                 r.users[j].sent == if j == i && s.users[j].open then s.users[j].sent + [p] else s.users[j].sent
  {
  }

  lemma QuietSend(s: State, x: set<nat>, i: nat, p: Packet)
    requires InvExcept(s, x) && Quiet(p) && Sendable(p)
    ensures InvExcept(Send(s, i, p), x) && OnlySent(s, Send(s, i, p))
  {
    hide Assoc.Has, Assoc.Find, Sendable, Accounts.WellFormed, Roster.View, TableOk;
    var r := Send(s, i, p);
    SendEffect(s, i, p);
    OnlySentKeeps(s, r);
    forall j | 0 <= j < |r.users| && j !in x
      ensures Synced(r, j)
    {
      assert Synced(s, j);
      Roster.ViewAfter(s.users[j].sent, p);
    }
    forall j | 0 <= j < |r.users|
      ensures AllSendable(r.users[j].sent)
    {
      assert AllSendable(s.users[j].sent);
    }
  }

  lemma OnlySentIsTransitive(s: State, r: State, t: State)
    requires OnlySent(s, r) && OnlySent(r, t)
    ensures OnlySent(s, t)
  {
  }

  lemma {:induction false} QuietSendAll(s: State, x: set<nat>, ids: seq<nat>, p: Packet)
    requires InvExcept(s, x) && Quiet(p) && Sendable(p)
    ensures InvExcept(SendAll(s, ids, p), x) && OnlySent(s, SendAll(s, ids, p))
    decreases |ids|
  {
    hide InvExcept, Send;
    if ids != [] {
      var r := Send(s, ids[0], p);
      QuietSend(s, x, ids[0], p);
      QuietSendAll(r, x, ids[1..], p);
      OnlySentIsTransitive(s, r, SendAll(r, ids[1..], p));
    }
  }

  lemma QuietChat(s: State, x: set<nat>, kind: EventKind, to: string, from: string, text: string)
    requires InvExcept(s, x) && Quiet(ChatEvent(kind, from, text)) && Sendable(ChatEvent(kind, from, text))
    ensures InvExcept(Chat(s, kind, to, from, text), x) && OnlySent(s, Chat(s, kind, to, from, text))
  {
    hide InvExcept, Send, Sendable, Quiet;
    var user := Assoc.Find(s.oldUsers, to);
    if user.Some? {
      QuietSend(s, x, user.value, ChatEvent(kind, from, text));
    }
  }

  // ---- users by name ----

  /** An authenticated connected user is the one its name finds. */
  lemma OldUserIsFound(s: State, i: nat)
    requires Partition(s) && i < |s.users| && s.users[i].open && IsOld(s.users[i])
    ensures Assoc.Find(s.oldUsers, s.users[i].username) == Some(i)
    ensures Accounts.ValidName(s.users[i].username)
    ensures Clean(s.users[i].username) && |s.users[i].username| < MAX_NAME
  {
    assert Registered(s, i);
    var a := Assoc.IndexOf(s.oldUsers, s.users[i].username);
    assert OldOk(s, s.oldUsers[a].0, s.oldUsers[a].1);
    Accounts.ValidNameIsClean(s.users[i].username);
  }

  lemma FoundIsOldUser(s: State, name: string)
    requires Partition(s) && Assoc.Has(s.oldUsers, name)
    ensures var i := Assoc.Find(s.oldUsers, name).value; OldOk(s, name, i)
  {
    var a := Assoc.IndexOf(s.oldUsers, name);
    assert OldOk(s, s.oldUsers[a].0, s.oldUsers[a].1);
  }

  /** Two different connected, authenticated users have different names. */
  lemma NamesAreDistinct(s: State, i: nat, j: nat)
    requires Partition(s) && i < |s.users| && j < |s.users| && i != j
    requires s.users[i].open && IsOld(s.users[i]) && s.users[j].open && IsOld(s.users[j])
    ensures s.users[i].username != s.users[j].username
  {
    OldUserIsFound(s, i);
    OldUserIsFound(s, j);
  }
}
