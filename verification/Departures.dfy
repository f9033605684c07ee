/** Users who stay in a room after their connection is gone: when that happens, that it does
    happen, and the disconnect that would prevent it. */
module Departures {
  import opened Types
  import opened Messages
  import opened ServerSpec
  import opened Invariants
  import Accounts
  import Arrivals
  import Assoc
  import Delivery
  import Effects
  import Framing
  import Guarantees
  import Handshake
  import Joining
  import LinkedLists
  import Roster
  import Stepping

  /** Every member of every room is still connected. The disconnect branch does not leave the
      room, so this is not an invariant. */
  ghost predicate NoGhosts(s: State) {
    forall room, k :: k in Assoc.Values(Members(s, room)) ==> Guarantees.IsConnected(s, k)
  }

  /** The one event that leaves a ghost: the connection of a user who is in a room is closed. */
  predicate StrandsAMember(s: State, e: Event) {
    e.Poll? && e.reading.Closed? && !s.crashed && e.who < |s.users| && s.users[e.who].open && s.users[e.who].room.Some?
  }

  /** Starting without ghosts, an event leaves one exactly when it is such a disconnect. */
  lemma GhostsComeExactlyFromDisconnects(s: State, e: Event)
    requires Inv(s) && NoGhosts(s)
    ensures NoGhosts(Step(s, e)) <==> !StrandsAMember(s, e)
  {
    hide InvExcept, Handle, Accounts.Stored, LinkedLists.WithoutFirst, Assoc.Remove, Members, Assoc.Values,
      Guarantees.RoomsGrow;
    var r := Step(s, e);
    Guarantees.StepGrows(s, e);
    match e
    case Accept(token) =>
      NoGhostsIfGrown(s, r, 0);
    case Poll(i, o, lines) =>
      Stepping.CollectionsMatchStates(s, i);
      if i < |s.users| && s.users[i].open && !s.crashed {
        if o.Closed? {
          ClosingStrands(s, r, i);
        } else if o.Packet? {
          Guarantees.HandleGrows(s, i, o.bytes, lines);
          Effects.HandleExtends(s, i, o.bytes, lines);
          ExtendsKeepsConnected(s, r, i);
          NoGhostsIfGrown(s, r, i);
        }
      }
  }

  ghost predicate GhostFreeAt(s: State, es: seq<Event>, k: nat)
    requires k <= |es|
  {
    NoGhosts(Run(s, es[..k]))
  }

  predicate StrandsAt(s: State, es: seq<Event>, k: nat)
    requires k < |es|
  {
    StrandsAMember(Run(s, es[..k]), es[k])
  }

  /** Every state of a run is free of ghosts exactly when no event of it closes the connection of a
      user who is in a room. */
  lemma {:induction false} RunsAreGhostFreeExactly(s: State, es: seq<Event>)
    requires Inv(s) && NoGhosts(s)
    ensures (forall k :: 0 <= k <= |es| ==> GhostFreeAt(s, es, k)) <==>
            forall k :: 0 <= k < |es| ==> !StrandsAt(s, es, k)
    decreases |es|
  {
    hide Inv, NoGhosts, Step, StrandsAMember, GhostFreeAt, StrandsAt;
    if es == [] {
      AtTheEnd(s, es);
      assert Run(s, es) == s;
    } else {
      var n := |es| - 1;
      RunsAreGhostFreeExactly(s, es[..n]);
      forall k | 0 <= k <= n
        ensures GhostFreeAt(s, es, k) <==> GhostFreeAt(s, es[..n], k)
        ensures k < n ==> (StrandsAt(s, es, k) <==> StrandsAt(s, es[..n], k))
      {
        AsBefore(s, es, k);
      }
      AtTheEnd(s, es[..n]);
      AtTheEnd(s, es);
      AtTheLastStep(s, es);
      Stepping.RunKeeps(s, es[..n]);
      if GhostFreeAt(s, es[..n], n) {
        GhostsComeExactlyFromDisconnects(Run(s, es[..n]), es[n]);
      }
    }
  }

  lemma AtTheEnd(s: State, es: seq<Event>)
    ensures GhostFreeAt(s, es, |es|) <==> NoGhosts(Run(s, es))
  {
    hide NoGhosts, Run;
    assert es[..|es|] == es;
  }

  lemma AtTheLastStep(s: State, es: seq<Event>)
    requires es != []
    ensures StrandsAt(s, es, |es| - 1) <==> StrandsAMember(Run(s, es[..|es| - 1]), es[|es| - 1])
  {
  }

  lemma AsBefore(s: State, es: seq<Event>, k: nat)
    requires es != [] && k < |es|
    ensures GhostFreeAt(s, es, k) <==> GhostFreeAt(s, es[..|es| - 1], k)
    ensures k < |es| - 1 ==> (StrandsAt(s, es, k) <==> StrandsAt(s, es[..|es| - 1], k))
  {
    hide NoGhosts, Run, StrandsAMember;
    assert es[..|es| - 1][..k] == es[..k];
  }

  // ---- how a ghost goes away ----

  /** A room lists user k, who is no longer connected, under its name. */
  ghost predicate Haunts(s: State, k: nat, name: string, room: string) {
    k < |s.users| && !s.users[k].open && Assoc.Find(Members(s, room), name) == Some(k)
  }

  /** The sender of the event is in the room under that name. */
  ghost predicate TakesOver(r: State, e: Event, name: string, room: string) {
    && e.Poll? && Guarantees.IsConnected(r, e.who)
    && r.users[e.who].username == name && r.users[e.who].room == Some(room)
    && Assoc.Find(Members(r, room), name) == Some(e.who)
  }

  /** Over any event a departed user stays listed, unless a user of the same name enters the room
      and takes its place. Nothing else removes it. */
  lemma GhostsStayUntilReplaced(s: State, e: Event, k: nat, name: string, room: string)
    requires Inv(s) && Haunts(s, k, name, room)
    ensures var r := Step(s, e); Haunts(r, k, name, room) <==> !TakesOver(r, e, name, room)
  {
    hide InvExcept, Handle, Accounts.Stored, LinkedLists.WithoutFirst, Assoc.Remove, Members, Assoc.Find;
    var r := Step(s, e);
    match e
    case Accept(token) =>
      Joining.SameRoomsSameMembers(s, r, room);
    case Poll(i, o, lines) =>
      Stepping.CollectionsMatchStates(s, i);
      if o.Packet? && i < |s.users| && s.users[i].open && !s.crashed {
        HandlingGhosts(s, i, o.bytes, lines, k, name, room);
      } else {
        Joining.SameRoomsSameMembers(s, r, room);
      }
  }

  lemma HandlingGhosts(s: State, i: nat, b: seq<byte>, lines: seq<Notice>, k: nat, name: string, room: string)
    requires Inv(s) && i < |s.users| && s.users[i].open && 4 <= |b| <= MAX_PACKET && Haunts(s, k, name, room)
    ensures var r := Handle(s, i, b, lines);
            && Guarantees.IsConnected(r, i)
            && (Haunts(r, k, name, room) ||
                (r.users[i].username == name && r.users[i].room == Some(room) &&
                 Assoc.Find(Members(r, room), name) == Some(i)))
  {
    hide InvExcept, Handle, Members, Assoc.Find, Join, Guarantees.RoomsGrow, Guarantees.FileGrows;
    var r := Handle(s, i, b, lines);
    Guarantees.HandleGrows(s, i, b, lines);
    Effects.HandleExtends(s, i, b, lines);
    assert Effects.Grows(s.users[k], r.users[k], k == i);
    var param := HandlerRooms(s, i, b, lines);
    if r.rooms == s.rooms {
      Joining.SameRoomsSameMembers(s, r, room);
    } else {
      JoiningGhosts(s, i, param, k, name, room);
    }
  }

  /** A packet changes the rooms only as a join of its sender. */
  lemma HandlerRooms(s: State, i: nat, b: seq<byte>, lines: seq<Notice>) returns (param: string)
    requires Inv(s) && i < |s.users| && s.users[i].open && 4 <= |b| <= MAX_PACKET
    ensures var r := Handle(s, i, b, lines);
            r.rooms == s.rooms || (IsOld(s.users[i]) && Clean(param) && r == Join(s, i, param))
  {
    hide InvExcept, ParseText, ParseClientInformation, ParseCredentials, Message, LoginStatus, Accounts.Create,
      Exhausted, LinkedLists.WithoutFirst, Assoc.Add, Join;
    param := "";
    if b[1] == SID_CHATCOMMAND && IsOld(s.users[i]) && ParseText(b).Some? {
      param := MessageRooms(s, i, ParseText(b).value, lines);
    }
  }

  lemma MessageRooms(s: State, i: nat, text: string, lines: seq<Notice>) returns (param: string)
    requires Inv(s) && i < |s.users| && s.users[i].open && IsOld(s.users[i])
    requires Clean(text) && |text| <= MAX_PACKET
    ensures var r := Message(s, i, text, lines);
            r.rooms == s.rooms || (Clean(param) && r == Join(s, i, param))
  {
    hide InvExcept, Join, Listing, Whisper, Say, Named, Chat, Partition, Rooms;
    param := "";
    Stepping.SayKeeps(s, i, text);
    if text != "" && text[0] == '/' {
      var line := text[1..];
      var k := IndexOfChar(line, ' ');
      param := if k < |line| then line[k + 1..] else "";
      Stepping.ListingKeeps(s, i, lines);
      Stepping.WhisperKeeps(s, i, param);
      Joining.ErrorToSelf(s, i, UnknownCommandText());
    }
  }

  lemma JoiningGhosts(s: State, i: nat, param: string, k: nat, name: string, room: string)
    requires Inv(s) && i < |s.users| && s.users[i].open && IsOld(s.users[i]) && Clean(param) && Haunts(s, k, name, room)
    ensures var r := Join(s, i, param);
            && i < |r.users| && |r.users| == |s.users|
            && (Assoc.Find(Members(r, room), name) == Some(k) ||
                (r.users[i].username == name && r.users[i].room == Some(room) &&
                 Assoc.Find(Members(r, room), name) == Some(i)))
  {
    hide InvExcept, Join, LeaveRoom, Members, Assoc.Find, Assoc.Remove, Assoc.Add, Assoc.Has;
    LeavingGhosts(s, i, k, name, room);
    var r := Join(s, i, param);
    if !Delivery.Admissible(param) {
      Delivery.RefusedJoinOnlyComplains(s, i, param);
      SendKeeps(s, i, ChatEvent(Error, s.users[i].username, RestrictedText()));
      SendKeeps(s, i, ChatEvent(Error, s.users[i].username, TooLongText()));
      Joining.SameRoomsSameMembers(s, r, room);
    } else if param == "" {
      Delivery.LeavingChatIsExact(s, i);
      Joining.SameRoomsSameMembers(LeaveRoom(s, i), r, room);
    } else {
      Delivery.JoinIsExact(s, i, param);
      if param == room {
        Joining.LeaveRoomKeeps(s, i);
        Joining.LimboHasRooms(LeaveRoom(s, i), i);
        Joining.MembersOk(LeaveRoom(s, i), room);
        Assoc.AddRefinesMapUpdate(Members(LeaveRoom(s, i), room), s.users[i].username, i, name);
      } else {
        ElsewhereAsLeft(s, i, param, room);
      }
    }
  }

  lemma SendKeeps(s: State, i: nat, p: Packet)
    ensures Send(s, i, p).rooms == s.rooms && |Send(s, i, p).users| == |s.users|
  {
  }

  lemma ElsewhereAsLeft(s: State, i: nat, param: string, room: string)
    requires Inv(s) && i < |s.users| && s.users[i].open && IsOld(s.users[i]) && Clean(param)
    requires Delivery.Admissible(param) && param != "" && room != param
    ensures Members(Join(s, i, param), room) == Members(LeaveRoom(s, i), room)
  {
    hide Inv, Join, LeaveRoom, Members, Assoc.Remove;
    Delivery.JoinIsExact(s, i, param);
    Delivery.LeaveIsExact(s, i);
  }

  /** Leaving takes out the leaver's own entry, not that of a departed user. */
  lemma LeavingGhosts(s: State, i: nat, k: nat, name: string, room: string)
    requires Inv(s) && i < |s.users| && s.users[i].open && IsOld(s.users[i]) && Haunts(s, k, name, room)
    ensures Assoc.Find(Members(LeaveRoom(s, i), room), name) == Some(k)
  {
    hide LeaveRoom, Members, Roster.View, Accounts.ValidName, Assoc.Remove, Partition;
    Delivery.LeaveIsExact(s, i);
    Joining.MembersOk(s, room);
    assert Placed(s, i);
    Assoc.FindRemoved(Members(s, room), s.users[i].username, name);
  }

  lemma ExtendsKeepsConnected(s: State, r: State, i: nat)
    requires Effects.Extends(s, r, i) && i < |r.users| && r.users[i].open
    ensures forall k :: Guarantees.IsConnected(s, k) ==> Guarantees.IsConnected(r, k)
  {
    forall k: nat | Guarantees.IsConnected(s, k)
      ensures Guarantees.IsConnected(r, k)
    {
      assert Effects.Grows(s.users[k], r.users[k], k == i);
    }
  }

  lemma NoGhostsIfGrown(s: State, r: State, i: nat)
    requires NoGhosts(s) && Guarantees.RoomsGrow(s, r, i)
    requires forall k :: Guarantees.IsConnected(s, k) ==> Guarantees.IsConnected(r, k)
    requires r.rooms == s.rooms || Guarantees.IsConnected(r, i)
    ensures NoGhosts(r)
  {
    hide Members, Assoc.Values;
    forall room, k | k in Assoc.Values(Members(r, room))
      ensures Guarantees.IsConnected(r, k)
    {
      if r.rooms == s.rooms {
        Joining.SameRoomsSameMembers(s, r, room);
      }
    }
  }

  lemma ClosingStrands(s: State, r: State, i: nat)
    requires Inv(s) && NoGhosts(s) && i < |s.users| && s.users[i].open && |r.users| == |s.users|
    requires r.rooms == s.rooms && r.users == s.users[i := s.users[i].(open := false)]
    ensures NoGhosts(r) <==> s.users[i].room.None?
  {
    hide Roster.View, Accounts.ValidName, Assoc.Values;
    Joining.InvIsPartitioned(s);
    assert forall room :: Members(r, room) == Members(s, room);
    assert !Guarantees.IsConnected(r, i);
    assert forall k: nat :: k != i && Guarantees.IsConnected(s, k) ==> Guarantees.IsConnected(r, k);
    if s.users[i].room.Some? {
      var room := s.users[i].room.value;
      Delivery.MembersAreThoseInTheRoom(s, i, room);
      assert i in Assoc.Values(Members(r, room));
      assert !NoGhosts(r);
    } else {
      Joining.UnplacedIsNowhere(s, i);
      forall room, k | k in Assoc.Values(Members(r, room))
        ensures Guarantees.IsConnected(r, k)
      {
        assert k in Assoc.Values(Members(s, room));
      }
    }
  }

  /** A disconnect that first leaves the room, as a join would, keeps everything and no ghost. */
  lemma LeavingFirstStrandsNobody(s: State, i: nat)
    requires Inv(s) && NoGhosts(s) && i < |s.users| && s.users[i].open && IsOld(s.users[i])
    ensures var s1 := Join(s, i, "");
            var r := Close(s1.(oldUsers := Assoc.Remove(s1.oldUsers, s.users[i].username)), i);
            Inv(r) && NoGhosts(r)
  {
    hide InvExcept, Join, Members, Assoc.Values, Assoc.Remove, Guarantees.RoomsGrow;
    var s1 := Join(s, i, "");
    Joining.JoinKeeps(s, i, "");
    Delivery.LeavingChatIsExact(s, i);
    Guarantees.JoinGrows(s, i, "");
    Effects.JoinExtends(s, i, "");
    ExtendsKeepsConnected(s, s1, i);
    NoGhostsIfGrown(s, s1, i);
    Stepping.CloseOldKeeps(s1, i);
    ClosingStrands(s1, Close(s1.(oldUsers := Assoc.Remove(s1.oldUsers, s.users[i].username)), i), i);
  }

  // ---- a run that leaves a ghost ----

  /** The disconnect branch of do_select never leaves the room. */
  lemma DisconnectStrands(s: State, i: nat, room: string)
    requires Inv(s) && !s.crashed && i < |s.users| && s.users[i].open && s.users[i].room == Some(room)
    ensures !NoGhosts(Step(s, Poll(i, Framing.Closed, [])))
  {
    hide InvExcept, LinkedLists.WithoutFirst, Assoc.Remove, Members, Assoc.Values;
    var r := Step(s, Poll(i, Framing.Closed, []));
    Stepping.CollectionsMatchStates(s, i);
    Delivery.MembersAreThoseInTheRoom(s, i, room);
    Joining.SameRoomsSameMembers(s, r, room);
    assert i in Assoc.Values(Members(r, room)) && !Guarantees.IsConnected(r, i);
  }

  /** A user connects, registers, logs in, joins a room and hangs up: the room still lists it. */
  lemma AGhostIsReachable(sha1: seq<byte> -> Digest)
    ensures exists s :: Guarantees.Reachable(s) && !NoGhosts(s)
  {
    hide Inv, Guarantees.Reachable, NoGhosts, Step, Handshake.Serve;
    var s0, i := Arrivals.SomebodyInARoom(sha1, "ab");
    Guarantees.ReachableInv(s0);
    DisconnectStrands(s0, i, "a");
    Arrivals.ReachableStep(s0, Poll(i, Framing.Closed, []));
  }
}
