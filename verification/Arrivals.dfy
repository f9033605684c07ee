/** Reachable states with given users in them: anybody with a free, valid name can connect and log in
    while two descriptors are left, and can then join a room. */
module Arrivals {
  import opened Types
  import opened Messages
  import opened ServerSpec
  import opened Invariants
  import Accounts
  import Assoc
  import Codec
  import Delivery
  import Descriptors
  import Effects
  import Guarantees
  import Handshake
  import Joining
  import Stepping

  lemma ReachableStep(s: State, e: Event)
    requires Guarantees.Reachable(s)
    ensures Guarantees.Reachable(Step(s, e))
  {
    hide Step, Accounts.WellFormed;
    var s0, es :| Initial(s0) && Accounts.WellFormed(s0.file) && s == Run(s0, es);
    assert (es + [e])[..|es|] == es;
    assert Step(s, e) == Run(s0, es + [e]);
  }

  lemma ServedIsReachable(s: State, i: nat, r: Request)
    requires Guarantees.Reachable(s) && RequestOk(r)
    ensures Guarantees.Reachable(Handshake.Serve(s, i, r))
  {
    hide Step, Guarantees.Reachable;
    ReachableStep(s, Poll(i, Handshake.RequestReading(r), []));
  }

  lemma EmptyServer(sha1: seq<byte> -> Digest, descriptors: nat) returns (s: State)
    ensures Guarantees.Reachable(s) && s == State([], [], [], [], "", sha1, descriptors, 0, false)
  {
    s := State([], [], [], [], "", sha1, descriptors, 0, false);
    assert Accounts.ValidRecords([]) && "" == Accounts.PrintAll([]);
    assert Run(s, []) == s;
  }

  lemma NobodyIsStored(name: string)
    ensures Accounts.Stored("", name).None?
  {
  }

  /** The records of the first n users are as before, but for what was sent to them. */
  ghost predicate OthersKept(s: State, r: State, n: nat) {
    && n <= |s.users| && n <= |r.users|
    && forall j :: 0 <= j < n ==> r.users[j] == s.users[j].(sent := r.users[j].sent)
  }

  /** One request of user i: everybody else is kept, and no descriptor goes unless it is a create. */
  lemma Served(s: State, i: nat, r: Request)
    requires Guarantees.Reachable(s) && !s.crashed && i < |s.users| && s.users[i].open && RequestOk(r)
    ensures var t := Handshake.Serve(s, i, r);
            && Guarantees.Reachable(t) && Inv(t) && |t.users| == |s.users|
            && OthersKept(s, t, i) && t.descriptors == s.descriptors
            && (!r.Create? ==> InUse(t) == InUse(s))
  {
    hide InvExcept, Guarantees.Reachable, RequestWire, ParseCredentials, PollOld, PollNew, Exhausted;
    Guarantees.ReachableInv(s);
    ServedIsReachable(s, i, r);
    var e := Poll(i, Handshake.RequestReading(r), []);
    Stepping.StepKeeps(s, e);
    Descriptors.StepUses(s, e);
    Stepping.CollectionsMatchStates(s, i);
    Effects.PollExtends(s, i, e.reading, []);
    var t := Handshake.Serve(s, i, r);
    forall j | 0 <= j < i
      ensures t.users[j] == s.users[j].(sent := t.users[j].sent)
    {
      assert Effects.Grows(s.users[j], t.users[j], j == i);
    }
    CodeOf(r);
  }

  lemma CodeOf(r: Request)
    requires RequestOk(r)
    ensures !r.Create? ==> RequestWire(r)[1] != SID_CREATE
  {
    hide RequestPayload;
  }

  /** A client that has just introduced itself on a new connection. */
  lemma Introduces(s: State, c: Handshake.Credentials) returns (t: State)
    requires Guarantees.Reachable(s) && !s.crashed && !Exhausted(s) && Handshake.CanSend(c)
    ensures Guarantees.Reachable(t) && Inv(t) && !t.crashed && |t.users| == |s.users| + 1 && OthersKept(s, t, |s.users|)
    ensures Handshake.LoggingIn(t, |s.users|, c) && t.file == s.file && t.oldUsers == s.oldUsers && t.sha1 == s.sha1
    ensures InUse(t) == InUse(s) + 1 && t.descriptors == s.descriptors
  {
    hide InvExcept, Guarantees.Reachable, Handshake.Serve, Handshake.Reply, Handshake.React, RequestWire;
    var i, hello, s1 := |s.users|, ClientInformation(c.clientToken, 0), Step(s, Accept(0));
    ReachableStep(s, Accept(0));
    Guarantees.ReachableInv(s1);
    Handshake.HandshakeStarts(s1, i, c, 0);
    Served(s1, i, hello);
    t := Handshake.Serve(s1, i, hello);
  }

  /** The account of a client: there already, or created now. */
  lemma Registers(s: State, i: nat, c: Handshake.Credentials) returns (t: State)
    requires Guarantees.Reachable(s) && Inv(s) && Handshake.CanLookUp(s)
    requires Handshake.LoggingIn(s, i, c) && Handshake.CanSend(c)
    requires Accounts.ValidName(c.name) && Accounts.Stored(s.file, c.name) in {None, Some(c.secret)}
    ensures Guarantees.Reachable(t) && Inv(t) && !t.crashed && Handshake.LoggingIn(t, i, c) && |t.users| == |s.users|
    ensures OthersKept(s, t, i) && t.oldUsers == s.oldUsers && InUse(t) == InUse(s) && t.descriptors == s.descriptors
    ensures Accounts.Stored(t.file, c.name) == Some(c.secret) && OtherAccountsKept(s, t, c.name)
  {
    hide Inv, Guarantees.Reachable, Handshake.Serve, Codec.Seen, Accounts.Stored, Accounts.Create, Accounts.ValidName,
      Handshake.Reply;
    t := s;
    if Accounts.Stored(s.file, c.name).None? {
      var request := Handshake.MyCreate(c);
      Accounts.ValidNameIsClean(c.name);
      Codec.CleanIsCString(c.name);
      Served(s, i, request);
      t := Handshake.Serve(s, i, request);
      Handshake.ServingACreate(s, i, c, request);
      Guarantees.InvHasFile(s);
      Accounts.CreateRoundTrip(s.file, c.name, c.secret, c.name);
      forall other
        ensures Accounts.Stored(t.file, other) ==
                if other == c.name then Some(c.secret) else Accounts.Stored(s.file, other)
      {
        Accounts.CreateRoundTrip(s.file, c.name, c.secret, other);
      }
    }
  }

  ghost predicate OtherAccountsKept(s: State, t: State, name: string) {
    forall other :: other != name ==> Accounts.Stored(t.file, other) == Accounts.Stored(s.file, other)
  }

  /** Anybody can come and log in under a valid name that is free, as long as two descriptors are
      left, one for the connection and one for the account file. */
  lemma SomebodyLogsIn(s: State, c: Handshake.Credentials) returns (t: State)
    requires Guarantees.Reachable(s) && !s.crashed && InUse(s) + 1 < s.descriptors && Handshake.CanSend(c)
    requires Accounts.ValidName(c.name) && !Assoc.Has(s.oldUsers, c.name)
    requires Accounts.Stored(s.file, c.name) in {None, Some(c.secret)}
    ensures Guarantees.Reachable(t) && !t.crashed && |t.users| == |s.users| + 1 && OthersKept(s, t, |s.users|)
    ensures var u := t.users[|s.users|]; u.open && IsOld(u) && u.username == c.name
    ensures InUse(t) == InUse(s) + 1 && t.descriptors == s.descriptors && OtherAccountsKept(s, t, c.name)
  {
    hide InvExcept, Guarantees.Reachable, Handshake.Serve, Codec.Seen, Accounts.Stored, Accounts.ValidName,
      Handshake.Reply, Assoc.Has, Assoc.Find, LoginStatus, Handshake.LoggingIn, InUse;
    var i := |s.users|;
    LeavesRoomForOne(s);
    var s1 := Introduces(s, c);
    LeavesRoomForOne(s1);
    var s2 := Registers(s1, i, c);
    LeavesRoomForOne(s2);
    var request := Handshake.MyLogin(s2, i, c);
    LogsIn(s2, i, c);
    LoggingInIsOpen(s2, i, c);
    Served(s2, i, request);
    t := Handshake.Serve(s2, i, request);
  }

  lemma LoggingInIsOpen(s: State, i: nat, c: Handshake.Credentials)
    requires Handshake.LoggingIn(s, i, c)
    ensures i < |s.users| && s.users[i].open
  {
  }

  lemma LeavesRoomForOne(s: State)
    ensures Exhausted(s) <==> InUse(s) >= s.descriptors
  {
  }

  lemma LogsIn(s: State, i: nat, c: Handshake.Credentials)
    requires Inv(s) && Handshake.CanLookUp(s) && Handshake.LoggingIn(s, i, c) && Handshake.CanSend(c)
    requires Accounts.ValidName(c.name) && Accounts.Stored(s.file, c.name) == Some(c.secret)
    requires !Assoc.Has(s.oldUsers, c.name)
    ensures var t := Handshake.Serve(s, i, Handshake.MyLogin(s, i, c));
            && !t.crashed && t.file == s.file
            && i < |t.users| && t.users[i].open && IsOld(t.users[i]) && t.users[i].username == c.name
  {
    hide InvExcept, Codec.Seen, Accounts.Stored, Accounts.Salted, LoginStatus, Handshake.Serve, Accounts.ValidName,
      Assoc.Has, Handshake.Reply, Exhausted;
    var request := Handshake.MyLogin(s, i, c);
    Accounts.ValidNameIsClean(c.name);
    Codec.CleanIsCString(c.name);
    Handshake.SecondLoginKnowsTheAccount(s, i, c);
    Handshake.ServingALogin(s, i, c, request);
    var t := Handshake.Serve(s, i, request);
    Joining.InvIsPartitioned(t);
    FoundUser(t, c.name, i);
  }

  lemma FoundUser(s: State, name: string, i: nat)
    requires Partition(s) && Assoc.Find(s.oldUsers, name) == Some(i)
    ensures i < |s.users| && s.users[i].open && IsOld(s.users[i]) && s.users[i].username == name
  {
    FoundIsOldUser(s, name);
  }

  lemma JoinIsServed(s: State, i: nat)
    requires Inv(s) && !s.crashed && i < |s.users| && s.users[i].open && IsOld(s.users[i])
    requires RequestOk(ChatCommand("/join a"))
    ensures Handshake.Serve(s, i, ChatCommand("/join a")) == Join(s, i, "a")
  {
    hide InvExcept, RequestWire, Join, Message, Codec.Seen, ParseText;
    Stepping.CollectionsMatchStates(s, i);
    ServerReadsWhatTheClientWrote(ChatCommand("/join a"));
    Codec.CleanIsCString("/join a");
    JoinCommand(s, i);
  }

  lemma JoinsARoom(s: State, i: nat)
    requires Guarantees.Reachable(s) && !s.crashed && i < |s.users| && s.users[i].open && IsOld(s.users[i])
    requires RequestOk(ChatCommand("/join a"))
    ensures var r := Handshake.Serve(s, i, ChatCommand("/join a"));
            && Guarantees.Reachable(r) && !r.crashed && i < |r.users| && r.users[i].open
            && r.users[i].room == Some("a") && r.users[i].username == s.users[i].username
  {
    hide Inv, Guarantees.Reachable, RequestWire, Join, Handshake.Serve, Guarantees.RoomsGrow;
    Guarantees.ReachableInv(s);
    ServedIsReachable(s, i, ChatCommand("/join a"));
    JoinIsServed(s, i);
    Delivery.JoinIsExact(s, i, "a");
    Guarantees.JoinGrows(s, i, "a");
  }

  lemma JoinCommand(s: State, i: nat)
    ensures Message(s, i, "/join a", []) == Join(s, i, "a")
  {
    hide Join;
    var line := "/join a"[1..];
    assert line == "join a";
    IndexOfCharIs(line, ' ', 4);
    assert line[..4] == "join" && line[5..] == "a";
    assert SameIgnoringCase("join", JOIN_NAMES[0]);
  }

  /** What somebody of a given name types in. */
  function Somebody(name: string): Handshake.Credentials {
    Handshake.Credentials(name, seq(HASH_LENGTH, i => 0), "a", 0)
  }

  lemma SomebodyCanSend(name: string)
    requires Accounts.ValidName(name)
    ensures Handshake.CanSend(Somebody(name))
  {
    Accounts.ValidNameIsClean(name);
    Codec.CleanIsCString(name);
  }

  /** A reachable state in which a user of any valid name is connected and in a room. */
  lemma SomebodyInARoom(sha1: seq<byte> -> Digest, name: string) returns (s: State, i: nat)
    requires Accounts.ValidName(name)
    ensures Guarantees.Reachable(s) && !s.crashed && i < |s.users| && s.users[i].open
    ensures s.users[i].room == Some("a") && s.users[i].username == name
  {
    hide Inv, Guarantees.Reachable, Handshake.Serve, Accounts.ValidName, Accounts.Stored;
    var s0 := EmptyServer(sha1, 2);
    NobodyIsStored(name);
    SomebodyCanSend(name);
    var s1 := SomebodyLogsIn(s0, Somebody(name));
    Codec.CleanIsCString("/join a");
    JoinsARoom(s1, 0);
    s, i := Handshake.Serve(s1, 0, ChatCommand("/join a")), 0;
  }
}
