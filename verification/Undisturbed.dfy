/** A client that logs in under a name that nobody else tries to use succeeds, whatever else the
    other clients do meanwhile. */
module Undisturbed {
  import opened Types
  import opened Messages
  import opened ServerSpec
  import opened Invariants
  import Accounts
  import Arrivals
  import Assoc
  import Authentication
  import Codec
  import Descriptors
  import Guarantees
  import Handshake
  import LinkedLists
  import Stepping
  import Survival

  /** The event is a login or a create for this name. */
  predicate UsesName(e: Event, name: string) {
    && e.Poll? && e.reading.Packet?
    && (e.reading.bytes[1] == SID_LOGIN || e.reading.bytes[1] == SID_CREATE)
    && ParseCredentials(e.reading.bytes).Some?
    && ParseCredentials(e.reading.bytes).value.1 == name
  }

  predicate LeavesAlone(es: seq<Event>, name: string) {
    forall k :: 0 <= k < |es| ==> !UsesName(es[k], name)
  }

  /** Nobody comes to be logged in under a name that the event does not use. */
  lemma NameStaysFree(s: State, e: Event, name: string)
    requires Inv(s) && !UsesName(e, name) && !Assoc.Has(s.oldUsers, name)
    ensures !Assoc.Has(Step(s, e).oldUsers, name)
  {
    hide InvExcept, Step, Accounts.Stored, Accounts.Salted, ParseCredentials;
    var r := Step(s, e);
    if Assoc.Has(r.oldUsers, name) {
      Stepping.StepKeeps(s, e);
      FoundByName(r, name);
      var i := Assoc.Find(r.oldUsers, name).value;
      Authentication.StepAuthenticates(s, e, i);
      if i in Assoc.Values(s.oldUsers) {
        ListedByName(s, i);
      }
    }
  }

  lemma FoundByName(s: State, name: string)
    requires Inv(s) && Assoc.Has(s.oldUsers, name)
    ensures var i := Assoc.Find(s.oldUsers, name).value;
            i in Assoc.Values(s.oldUsers) && i < |s.users| && s.users[i].username == name
  {
    FoundIsOldUser(s, name);
    assert Assoc.Values(s.oldUsers)[Assoc.IndexOf(s.oldUsers, name)] == Assoc.Find(s.oldUsers, name).value;
  }

  lemma ListedByName(s: State, i: nat)
    requires Inv(s) && i in Assoc.Values(s.oldUsers)
    ensures i < |s.users| && Assoc.Has(s.oldUsers, s.users[i].username)
  {
    hide InvExcept;
    Stepping.CollectionsMatchStates(s, i);
    InvGivesPartition(s);
    OldUserIsFound(s, i);
  }

  lemma InvGivesPartition(s: State)
    requires Inv(s)
    ensures Partition(s)
  {
  }

  /** The account of a name changes only by an event that uses the name. */
  lemma AccountStaysPut(s: State, e: Event, name: string)
    requires Inv(s) && !UsesName(e, name)
    ensures Accounts.Stored(Step(s, e).file, name) == Accounts.Stored(s.file, name)
  {
    hide InvExcept, Handle, ParseCredentials, Accounts.Stored, LinkedLists.WithoutFirst, Assoc.Remove, Assoc.Values;
    if e.Poll? && e.reading.Packet? {
      Stepping.CollectionsMatchStates(s, e.who);
      if e.who < |s.users| && s.users[e.who].open {
        HandleStores(s, e.who, e.reading.bytes, e.lines, name);
      }
    }
  }

  lemma HandleStores(s: State, i: nat, b: seq<byte>, lines: seq<Notice>, name: string)
    requires Inv(s) && i < |s.users| && s.users[i].open && 4 <= |b| <= MAX_PACKET
    requires !(b[1] == SID_CREATE && ParseCredentials(b).Some? && ParseCredentials(b).value.1 == name)
    ensures Accounts.Stored(Handle(s, i, b, lines).file, name) == Accounts.Stored(s.file, name)
  {
    hide InvExcept, ParseText, ParseClientInformation, ParseCredentials, Message, LoginStatus, Accounts.Create,
      Accounts.Stored, Guarantees.RoomsGrow, LinkedLists.WithoutFirst, Assoc.Add;
    if b[1] == SID_CHATCOMMAND && IsOld(s.users[i]) && ParseText(b).Some? {
      Guarantees.MessageGrows(s, i, ParseText(b).value, lines);
    } else if b[1] == SID_CREATE && ParseCredentials(b).Some? {
      var (hash, other) := ParseCredentials(b).value;
      Guarantees.InvHasFile(s);
      Accounts.CreateRoundTrip(s.file, other, hash, name);
    }
  }

  /** Over a run that leaves the name alone, it stays free and its account stays what it was. */
  lemma {:induction false} RunLeavesAlone(s: State, es: seq<Event>, name: string)
    requires Inv(s) && LeavesAlone(es, name) && !Assoc.Has(s.oldUsers, name)
    ensures var r := Run(s, es);
            !Assoc.Has(r.oldUsers, name) && Accounts.Stored(r.file, name) == Accounts.Stored(s.file, name)
    decreases |es|
  {
    hide Inv, Step, UsesName, Accounts.Stored, Assoc.Has;
    if es != [] {
      var n := |es| - 1;
      RunLeavesAlone(s, es[..n], name);
      Stepping.RunKeeps(s, es[..n]);
      NameStaysFree(Run(s, es[..n]), es[n], name);
      AccountStaysPut(Run(s, es[..n]), es[n], name);
    }
  }

  /** What other clients do while this one logs in: packets of the client program, over any
      connections but this one, none of them a login or a create for its name. */
  ghost predicate Harmless(es: seq<Event>, i: nat, name: string) {
    Handshake.ByOthers(es, i) && LeavesAlone(es, name) && Survival.ByClients(es)
  }

  lemma HarmlessRun(s: State, es: seq<Event>, i: nat, name: string)
    requires Inv(s) && !s.crashed && Harmless(es, i, name) && !Assoc.Has(s.oldUsers, name)
    requires InUse(s) + Descriptors.Takers(es) < s.descriptors
    ensures var r := Run(s, es);
            && Inv(r) && Handshake.CanLookUp(r) && !Assoc.Has(r.oldUsers, name)
            && Accounts.Stored(r.file, name) == Accounts.Stored(s.file, name)
            && InUse(r) <= InUse(s) + Descriptors.Takers(es) && r.descriptors == s.descriptors
  {
    hide Inv, Run, LeavesAlone, Survival.ByClients, Accounts.Stored, Assoc.Has;
    Stepping.RunKeeps(s, es);
    Survival.FewTakersEndNothing(s, es);
    Descriptors.UseIsBounded(s, es);
    RunLeavesAlone(s, es, name);
  }

  /** With a valid name that nobody is using, an account that does not exist yet or has this
      client's password, and descriptors enough for what the others may take, the handshake ends in
      the join. */
  lemma UndisturbedHandshakeSucceeds(s: State, i: nat, c: Handshake.Credentials,
                                     w0: seq<Event>, w1: seq<Event>, w2: seq<Event>)
    requires Inv(s) && !s.crashed && Handshake.LoggingIn(s, i, c) && Handshake.CanSend(c)
    requires var name := Codec.Seen(c.name);
             && Harmless(w0, i, name) && Harmless(w1, i, name) && Harmless(w2, i, name)
             && Accounts.ValidName(name) && !Assoc.Has(s.oldUsers, name)
             && (Accounts.Stored(s.file, name).None? || Accounts.Stored(s.file, name) == Some(c.secret))
    requires InUse(s) + Descriptors.Takers(w0) + Descriptors.Takers(w1) + Descriptors.Takers(w2) < s.descriptors
    ensures var end := Handshake.Drive(s, i, c, Handshake.MyLogin(s, i, c), [w0, w1, w2]).1;
            && end.Joined? && end.server.descriptors == s.descriptors
            && InUse(end.server) <=
               InUse(s) + Descriptors.Takers(w0) + Descriptors.Takers(w1) + Descriptors.Takers(w2)
  {
    hide InvExcept, Run, Handshake.Serve, Codec.Seen, Accounts.Stored, Accounts.ValidName, Assoc.Has, Handshake.Drive,
      Accounts.Salted, Harmless, LoginStatus, Descriptors.Takers, Accounts.Create, Exhausted;
    var name := Codec.Seen(c.name);
    var login, create := Handshake.MyLogin(s, i, c), Handshake.MyCreate(c);
    HarmlessIsByOthers(w0, w1, w2, i, name);
    Handshake.HandshakeSucceedsExactly(s, i, c, w0, w1, w2);
    HarmlessRun(s, w0, i, name);
    Handshake.WaitingChangesNothing(s, w0, i);
    var s1 := Run(s, w0);
    if Accounts.Stored(s1.file, name).None? {
      var t1 := Handshake.Serve(s1, i, login);
      Handshake.ServingALogin(s1, i, c, login);
      Stepping.LoginStatusIsSound(s1, i, login.digest, name);
      HarmlessRun(t1, w1, i, name);
      Handshake.WaitingChangesNothing(t1, w1, i);
      var s2 := Run(t1, w1);
      Handshake.ServingACreate(s2, i, c, create);
      Guarantees.InvHasFile(s2);
      FreshCreateSucceeds(s2.file, name, c.secret);
      var t2 := Handshake.Serve(s2, i, create);
      HarmlessRun(t2, w2, i, name);
      Handshake.WaitingChangesNothing(t2, w2, i);
      ALoginTakesNothing(Run(t2, w2), i, login);
    } else {
      ALoginTakesNothing(s1, i, login);
    }
  }

  lemma ALoginTakesNothing(s: State, i: nat, r: Request)
    requires Inv(s) && r.Login? && RequestOk(r)
    ensures var t := Handshake.Serve(s, i, r); t.descriptors == s.descriptors && InUse(t) == InUse(s)
  {
    hide InvExcept, Step, RequestWire, ParseCredentials, Exhausted;
    Arrivals.CodeOf(r);
    Descriptors.StepUses(s, Poll(i, Handshake.RequestReading(r), []));
  }

  lemma FreshCreateSucceeds(f: string, name: string, hash: Digest)
    requires Accounts.ValidName(name) && Accounts.Stored(f, name).None? && Accounts.WellFormed(f)
    ensures Accounts.Create(f, name, hash).0 == Accounts.CreateSuccess
  {
    hide Accounts.Create, Accounts.ValidName, Accounts.Stored;
    Accounts.CreateRoundTrip(f, name, hash, name);
  }

  lemma HarmlessIsByOthers(w0: seq<Event>, w1: seq<Event>, w2: seq<Event>, i: nat, name: string)
    requires Harmless(w0, i, name) && Harmless(w1, i, name) && Harmless(w2, i, name)
    ensures Handshake.ByOthers(w0, i) && Handshake.ByOthers(w1, i) && Handshake.ByOthers(w2, i)
  {
  }
}
