/** The end of the handshake: the client that was told of its login asks for its channel, and the
    server puts it there. */
module Entering {
  import opened Types
  import opened Messages
  import opened ServerSpec
  import opened Invariants
  import Accounts
  import Answers
  import Assoc
  import Codec
  import CommandLines
  import Delivery
  import Descriptors
  import Effects
  import Handshake
  import Spelling
  import Stepping
  import Survival
  import Undisturbed

  /** Whatever the others do, a handshake that ends well leaves the user logged in under its name,
      and the client about to send one request. */
  lemma JoinedIsLoggedIn(s: State, i: nat, c: Handshake.Credentials, waits: seq<seq<Event>>)
    requires Inv(s) && Handshake.LoggingIn(s, i, c) && Handshake.CanSend(c)
    requires forall k :: 0 <= k < |waits| ==> Handshake.ByOthers(waits[k], i)
    ensures var end := Handshake.Drive(s, i, c, Handshake.MyLogin(s, i, c), waits).1;
            end.Joined? ==> end.command == Handshake.MyJoin(c) && Handshake.LoggedIn(end.server, i, c)
  {
    hide Inv, Run, Handshake.Serve, Codec.Seen, Accounts.Stored, Handshake.StatusNow, Handshake.LoggingIn,
      Handshake.MyLogin, Handshake.MyCreate, Handshake.MyJoin, Handshake.LoggedIn, Handshake.Drive, Accounts.ValidName,
      Handshake.CanRegister, Handshake.ByOthers;
    if waits == [] {
      Handshake.NothingServed(s, i, c, Handshake.MyLogin(s, i, c));
    } else {
      Handshake.LoginTurn(s, i, c, waits);
      var s1 := Run(s, waits[0]);
      if !s1.crashed && Handshake.StatusNow(s1, i, c) == Some(Accounts.UnknownAccount) {
        CreatedIsLoggedIn(Handshake.Serve(s1, i, Handshake.MyLogin(s, i, c)), i, c, waits[1..]);
      }
    }
  }

  lemma CreatedIsLoggedIn(s: State, i: nat, c: Handshake.Credentials, waits: seq<seq<Event>>)
    requires Inv(s) && Handshake.LoggingIn(s, i, c) && Handshake.CanSend(c)
    requires forall k :: 0 <= k < |waits| ==> Handshake.ByOthers(waits[k], i)
    ensures var end := Handshake.Drive(s, i, c, Handshake.MyCreate(c), waits).1;
            end.Joined? ==> end.command == Handshake.MyJoin(c) && Handshake.LoggedIn(end.server, i, c)
  {
    hide Inv, Run, Handshake.Serve, Codec.Seen, Accounts.Stored, Handshake.LoggingIn, Handshake.MyLogin,
      Handshake.MyCreate, Handshake.MyJoin, Handshake.LoggedIn, Handshake.Drive, Accounts.ValidName,
      Handshake.CanRegister, Handshake.ByOthers;
    if waits == [] {
      Handshake.NothingServed(s, i, c, Handshake.MyCreate(c));
    } else {
      Handshake.CreateTurn(s, i, c, waits);
      var s1 := Run(s, waits[0]);
      if Handshake.CanRegister(s1, Codec.Seen(c.name)) {
        Handshake.LastLogin(Handshake.Serve(s1, i, Handshake.MyCreate(c)), i, c, waits[1..]);
      }
    }
  }

  /** The user as others leave it: what was sent to it may grow. */
  ghost predicate Kept(u: UserRecord, v: UserRecord) {
    v == u.(sent := v.sent)
  }

  lemma {:induction false} OthersKeepIt(s: State, es: seq<Event>, i: nat)
    requires Inv(s) && i < |s.users| && Handshake.ByOthers(es, i)
    ensures Inv(Run(s, es)) && i < |Run(s, es).users| && Kept(s.users[i], Run(s, es).users[i])
    decreases |es|
  {
    hide InvExcept, Step;
    if es != [] {
      var n := |es| - 1;
      OthersKeepIt(s, es[..n], i);
      Stepping.StepKeeps(Run(s, es[..n]), es[n]);
      OneOtherKeepsIt(Run(s, es[..n]), es[n], i);
    }
  }

  lemma OneOtherKeepsIt(s: State, e: Event, i: nat)
    requires Inv(s) && i < |s.users| && (e.Poll? ==> e.who != i)
    ensures i < |Step(s, e).users| && Kept(s.users[i], Step(s, e).users[i])
  {
    hide InvExcept, PollOld, PollNew;
    if e.Poll? {
      Stepping.CollectionsMatchStates(s, e.who);
      if e.who < |s.users| && s.users[e.who].open {
        Effects.PollExtends(s, e.who, e.reading, e.lines);
        assert Effects.Grows(s.users[i], PollOld(s, e.who, e.reading, e.lines).users[i], i == e.who);
        assert Effects.Grows(s.users[i], PollNew(s, e.who, e.reading, e.lines).users[i], i == e.who);
      }
    }
  }

  /** The request is served as a join of the channel as the server reads it. */
  lemma TheFirstCommandJoins(s: State, i: nat, c: Handshake.Credentials)
    requires CommandLines.Online(s, i) && Handshake.CanSend(c)
    ensures Handshake.Serve(s, i, Handshake.MyJoin(c)) == Join(s, i, Codec.Seen(c.channel))
  {
    hide CommandLines.Online, Join, Step, Codec.Seen, CommandLines.Says;
    SaysJoin();
    assert "/join " + c.channel == "/" + "join" + " " + c.channel;
    CommandLines.ATypedCommandIsDone(s, i, 0, "join", c.channel, []);
  }

  lemma SaysJoin()
    ensures CommandLines.Says("join", CommandLines.WORDS[0])
  {
    assert Spelling.Spells("join", CommandLines.WORDS[0][0].0, CommandLines.WORDS[0][0].1);
  }

  /** What a join from nowhere makes of the user. */
  ghost predicate Settled(s: State, r: State, i: nat, name: string, channel: string)
    requires i < |s.users|
  {
    if 1 <= |channel| <= 15 && !Spelling.Backstage(channel) then
      && i < |r.users| && r.users[i].open && r.users[i].username == name
      && r.users[i].state == JoinedChannel && r.users[i].room == Some(channel)
      && Assoc.Find(Members(r, channel), name) == Some(i)
    else if channel == "" then
      i < |r.users| && r.users[i].room == None
    else
      r == Answered(s, i, channel) && r.users[i].room == None
  }

  function Answered(s: State, i: nat, channel: string): State
    requires i < |s.users|
  {
    Answers.Answered(s, i, Answers.Refusal(s, i,
      if |channel| > 15 then "Sorry, the name of that room is too long" else "Sorry, that room is restricted"))
  }

  /** Once the login has succeeded, the client is in the channel that was typed in, exactly if that
      has 1 to 15 characters and is not the restricted room; whatever the others do first. */
  lemma TheHandshakeEndsInTheRoom(s: State, i: nat, c: Handshake.Credentials, waits: seq<seq<Event>>,
                                  last: seq<Event>)
    requires Inv(s) && Handshake.LoggingIn(s, i, c) && Handshake.CanSend(c) && Handshake.ByOthers(last, i)
    requires forall k :: 0 <= k < |waits| ==> Handshake.ByOthers(waits[k], i)
    requires Handshake.Drive(s, i, c, Handshake.MyLogin(s, i, c), waits).1.Joined?
    ensures var end := Handshake.Drive(s, i, c, Handshake.MyLogin(s, i, c), waits).1;
            var t := Run(end.server, last);
            && RequestOk(end.command) && i < |t.users|
            && (!t.crashed ==>
                  var r, channel := Handshake.Serve(t, i, end.command), Codec.Seen(c.channel);
                  r == Join(t, i, channel) && Settled(t, r, i, Codec.Seen(c.name), channel))
  {
    hide Inv, Run, Handshake.Serve, Codec.Seen, Handshake.LoggingIn, Handshake.MyLogin, Handshake.MyJoin,
      Handshake.Drive, Handshake.ByOthers, Settled, Join;
    JoinedIsLoggedIn(s, i, c, waits);
    var t0 := Handshake.Drive(s, i, c, Handshake.MyLogin(s, i, c), waits).1.server;
    OthersKeepIt(t0, last, i);
    var t := Run(t0, last);
    if !t.crashed {
      TheFirstCommandJoins(t, i, c);
      SeenIsClean(c.channel);
      ItSettles(t, i, Codec.Seen(c.channel));
    }
  }

  lemma SeenIsClean(s: string)
    requires CString(s)
    ensures Clean(Codec.Seen(s))
  {
  }

  lemma ItSettles(s: State, i: nat, channel: string)
    requires CommandLines.Online(s, i) && s.users[i].room.None? && Clean(channel)
    ensures Settled(s, Join(s, i, channel), i, s.users[i].username, channel)
  {
    hide InvExcept, Join, Answers.Answered, Assoc.Find, Members, Spelling.Backstage;
    Answers.WhereAJoinLeads(s, i, channel);
    Answers.BackstageIsShort(channel);
    if 1 <= |channel| <= 15 && !Spelling.Backstage(channel) {
      Spelling.BackstageInAnyCapitals(channel);
      Delivery.JoinIsExact(s, i, channel);
    }
    RefusedStaysOut(s, i, channel);
  }

  lemma RefusedStaysOut(s: State, i: nat, channel: string)
    requires i < |s.users|
    ensures Answered(s, i, channel).users[i].room == s.users[i].room
  {
  }

  /** From the first login to the room, when nobody else uses the name and descriptors suffice. */
  lemma AnUndisturbedClientEntersItsRoom(s: State, i: nat, c: Handshake.Credentials, w0: seq<Event>, w1: seq<Event>,
                                         w2: seq<Event>, last: seq<Event>)
    requires Inv(s) && !s.crashed && Handshake.LoggingIn(s, i, c) && Handshake.CanSend(c)
    requires var name := Codec.Seen(c.name);
             && Undisturbed.Harmless(w0, i, name) && Undisturbed.Harmless(w1, i, name)
             && Undisturbed.Harmless(w2, i, name) && Handshake.ByOthers(last, i) && Survival.ByClients(last)
             && Accounts.ValidName(name) && !Assoc.Has(s.oldUsers, name)
             && (Accounts.Stored(s.file, name).None? || Accounts.Stored(s.file, name) == Some(c.secret))
    requires InUse(s) + Descriptors.Takers(w0) + Descriptors.Takers(w1) + Descriptors.Takers(w2)
             + Descriptors.Takers(last) < s.descriptors
    requires var channel := Codec.Seen(c.channel); 1 <= |channel| <= 15 && !Spelling.Backstage(channel)
    ensures var end := Handshake.Drive(s, i, c, Handshake.MyLogin(s, i, c), [w0, w1, w2]).1;
            && end.Joined? && RequestOk(end.command)
            && var t := Run(end.server, last);
               var r, name, channel := Handshake.Serve(t, i, end.command), Codec.Seen(c.name), Codec.Seen(c.channel);
               && !t.crashed && i < |r.users| && r.users[i].username == name && r.users[i].room == Some(channel)
               && Assoc.Find(Members(r, channel), name) == Some(i)
  {
    hide Inv, Run, Handshake.Serve, Codec.Seen, Handshake.LoggingIn, Handshake.MyLogin, Handshake.Drive,
      Undisturbed.LeavesAlone, Survival.ByClients, Assoc.Has, Assoc.Find, Members, Accounts.Stored, Accounts.ValidName,
      Spelling.Backstage, Join, InUse, Descriptors.Takers;
    Undisturbed.UndisturbedHandshakeSucceeds(s, i, c, w0, w1, w2);
    JoinedIsLoggedIn(s, i, c, [w0, w1, w2]);
    Survival.FewTakersEndNothing(Handshake.Drive(s, i, c, Handshake.MyLogin(s, i, c), [w0, w1, w2]).1.server, last);
    TheHandshakeEndsInTheRoom(s, i, c, [w0, w1, w2], last);
  }
}
