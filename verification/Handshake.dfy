/** The client's side of logging in (client.c), talking to the server while any other clients do
    what they like. */
module Handshake {
  import opened Types
  import opened Messages
  import opened ServerSpec
  import opened Invariants
  import Accounts
  import Assoc
  import Codec
  import Effects
  import Guarantees
  import Stepping
  import Framing

  /** What the user typed in, and the two tokens. `secret` is the hash of the password. */
  datatype Credentials = Credentials(name: string, secret: Digest, channel: string, clientToken: uint32)

  predicate CanSend(c: Credentials) {
    && CString(c.name) && |c.name| < 256
    && CString(c.channel) && |c.channel| < 256
  }

  /** What a client does next: send a packet, or end (display_error exits the program). */
  datatype Reaction = Send(request: Request) | Exit | Ignore

  function LoginRequest(sha1: seq<byte> -> Digest, c: Credentials, serverToken: uint32): Request {
    Login(sha1(Accounts.Salted(c.clientToken, serverToken, c.secret)), c.name)
  }

  /** The handlers of client.c for the packets of the handshake. */
  function React(sha1: seq<byte> -> Digest, c: Credentials, serverToken: uint32, read: Incoming): Reaction {
    match read
    case Welcome(token) => Send(LoginRequest(sha1, c, token))
    case LoginResult(code) =>
      if code == 0 then Send(ChatCommand("/join " + c.channel))
      else if code == 2 then Send(Create(c.secret, c.name))
      else Exit
    case CreateResult(code, _) =>
      if code == 0 then Send(LoginRequest(sha1, c, serverToken)) else Exit
    case _ => Ignore
  }

  /** Something that other clients may do between two of this client's turns. */
  predicate ByOthers(es: seq<Event>, i: nat) {
    forall k :: 0 <= k < |es| ==> es[k].Poll? ==> es[k].who != i
  }

  /** The server receives one request of client i. */
  function Serve(s: State, i: nat, r: Request): State
    requires RequestOk(r)
  {
    Step(s, Poll(i, RequestReading(r), []))
  }

  function RequestReading(r: Request): Reading
    requires RequestOk(r)
  {
    Framing.Packet(RequestWire(r))
  }

  /** `Joined` is the client that goes on to its first command, and the server at that moment. */
  datatype Outcome = Joined(server: State, command: Request) | Stopped | Waiting

  /** The client's requests from the first login on, where `waits` are the things that happen on
      the server before it serves each of them; `Waiting` if they run out first. */
  function Drive(s: State, i: nat, c: Credentials, request: Request, waits: seq<seq<Event>>): (seq<Request>, Outcome)
    requires CanSend(c) && RequestOk(request)
    decreases |waits|
  {
    if waits == [] then ([request], Waiting)
    else
      var s1 := Serve(Run(s, waits[0]), i, request);
      var reply := Reply(s1, i);
      if s1.crashed || reply.None? then ([request], Stopped)
      else
        match React(s.sha1, c, Person(s, i).serverToken, Meaning(reply.value))
        case Send(ChatCommand(text)) => ([request], Joined(s1, ChatCommand(text)))
        case Send(next) =>
          if !RequestOk(next) then ([request], Stopped)
          else
            var (rest, end) := Drive(s1, i, c, next, waits[1..]);
            ([request] + rest, end)
        case _ => ([request], Stopped)
  }

  /** The packet that the client waits for: the last one it was sent. */
  function Reply(s: State, i: nat): Option<Packet> {
    var sent := Person(s, i).sent;
    if sent == [] then None else Some(sent[|sent| - 1])
  }

  /** A user that has sent its client information and not yet logged in. */
  ghost predicate LoggingIn(s: State, i: nat, c: Credentials) {
    && i < |s.users| && s.users[i].open && s.users[i].state == SentClientInformation
    && s.users[i].clientToken == c.clientToken
  }

  // ---- other clients do not disturb the exchange ----

  lemma OthersLeaveItAlone(s: State, e: Event, i: nat)
    requires Inv(s) && i < |s.users| && !IsOld(s.users[i]) && (e.Poll? ==> e.who != i)
    ensures i < |Step(s, e).users| && Step(s, e).users[i] == s.users[i] && Step(s, e).sha1 == s.sha1
  {
    hide InvExcept, PollOld, PollNew;
    if e.Poll? {
      Stepping.CollectionsMatchStates(s, e.who);
      if e.who < |s.users| && s.users[e.who].open {
        Effects.PollExtends(s, e.who, e.reading, e.lines);
        assert Effects.Grows(s.users[i], PollOld(s, e.who, e.reading, e.lines).users[i], i == e.who);
        assert Effects.Grows(s.users[i], PollNew(s, e.who, e.reading, e.lines).users[i], i == e.who);
      }
    }
  }

  lemma {:induction false} WaitingChangesNothing(s: State, es: seq<Event>, i: nat)
    requires Inv(s) && i < |s.users| && !IsOld(s.users[i]) && ByOthers(es, i)
    ensures var r := Run(s, es);
            && Inv(r) && i < |r.users| && r.users[i] == s.users[i] && r.sha1 == s.sha1
            && (forall name :: Accounts.Stored(s.file, name).Some? ==>
                  Accounts.Stored(r.file, name) == Accounts.Stored(s.file, name))
    decreases |es|
  {
    hide Inv, Step, Accounts.Stored;
    if es != [] {
      var n := |es| - 1;
      WaitingChangesNothing(s, es[..n], i);
      OthersLeaveItAlone(Run(s, es[..n]), es[n], i);
      Stepping.StepKeeps(Run(s, es[..n]), es[n]);
      Guarantees.StepGrows(Run(s, es[..n]), es[n]);
    }
  }

  // ---- one exchange ----

  /** The server's answer to a login. */
  lemma ServingALogin(s: State, i: nat, c: Credentials, r: Request)
    requires Inv(s) && LoggingIn(s, i, c) && !s.crashed && r.Login? && RequestOk(r)
    ensures var t := Serve(s, i, r);
            var name := Codec.Seen(r.name);
            var status := LoginStatus(s, s.users[i], r.digest, name);
            && Inv(t) && (t.crashed <==> status.None?)
            && (status.Some? ==>
                  && t.file == s.file && t.sha1 == s.sha1
                  && Reply(t, i) == Some(LoginResponse(status.value, name)))
            && (status.Some? && !status.value.LoginSuccess? ==>
                  && LoggingIn(t, i, c) && t == s.(users := t.users)
                  && t.users[i].serverToken == s.users[i].serverToken)
            && (status == Some(Accounts.LoginSuccess) ==>
                  && Assoc.Find(t.oldUsers, name) == Some(i)
                  && i < |t.users| && t.users[i].open && t.users[i].username == name
                  && t.users[i].state == NotInChannel && t.users[i].room.None?)
  {
    hide InvExcept, LoginStatus, ParseCredentials, RequestWire, Codec.Seen, Assoc.Has, Assoc.Find, Assoc.Add,
      Accounts.Stored, Accounts.Salted, LinkedLists.WithoutFirst;
    ServeReadsTheRequest(s, i, r);
    var name := Codec.Seen(r.name);
    Stepping.LoginStatusIsSound(s, i, r.digest, name);
    Stepping.StepKeeps(s, Poll(i, RequestReading(r), []));
    PromotedIsFound(s, i, name);
    if LoginStatus(s, s.users[i], r.digest, name) == Some(Accounts.LoginSuccess) {
      Accounts.ValidNameIsClean(name);
      NowhereBeforeLogin(s, i);
    }
  }

  lemma NowhereBeforeLogin(s: State, i: nat)
    requires Inv(s) && i < |s.users| && s.users[i].open && !IsOld(s.users[i])
    ensures s.users[i].room.None?
  {
    hide InvExcept;
    Stepping.CollectionsMatchStates(s, i);
    Guarantees.UsersArePartitioned(s, i);
  }

  lemma PromotedIsFound(s: State, i: nat, name: string)
    requires Inv(s)
    ensures Assoc.Find(Assoc.Add(s.oldUsers, name, i), name) == Some(i)
  {
    Assoc.AddRefinesMapUpdate(s.oldUsers, name, i, name);
  }

  lemma ServeReadsTheRequest(s: State, i: nat, r: Request)
    requires Inv(s) && i < |s.users| && s.users[i].open && !IsOld(s.users[i]) && !s.crashed && RequestOk(r)
    ensures r.Login? ==>
              Serve(s, i, r) == LoginHandler(s, i, RequestWire(r)) &&
              ParseCredentials(RequestWire(r)) == Some((r.digest, Codec.Seen(r.name)))
    ensures r.Create? ==>
              Serve(s, i, r) == CreateHandler(s, i, RequestWire(r)) &&
              ParseCredentials(RequestWire(r)) == Some((r.digest, Codec.Seen(r.name)))
  {
    hide InvExcept, LoginHandler, CreateHandler, ParseCredentials, RequestWire, Codec.Seen;
    ServerReadsWhatTheClientWrote(r);
    Stepping.CollectionsMatchStates(s, i);
  }

  lemma ServingACreate(s: State, i: nat, c: Credentials, r: Request)
    requires Inv(s) && LoggingIn(s, i, c) && !s.crashed && r.Create? && RequestOk(r)
    ensures var t := Serve(s, i, r);
            var name := Codec.Seen(r.name);
            var (status, file) := Accounts.Create(s.file, name, r.digest);
            && Inv(t)
            && if Accounts.ValidName(name) && Exhausted(s) then t.crashed
               else
                 && t == AfterCreate(s, status, file).(users := t.users)
                 && Reply(t, i) == Some(CreateResponse(status, name))
                 && LoggingIn(t, i, c) && t.users[i].serverToken == s.users[i].serverToken
  {
    hide InvExcept, ParseCredentials, RequestWire, Codec.Seen, Accounts.Create, Accounts.ValidName, Exhausted;
    ServeReadsTheRequest(s, i, r);
    Stepping.StepKeeps(s, Poll(i, RequestReading(r), []));
  }

  /** How it starts: the client introduces itself, and the answer brings it the very token that
      the server will check its digest with. */
  lemma HandshakeStarts(s: State, i: nat, c: Credentials, time: uint32)
    requires Inv(s) && i < |s.users| && s.users[i].open && s.users[i].state == UserState.Connected
    requires !s.crashed && CanSend(c)
    ensures var t := Serve(s, i, ClientInformation(c.clientToken, time));
            && Inv(t) && !t.crashed && LoggingIn(t, i, c) && |t.users| == |s.users|
            && t.file == s.file && t.oldUsers == s.oldUsers && t.sha1 == s.sha1
            && t.users[i].serverToken == s.users[i].serverToken
            && Reply(t, i) == Some(ServerInformation(s.users[i].serverToken))
            && forall token :: React(s.sha1, c, token, Meaning(Reply(t, i).value)) == Reaction.Send(MyLogin(t, i, c))
  {
    hide InvExcept, ParseClientInformation, RequestWire, Accounts.Salted;
    var r := ClientInformation(c.clientToken, time);
    ServerReadsWhatTheClientWrote(r);
    Stepping.CollectionsMatchStates(s, i);
    Stepping.StepKeeps(s, Poll(i, RequestReading(r), []));
  }

  // ---- the whole handshake ----

  /** The answer that a login of this client would get now. */
  function StatusNow(s: State, i: nat, c: Credentials): Option<Accounts.LoginStatus>
    requires CanSend(c)
  {
    var u := Person(s, i);
    LoginStatus(s, u, s.sha1(Accounts.Salted(c.clientToken, u.serverToken, c.secret)), Codec.Seen(c.name))
  }

  function MyLogin(s: State, i: nat, c: Credentials): (r: Request)
    requires CanSend(c)
    ensures r.Login? && RequestOk(r)
  {
    LoginRequest(s.sha1, c, Person(s, i).serverToken)
  }

  function MyJoin(c: Credentials): (r: Request)
    requires CanSend(c)
    ensures r.ChatCommand? && RequestOk(r)
  {
    ChatCommand("/join " + c.channel)
  }

  /** What a successful login makes of the user. */
  ghost predicate LoggedIn(s: State, i: nat, c: Credentials)
    requires CanSend(c)
  {
    && Inv(s) && !s.crashed && i < |s.users| && s.users[i].open
    && s.users[i].state == NotInChannel && s.users[i].room.None?
    && s.users[i].username == Codec.Seen(c.name)
    && Assoc.Find(s.oldUsers, Codec.Seen(c.name)) == Some(i)
  }

  function MyCreate(c: Credentials): (r: Request)
    requires CanSend(c)
    ensures r.Create? && RequestOk(r)
  {
    Create(c.secret, c.name)
  }

  lemma CrashedServerIsSilent(s: State, i: nat, r: Request)
    requires Inv(s) && s.crashed && RequestOk(r)
    ensures Serve(s, i, r) == s
  {
    hide InvExcept;
    Stepping.CollectionsMatchStates(s, i);
  }

  /** The server runs and can open the account file. */
  predicate CanLookUp(s: State) {
    !s.crashed && !Exhausted(s)
  }

  /** One login of the client, after whatever the others do first. */
  lemma LoginTurn(s: State, i: nat, c: Credentials, waits: seq<seq<Event>>)
    requires Inv(s) && LoggingIn(s, i, c) && CanSend(c) && waits != [] && ByOthers(waits[0], i)
    ensures var s1 := Run(s, waits[0]);
            var t := Serve(s1, i, MyLogin(s, i, c));
            var status := if s1.crashed then None else StatusNow(s1, i, c);
            var (sent, end) := Drive(s, i, c, MyLogin(s, i, c), waits);
            && Inv(s1) && LoggingIn(s1, i, c)
            && if status == Some(Accounts.LoginSuccess) then
                 sent == [MyLogin(s, i, c)] && end == Joined(t, MyJoin(c)) && LoggedIn(t, i, c)
               else if status == Some(Accounts.UnknownAccount) then
                 var (rest, e) := Drive(t, i, c, MyCreate(c), waits[1..]);
                 && sent == [MyLogin(s, i, c)] + rest && end == e && t == s1.(users := t.users)
                 && Inv(t) && LoggingIn(t, i, c) && MyLogin(t, i, c) == MyLogin(s, i, c)
               else sent == [MyLogin(s, i, c)] && end == Stopped
  {
    hide InvExcept, Run, LoginStatus, Serve, Codec.Seen, Accounts.Salted;
    var s1, r := Run(s, waits[0]), MyLogin(s, i, c);
    WaitingChangesNothing(s, waits[0], i);
    assert MyLogin(s1, i, c) == r;
    if s1.crashed {
      CrashedServerIsSilent(s1, i, r);
    } else {
      ServingALogin(s1, i, c, r);
    }
  }

  /** A create for this name would be answered with success. */
  predicate CanRegister(s: State, name: string) {
    CanLookUp(s) && Accounts.ValidName(name) && Accounts.Stored(s.file, name).None?
  }

  /** One attempt to create the account. */
  lemma CreateTurn(s: State, i: nat, c: Credentials, waits: seq<seq<Event>>)
    requires Inv(s) && LoggingIn(s, i, c) && CanSend(c) && waits != [] && ByOthers(waits[0], i)
    ensures var s1, name := Run(s, waits[0]), Codec.Seen(c.name);
            var t := Serve(s1, i, MyCreate(c));
            var (sent, end) := Drive(s, i, c, MyCreate(c), waits);
            && Inv(s1)
            && if CanRegister(s1, name) then
                 var (rest, e) := Drive(t, i, c, MyLogin(s, i, c), waits[1..]);
                 && sent == [MyCreate(c)] + rest && end == e
                 && Inv(t) && LoggingIn(t, i, c) && MyLogin(t, i, c) == MyLogin(s, i, c)
                 && t == s1.(users := t.users, file := t.file)
                 && Accounts.Stored(t.file, name) == Some(c.secret)
               else sent == [MyCreate(c)] && end == Stopped
  {
    hide InvExcept, Run, Serve, Codec.Seen, Accounts.Salted, Accounts.Create, Accounts.Stored, Accounts.ValidName,
      Exhausted;
    var s1, r := Run(s, waits[0]), MyCreate(c);
    WaitingChangesNothing(s, waits[0], i);
    if s1.crashed {
      CrashedServerIsSilent(s1, i, r);
    } else {
      ServingACreate(s1, i, c, r);
      Guarantees.InvHasFile(s1);
      Accounts.CreateRoundTrip(s1.file, Codec.Seen(c.name), c.secret, Codec.Seen(c.name));
    }
  }

  /** The second login cannot find the account missing again. */
  lemma SecondLoginKnowsTheAccount(s: State, i: nat, c: Credentials)
    requires Inv(s) && LoggingIn(s, i, c) && CanSend(c) && Accounts.Stored(s.file, Codec.Seen(c.name)) == Some(c.secret)
    ensures StatusNow(s, i, c) ==
            if Assoc.Has(s.oldUsers, Codec.Seen(c.name)) then Some(Accounts.AccountInUse)
            else if Exhausted(s) then None
            else Some(Accounts.LoginSuccess)
  {
    hide InvExcept, LoginStatus, Codec.Seen, Accounts.Salted, Accounts.Stored, Assoc.Has, Exhausted;
    var u := s.users[i];
    var digest := s.sha1(Accounts.Salted(c.clientToken, u.serverToken, c.secret));
    Stepping.LoginStatusIsSound(s, i, digest, Codec.Seen(c.name));
  }

  /** Whatever other clients do, the client sends at most a login, a create and a login before it
      joins or gives up; three answers always suffice. */
  lemma AtMostLoginCreateLogin(s: State, i: nat, c: Credentials, waits: seq<seq<Event>>)
    requires Inv(s) && LoggingIn(s, i, c) && CanSend(c)
    requires forall k :: 0 <= k < |waits| ==> ByOthers(waits[k], i)
    ensures var (sent, end) := Drive(s, i, c, MyLogin(s, i, c), waits);
            && (|| sent == [MyLogin(s, i, c)]
                || sent == [MyLogin(s, i, c), MyCreate(c)]
                || sent == [MyLogin(s, i, c), MyCreate(c), MyLogin(s, i, c)])
            && (|waits| >= 3 ==> end != Waiting)
  {
    hide Inv, Run, Serve, Codec.Seen, Accounts.Stored, StatusNow, LoggingIn, MyLogin, MyCreate, Drive,
      Accounts.ValidName;
    if waits == [] {
      NothingServed(s, i, c, MyLogin(s, i, c));
    } else {
      LoginTurn(s, i, c, waits);
      var s1 := Run(s, waits[0]);
      if !s1.crashed && StatusNow(s1, i, c) == Some(Accounts.UnknownAccount) {
        CreateThenLogin(Serve(s1, i, MyLogin(s, i, c)), i, c, waits[1..]);
      }
    }
  }

  lemma NothingServed(s: State, i: nat, c: Credentials, r: Request)
    requires CanSend(c) && RequestOk(r)
    ensures Drive(s, i, c, r, []) == ([r], Waiting)
  {
  }

  lemma CreateThenLogin(s: State, i: nat, c: Credentials, waits: seq<seq<Event>>)
    requires Inv(s) && LoggingIn(s, i, c) && CanSend(c)
    requires forall k :: 0 <= k < |waits| ==> ByOthers(waits[k], i)
    ensures var (sent, end) := Drive(s, i, c, MyCreate(c), waits);
            && (sent == [MyCreate(c)] || sent == [MyCreate(c)] + [MyLogin(s, i, c)])
            && (|waits| >= 2 ==> end != Waiting)
  {
    hide Inv, Run, Serve, Codec.Seen, Accounts.Stored, StatusNow, LoggingIn, MyLogin, MyCreate, Drive,
      Accounts.ValidName;
    if waits == [] {
      NothingServed(s, i, c, MyCreate(c));
    } else {
      CreateTurn(s, i, c, waits);
      var s1 := Run(s, waits[0]);
      if CanRegister(s1, Codec.Seen(c.name)) {
        var t := Serve(s1, i, MyCreate(c));
        LastLogin(t, i, c, waits[1..]);
        assert Drive(t, i, c, MyLogin(s, i, c), waits[1..]).0 == [MyLogin(s, i, c)];
      }
    }
  }

  lemma LastLogin(s: State, i: nat, c: Credentials, waits: seq<seq<Event>>)
    requires Inv(s) && LoggingIn(s, i, c) && CanSend(c) && Accounts.Stored(s.file, Codec.Seen(c.name)) == Some(c.secret)
    requires forall k :: 0 <= k < |waits| ==> ByOthers(waits[k], i)
    ensures var (sent, end) := Drive(s, i, c, MyLogin(s, i, c), waits);
            && sent == [MyLogin(s, i, c)]
            && (waits == [] ==> end == Waiting)
            && (waits != [] ==>
                  var s1 := Run(s, waits[0]);
                  if CanLookUp(s1) && !Assoc.Has(s1.oldUsers, Codec.Seen(c.name)) then
                    var t := Serve(s1, i, MyLogin(s, i, c)); end == Joined(t, MyJoin(c)) && LoggedIn(t, i, c)
                  else end == Stopped)
  {
    hide InvExcept, Run, Serve, Codec.Seen, Accounts.Stored, StatusNow, MyLogin, React, Assoc.Has;
    if waits != [] {
      LoginTurn(s, i, c, waits);
      WaitingChangesNothing(s, waits[0], i);
      SecondLoginKnowsTheAccount(Run(s, waits[0]), i, c);
    }
  }

  /** Exactly when the handshake ends in the client joining: the server runs, the name is free and
      the account file can be opened when the login arrives, and either the account's stored hash
      gives the same digest, or there is no such account, the name is valid and can be registered
      when the create arrives, and it is free and can be looked up when the second login arrives. */
  lemma HandshakeSucceedsExactly(s: State, i: nat, c: Credentials, w0: seq<Event>, w1: seq<Event>, w2: seq<Event>)
    requires Inv(s) && LoggingIn(s, i, c) && CanSend(c) && ByOthers(w0, i) && ByOthers(w1, i) && ByOthers(w2, i)
    ensures var s1 := Run(s, w0);
            var s2 := Run(Serve(s1, i, MyLogin(s, i, c)), w1);
            var s3 := Run(Serve(s2, i, MyCreate(c)), w2);
            var name, token := Codec.Seen(c.name), s.users[i].serverToken;
            var stored := Accounts.Stored(s1.file, name);
            var end := Drive(s, i, c, MyLogin(s, i, c), [w0, w1, w2]).1;
            && (end.Joined? <==>
                  && CanLookUp(s1) && !Assoc.Has(s1.oldUsers, name)
                  && if stored.Some? then
                       s.sha1(Accounts.Salted(c.clientToken, token, stored.value)) ==
                       s.sha1(Accounts.Salted(c.clientToken, token, c.secret))
                     else CanRegister(s2, name) && CanLookUp(s3) && !Assoc.Has(s3.oldUsers, name))
            && (end.Joined? ==> end.server == Serve(if stored.Some? then s1 else s3, i, MyLogin(s, i, c)))
  {
    hide InvExcept, Run, Serve, Codec.Seen, Accounts.Stored, LoginStatus, Accounts.ValidName, Assoc.Has,
      Accounts.Salted, Drive, CanRegister, Exhausted;
    var waits := [w0, w1, w2];
    var s1 := Run(s, w0);
    WaitingChangesNothing(s, w0, i);
    LoginTurn(s, i, c, waits);
    Stepping.LoginStatusIsSound(s1, i, s1.sha1(Accounts.Salted(c.clientToken, s1.users[i].serverToken, c.secret)),
                                Codec.Seen(c.name));
    if !s1.crashed && StatusNow(s1, i, c) == Some(Accounts.UnknownAccount) {
      assert waits[1..] == [w1, w2];
      CreateThenLoginExactly(Serve(s1, i, MyLogin(s, i, c)), i, c, w1, w2);
    }
  }

  lemma CreateThenLoginExactly(s: State, i: nat, c: Credentials, w1: seq<Event>, w2: seq<Event>)
    requires Inv(s) && LoggingIn(s, i, c) && CanSend(c) && ByOthers(w1, i) && ByOthers(w2, i)
    ensures var s2 := Run(s, w1);
            var s3 := Run(Serve(s2, i, MyCreate(c)), w2);
            var name := Codec.Seen(c.name);
            var end := Drive(s, i, c, MyCreate(c), [w1, w2]).1;
            && (end.Joined? <==> CanRegister(s2, name) && CanLookUp(s3) && !Assoc.Has(s3.oldUsers, name))
            && (end.Joined? ==> end.server == Serve(s3, i, MyLogin(s, i, c)))
  {
    hide InvExcept, Run, Serve, Codec.Seen, Accounts.Stored, CanRegister, CanLookUp, Assoc.Has, LoggingIn, MyLogin,
      React, Drive;
    var s2 := Run(s, w1);
    CreateTurn(s, i, c, [w1, w2]);
    if CanRegister(s2, Codec.Seen(c.name)) {
      assert [w1, w2][1..] == [w2];
      LastLogin(Serve(s2, i, MyCreate(c)), i, c, [w2]);
    }
  }
}
