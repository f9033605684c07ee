/** How a user came to be authenticated, over whole runs. */
module Authentication {
  import opened Types
  import opened Messages
  import opened ServerSpec
  import opened Invariants
  import Assoc
  import Accounts
  import Delivery
  import Effects
  import LinkedLists
  import Stepping

  /** In state s, event e is a login of user i as `name` with the right digest: the hash of the two
      tokens and the stored hash of that account. */
  ghost predicate IsLogin(s: State, e: Event, i: nat, name: string) {
    && e.Poll? && e.who == i && e.reading.Packet?
    && i < |s.users| && s.users[i].open && s.users[i].state == SentClientInformation
    && e.reading.bytes[1] == SID_LOGIN
    && ParseCredentials(e.reading.bytes).Some?
    && ParseCredentials(e.reading.bytes).value.1 == name
    && Accounts.Stored(s.file, name).Some?
    && ParseCredentials(e.reading.bytes).value.0 ==
       s.sha1(Accounts.Salted(s.users[i].clientToken, s.users[i].serverToken, Accounts.Stored(s.file, name).value))
  }

  ghost predicate SameTokens(s: State, r: State, i: nat) {
    && i < |s.users| && i < |r.users|
    && r.users[i].clientToken == s.users[i].clientToken
    && r.users[i].serverToken == s.users[i].serverToken
  }

  /** The order in which a connection goes through its states; the two kinds of authenticated
      user share a rank. */
  function Rank(u: UserRecord): nat {
    match u.state
    case Connected => 0
    case SentClientInformation => 1
    case NotInChannel => 2
    case JoinedChannel => 2
  }

  /** What a packet does to the sender's own record. */
  ghost predicate Progress(u: UserRecord, v: UserRecord) {
    && u.open == v.open
    && Rank(u) <= Rank(v) <= Rank(u) + 1
    && u.serverToken == v.serverToken
    && (u.state != UserState.Connected ==> u.clientToken == v.clientToken)
    && (IsOld(u) ==> u.username == v.username)
  }

  lemma LoginProgress(s: State, i: nat, b: seq<byte>, lines: seq<Notice>)
    requires Inv(s) && i < |s.users| && s.users[i].open && 4 <= |b| <= MAX_PACKET && b[1] == SID_LOGIN
    ensures var r := LoginHandler(s, i, b);
            && |r.users| == |s.users| && Progress(s.users[i], r.users[i])
            && (IsOld(r.users[i]) && !IsOld(s.users[i]) ==>
                  && s.users[i].state == SentClientInformation
                  && ParseCredentials(b).Some?
                  && var (digest, name) := ParseCredentials(b).value;
                     && r.users[i].username == name
                     && Accounts.Stored(s.file, name).Some?
                     && digest == s.sha1(Accounts.Salted(s.users[i].clientToken, s.users[i].serverToken,
                                                         Accounts.Stored(s.file, name).value)))
  {
    hide InvExcept, ParseCredentials, LoginStatus, Accounts.Stored, Accounts.Salted, Assoc.Has, Assoc.Add,
      LinkedLists.WithoutFirst;
    if s.users[i].state == SentClientInformation && ParseCredentials(b).Some? {
      var (digest, name) := ParseCredentials(b).value;
      Stepping.LoginStatusIsSound(s, i, digest, name);
    }
  }

  /** The state stays, or goes on to the next one of a user who has not logged in. */
  ghost predicate NewProgress(s: State, r: State, i: nat) {
    && i < |s.users| && |r.users| == |s.users|
    && Progress(s.users[i], r.users[i])
    && (IsOld(r.users[i]) ==> IsOld(s.users[i]))
  }

  lemma SendProgress(s: State, r: State, i: nat, p: Packet)
    requires i < |s.users| && r.users == s.users
    ensures NewProgress(s, r, i) && NewProgress(s, Send(r, i, p), i)
  {
  }

  lemma ClientInformationProgress(s: State, i: nat, b: seq<byte>)
    requires i < |s.users|
    ensures NewProgress(s, ClientInformationHandler(s, i, b), i)
  {
    hide ParseClientInformation, MisuseText;
    SendProgress(s, s, i, ErrorReport(MisuseText(WrongState(InformationRequest))));
  }

  lemma CreateProgress(s: State, i: nat, b: seq<byte>)
    requires i < |s.users|
    ensures NewProgress(s, CreateHandler(s, i, b), i)
  {
    hide ParseCredentials, MisuseText, Accounts.Create, Accounts.ValidName, Send, NewProgress, Exhausted;
    SendProgress(s, s, i, ErrorReport(MisuseText(WrongState(CreateRequest))));
    SendProgress(s, Crash(s), i, ErrorReport(""));
    if ParseCredentials(b).Some? {
      var (hash, name) := ParseCredentials(b).value;
      var (status, file) := Accounts.Create(s.file, name, hash);
      SendProgress(s, AfterCreate(s, status, file), i, CreateResponse(status, name));
    }
  }

  lemma ChatProgress(s: State, i: nat, b: seq<byte>, lines: seq<Notice>)
    requires Inv(s) && i < |s.users| && s.users[i].open && |b| <= MAX_PACKET
    ensures NewProgress(s, ChatCommandHandler(s, i, b, lines), i)
  {
    hide InvExcept, ParseText, Message, MisuseText, Send;
    SendProgress(s, s, i, ErrorReport(MisuseText(WrongState(ChatRequest))));
    if IsOld(s.users[i]) && ParseText(b).Some? {
      Delivery.MessageKeepsIdentity(s, i, ParseText(b).value, lines);
    }
  }

  lemma HandleProgress(s: State, i: nat, b: seq<byte>, lines: seq<Notice>)
    requires Inv(s) && i < |s.users| && s.users[i].open && 4 <= |b| <= MAX_PACKET
    ensures var r := Handle(s, i, b, lines);
            && |r.users| == |s.users| && Progress(s.users[i], r.users[i])
            && (b[1] != SID_LOGIN && IsOld(r.users[i]) ==> IsOld(s.users[i]))
  {
    hide InvExcept, ParseText, LoginHandler, CreateHandler, ClientInformationHandler, ChatCommandHandler, Send,
      MisuseText, Progress;
    if b[1] == SID_LOGIN {
      LoginProgress(s, i, b, lines);
    } else {
      ClientInformationProgress(s, i, b);
      CreateProgress(s, i, b);
      ChatProgress(s, i, b, lines);
      SendProgress(s, Crash(s), i, ErrorReport(""));
      forall m
        ensures NewProgress(s, Complain(s, i, m), i)
      {
        SendProgress(s, s, i, ErrorReport(MisuseText(m)));
      }
      SendProgress(s, s, i, ErrorReport(""));
    }
  }

  /** States only advance, one at a time, except for the moves between NOT_IN_CHANNEL and
      JOINED_CHANNEL; the server token never changes, and the client token is fixed once the
      client information has been sent. */
  lemma StatesOnlyAdvance(s: State, e: Event, i: nat)
    requires Inv(s) && i < |s.users|
    ensures var r := Step(s, e);
            && i < |r.users|
            && Rank(s.users[i]) <= Rank(r.users[i]) <= Rank(s.users[i]) + 1
            && r.users[i].serverToken == s.users[i].serverToken
            && (s.users[i].state != UserState.Connected ==> SameTokens(s, r, i))
            && (IsOld(s.users[i]) ==> r.users[i].username == s.users[i].username)
  {
    hide InvExcept, Handle, LinkedLists.WithoutFirst, Assoc.Remove, Assoc.Values;
    match e
    case Accept(token) =>
    case Poll(k, o, lines) =>
      Stepping.CollectionsMatchStates(s, k);
      if k < |s.users| && s.users[k].open {
        if o.Packet? && !s.crashed {
          HandleProgress(s, k, o.bytes, lines);
          Effects.HandleExtends(s, k, o.bytes, lines);
          assert Effects.Grows(s.users[i], Handle(s, k, o.bytes, lines).users[i], i == k);
        }
      }
  }

  /** One event authenticates nobody but the sender of a correct login. */
  lemma StepAuthenticates(s: State, e: Event, i: nat)
    requires Inv(s) && i in Assoc.Values(Step(s, e).oldUsers)
    ensures var r := Step(s, e);
            && i < |s.users| && SameTokens(s, r, i)
            && (if i in Assoc.Values(s.oldUsers) then r.users[i].username == s.users[i].username
                else IsLogin(s, e, i, r.users[i].username))
  {
    hide Inv, Handle, Step, LoginHandler, Accounts.Stored, Accounts.Salted, ParseCredentials;
    var r := Step(s, e);
    Stepping.StepKeeps(s, e);
    Stepping.CollectionsMatchStates(r, i);
    Stepping.CollectionsMatchStates(s, i);
    if i < |s.users| {
      StatesOnlyAdvance(s, e, i);
    }
    NewlyOldIsByLogin(s, e, i);
  }

  lemma NewlyOldIsByLogin(s: State, e: Event, i: nat)
    requires Inv(s) && i < |Step(s, e).users| && Step(s, e).users[i].open && IsOld(Step(s, e).users[i])
    ensures i < |s.users| && s.users[i].open
    ensures !IsOld(s.users[i]) ==> IsLogin(s, e, i, Step(s, e).users[i].username)
  {
    hide InvExcept, Handle, LoginHandler, Accounts.Stored, Accounts.Salted, ParseCredentials,
      LinkedLists.WithoutFirst, Assoc.Remove, Assoc.Values;
    match e
    case Accept(token) =>
    case Poll(k, o, lines) =>
      Stepping.CollectionsMatchStates(s, k);
      if k < |s.users| && s.users[k].open && o.Packet? && !s.crashed {
        HandleProgress(s, k, o.bytes, lines);
        Effects.HandleExtends(s, k, o.bytes, lines);
        assert Effects.Grows(s.users[i], Handle(s, k, o.bytes, lines).users[i], i == k);
        if i == k && o.bytes[1] == SID_LOGIN {
          LoginProgress(s, i, o.bytes, lines);
          HandleLogin(s, i, o.bytes, lines);
        }
      }
  }

  lemma HandleLogin(s: State, i: nat, b: seq<byte>, lines: seq<Notice>)
    requires |b| >= 4 && b[1] == SID_LOGIN
    ensures Handle(s, i, b, lines) == LoginHandler(s, i, b)
  {
  }

  /** In every run, a user is authenticated under a name only because at some point, with the
      tokens it still has, it sent a correct login for that name. */
  lemma {:induction false} AuthenticatedOnlyByLogin(s0: State, es: seq<Event>, i: nat)
    requires Initial(s0) && Accounts.WellFormed(s0.file)
    requires i in Assoc.Values(Run(s0, es).oldUsers)
    ensures i < |Run(s0, es).users|
    ensures exists k :: 0 <= k < |es| &&
              IsLogin(Run(s0, es[..k]), es[k], i, Run(s0, es).users[i].username) &&
              SameTokens(Run(s0, es[..k]), Run(s0, es), i)
    decreases |es|
  {
    hide Inv, Step, IsLogin, Accounts.WellFormed, Assoc.Values;
    NobodyAtFirst(s0, i);
    if es != [] {
      var n := |es| - 1;
      var before := Run(s0, es[..n]);
      Stepping.InitialInv(s0);
      Stepping.RunKeeps(s0, es[..n]);
      StepAuthenticates(before, es[n], i);
      if i in Assoc.Values(before.oldUsers) {
        AuthenticatedOnlyByLogin(s0, es[..n], i);
        var k :| 0 <= k < n && IsLogin(Run(s0, es[..n][..k]), es[..n][k], i, before.users[i].username) &&
                 SameTokens(Run(s0, es[..n][..k]), before, i);
        assert es[..n][..k] == es[..k] && es[..n][k] == es[k];
      }
    }
  }

  lemma NobodyAtFirst(s: State, i: nat)
    requires Initial(s)
    ensures i !in Assoc.Values(s.oldUsers)
  {
  }
}
