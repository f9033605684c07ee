/** What the server answers, word for word, where a request is refused or out of place. */
module Answers {
  import opened Types
  import opened Messages
  import opened ServerSpec
  import opened Invariants
  import Accounts
  import Assoc
  import Delivery
  import Framing
  import Handshake
  import Joining
  import LinkedLists
  import Roster
  import Spelling
  import Stepping
  import Survival

  /** One packet more for user i, and nothing else is different. */
  function Answered(s: State, i: nat, p: Packet): State
    requires i < |s.users|
  {
    s.(users := s.users[i := s.users[i].(sent := s.users[i].sent + [p])])
  }

  function Refusal(s: State, i: nat, text: string): Packet
    requires i < |s.users|
  {
    ChatEvent(Error, s.users[i].username, text)
  }

  lemma Texts()
    ensures NotInRoomText() == "You can only send chat if you're in a room"
    ensures RestrictedText() == "Sorry, that room is restricted"
    ensures TooLongText() == "Sorry, the name of that room is too long"
  {
  }

  lemma MisuseTexts()
    ensures NoRoomListText() == "SID_REQUEST_ROOM_LIST Not implemented yet.."
    ensures ServerOnlyText() == "Client isn't allowed to send that"
  {
  }

  lemma InformationText()
    ensures MisuseText(WrongState(InformationRequest)) == "SID_CLIENT_INFORMATION Invalid in this state"
  {
  }

  lemma LoginText()
    ensures MisuseText(WrongState(LoginRequest)) == "SID_LOGIN Invalid in this state"
  {
  }

  lemma CreateText()
    ensures MisuseText(WrongState(CreateRequest)) == "SID_CREATE Invalid in this state"
  {
  }

  lemma ChatText()
    ensures MisuseText(WrongState(ChatRequest)) == "SID_CHATCOMMAND Invalid in this state"
  {
  }

  lemma ToldIsAnswered(s: State, i: nat, text: string)
    requires Inv(s) && i < |s.users| && s.users[i].open && IsOld(s.users[i])
    ensures Tell(s, i, Error, text) == Answered(s, i, Refusal(s, i, text))
  {
    hide InvExcept;
    Joining.InvIsPartitioned(s);
    Joining.TellEffect(s, i, Error, text);
  }

  /** A whisper that names nobody, for want of a space after the name. */
  lemma AWhisperNeedsASpace(s: State, i: nat, param: string)
    requires Inv(s) && i < |s.users| && s.users[i].open && IsOld(s.users[i]) && ' ' !in param
    ensures Whisper(s, i, param) == Answered(s, i, Refusal(s, i, "Usage: /w <user> <message>"))
  {
    hide InvExcept, Tell, Answered;
    ToldIsAnswered(s, i, WhisperUsage());
  }

  /** A whisper to a name that nobody is logged in under. */
  lemma AWhisperNeedsAUser(s: State, i: nat, name: string, text: string)
    requires Inv(s) && i < |s.users| && s.users[i].open && IsOld(s.users[i]) && ' ' !in name
    requires forall j :: 0 <= j < |s.users| && s.users[j].open && IsOld(s.users[j]) ==> s.users[j].username != name
    ensures Whisper(s, i, name + " " + text) == Answered(s, i, Refusal(s, i, "User not logged on"))
  {
    hide InvExcept, Tell, Answered, Whisper, Send;
    ToldIsAnswered(s, i, NotLoggedOnText());
    IndexOfCharIs(name, ' ', |name|);
    assert name[..|name|] == name && name + " " + text == name + (" " + text);
    Delivery.WhisperGoesToTheFirstWord(s, i, name, text);
    Joining.InvIsPartitioned(s);
    Joining.TellEffect(s, i, Error, NotLoggedOnText());
    if Assoc.Has(s.oldUsers, name) {
      FoundIsOldUser(s, name);
    }
  }

  /** A talk outside of rooms. */
  lemma ATalkNeedsARoom(s: State, i: nat, text: string)
    requires Inv(s) && i < |s.users| && s.users[i].open && IsOld(s.users[i]) && s.users[i].room.None?
    ensures Say(s, i, text) == Answered(s, i, Refusal(s, i, "You can only send chat if you're in a room"))
  {
    hide InvExcept, Tell, Answered;
    Texts();
    ToldIsAnswered(s, i, NotInRoomText());
  }

  /** Where a join leads, for every name: nowhere new if the name is longer than 15 characters or
      that of the restricted room in any capitals, out of the rooms if it is empty, and otherwise
      into that room. */
  lemma WhereAJoinLeads(s: State, i: nat, room: string)
    requires Inv(s) && i < |s.users| && s.users[i].open && IsOld(s.users[i]) && Clean(room)
    ensures var r := Join(s, i, room);
            && (Spelling.Backstage(room) ==>
                  r == Answered(s, i, Refusal(s, i, "Sorry, that room is restricted")))
            && (|room| > 15 ==>
                  r == Answered(s, i, Refusal(s, i, "Sorry, the name of that room is too long")))
            && (room == "" ==>
                  && i < |r.users| && r.users[i].state == NotInChannel && r.users[i].room == None
                  && var me := s.users[i].username;
                     r.users[i].sent ==
                     s.users[i].sent + [ChatEvent(Info, me, "Leaving chat"), ChatEvent(Channel, me, "")])
            && (1 <= |room| <= 15 && !Spelling.Backstage(room) ==>
                  && i < |r.users| && r.users[i].state == JoinedChannel && r.users[i].room == Some(room)
                  && Assoc.Find(Members(r, room), s.users[i].username) == Some(i))
  {
    hide InvExcept, Join, Tell, Answered, Assoc.Find, Members, Roster.View, LeaveRoom, SameIgnoringCase,
      Spelling.Backstage, Send;
    Spelling.BackstageInAnyCapitals(room);
    BackstageIsShort(room);
    if !Delivery.Admissible(room) {
      RefusedIsAnswered(s, i, room);
    } else if room == "" {
      Delivery.LeavingChatIsExact(s, i);
    } else {
      Delivery.JoinIsExact(s, i, room);
    }
  }

  lemma BackstageIsShort(room: string)
    ensures Spelling.Backstage(room) ==> |room| == 9
  {
  }

  lemma RefusedIsAnswered(s: State, i: nat, room: string)
    requires Inv(s) && i < |s.users| && s.users[i].open && IsOld(s.users[i]) && !Delivery.Admissible(room)
    ensures Join(s, i, room) ==
            Answered(s, i, Refusal(s, i, if SameIgnoringCase(room, "backstage") then "Sorry, that room is restricted"
                                         else "Sorry, the name of that room is too long"))
  {
    hide InvExcept, Join, SameIgnoringCase, RestrictedText, TooLongText;
    Texts();
    Delivery.RefusedJoinOnlyComplains(s, i, room);
  }

  /** A packet out of place is answered by the text for its code; the numbers are those of types.h. */
  lemma OutOfPlaceIsAnswered(s: State, i: nat, b: seq<byte>, lines: seq<Notice>)
    requires i < |s.users| && s.users[i].open && |b| >= 4 && !Survival.InPlace(s.users[i], b[1])
    ensures Handle(s, i, b, lines) ==
            Answered(s, i, ErrorReport(
              if b[1] == 1 then "SID_CLIENT_INFORMATION Invalid in this state"
              else if b[1] == 3 then "SID_LOGIN Invalid in this state"
              else if b[1] == 5 then "SID_CREATE Invalid in this state"
              else if b[1] == 7 then "SID_REQUEST_ROOM_LIST Not implemented yet.."
              else if b[1] == 9 then "SID_CHATCOMMAND Invalid in this state"
              else if b[1] in {2, 4, 6, 8, 10} then "Client isn't allowed to send that"
              else "Unknown packet"))
  {
    hide ParseText, ParseClientInformation, ParseCredentials, Message, LoginStatus, Accounts.Create, WrongStateText,
      RequestName, NoRoomListText, ServerOnlyText;
    MisuseTexts();
    InformationText();
    LoginText();
    CreateText();
    ChatText();
  }

  // ---- what is ignored, and what a disconnect does ----

  /** A packet that has not arrived yet, a keepalive and an error that can be read change nothing. */
  lemma NothingComesOfIt(s: State, i: nat, o: Reading, lines: seq<Notice>)
    requires Inv(s)
    requires o.Nothing? || (o.Packet? && (o.bytes[1] == 0 || (o.bytes[1] == 11 && ParseText(o.bytes).Some?)))
    ensures Step(s, Poll(i, o, lines)) == s
  {
    hide Inv, ParseText;
  }

  /** A connection that is lost is taken out of its collection, and nothing else is different: not
      the user's record, not the rooms, not anybody else. */
  lemma ADisconnectTakesOutTheConnection(s: State, i: nat, lines: seq<Notice>)
    requires Inv(s) && !s.crashed && i < |s.users| && s.users[i].open
    ensures var r := Step(s, Poll(i, Framing.Closed, lines));
            && r == s.(users := r.users, newUsers := r.newUsers, oldUsers := r.oldUsers)
            && r.users == s.users[i := s.users[i].(open := false)]
            && (forall k :: k in r.newUsers <==> k in s.newUsers && k != i)
            && (forall k :: k in Assoc.Values(r.oldUsers) <==> k in Assoc.Values(s.oldUsers) && k != i)
  {
    hide InvExcept, LinkedLists.WithoutFirst, Assoc.Remove, Assoc.Values;
    var e := Poll(i, Framing.Closed, lines);
    var r := Step(s, e);
    Stepping.StepKeeps(s, e);
    Stepping.CollectionsMatchStates(s, i);
    forall k
      ensures k in r.newUsers <==> k in s.newUsers && k != i
      ensures k in Assoc.Values(r.oldUsers) <==> k in Assoc.Values(s.oldUsers) && k != i
    {
      Stepping.CollectionsMatchStates(s, k);
      Stepping.CollectionsMatchStates(r, k);
    }
  }

  // ---- the server's token ----

  /** An accepted connection starts with the token drawn for it, and changes no other user. */
  lemma AnAcceptDrawsTheToken(s: State, token: uint32)
    requires Inv(s) && !s.crashed && InUse(s) < s.descriptors
    ensures var r, k := Step(s, Accept(token)), |s.users|;
            && Inv(r) && r == s.(users := r.users, newUsers := s.newUsers + [k])
            && |r.users| == k + 1 && r.users[..k] == s.users
            && r.users[k].serverToken == token && r.users[k].open && r.users[k].state == UserState.Connected
            && r.users[k].room == None && r.users[k].sent == []
  {
    hide Inv;
    Stepping.StepKeeps(s, Accept(token));
  }

  /** And that is the token its client is told, whatever happens before it introduces itself; logins
      are checked against it from then on. */
  lemma TheTokenDrawnIsTheTokenSent(s: State, token: uint32, es: seq<Event>, c: Handshake.Credentials, time: uint32)
    requires Inv(s) && !s.crashed && InUse(s) < s.descriptors && Handshake.CanSend(c)
    requires Handshake.ByOthers(es, |s.users|) && !Run(Step(s, Accept(token)), es).crashed
    ensures var k, t := |s.users|, Run(Step(s, Accept(token)), es);
            var r := Handshake.Serve(t, k, ClientInformation(c.clientToken, time));
            && Handshake.LoggingIn(r, k, c) && r.users[k].serverToken == token
            && Handshake.Reply(r, k) == Some(ServerInformation(token))
  {
    hide Inv, Run, Step, Handshake.Serve;
    var k, s1 := |s.users|, Step(s, Accept(token));
    AnAcceptDrawsTheToken(s, token);
    Handshake.WaitingChangesNothing(s1, es, k);
    Handshake.HandshakeStarts(Run(s1, es), k, c, time);
  }
}
