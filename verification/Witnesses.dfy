/** Runs in which something goes wrong that the lemmas elsewhere say can go wrong. */
module Witnesses {
  import opened Types
  import opened Messages
  import opened ServerSpec
  import opened Invariants
  import Accounts
  import Arrivals
  import Assoc
  import ChatClient
  import Codec
  import Delivery
  import Guarantees
  import Handshake
  import Joining
  import Stepping

  // ---- a whisper that goes astray ----

  ghost predicate Online(s: State, i: nat, name: string) {
    i < |s.users| && s.users[i].open && IsOld(s.users[i]) && s.users[i].username == name
  }

  lemma NobodyOnline(s: State, name: string)
    requires Partition(s) && forall i :: 0 <= i < |s.users| ==> s.users[i].username != name
    ensures !Assoc.Has(s.oldUsers, name)
  {
    if Assoc.Has(s.oldUsers, name) {
      FoundIsOldUser(s, name);
    }
  }

  /** Another user, to a server where everybody is known. */
  lemma AnotherLogsIn(s: State, name: string) returns (t: State)
    requires Guarantees.Reachable(s) && !s.crashed && InUse(s) + 1 < s.descriptors
    requires Accounts.ValidName(name) && forall i :: 0 <= i < |s.users| ==> s.users[i].username != name
    requires Accounts.Stored(s.file, name).None?
    ensures Guarantees.Reachable(t) && !t.crashed && |t.users| == |s.users| + 1 && InUse(t) == InUse(s) + 1
    ensures t.descriptors == s.descriptors && Arrivals.OtherAccountsKept(s, t, name)
    ensures Online(t, |s.users|, name) && Arrivals.OthersKept(s, t, |s.users|)
  {
    hide Inv, Guarantees.Reachable, Accounts.Stored, Accounts.ValidName, InUse;
    Guarantees.ReachableInv(s);
    Joining.InvIsPartitioned(s);
    NobodyOnline(s, name);
    Arrivals.SomebodyCanSend(name);
    t := Arrivals.SomebodyLogsIn(s, Arrivals.Somebody(name));
  }

  lemma ThreeUsers(sha1: seq<byte> -> Digest) returns (s: State)
    ensures Guarantees.Reachable(s) && Online(s, 0, "ann") && Online(s, 1, "RON") && Online(s, 2, "RON BOWES")
  {
    hide Inv, Guarantees.Reachable, Accounts.Stored, Online, Arrivals.OtherAccountsKept, Arrivals.OthersKept;
    var s0 := Arrivals.EmptyServer(sha1, 4);
    Arrivals.NobodyIsStored("ann");
    Arrivals.NobodyIsStored("RON");
    Arrivals.NobodyIsStored("RON BOWES");
    var s1 := AnotherLogsIn(s0, "ann");
    StillUnknown(s0, s1, "ann", "RON");
    StillUnknown(s0, s1, "ann", "RON BOWES");
    NameOf(s1, 0, "ann");
    var s2 := AnotherLogsIn(s1, "RON");
    StillOnline(s1, s2, 0, "ann");
    StillUnknown(s1, s2, "RON", "RON BOWES");
    NameOf(s2, 0, "ann");
    NameOf(s2, 1, "RON");
    s := AnotherLogsIn(s2, "RON BOWES");
    StillOnline(s2, s, 0, "ann");
    StillOnline(s2, s, 1, "RON");
  }

  lemma StillUnknown(s: State, t: State, name: string, other: string)
    requires Arrivals.OtherAccountsKept(s, t, name) && other != name && Accounts.Stored(s.file, other).None?
    ensures Accounts.Stored(t.file, other).None?
  {
  }

  lemma StillOnline(s: State, t: State, i: nat, name: string)
    requires Arrivals.OthersKept(s, t, |s.users|) && Online(s, i, name)
    ensures Online(t, i, name)
  {
  }

  lemma NameOf(s: State, i: nat, name: string)
    requires Online(s, i, name)
    ensures i < |s.users| && s.users[i].username == name
  {
  }

  /** With RON and RON BOWES both online, "/w RON BOWES hi" tells RON "BOWES hi", and RON BOWES
      nothing. */
  lemma AWhisperGoesAstray(sha1: seq<byte> -> Digest) returns (s: State)
    ensures Guarantees.Reachable(s) && Online(s, 0, "ann") && Online(s, 1, "RON") && Online(s, 2, "RON BOWES")
    ensures var r := Whisper(s, 0, "RON BOWES hi");
            && |r.users| == |s.users|
            && r.users[1].sent == s.users[1].sent + [ChatEvent(WhisperFrom, "ann", "BOWES hi")]
            && r.users[2] == s.users[2]
  {
    hide Inv, Guarantees.Reachable, Whisper, Send;
    s := ThreeUsers(sha1);
    Guarantees.ReachableInv(s);
    Joining.InvIsPartitioned(s);
    OldUserIsFound(s, 1);
    Delivery.ANameWithASpace();
    assert "RON BOWES" + (" " + "hi") == "RON BOWES hi";
    Delivery.WhisperGoesToTheFirstWord(s, 0, "RON BOWES", "hi");
    var s1 := Send(s, 1, ChatEvent(WhisperFrom, "ann", "BOWES hi"));
    SendEffect(s, 1, ChatEvent(WhisperFrom, "ann", "BOWES hi"));
    SendEffect(s1, 0, ChatEvent(WhisperTo, "RON", "BOWES hi"));
  }

  // ---- a talk that is too long for its receivers ----

  /** The longest text that a client can send. */
  function LongText(): (t: string)
    ensures |t| == MAX_PACKET - 5 && Clean(t) && t[0] == 'x'
  {
    seq(MAX_PACKET - 5, j => 'x')
  }

  /** A speaker in a room sends the longest text that the server accepts: the event that comes back
      is longer than the client accepts. */
  lemma AnOverlongEventIsReachable(sha1: seq<byte> -> Digest) returns (s: State, i: nat)
    ensures Guarantees.Reachable(s) && Guarantees.IsConnected(s, i) && s.users[i].sent != []
    ensures var p := s.users[i].sent[|s.users[i].sent| - 1];
            p.ChatEvent? && p.kind.Talk? && Sendable(p) && !ChatClient.Fits(p)
  {
    hide Inv, Guarantees.Reachable, Say, RequestWire, Codec.Seen, Wire;
    var s0;
    s0, i := Arrivals.SomebodyInARoom(sha1, "ab");
    var text := LongText();
    Codec.CleanIsCString(text);
    var request := ChatCommand(text);
    Arrivals.ServedIsReachable(s0, i, request);
    Guarantees.ReachableInv(s0);
    TalkIsSaid(s0, i, text);
    Delivery.TalkFitsExactly(s0, i, i, "a", text);
    s := Handshake.Serve(s0, i, request);
    TalkKeepsOpen(s0, i, "a", text);
  }

  lemma TalkIsSaid(s: State, i: nat, text: string)
    requires Inv(s) && !s.crashed && i < |s.users| && s.users[i].open && s.users[i].room.Some?
    requires Clean(text) && RequestOk(ChatCommand(text)) && text != "" && text[0] != '/'
    ensures Handshake.Serve(s, i, ChatCommand(text)) == Say(s, i, text)
  {
    hide InvExcept, RequestWire, Codec.Seen, ParseText, Say;
    Delivery.PlacedIsOld(s, i);
    Stepping.CollectionsMatchStates(s, i);
    ServerReadsWhatTheClientWrote(ChatCommand(text));
    Codec.CleanIsCString(text);
  }

  lemma TalkKeepsOpen(s: State, i: nat, room: string, text: string)
    requires Inv(s) && i < |s.users| && s.users[i].open && s.users[i].room == Some(room)
    ensures Guarantees.IsConnected(Say(s, i, text), i)
  {
    hide Inv, Say;
    Delivery.TalkReachesExactlyTheRoom(s, i, room, text);
  }

  /** And that ends the speaker's own client. */
  lemma AClientIsStoppedByItsOwnTalk(sha1: seq<byte> -> Digest, c: Handshake.Credentials, st: ChatClient.ClientState)
    returns (s: State, i: nat)
    requires Handshake.CanSend(c) && st.userList == [] && !st.ended
    ensures Guarantees.Reachable(s) && Guarantees.IsConnected(s, i)
    ensures forall k :: 0 <= k < |s.users[i].sent| ==> Sendable(s.users[i].sent[k])
    ensures ChatClient.ReadAll(s.sha1, c, st, ChatClient.Bytes(s.users[i].sent)).ended
  {
    hide Inv, Guarantees.Reachable, ChatClient.ReadAll, Sendable, ChatClient.Fits;
    s, i := AnOverlongEventIsReachable(sha1);
    Guarantees.ReachableInv(s);
    ChatClient.ClientShowsItsRoom(s, i, c, st);
    var sent := s.users[i].sent;
    assert ChatClient.Stops(sent[|sent| - 1]);
  }
}
