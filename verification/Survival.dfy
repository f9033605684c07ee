/** When a packet ends the server process: exactly when its handler cannot finish reading it, or
    needs the account file while no descriptor is left. Two other ends that the handlers contain, a
    NULL room on the talk path and the exit on a malformed account line, never come about, and the
    exit in add_account is never reached without the one in find_account before it. */
module Survival {
  import opened Types
  import opened Messages
  import opened ServerSpec
  import opened Invariants
  import Accounts
  import Assoc
  import Codec
  import Descriptors
  import Guarantees
  import LinkedLists
  import Stepping

  /** A packet that its handler starts to read and cannot finish reading. */
  predicate Malformed(u: UserRecord, b: seq<byte>)
    requires |b| >= 4
  {
    if b[1] == SID_CLIENT_INFORMATION then u.state == UserState.Connected && ParseClientInformation(b).None?
    else if b[1] == SID_LOGIN || b[1] == SID_CREATE then u.state == SentClientInformation && ParseCredentials(b).None?
    else if b[1] == SID_CHATCOMMAND then IsOld(u) && ParseText(b).None?
    else b[1] == SID_ERROR && ParseText(b).None?
  }

  /** What cannot be read, in bytes: credentials and texts without a zero after their fixed part, and
      a client information with fewer than two. */
  lemma UnreadableIs(b: seq<byte>)
    requires |b| >= 4
    ensures ParseText(b).None? <==> forall k :: 4 <= k < |b| ==> b[k] != 0
    ensures ParseCredentials(b).None? <==> forall k :: 24 <= k < |b| ==> b[k] != 0
    ensures ParseClientInformation(b).None? <==> forall j, k :: 16 <= j < k < |b| ==> b[j] != 0 || b[k] != 0
  {
    hide Codec.FilterAll, Codec.U32;
    StringEnds(b, 4);
    if |b| > 24 {
      StringEnds(b, 24);
    }
    if |b| >= 16 {
      StringEnds(b, 16);
      if Codec.ReadString(b, 16).Some? {
        StringEnds(b, Codec.ReadString(b, 16).value.1);
      }
    }
  }

  lemma StringEnds(b: seq<byte>, pos: nat)
    requires pos <= |b|
    ensures Codec.ReadString(b, pos).None? <==> forall k :: pos <= k < |b| ==> b[k] != 0
    ensures Codec.ReadString(b, pos).Some? ==>
              var next := Codec.ReadString(b, pos).value.1;
              next <= |b| && b[next - 1] == 0 && forall k :: pos <= k < next - 1 ==> b[k] != 0
  {
    hide Codec.FilterAll;
  }

  /** The packet cannot be served in this state. */
  predicate Fatal(s: State, i: nat, b: seq<byte>)
    requires i < |s.users| && |b| >= 4
  {
    Malformed(s.users[i], b) || (Descriptors.OpensFile(s, i, b) && Exhausted(s))
  }

  lemma HandleCrashesExactly(s: State, i: nat, b: seq<byte>, lines: seq<Notice>)
    requires Inv(s) && !s.crashed && i < |s.users| && s.users[i].open && 4 <= |b| <= MAX_PACKET
    ensures Handle(s, i, b, lines).crashed <==> Fatal(s, i, b)
  {
    hide InvExcept, ParseText, ParseClientInformation, ParseCredentials, Message, LoginStatus, Accounts.Create,
      LinkedLists.WithoutFirst, Assoc.Add, Guarantees.RoomsGrow, Accounts.Stored, Accounts.Salted, Exhausted,
      Accounts.ValidName;
    if b[1] == SID_LOGIN && ParseCredentials(b).Some? {
      var (digest, name) := ParseCredentials(b).value;
      Stepping.LoginStatusIsSound(s, i, digest, name);
    } else if b[1] == SID_CHATCOMMAND && IsOld(s.users[i]) && ParseText(b).Some? {
      Guarantees.MessageGrows(s, i, ParseText(b).value, lines);
    }
  }

  predicate Breaks(s: State, e: Event) {
    Descriptors.Arrives(s, e) && Fatal(s, e.who, e.reading.bytes)
  }

  lemma StepCrashesExactly(s: State, e: Event)
    requires Inv(s)
    ensures Step(s, e).crashed <==> s.crashed || Breaks(s, e)
  {
    hide InvExcept, Handle, Fatal, LinkedLists.WithoutFirst, Assoc.Remove, Assoc.Values, Exhausted;
    match e
    case Accept(token) =>
    case Poll(i, o, lines) =>
      Stepping.CollectionsMatchStates(s, i);
      if o.Packet? && !s.crashed && i < |s.users| && s.users[i].open {
        HandleCrashesExactly(s, i, o.bytes, lines);
      }
  }

  ghost predicate BreaksAt(s: State, es: seq<Event>, k: nat)
    requires k < |es|
  {
    Breaks(Run(s, es[..k]), es[k])
  }

  /** A run ends the process exactly when some packet of it cannot be served on arrival. */
  lemma {:induction false} RunCrashesExactly(s: State, es: seq<Event>)
    requires Inv(s)
    ensures Run(s, es).crashed <==> s.crashed || exists k :: 0 <= k < |es| && BreaksAt(s, es, k)
    decreases |es|
  {
    hide Inv, Step, Breaks, BreaksAt;
    if es != [] {
      var n := |es| - 1;
      RunCrashesExactly(s, es[..n]);
      Stepping.RunKeeps(s, es[..n]);
      StepCrashesExactly(Run(s, es[..n]), es[n]);
      BreaksAtIs(s, es, n);
      forall k | 0 <= k < n
        ensures BreaksAt(s, es, k) <==> BreaksAt(s, es[..n], k)
      {
        BreaksBefore(s, es, k);
      }
    }
  }

  lemma BreaksAtIs(s: State, es: seq<Event>, k: nat)
    requires k < |es|
    ensures BreaksAt(s, es, k) <==> Breaks(Run(s, es[..k]), es[k])
  {
  }

  lemma BreaksBefore(s: State, es: seq<Event>, k: nat)
    requires k < |es| - 1
    ensures BreaksAt(s, es, k) <==> BreaksAt(s, es[..|es| - 1], k)
  {
    hide Run, Breaks;
    assert es[..|es| - 1][..k] == es[..k] && es[..|es| - 1][k] == es[k];
  }

  /** A packet that client.c could have built. */
  ghost predicate FromAClient(b: seq<byte>) {
    || (exists r :: RequestOk(r) && b == RequestWire(r))
    || (exists text :: Clean(text) && |text| <= MAX_PACKET && b == Wire(ErrorReport(text)))
  }

  lemma ClientPacketsAreNeverMalformed(u: UserRecord, b: seq<byte>)
    requires FromAClient(b)
    ensures |b| >= 4 && !Malformed(u, b)
  {
    hide RequestWire, Wire, ParseText, ParseClientInformation, ParseCredentials, Codec.Seen, Codec.IsFrame;
    if r: Request :| RequestOk(r) && b == RequestWire(r) {
      ServerReadsWhatTheClientWrote(r);
      WireIsLong(b);
    } else {
      var text :| Clean(text) && |text| <= MAX_PACKET && b == Wire(ErrorReport(text));
      ErrorIsRead(text);
    }
  }

  lemma WireIsLong(b: seq<byte>)
    requires Codec.IsFrame(b)
    ensures |b| >= 4
  {
  }

  lemma ErrorIsRead(text: string)
    requires Clean(text) && |text| <= MAX_PACKET
    ensures var b := Wire(ErrorReport(text)); |b| >= 4 && b[1] == SID_ERROR && ParseText(b) == Some(text)
  {
    hide CleanNt, Codec.ReadString;
    ReadLastCleanAt(Wire(ErrorReport(text)), 4, text);
  }

  /** Every packet in the run is one that client.c could have built. */
  ghost predicate ByClients(es: seq<Event>) {
    forall k :: 0 <= k < |es| && es[k].Poll? && es[k].reading.Packet? ==> FromAClient(es[k].reading.bytes)
  }

  /** The k-th event is a login or a create that needs the account file, and finds all descriptors
      taken: by connections, and by the creates for existing names that came before it. */
  ghost predicate StarvedAt(s: State, es: seq<Event>, k: nat)
    requires k < |es|
  {
    var t, e := Run(s, es[..k]), es[k];
    && Descriptors.Arrives(t, e) && Descriptors.OpensFile(t, e.who, e.reading.bytes)
    && Descriptors.Connections(t) + s.leaked + Descriptors.LeaksIn(s, es[..k]) >= s.descriptors
  }

  /** Packets that client.c could have built, in whatever order and state they arrive, end the
      server in this one way only. */
  lemma ClientsEndTheServerExactly(s: State, es: seq<Event>)
    requires Inv(s) && !s.crashed && ByClients(es)
    ensures Run(s, es).crashed <==> exists k :: 0 <= k < |es| && StarvedAt(s, es, k)
  {
    hide Inv, Run, FromAClient, StarvedAt, BreaksAt;
    RunCrashesExactly(s, es);
    forall k | 0 <= k < |es|
      ensures BreaksAt(s, es, k) <==> StarvedAt(s, es, k)
    {
      ClientsOnlyStarve(s, es, k);
    }
  }

  lemma ClientsOnlyStarve(s: State, es: seq<Event>, k: nat)
    requires Inv(s) && ByClients(es) && k < |es|
    ensures BreaksAt(s, es, k) <==> StarvedAt(s, es, k)
  {
    hide Inv, Run, FromAClient, Malformed, Descriptors.OpensFile, Descriptors.LeaksIn;
    var t := Run(s, es[..k]);
    Descriptors.RunLeaks(s, es[..k]);
    if es[k].Poll? && es[k].reading.Packet? && es[k].who < |t.users| {
      ClientPacketsAreNeverMalformed(t.users[es[k].who], es[k].reading.bytes);
    }
  }

  /** While the accepts and creates of a run cannot use up the descriptors, it does not end the
      server. */
  lemma FewTakersEndNothing(s: State, es: seq<Event>)
    requires Inv(s) && !s.crashed && ByClients(es) && InUse(s) + Descriptors.Takers(es) < s.descriptors
    ensures !Run(s, es).crashed
  {
    hide Inv, Run, FromAClient, StarvedAt, Descriptors.OpensFile;
    ClientsEndTheServerExactly(s, es);
    forall k | 0 <= k < |es|
      ensures !StarvedAt(s, es, k)
    {
      Descriptors.UseIsBounded(s, es[..k]);
      Descriptors.FewerTakersBefore(es, k);
      if StarvedAt(s, es, k) {
        StarvedMeansExhausted(s, es, k);
      }
    }
  }

  lemma StarvedMeansExhausted(s: State, es: seq<Event>, k: nat)
    requires Inv(s) && k < |es| && StarvedAt(s, es, k)
    ensures Exhausted(Run(s, es[..k]))
  {
    hide Inv, Run, Descriptors.OpensFile;
    Descriptors.RunLeaks(s, es[..k]);
  }

  // ---- packets out of place ----

  /** The packets that a user in a given state may send. */
  predicate InPlace(u: UserRecord, code: byte) {
    match u.state
    case Connected => code in {SID_NULL, SID_ERROR, SID_CLIENT_INFORMATION}
    case SentClientInformation => code in {SID_NULL, SID_ERROR, SID_LOGIN, SID_CREATE}
    case NotInChannel => code in {SID_NULL, SID_ERROR, SID_CHATCOMMAND}
    case JoinedChannel => code in {SID_NULL, SID_ERROR, SID_CHATCOMMAND}
  }

  /** Any other packet, readable or not, earns its sender one error and changes nothing else. */
  lemma OutOfPlaceOnlyEarnsAnError(s: State, i: nat, b: seq<byte>, lines: seq<Notice>)
    requires i < |s.users| && s.users[i].open && |b| >= 4 && !InPlace(s.users[i], b[1])
    ensures var r := Handle(s, i, b, lines);
            && OnlySent(s, r)
            && (forall j :: 0 <= j < |s.users| && j != i ==> r.users[j] == s.users[j])
            && |r.users[i].sent| == |s.users[i].sent| + 1 && r.users[i].sent[..|s.users[i].sent|] == s.users[i].sent
            && r.users[i].sent[|s.users[i].sent|].ErrorReport?
  {
    hide ParseText, ParseClientInformation, ParseCredentials, Message, LoginStatus, Accounts.Create, MisuseText;
  }
}
