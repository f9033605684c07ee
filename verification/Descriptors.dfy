/** The descriptors of the server process. find_account returns without closing the account file
    when its caller wants no record and the name is found, so every create for an existing name
    keeps one descriptor for good; accepts take one and closes give one back. */
module Descriptors {
  import opened Types
  import opened Messages
  import opened ServerSpec
  import opened Invariants
  import Accounts
  import Assoc
  import Guarantees
  import LinkedLists
  import Stepping

  /** The descriptors that connections use. */
  function Connections(s: State): nat {
    |s.newUsers| + |s.oldUsers|
  }

  /** The packet makes the server open the account file: a login under a name that nobody is logged
      in with, or a create for a name that passes the checks. */
  predicate OpensFile(s: State, i: nat, b: seq<byte>)
    requires i < |s.users| && |b| >= 4
  {
    && s.users[i].state == SentClientInformation
    && ParseCredentials(b).Some?
    && var name := ParseCredentials(b).value.1;
       || (b[1] == SID_LOGIN && !Assoc.Has(s.oldUsers, name))
       || (b[1] == SID_CREATE && Accounts.ValidName(name))
  }

  /** The packet leaves a stream open: a create for an account that exists. */
  predicate LeaksOn(s: State, i: nat, b: seq<byte>)
    requires i < |s.users| && |b| >= 4
  {
    OpensFile(s, i, b) && !Exhausted(s) && b[1] == SID_CREATE &&
    Accounts.Stored(s.file, ParseCredentials(b).value.1).Some?
  }

  /** The event is a packet that a connected user's turn brings to its handler. */
  predicate Arrives(s: State, e: Event) {
    e.Poll? && e.reading.Packet? && !s.crashed && e.who < |s.users| && s.users[e.who].open
  }

  predicate Leaks(s: State, e: Event) {
    Arrives(s, e) && LeaksOn(s, e.who, e.reading.bytes)
  }

  predicate Accepts(s: State, e: Event) {
    e.Accept? && !s.crashed && !Exhausted(s)
  }

  predicate Closes(s: State, e: Event) {
    e.Poll? && e.reading.Closed? && !s.crashed && e.who < |s.users| && s.users[e.who].open
  }

  /** What a handler does to the descriptors. */
  lemma HandleUses(s: State, i: nat, b: seq<byte>, lines: seq<Notice>)
    requires Inv(s) && !s.crashed && i < |s.users| && s.users[i].open && 4 <= |b| <= MAX_PACKET
    ensures var r := Handle(s, i, b, lines);
            && r.descriptors == s.descriptors
            && Connections(r) == Connections(s)
            && r.leaked == s.leaked + if LeaksOn(s, i, b) then 1 else 0
  {
    hide InvExcept, ParseText, ParseClientInformation, ParseCredentials, Message, LoginHandler, CreateHandler,
      Exhausted, Accounts.ValidName, Accounts.Stored;
    if b[1] == SID_LOGIN {
      LoginUses(s, i, b);
    } else if b[1] == SID_CREATE {
      CreateUses(s, i, b);
    } else if b[1] == SID_CHATCOMMAND && IsOld(s.users[i]) && ParseText(b).Some? {
      Guarantees.MessageGrows(s, i, ParseText(b).value, lines);
    }
  }

  lemma LoginUses(s: State, i: nat, b: seq<byte>)
    requires Inv(s) && i < |s.users| && s.users[i].open
    ensures var r := LoginHandler(s, i, b);
            r.descriptors == s.descriptors && Connections(r) == Connections(s) && r.leaked == s.leaked
  {
    hide InvExcept, ParseCredentials, LoginStatus, LinkedLists.WithoutFirst, Assoc.Has, Accounts.ValidName;
    if s.users[i].state == SentClientInformation && ParseCredentials(b).Some? {
      var (digest, name) := ParseCredentials(b).value;
      Stepping.LoginStatusIsSound(s, i, digest, name);
      Stepping.CollectionsMatchStates(s, i);
      OneLess(s.newUsers, i);
      if LoginStatus(s, s.users[i], digest, name) == Some(Accounts.LoginSuccess) {
        Accounts.ValidNameIsClean(name);
        OneMore(s.oldUsers, name, i);
      }
    }
  }

  lemma OneLess(ids: seq<nat>, i: nat)
    requires i in ids
    ensures |LinkedLists.WithoutFirst(ids, i)| == |ids| - 1
  {
    var k :| 0 <= k < |ids| && ids[k] == i;
  }

  lemma OneMore(t: Assoc.Table<nat>, name: string, i: nat)
    requires !Assoc.Has(t, name)
    ensures |Assoc.Add(t, name, i)| == |t| + 1
  {
  }

  lemma CreateUses(s: State, i: nat, b: seq<byte>)
    requires Inv(s) && i < |s.users| && |b| >= 4 && b[1] == SID_CREATE
    ensures var r := CreateHandler(s, i, b);
            && r.descriptors == s.descriptors && Connections(r) == Connections(s)
            && r.leaked == s.leaked + if LeaksOn(s, i, b) then 1 else 0
  {
    hide InvExcept, ParseCredentials, Exhausted, Accounts.Create, Accounts.ValidName, Accounts.Stored;
    if ParseCredentials(b).Some? {
      var (hash, name) := ParseCredentials(b).value;
      Guarantees.InvHasFile(s);
      Accounts.CreateRoundTrip(s.file, name, hash, name);
    }
  }

  /** What any event does to the descriptors, exactly. */
  lemma StepUses(s: State, e: Event)
    requires Inv(s)
    ensures var r := Step(s, e);
            && r.descriptors == s.descriptors
            && r.leaked == s.leaked + (if Leaks(s, e) then 1 else 0)
            && Connections(r) == Connections(s) + if Accepts(s, e) then 1 else if Closes(s, e) then -1 else 0
  {
    hide InvExcept, Handle, LeaksOn, LinkedLists.WithoutFirst, Exhausted;
    match e
    case Accept(token) =>
    case Poll(i, o, lines) =>
      Stepping.CollectionsMatchStates(s, i);
      if i < |s.users| && s.users[i].open && !s.crashed {
        if o.Packet? {
          HandleUses(s, i, o.bytes, lines);
        } else if o.Closed? {
          ClosingFreesOne(s, i);
        }
      }
  }

  lemma ClosingFreesOne(s: State, i: nat)
    requires Inv(s) && i < |s.users| && s.users[i].open
    ensures i in s.newUsers ==> |LinkedLists.WithoutFirst(s.newUsers, i)| == |s.newUsers| - 1
    ensures IsOld(s.users[i]) ==> |Assoc.Remove(s.oldUsers, s.users[i].username)| == |s.oldUsers| - 1
  {
    hide Rooms, Accounts.ValidName;
    if i in s.newUsers {
      OneLess(s.newUsers, i);
    }
    if IsOld(s.users[i]) {
      OldUserIsFound(s, i);
    }
  }

  // ---- over runs ----

  /** How many creates for existing names a run serves. */
  function LeaksIn(s: State, es: seq<Event>): nat
    decreases |es|
  {
    if es == [] then 0
    else
      var n := |es| - 1;
      LeaksIn(s, es[..n]) + if Leaks(Run(s, es[..n]), es[n]) then 1 else 0
  }

  /** The streams that a run leaves open are its creates for existing names, every one of them and
      nothing else. */
  lemma {:induction false} RunLeaks(s: State, es: seq<Event>)
    requires Inv(s)
    ensures var r := Run(s, es); r.descriptors == s.descriptors && r.leaked == s.leaked + LeaksIn(s, es)
    decreases |es|
  {
    hide Inv, Step, Leaks;
    if es != [] {
      var n := |es| - 1;
      RunLeaks(s, es[..n]);
      Stepping.RunKeeps(s, es[..n]);
      StepUses(Run(s, es[..n]), es[n]);
    }
  }

  /** An event that may take a descriptor, whatever the state: an accept or a create. */
  predicate Taker(e: Event) {
    e.Accept? || (e.Poll? && e.reading.Packet? && e.reading.bytes[1] == SID_CREATE)
  }

  function Takers(es: seq<Event>): nat
    decreases |es|
  {
    if es == [] then 0 else Takers(es[..|es| - 1]) + if Taker(es[|es| - 1]) then 1 else 0
  }

  lemma {:induction false} UseIsBounded(s: State, es: seq<Event>)
    requires Inv(s)
    ensures Run(s, es).descriptors == s.descriptors && InUse(Run(s, es)) <= InUse(s) + Takers(es)
    decreases |es|
  {
    hide Inv, Step, ParseCredentials, Exhausted;
    if es != [] {
      var n := |es| - 1;
      UseIsBounded(s, es[..n]);
      Stepping.RunKeeps(s, es[..n]);
      StepUses(Run(s, es[..n]), es[n]);
    }
  }

  lemma {:induction false} FewerTakersBefore(es: seq<Event>, k: nat)
    requires k <= |es|
    ensures Takers(es[..k]) <= Takers(es)
    decreases |es|
  {
    if k == |es| {
      assert es[..k] == es;
    } else {
      var n := |es| - 1;
      FewerTakersBefore(es[..n], k);
      assert es[..n][..k] == es[..k];
    }
  }
}
