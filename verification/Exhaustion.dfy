/** Creates for an account that exists, repeated by one client, use up the descriptors of the server
    and end it: after exactly how many, and that it does come about. */
module Exhaustion {
  import opened Types
  import opened Messages
  import opened ServerSpec
  import opened Invariants
  import Accounts
  import Arrivals
  import Codec
  import Descriptors
  import Guarantees
  import Handshake
  import Stepping
  import Survival

  /** The descriptors that are left. */
  function Free(s: State): nat {
    if Exhausted(s) then 0 else s.descriptors - InUse(s)
  }

  function CreateEvent(i: nat, c: Handshake.Credentials): Event
    requires Handshake.CanSend(c)
  {
    Poll(i, Handshake.RequestReading(Handshake.MyCreate(c)), [])
  }

  function Repeat(e: Event, k: nat): (es: seq<Event>)
    ensures |es| == k && forall j :: 0 <= j < k ==> es[j] == e
  {
    seq(k, j => e)
  }

  /** A client that is not logged in and whose account is there. */
  ghost predicate CanRepeat(s: State, i: nat, c: Handshake.Credentials)
    requires Handshake.CanSend(c)
  {
    && Inv(s) && !s.crashed && Handshake.LoggingIn(s, i, c)
    && Accounts.Stored(s.file, Codec.Seen(c.name)).Some?
  }

  /** One more create: it ends the server if no descriptor is left, and otherwise takes one. */
  lemma CreateOnceMore(s: State, i: nat, c: Handshake.Credentials)
    requires Handshake.CanSend(c) && CanRepeat(s, i, c)
    ensures var t := Step(s, CreateEvent(i, c));
            if Free(s) == 0 then t.crashed else CanRepeat(t, i, c) && Free(t) == Free(s) - 1
  {
    hide InvExcept, Codec.Seen, Accounts.Stored, Accounts.Create, Accounts.ValidName, RequestWire, Handshake.Reply;
    var name := Codec.Seen(c.name);
    Guarantees.InvHasFile(s);
    Accounts.FoundNamesAreValid(s.file, name);
    Accounts.CreateRoundTrip(s.file, name, c.secret, name);
    Handshake.ServingACreate(s, i, c, Handshake.MyCreate(c));
  }

  /** The server survives as many of them as it has descriptors left, and not one more. */
  lemma {:induction false} RepeatedCreatesEndTheServer(s: State, i: nat, c: Handshake.Credentials, k: nat)
    requires Handshake.CanSend(c) && CanRepeat(s, i, c)
    ensures var r := Run(s, Repeat(CreateEvent(i, c), k));
            && (r.crashed <==> k > Free(s))
            && (k <= Free(s) ==> CanRepeat(r, i, c) && Free(r) == Free(s) - k)
    decreases k
  {
    hide CanRepeat, Free, Step, CreateEvent;
    var e := CreateEvent(i, c);
    if k == 0 {
      SurvivesNothing(s, i, c);
      assert Repeat(e, 0) == [];
    } else {
      RepeatedCreatesEndTheServer(s, i, c, k - 1);
      assert Repeat(e, k)[..k - 1] == Repeat(e, k - 1);
      var r := Run(s, Repeat(e, k - 1));
      if k - 1 <= Free(s) {
        CreateOnceMore(r, i, c);
        SurvivesNothing(Step(r, e), i, c);
      } else {
        StaysCrashed(r, e);
      }
    }
  }

  lemma SurvivesNothing(s: State, i: nat, c: Handshake.Credentials)
    requires Handshake.CanSend(c)
    ensures Run(s, []) == s
    ensures CanRepeat(s, i, c) ==> !s.crashed
  {
  }

  lemma StaysCrashed(s: State, e: Event)
    requires s.crashed
    ensures Step(s, e).crashed
  {
  }

  /** A state that a run of client packets reaches from an empty server. */
  ghost predicate ReachedByClients(s: State) {
    exists s0, es :: Initial(s0) && Accounts.WellFormed(s0.file) && Survival.ByClients(es) && s == Run(s0, es)
  }

  lemma ClientsReachStep(s: State, e: Event)
    requires ReachedByClients(s)
    requires e.Poll? && e.reading.Packet? ==> Survival.FromAClient(e.reading.bytes)
    ensures ReachedByClients(Step(s, e))
  {
    hide Step, Accounts.WellFormed, Survival.FromAClient;
    var s0, es :| Initial(s0) && Accounts.WellFormed(s0.file) && Survival.ByClients(es) && s == Run(s0, es);
    assert (es + [e])[..|es|] == es;
    assert Survival.ByClients(es + [e]);
    assert Step(s, e) == Run(s0, es + [e]);
  }

  lemma {:induction false} ClientsReachRepeat(s: State, i: nat, c: Handshake.Credentials, k: nat)
    requires ReachedByClients(s) && Handshake.CanSend(c)
    ensures ReachedByClients(Run(s, Repeat(CreateEvent(i, c), k)))
    decreases k
  {
    hide ReachedByClients, Step;
    var e := CreateEvent(i, c);
    if k == 0 {
      SurvivesNothing(s, i, c);
      assert Repeat(e, 0) == [];
    } else {
      ClientsReachRepeat(s, i, c, k - 1);
      assert Repeat(e, k)[..k - 1] == Repeat(e, k - 1);
      assert Survival.FromAClient(e.reading.bytes);
      ClientsReachStep(Run(s, Repeat(e, k - 1)), e);
    }
  }

  lemma OneAccount(hash: Digest)
    ensures Accounts.WellFormed(Accounts.Print("ab", hash))
    ensures Accounts.Stored(Accounts.Print("ab", hash), "ab") == Some(hash)
  {
    hide Accounts.Print, Accounts.Stored;
    var rs := [Accounts.Record("ab", hash)];
    assert rs[1..] == [];
    assert Accounts.PrintAll(rs) == Accounts.Print("ab", hash) + "" == Accounts.Print("ab", hash);
    assert Accounts.ValidRecords(rs);
    Accounts.FindIsLookup(rs, "ab");
  }

  lemma EndedByClients(sha1: seq<byte> -> Digest, descriptors: nat) returns (s: State)
    requires descriptors > 0
    ensures ReachedByClients(s) && s.descriptors == descriptors && s.crashed
  {
    hide InvExcept, ReachedByClients, Handshake.Serve, CanRepeat, Codec.Seen, Accounts.Stored, Accounts.Print,
      Handshake.Reply, Handshake.React, RequestWire, Accounts.WellFormed, Free;
    var c := Arrivals.Somebody("ab");
    Arrivals.SomebodyCanSend("ab");
    Codec.CleanIsCString("ab");
    OneAccount(c.secret);
    var s0 := State([], [], [], [], Accounts.Print("ab", c.secret), sha1, descriptors, 0, false);
    Stepping.InitialInv(s0);
    FirstStates(s0, c);
    s := Worn(Handshake.Serve(Step(s0, Accept(0)), 0, ClientInformation(0, 0)), c);
  }

  lemma Worn(s: State, c: Handshake.Credentials) returns (r: State)
    requires ReachedByClients(s) && Handshake.CanSend(c) && CanRepeat(s, 0, c) && Inv(s)
    ensures ReachedByClients(r) && r.descriptors == s.descriptors && r.crashed
  {
    hide Inv, ReachedByClients, CanRepeat, Free, Run;
    var k := Free(s) + 1;
    RepeatedCreatesEndTheServer(s, 0, c, k);
    ClientsReachRepeat(s, 0, c, k);
    Descriptors.RunLeaks(s, Repeat(CreateEvent(0, c), k));
    r := Run(s, Repeat(CreateEvent(0, c), k));
  }

  /** However many descriptors a server has, if it can accept anybody at all there is a run of
      packets of the client program that ends it. */
  lemma ClientsCanEndTheServer(sha1: seq<byte> -> Digest, descriptors: nat)
    requires descriptors > 0
    ensures exists s :: ReachedByClients(s) && s.descriptors == descriptors && s.crashed
  {
    hide Initial, Run;
    var s := EndedByClients(sha1, descriptors);
  }

  lemma FirstStates(s0: State, c: Handshake.Credentials)
    requires Initial(s0) && Inv(s0) && s0.descriptors > 0 && c.clientToken == 0 && Handshake.CanSend(c)
    requires Accounts.Stored(s0.file, Codec.Seen(c.name)).Some?
    ensures var s2 := Handshake.Serve(Step(s0, Accept(0)), 0, ClientInformation(0, 0));
            ReachedByClients(s2) && CanRepeat(s2, 0, c) && Inv(s2) && s2.descriptors == s0.descriptors
  {
    hide InvExcept, ReachedByClients, Codec.Seen, Accounts.Stored, Handshake.Reply, Handshake.React, RequestWire;
    InitialIsReached(s0);
    var s1 := Step(s0, Accept(0));
    ClientsReachStep(s0, Accept(0));
    Stepping.StepKeeps(s0, Accept(0));
    var hello := ClientInformation(0, 0);
    Handshake.HandshakeStarts(s1, 0, c, 0);
    var e := Poll(0, Handshake.RequestReading(hello), []);
    assert Survival.FromAClient(e.reading.bytes);
    ClientsReachStep(s1, e);
    Descriptors.StepUses(s1, e);
  }

  lemma InitialIsReached(s: State)
    requires Initial(s) && Inv(s)
    ensures ReachedByClients(s)
  {
    hide InvExcept;
    Guarantees.InvHasFile(s);
    assert Survival.ByClients([]);
    assert Run(s, []) == s;
  }
}
