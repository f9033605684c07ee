/** One pass of do_select. It works from snapshots of both collections; the main result is that
    this makes no difference. */
module Rounds {
  import opened Types
  import opened ServerSpec
  import opened Invariants
  import Accounts
  import Assoc
  import Authentication
  import Effects
  import Guarantees
  import Stepping

  /** What select and then read_buffer report for a connection. */
  datatype Answer = Answer(reading: Reading, lines: seq<Notice>)
  type Ready = map<nat, Answer>

  function PollAllOld(s: State, ids: seq<nat>, ready: Ready): State
    decreases |ids|
  {
    if ids == [] then s
    else if ids[0] in ready
      then PollAllOld(PollOld(s, ids[0], ready[ids[0]].reading, ready[ids[0]].lines), ids[1..], ready)
    else PollAllOld(s, ids[1..], ready)
  }

  function PollAllNew(s: State, ids: seq<nat>, ready: Ready): State
    decreases |ids|
  {
    if ids == [] then s
    else if ids[0] in ready
      then PollAllNew(PollNew(s, ids[0], ready[ids[0]].reading, ready[ids[0]].lines), ids[1..], ready)
    else PollAllNew(s, ids[1..], ready)
  }

  /** do_select after select has returned: accept, then the old users, then the new users, both
      from lists taken before anything happened. */
  function Round(s: State, listen: Option<uint32>, ready: Ready): State {
    var s1 := if listen.Some? then AcceptConnection(s, listen.value) else s;
    var s2 := PollAllOld(s1, Assoc.Values(s.oldUsers), ready);
    PollAllNew(s2, s.newUsers, ready)
  }

  // ---- the same as a run of single events ----

  function Turns(ids: seq<nat>, ready: Ready): seq<nat> {
    if ids == [] then []
    else if ids[0] in ready then [ids[0]] + Turns(ids[1..], ready)
    else Turns(ids[1..], ready)
  }

  function Polls(turns: seq<nat>, ready: Ready): (es: seq<Event>)
    requires forall k :: 0 <= k < |turns| ==> turns[k] in ready
    ensures |es| == |turns|
    ensures forall k :: 0 <= k < |turns| ==> es[k] == Poll(turns[k], ready[turns[k]].reading, ready[turns[k]].lines)
  {
    seq(|turns|, k requires 0 <= k < |turns| => Poll(turns[k], ready[turns[k]].reading, ready[turns[k]].lines))
  }

  lemma {:induction false} TurnsAreReady(ids: seq<nat>, ready: Ready)
    ensures forall k :: 0 <= k < |Turns(ids, ready)| ==> Turns(ids, ready)[k] in ready
    ensures forall i :: i in Turns(ids, ready) <==> i in ids && i in ready
    ensures (forall a, b :: 0 <= a < b < |ids| ==> ids[a] != ids[b]) ==>
              forall a, b :: 0 <= a < b < |Turns(ids, ready)| ==> Turns(ids, ready)[a] != Turns(ids, ready)[b]
  {
    if ids != [] {
      TurnsAreReady(ids[1..], ready);
      assert forall i :: i in ids <==> i == ids[0] || i in ids[1..];
      if forall a, b :: 0 <= a < b < |ids| ==> ids[a] != ids[b] {
        assert ids[0] !in ids[1..];
      }
    }
  }

  lemma FirstPoll(i: nat, turns: seq<nat>, ready: Ready)
    requires i in ready && forall k :: 0 <= k < |turns| ==> turns[k] in ready
    ensures forall k :: 0 <= k < |[i] + turns| ==> ([i] + turns)[k] in ready
    ensures Polls([i] + turns, ready) == [Poll(i, ready[i].reading, ready[i].lines)] + Polls(turns, ready)
  {
  }

  /** The events of a round. */
  function RoundEvents(s: State, listen: Option<uint32>, ready: Ready): seq<Event> {
    var olds, news := Turns(Assoc.Values(s.oldUsers), ready), Turns(s.newUsers, ready);
    TurnsAreReady(Assoc.Values(s.oldUsers), ready);
    TurnsAreReady(s.newUsers, ready);
    (if listen.Some? then [Accept(listen.value)] else []) + Polls(olds, ready) + Polls(news, ready)
  }

  lemma {:induction false} RunInTwo(s: State, a: seq<Event>, b: seq<Event>)
    ensures Run(s, a + b) == Run(Run(s, a), b)
    decreases |b|
  {
    hide Step;
    if b == [] {
      assert a + b == a;
    } else {
      var n := |b| - 1;
      assert (a + b)[..|a + b| - 1] == a + b[..n];
      RunInTwo(s, a, b[..n]);
    }
  }

  lemma ReachableRun(s: State, es: seq<Event>)
    requires Guarantees.Reachable(s)
    ensures Guarantees.Reachable(Run(s, es))
  {
    hide Run, Accounts.WellFormed;
    var s0, before :| Initial(s0) && Accounts.WellFormed(s0.file) && s == Run(s0, before);
    RunInTwo(s0, before, es);
  }

  lemma InitialIsReachable(s: State)
    requires Initial(s) && Accounts.WellFormed(s.file)
    ensures Guarantees.Reachable(s) && Inv(s)
  {
    hide Accounts.WellFormed, Inv;
    Stepping.InitialInv(s);
    RunNothing(s);
  }

  lemma RunOne(s: State, e: Event)
    ensures Run(s, [e]) == Step(s, e)
  {
    assert [e][..0] == [];
    assert Run(s, []) == s;
  }

  ghost predicate AllOld(s: State, ids: seq<nat>) {
    forall k :: 0 <= k < |ids| ==> ids[k] < |s.users| && s.users[ids[k]].open && IsOld(s.users[ids[k]])
  }

  ghost predicate AllNew(s: State, ids: seq<nat>) {
    forall k :: 0 <= k < |ids| ==> ids[k] < |s.users| && s.users[ids[k]].open && !IsOld(s.users[ids[k]])
  }

  ghost predicate Distinct(ids: seq<nat>) {
    forall a, b :: 0 <= a < b < |ids| ==> ids[a] != ids[b]
  }

  /** A turn leaves everybody else connected and on the same side. */
  lemma OthersStayPut(s: State, i: nat, o: Reading, lines: seq<Notice>, ids: seq<nat>)
    requires Inv(s) && i < |s.users| && s.users[i].open && forall k :: 0 <= k < |ids| ==> ids[k] != i
    ensures AllOld(s, ids) ==> AllOld(PollOld(s, i, o, lines), ids) && AllOld(PollNew(s, i, o, lines), ids)
    ensures AllNew(s, ids) ==> AllNew(PollOld(s, i, o, lines), ids) && AllNew(PollNew(s, i, o, lines), ids)
  {
    hide InvExcept, PollOld, PollNew;
    Effects.PollExtends(s, i, o, lines);
    forall k | 0 <= k < |ids| && ids[k] < |s.users|
      ensures Effects.Grows(s.users[ids[k]], PollOld(s, i, o, lines).users[ids[k]], false)
      ensures Effects.Grows(s.users[ids[k]], PollNew(s, i, o, lines).users[ids[k]], false)
    {
      assert Effects.Grows(s.users[ids[k]], PollOld(s, i, o, lines).users[ids[k]], ids[k] == i);
      assert Effects.Grows(s.users[ids[k]], PollNew(s, i, o, lines).users[ids[k]], ids[k] == i);
    }
  }

  lemma PollIsAStep(s: State, i: nat, o: Reading, lines: seq<Notice>)
    requires Inv(s) && i < |s.users| && s.users[i].open
    ensures Step(s, Poll(i, o, lines)) == if IsOld(s.users[i]) then PollOld(s, i, o, lines) else PollNew(s, i, o, lines)
    ensures Inv(Step(s, Poll(i, o, lines)))
  {
    hide InvExcept, PollOld, PollNew;
    Stepping.CollectionsMatchStates(s, i);
    Stepping.StepKeeps(s, Poll(i, o, lines));
  }

  lemma {:induction false} OldLoop(s: State, ids: seq<nat>, others: seq<nat>, ready: Ready)
    requires Inv(s) && Distinct(ids) && AllOld(s, ids) && AllNew(s, others)
    ensures forall k :: 0 <= k < |Turns(ids, ready)| ==> Turns(ids, ready)[k] in ready
    ensures var r := PollAllOld(s, ids, ready);
            Inv(r) && AllNew(r, others) && r == Run(s, Polls(Turns(ids, ready), ready))
    decreases |ids|
  {
    hide InvExcept, PollOld, PollNew, Step, Run;
    TurnsAreReady(ids, ready);
    if ids == [] {
      RunNothing(s);
      assert Polls(Turns(ids, ready), ready) == [];
    } else {
      var i, rest := ids[0], ids[1..];
      assert AllOld(s, rest) && Distinct(rest) && forall k :: 0 <= k < |rest| ==> rest[k] != i;
      TurnsAreReady(rest, ready);
      if i in ready {
        var a := ready[i];
        var e := Poll(i, a.reading, a.lines);
        OthersStayPut(s, i, a.reading, a.lines, rest);
        NewIsNotOld(s, i, others);
        OthersStayPut(s, i, a.reading, a.lines, others);
        PollIsAStep(s, i, a.reading, a.lines);
        OldLoop(PollOld(s, i, a.reading, a.lines), rest, others, ready);
        RunOne(s, e);
        RunInTwo(s, [e], Polls(Turns(rest, ready), ready));
        FirstPoll(i, Turns(rest, ready), ready);
      } else {
        OldLoop(s, rest, others, ready);
      }
    }
  }

  lemma RunNothing(s: State)
    ensures Run(s, []) == s
  {
  }

  lemma NewIsNotOld(s: State, i: nat, others: seq<nat>)
    requires i < |s.users| && IsOld(s.users[i]) && AllNew(s, others)
    ensures forall k :: 0 <= k < |others| ==> others[k] != i
  {
  }

  lemma {:induction false} NewLoop(s: State, ids: seq<nat>, ready: Ready)
    requires Inv(s) && Distinct(ids) && AllNew(s, ids)
    ensures forall k :: 0 <= k < |Turns(ids, ready)| ==> Turns(ids, ready)[k] in ready
    ensures var r := PollAllNew(s, ids, ready); Inv(r) && r == Run(s, Polls(Turns(ids, ready), ready))
    decreases |ids|
  {
    hide InvExcept, PollOld, PollNew, Step, Run;
    TurnsAreReady(ids, ready);
    if ids == [] {
      RunNothing(s);
      assert Polls(Turns(ids, ready), ready) == [];
    } else {
      var i, rest := ids[0], ids[1..];
      assert AllNew(s, rest) && Distinct(rest) && forall k :: 0 <= k < |rest| ==> rest[k] != i;
      TurnsAreReady(rest, ready);
      if i in ready {
        var a := ready[i];
        var e := Poll(i, a.reading, a.lines);
        OthersStayPut(s, i, a.reading, a.lines, rest);
        PollIsAStep(s, i, a.reading, a.lines);
        NewLoop(PollNew(s, i, a.reading, a.lines), rest, ready);
        RunOne(s, e);
        RunInTwo(s, [e], Polls(Turns(rest, ready), ready));
        FirstPoll(i, Turns(rest, ready), ready);
      } else {
        NewLoop(s, rest, ready);
      }
    }
  }

  lemma SnapshotsAreSound(s: State)
    requires Inv(s)
    ensures AllOld(s, Assoc.Values(s.oldUsers)) && Distinct(Assoc.Values(s.oldUsers))
    ensures AllNew(s, s.newUsers) && Distinct(s.newUsers)
  {
    var olds := Assoc.Values(s.oldUsers);
    forall a | 0 <= a < |olds|
      ensures olds[a] < |s.users| && s.users[olds[a]].open && IsOld(s.users[olds[a]])
      ensures s.users[olds[a]].username == s.oldUsers[a].0
    {
      assert OldOk(s, s.oldUsers[a].0, s.oldUsers[a].1);
    }
    forall a, b | 0 <= a < b < |olds|
      ensures olds[a] != olds[b]
    {
      assert s.oldUsers[a].0 != s.oldUsers[b].0;
    }
    forall a | 0 <= a < |s.newUsers|
      ensures NewOk(s, s.newUsers[a])
    {
    }
  }

  lemma AcceptKeepsSides(s: State, token: uint32, ids: seq<nat>)
    ensures AllOld(s, ids) ==> AllOld(AcceptConnection(s, token), ids)
    ensures AllNew(s, ids) ==> AllNew(AcceptConnection(s, token), ids)
  {
  }

  /** A round over stale snapshots does exactly what the single events would do one after the
      other, each user being polled in the collection it is in when its turn comes; every
      invariant holds after it. */
  lemma RoundIsARun(s: State, listen: Option<uint32>, ready: Ready)
    requires Inv(s)
    ensures Round(s, listen, ready) == Run(s, RoundEvents(s, listen, ready)) && Inv(Round(s, listen, ready))
  {
    hide InvExcept, PollAllOld, PollAllNew, Step, Run, AcceptConnection, Turns;
    var olds, news := Assoc.Values(s.oldUsers), s.newUsers;
    SnapshotsAreSound(s);
    TurnsAreReady(olds, ready);
    TurnsAreReady(news, ready);
    var es0: seq<Event> := if listen.Some? then [Accept(listen.value)] else [];
    var es1, es2 := Polls(Turns(olds, ready), ready), Polls(Turns(news, ready), ready);
    var s1 := if listen.Some? then AcceptConnection(s, listen.value) else s;
    AcceptFirst(s, listen);
    OldLoop(s1, olds, news, ready);
    var s2 := PollAllOld(s1, olds, ready);
    NewLoop(s2, news, ready);
    RunInTwo(s, es0, es1);
    RunInTwo(s, es0 + es1, es2);
  }

  lemma AcceptFirst(s: State, listen: Option<uint32>)
    requires Inv(s)
    ensures var s1 := if listen.Some? then AcceptConnection(s, listen.value) else s;
            && Inv(s1)
            && s1 == Run(s, if listen.Some? then [Accept(listen.value)] else [])
            && (forall ids :: AllOld(s, ids) ==> AllOld(s1, ids))
            && (forall ids :: AllNew(s, ids) ==> AllNew(s1, ids))
  {
    hide InvExcept, AllOld, AllNew;
    RunNothing(s);
    if listen.Some? {
      RunOne(s, Accept(listen.value));
      Stepping.AcceptKeeps(s, listen.value);
      forall ids: seq<nat>
        ensures AllOld(s, ids) ==> AllOld(AcceptConnection(s, listen.value), ids)
        ensures AllNew(s, ids) ==> AllNew(AcceptConnection(s, listen.value), ids)
      {
        AcceptKeepsSides(s, listen.value, ids);
      }
    }
  }

  ghost predicate Before(ids: seq<nat>, i: nat, j: nat) {
    exists a, b :: 0 <= a < b < |ids| && ids[a] == i && ids[b] == j
  }

  lemma {:induction false} TurnsKeepTheOrder(ids: seq<nat>, ready: Ready, i: nat, j: nat)
    requires Before(ids, i, j) && i in ready && j in ready
    ensures Before(Turns(ids, ready), i, j)
    decreases |ids|
  {
    var rest := ids[1..];
    TurnsAreReady(rest, ready);
    var a, b :| 0 <= a < b < |ids| && ids[a] == i && ids[b] == j;
    if a == 0 {
      assert rest[b - 1] == j;
      var n :| 0 <= n < |Turns(rest, ready)| && Turns(rest, ready)[n] == j;
      assert Turns(ids, ready)[0] == i && Turns(ids, ready)[n + 1] == j;
    } else {
      assert rest[a - 1] == i && rest[b - 1] == j;
      TurnsKeepTheOrder(rest, ready, i, j);
      var m, n :| 0 <= m < n < |Turns(rest, ready)| && Turns(rest, ready)[m] == i && Turns(rest, ready)[n] == j;
      if ids[0] in ready {
        assert Turns(ids, ready)[m + 1] == i && Turns(ids, ready)[n + 1] == j;
      } else {
        assert Turns(ids, ready) == Turns(rest, ready);
      }
    }
  }

  ghost predicate PolledBefore(es: seq<Event>, i: nat, j: nat) {
    exists a, b :: 0 <= a < b < |es| && es[a].Poll? && es[a].who == i && es[b].Poll? && es[b].who == j
  }

  /** The order of a round: the accept comes first, the authenticated users in the order in which
      they logged in, then the others in the order in which they connected. */
  lemma TurnsComeInOrder(s: State, listen: Option<uint32>, ready: Ready, i: nat, j: nat)
    requires Inv(s) && i in ready && j in ready
    requires || Before(Assoc.Values(s.oldUsers), i, j)
             || (i in Assoc.Values(s.oldUsers) && j in s.newUsers)
             || Before(s.newUsers, i, j)
    ensures PolledBefore(RoundEvents(s, listen, ready), i, j)
    ensures listen.Some? ==> RoundEvents(s, listen, ready)[0] == Accept(listen.value)
  {
    hide Inv, Turns, Polls;
    var olds, news := Turns(Assoc.Values(s.oldUsers), ready), Turns(s.newUsers, ready);
    var es, n := RoundEvents(s, listen, ready), if listen.Some? then 1 else 0;
    TurnsAreReady(Assoc.Values(s.oldUsers), ready);
    TurnsAreReady(s.newUsers, ready);
    var turns := olds + news;
    forall k | 0 <= k < |turns|
      ensures es[n + k].Poll? && es[n + k].who == turns[k]
    {
    }
    if Before(Assoc.Values(s.oldUsers), i, j) {
      TurnsKeepTheOrder(Assoc.Values(s.oldUsers), ready, i, j);
      BeforeInBoth(olds, news, i, j);
    } else if Before(s.newUsers, i, j) {
      TurnsKeepTheOrder(s.newUsers, ready, i, j);
      BeforeInBoth(olds, news, i, j);
    } else {
      BeforeInBoth(olds, news, i, j);
    }
    var a, b :| 0 <= a < b < |turns| && turns[a] == i && turns[b] == j;
    assert es[n + a].who == i && es[n + b].who == j;
  }

  lemma BeforeInBoth(p: seq<nat>, q: seq<nat>, i: nat, j: nat)
    requires Before(p, i, j) || Before(q, i, j) || (i in p && j in q)
    ensures Before(p + q, i, j)
  {
    if a, b :| 0 <= a < b < |p| && p[a] == i && p[b] == j {
      assert (p + q)[a] == i && (p + q)[b] == j;
    } else if a, b :| 0 <= a < b < |q| && q[a] == i && q[b] == j {
      assert (p + q)[|p| + a] == i && (p + q)[|p| + b] == j;
    } else {
      var a :| 0 <= a < |p| && p[a] == i;
      var b :| 0 <= b < |q| && q[b] == j;
      assert (p + q)[a] == i && (p + q)[|p| + b] == j;
    }
  }

  /** In a round every connected, ready user has exactly one turn. The connection accepted in the
      round has none, and neither has a user promoted during it a second one. */
  lemma EveryReadyUserHasOneTurn(s: State, ready: Ready, i: nat)
    requires Inv(s)
    ensures var turns := Turns(Assoc.Values(s.oldUsers), ready) + Turns(s.newUsers, ready);
            && (i in turns <==> Guarantees.IsConnected(s, i) && i in ready)
            && Distinct(turns)
  {
    hide InvExcept;
    var olds, news := Assoc.Values(s.oldUsers), s.newUsers;
    SnapshotsAreSound(s);
    TurnsAreReady(olds, ready);
    TurnsAreReady(news, ready);
    Stepping.CollectionsMatchStates(s, i);
    var a, b := Turns(olds, ready), Turns(news, ready);
    assert forall k :: 0 <= k < |a| ==> a[k] in a && a[k] in olds;
    assert forall k :: 0 <= k < |b| ==> b[k] in b && b[k] in news;
  }

  /** A failed read closes exactly that connection; any other poll closes none. */
  lemma OnlyFailedReadsDisconnect(s: State, i: nat, o: Reading, lines: seq<Notice>, j: nat)
    requires Inv(s) && !s.crashed && i < |s.users| && s.users[i].open
    ensures var r := Step(s, Poll(i, o, lines));
            Guarantees.IsConnected(r, j) <==> Guarantees.IsConnected(s, j) && !(o.Closed? && j == i)
  {
    hide InvExcept, Handle;
    PollIsAStep(s, i, o, lines);
    if o.Packet? {
      Authentication.HandleProgress(s, i, o.bytes, lines);
      Effects.HandleExtends(s, i, o.bytes, lines);
      if j < |s.users| {
        assert Effects.Grows(s.users[j], Handle(s, i, o.bytes, lines).users[j], j == i);
      }
    }
  }
}
