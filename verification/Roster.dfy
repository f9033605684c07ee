/** The client's user list (output.c) as a function of the packets it has received. */
module Roster {
  import opened Types
  import opened Messages
  import Assoc

  /** The table updates of display_channel_event. */
  function Show(t: Assoc.Table<string>, kind: EventKind, name: string): Assoc.Table<string> {
    match kind
    case UserJoinChannel => Assoc.Add(t, name, name)
    case UserInChannel => Assoc.Add(t, name, name)
    case UserLeaveChannel => Assoc.Remove(t, name)
    case Channel => Assoc.Add([], name, name)
    case _ => t
  }

  function Receive(t: Assoc.Table<string>, p: Packet): Assoc.Table<string> {
    if p.ChatEvent? then Show(t, p.kind, p.name) else t
  }

  /** The list after a sequence of packets, oldest first. */
  function Replay(t: Assoc.Table<string>, ps: seq<Packet>): Assoc.Table<string>
    decreases |ps|
  {
    if ps == [] then t else Receive(Replay(t, ps[..|ps| - 1]), ps[|ps| - 1])
  }

  /** The names a client shows once it has caught up. */
  ghost function View(ps: seq<Packet>): set<string> {
    Assoc.Keys(Replay([], ps))
  }

  ghost function Shown(v: set<string>, p: Packet): set<string> {
    if !p.ChatEvent? then v
    else match p.kind
      case UserJoinChannel => v + {p.name}
      case UserInChannel => v + {p.name}
      case UserLeaveChannel => v - {p.name}
      case Channel => {p.name}
      case _ => v
  }

  /** Delivering part of the packets and replaying the rest later makes no difference. */
  lemma {:induction false} ReplayResumes(t: Assoc.Table<string>, ps: seq<Packet>, k: nat)
    requires k <= |ps|
    ensures Replay(Replay(t, ps[..k]), ps[k..]) == Replay(t, ps)
    decreases |ps|
  {
    if k == |ps| {
      assert ps[..k] == ps;
    } else {
      var n := |ps| - 1;
      assert ps[k..][..n - k] == ps[..n][k..];
      assert ps[..n][..k] == ps[..k];
      assert ps[k..][n - k] == ps[n];
      ReplayResumes(t, ps[..n], k);
    }
  }

  lemma {:induction false} ReplayIsUnique(ps: seq<Packet>)
    ensures Assoc.Unique(Replay([], ps))
    decreases |ps|
  {
    hide Receive;
    if ps != [] {
      var t, p := Replay([], ps[..|ps| - 1]), ps[|ps| - 1];
      ReplayIsUnique(ps[..|ps| - 1]);
      ReceiveKeepsUnique(t, p);
    }
  }

  lemma ReceiveKeepsUnique(t: Assoc.Table<string>, p: Packet)
    requires Assoc.Unique(t)
    ensures Assoc.Unique(Receive(t, p))
  {
    hide Assoc.Add, Assoc.Remove;
    if p.ChatEvent? {
      Assoc.AddRefinesMapUpdate([], p.name, p.name, p.name);
      Assoc.AddRefinesMapUpdate(t, p.name, p.name, p.name);
      Assoc.RemoveKeepsUnique(t, p.name);
    }
  }

  lemma ReceiveShows(t: Assoc.Table<string>, p: Packet)
    requires Assoc.Unique(t)
    ensures Assoc.Keys(Receive(t, p)) == Shown(Assoc.Keys(t), p)
  {
    hide Assoc.Add, Assoc.Remove;
    if p.ChatEvent? {
      var none: Assoc.Table<string> := [];
      Assoc.AddRefinesMapUpdate(none, p.name, p.name, p.name);
      Assoc.AddRefinesMapUpdate(t, p.name, p.name, p.name);
      Assoc.RemoveKeepsUnique(t, p.name);
      assert Assoc.Keys(none) == {};
    }
  }

  /** One more packet changes the names shown as the protocol says. */
  lemma {:induction false} ViewAfter(ps: seq<Packet>, p: Packet)
    ensures View(ps + [p]) == Shown(View(ps), p)
  {
    hide Receive, Shown, Assoc.Keys;
    assert (ps + [p])[..|ps|] == ps;
    ReplayIsUnique(ps);
    ReceiveShows(Replay([], ps), p);
  }

  /** Kind by kind: who is in the room is told by four kinds of event; the other six, and every
      packet that is no event, leave the list alone. */
  lemma OnlyFourKindsCount(ps: seq<Packet>, kind: EventKind, name: string, text: string, p: Packet)
    ensures var v, w := View(ps), View(ps + [ChatEvent(kind, name, text)]);
            && (kind == UserJoinChannel || kind == UserInChannel ==> w == v + {name})
            && (kind == UserLeaveChannel ==> w == v - {name})
            && (kind == Channel ==> w == {name})
            && (kind in {TopicChanged, Info, Error, Talk, WhisperTo, WhisperFrom} ==> w == v)
    ensures !p.ChatEvent? ==> View(ps + [p]) == View(ps)
  {
    hide View;
    ViewAfter(ps, ChatEvent(kind, name, text));
    ViewAfter(ps, p);
  }
}
