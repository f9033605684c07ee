/** read_buffer as a function on the bytes that are still to come from a connection, and what
    repeated calls make of a whole stream. */
module Framing {
  import opened Types
  import opened Codec

  /** The three results of read_buffer: -1, NULL or a packet. */
  datatype Outcome = Closed | Nothing | Packet(bytes: seq<byte>)

  /** The number of bytes before the first 0xFF. */
  function Garbage(s: seq<byte>): (n: nat)
    ensures n <= |s|
    ensures n < |s| ==> s[n] == 0xFF
    ensures forall j :: 0 <= j < n ==> s[j] != 0xFF
  {
    if s == [] || s[0] == 0xFF then 0 else 1 + Garbage(s[1..])
  }

  /** One call of read_buffer: its result and the bytes left. */
  function ReadFrame(s: seq<byte>): (r: (Outcome, seq<byte>))
    ensures |r.1| <= |s|
    ensures s != [] ==> |r.1| < |s|
    ensures r.0.Packet? ==> IsFrame(r.0.bytes) && |r.0.bytes| <= MAX_PACKET
  {
    if s == [] then (Closed, [])
    else
      var t := s[Garbage(s)..];
      if |t| < 4 then (Nothing, [])
      else
        var length := U16(t[2..4]);
        if length < 4 || length > MAX_PACKET then (Closed, t[4..])
        else if |t| < length then (Nothing, [])
        else
          assert t[..length][2..4] == t[2..4];
          (Packet(t[..length]), t[length..])
  }

  predicate NoMarker(s: seq<byte>) {
    forall j :: 0 <= j < |s| ==> s[j] != 0xFF
  }

  /** A frame that read_buffer accepts. */
  predicate Acceptable(f: seq<byte>) {
    IsFrame(f) && |f| <= MAX_PACKET
  }

  lemma GarbageIsSkipped(junk: seq<byte>, s: seq<byte>)
    requires NoMarker(junk) && (s == [] || s[0] == 0xFF)
    ensures Garbage(junk + s) == |junk|
  {
    var t := junk + s;
    assert forall j :: 0 <= j < |junk| ==> t[j] == junk[j];
    assert s != [] ==> t[|junk|] == s[0];
  }

  /** read_buffer returns a packet exactly when the stream is some bytes without 0xFF, then that
      acceptable frame, then the bytes it leaves. */
  lemma ReadFrameFindsTheNextFrame(s: seq<byte>, f: seq<byte>, rest: seq<byte>)
    ensures ReadFrame(s) == (Packet(f), rest) <==>
            Acceptable(f) && exists junk :: NoMarker(junk) && s == junk + f + rest
  {
    if ReadFrame(s) == (Packet(f), rest) {
      assert s == s[..Garbage(s)] + f + rest;
    }
    if Acceptable(f) {
      forall junk | NoMarker(junk) && s == junk + f + rest
        ensures ReadFrame(s) == (Packet(f), rest)
      {
        ReadFrameAfterJunk(junk, f, rest);
      }
    }
  }

  lemma ReadFrameAfterJunk(junk: seq<byte>, f: seq<byte>, rest: seq<byte>)
    requires NoMarker(junk) && Acceptable(f)
    ensures ReadFrame(junk + f + rest) == (Packet(f), rest)
  {
    var s := junk + f + rest;
    assert s == junk + (f + rest);
    GarbageIsSkipped(junk, f + rest);
    var t := s[Garbage(s)..];
    assert t == f + rest;
    assert t[2..4] == f[2..4];
    assert t[..|f|] == f && t[|f|..] == rest;
  }

  /** A header whose length field is below four or above 9600. */
  predicate BadHeader(h: seq<byte>) {
    |h| == 4 && h[0] == 0xFF && !(4 <= h[2] as int + 256 * (h[3] as int) <= 9600)
  }

  /** read_buffer gives up the connection exactly at the end of the stream or, after bytes without
      0xFF, at such a header; it leaves what follows. Where it returns no packet otherwise, it has
      used up all there was. */
  lemma ReadFrameGivesUpExactly(s: seq<byte>, rest: seq<byte>)
    ensures ReadFrame(s) == (Closed, rest) <==>
              || (s == [] && rest == [])
              || exists junk, h :: NoMarker(junk) && BadHeader(h) && s == junk + h + rest
    ensures ReadFrame(s).0.Nothing? ==> ReadFrame(s).1 == []
  {
    if ReadFrame(s) == (Closed, rest) && s != [] {
      GivesUpAtAHeader(s, rest);
    }
    forall junk, h | NoMarker(junk) && BadHeader(h) && s == junk + h + rest
      ensures ReadFrame(s) == (Closed, rest)
    {
      BadHeaderGivesUp(junk, h, rest);
    }
  }

  lemma GivesUpAtAHeader(s: seq<byte>, rest: seq<byte>)
    requires s != [] && ReadFrame(s) == (Closed, rest)
    ensures exists junk, h :: NoMarker(junk) && BadHeader(h) && s == junk + h + rest
  {
    var junk, t := s[..Garbage(s)], s[Garbage(s)..];
    var h := t[..4];
    assert t[2..4] == [h[2], h[3]] && t == h + rest;
    assert NoMarker(junk) && BadHeader(h) && s == junk + h + rest;
  }

  lemma BadHeaderGivesUp(junk: seq<byte>, h: seq<byte>, rest: seq<byte>)
    requires NoMarker(junk) && BadHeader(h)
    ensures ReadFrame(junk + h + rest) == (Closed, rest)
  {
    var s := junk + h + rest;
    assert s == junk + (h + rest);
    GarbageIsSkipped(junk, h + rest);
    var t := s[Garbage(s)..];
    assert t == h + rest;
    assert t[2..4] == h[2..4] && t[4..] == rest;
  }

  /** A frame that is too long makes read_buffer give up the connection. */
  lemma OversizeFrameCloses(f: seq<byte>, rest: seq<byte>)
    requires IsFrame(f) && |f| > MAX_PACKET
    ensures ReadFrame(f + rest).0 == Closed
  {
    GarbageIsSkipped([], f + rest);
    assert [] + (f + rest) == f + rest;
    assert (f + rest)[2..4] == f[2..4];
  }

  // ---- whole streams ----

  datatype Item = Item(junk: seq<byte>, frame: seq<byte>)

  predicate Deliverable(items: seq<Item>) {
    forall i :: 0 <= i < |items| ==> NoMarker(items[i].junk) && Acceptable(items[i].frame)
  }

  function Stream(items: seq<Item>): seq<byte> {
    if items == [] then [] else items[0].junk + items[0].frame + Stream(items[1..])
  }

  function Frames(items: seq<Item>): (r: seq<seq<byte>>)
    ensures |r| == |items|
  {
    if items == [] then [] else [items[0].frame] + Frames(items[1..])
  }

  /** Calling read_buffer until it reports a dead connection. Every call shortens the stream, so
      this ends on every finite stream. */
  function Drain(s: seq<byte>): (frames: seq<seq<byte>>)
    ensures forall i :: 0 <= i < |frames| ==> Acceptable(frames[i])
    decreases |s|
  {
    if s == [] then []
    else
      var (o, rest) := ReadFrame(s);
      match o
      case Closed => []
      case Nothing => Drain(rest)
      case Packet(f) => [f] + Drain(rest)
  }

  /** A good prefix is read back frame by frame, and what follows is read as if it came first. */
  lemma {:induction false} DrainIsCompositional(items: seq<Item>, tail: seq<byte>)
    requires Deliverable(items)
    ensures Drain(Stream(items) + tail) == Frames(items) + Drain(tail)
    decreases |items|
  {
    var s := Stream(items) + tail;
    if items == [] {
      assert s == tail;
    } else {
      var rest := Stream(items[1..]) + tail;
      assert s == items[0].junk + items[0].frame + rest;
      ReadFrameAfterJunk(items[0].junk, items[0].frame, rest);
      DrainIsCompositional(items[1..], tail);
      DrainStep(s, items[0].frame, rest);
    }
  }

  lemma DrainStep(s: seq<byte>, f: seq<byte>, rest: seq<byte>)
    requires ReadFrame(s) == (Packet(f), rest)
    ensures Drain(s) == [f] + Drain(rest)
  {
  }

  /** Exactly the frames that were sent, in order, whatever garbage without 0xFF lies between
      them and after them. */
  lemma DrainReturnsTheFramesSent(items: seq<Item>, tail: seq<byte>)
    requires Deliverable(items) && NoMarker(tail)
    ensures Drain(Stream(items) + tail) == Frames(items)
  {
    DrainIsCompositional(items, tail);
    assert tail[Garbage(tail)..] == [];
    assert Drain(tail) == [];
  }
}
