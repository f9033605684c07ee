/** The byte layout of packets and the reading rules of packet_buffer.c, as functions on byte
    sequences. The PacketBuffer class is proved against these functions. */
module Codec {
  import opened Types

  // ---- little-endian integers ----

  function Le16(x: uint16): (b: seq<byte>)
    ensures |b| == 2
  {
    [x % 0x100, x / 0x100]
  }

  function U16(b: seq<byte>): (x: uint16)
    requires |b| == 2
  {
    b[0] as int + 0x100 * (b[1] as int)
  }

  function Le32(x: uint32): (b: seq<byte>)
    ensures |b| == 4
  {
    [x % 0x100, x / 0x100 % 0x100, x / 0x1_0000 % 0x100, x / 0x100_0000]
  }

  function U32(b: seq<byte>): (x: uint32)
    requires |b| == 4
  {
    b[0] as int + 0x100 * (b[1] as int) + 0x1_0000 * (b[2] as int) + 0x100_0000 * (b[3] as int)
  }

  lemma Le16RoundTrip(x: uint16, b: seq<byte>)
    requires |b| == 2
    ensures U16(Le16(x)) == x && Le16(U16(b)) == b
  {
  }

  lemma Le32RoundTrip(x: uint32, c: seq<byte>)
    requires |c| == 4
    ensures U32(Le32(x)) == x && Le32(U32(c)) == c
  {
    Le32ThenU32(x);
    var z := U32(c);
    assert z / 0x100 == c[1] as int + 0x100 * (c[2] as int) + 0x1_0000 * (c[3] as int);
    assert z / 0x1_0000 == c[2] as int + 0x100 * (c[3] as int);
  }

  lemma Le32ThenU32(x: uint32)
    ensures U32(Le32(x)) == x
  {
    var q1 := x / 0x100;
    var q2 := q1 / 0x100;
    assert q2 == x / 0x1_0000 && q2 / 0x100 == x / 0x100_0000;
    assert x == 0x100 * q1 + x % 0x100 && q1 == 0x100 * q2 + q1 % 0x100 && q2 == 0x100 * (q2 / 0x100) + q2 % 0x100;
  }

  // ---- frames ----

  /** A whole packet: 0xFF, the code, the total length, the payload. */
  function Frame(code: byte, payload: seq<byte>): (f: seq<byte>)
    requires |payload| + 4 < 0x1_0000
    ensures |f| == |payload| + 4
    ensures f[4..] == payload
  {
    [0xFF, code] + Le16(|payload| + 4) + payload
  }

  /** A byte sequence whose header is consistent with its size. */
  predicate IsFrame(b: seq<byte>) {
    4 <= |b| < 0x1_0000 && b[0] == 0xFF && U16(b[2..4]) == |b|
  }

  lemma FramesAreExactlyHeaderPlusPayload(b: seq<byte>)
    ensures IsFrame(b) <==> exists code: byte, payload: seq<byte> ::
                              |payload| + 4 < 0x1_0000 && b == Frame(code, payload)
  {
    if IsFrame(b) {
      Le16RoundTrip(0, b[2..4]);
      assert b == Frame(b[1], b[4..]);
    } else {
      forall code: byte, payload: seq<byte> | |payload| + 4 < 0x1_0000 && b == Frame(code, payload)
        ensures false
      {
        assert b[2..4] == Le16(|b|);
        Le16RoundTrip(|b|, b[2..4]);
      }
    }
  }

  lemma FrameIsFrame(code: byte, payload: seq<byte>)
    requires |payload| + 4 < 0x1_0000
    ensures IsFrame(Frame(code, payload)) && Frame(code, payload)[1] == code
  {
    FramesAreExactlyHeaderPlusPayload(Frame(code, payload));
  }

  // ---- reading: None is the failed assertion that ends the program ----

  function ReadInt8(b: seq<byte>, pos: nat): (r: Option<(byte, nat)>) {
    if pos + 1 <= |b| then Some((b[pos], pos + 1)) else None
  }

  function ReadInt16(b: seq<byte>, pos: nat): (r: Option<(uint16, nat)>) {
    if pos + 2 <= |b| then Some((U16(b[pos..pos + 2]), pos + 2)) else None
  }

  function ReadInt32(b: seq<byte>, pos: nat): (r: Option<(uint32, nat)>) {
    if pos + 4 <= |b| then Some((U32(b[pos..pos + 4]), pos + 4)) else None
  }

  /** can_read_bytes uses a strict comparison: one more byte must follow the block. */
  function ReadBytes(b: seq<byte>, pos: nat, n: nat): (r: Option<(seq<byte>, nat)>)
    ensures r.Some? ==> |r.value.0| == n
  {
    if pos + n < |b| then Some((b[pos..pos + n], pos + n)) else None
  }

  /** The index of the first NUL at or after pos, or |b|. */
  function FirstNul(b: seq<byte>, pos: nat): (i: nat)
    requires pos <= |b|
    ensures pos <= i <= |b|
    ensures i < |b| ==> b[i] == 0
    ensures forall j :: pos <= j < i ==> b[j] != 0
    decreases |b| - pos
  {
    if pos == |b| || b[pos] == 0 then pos else FirstNul(b, pos + 1)
  }

  function Filter(x: byte): (c: char)
    ensures Visible(c)
    ensures Visible(x as char) ==> c == x as char
  {
    if 0x20 <= x <= 0x7F then x as char else '.'
  }

  function FilterAll(b: seq<byte>): (s: string)
    ensures |s| == |b|
    ensures Clean(s)
    ensures forall i :: 0 <= i < |b| ==> s[i] == Filter(b[i])
  {
    seq(|b|, i requires 0 <= i < |b| => Filter(b[i]))
  }

  /** A NUL-terminated string, with every character outside 0x20..0x7F replaced by '.'. */
  function ReadString(b: seq<byte>, pos: nat): (r: Option<(string, nat)>)
    ensures r.Some? ==> Clean(r.value.0) && |r.value.0| + 1 <= |b| - pos && pos < r.value.1 <= |b|
  {
    if pos <= |b| && FirstNul(b, pos) < |b|
    then Some((FilterAll(b[pos..FirstNul(b, pos)]), FirstNul(b, pos) + 1))
    else None
  }

  // ---- writing ----

  function Chars(s: string): (b: seq<byte>)
    requires CString(s)
    ensures |b| == |s|
    ensures forall i :: 0 <= i < |s| ==> b[i] == s[i] as int && b[i] != 0
  {
    seq(|s|, i requires 0 <= i < |s| => s[i] as int)
  }

  function NtString(s: string): (b: seq<byte>)
    requires CString(s)
    ensures |b| == |s| + 1
  {
    Chars(s) + [0]
  }

  /** What a reader sees of a string that was written. */
  function Seen(s: string): (r: string)
    requires CString(s)
    ensures |r| == |s|
  {
    FilterAll(Chars(s))
  }

  /** The filter changes nothing it has let through once; on clean strings it is the identity. */
  lemma FilterIsIdempotent(s: string)
    requires CString(s)
    ensures CString(Seen(s)) && Seen(Seen(s)) == Seen(s)
    ensures Clean(s) <==> Seen(s) == s
  {
    if Seen(s) == s {
      assert Clean(Seen(s));
    }
    forall i | 0 <= i < |s|
      ensures 1 <= Seen(s)[i] as int < 0x100
    {
      assert Visible(Seen(s)[i]);
    }
  }

  lemma CleanIsCString(s: string)
    requires Clean(s)
    ensures CString(s) && Seen(s) == s
  {
    forall i | 0 <= i < |s|
      ensures 1 <= s[i] as int < 0x100
    {
      assert Visible(s[i]);
    }
    FilterIsIdempotent(s);
  }

  lemma FirstNulUnique(b: seq<byte>, pos: nat, i: nat)
    requires pos <= i < |b| && b[i] == 0
    requires forall j :: pos <= j < i ==> b[j] != 0
    ensures FirstNul(b, pos) == i
  {
  }

  /** A string written at a position is read back there. */
  lemma ReadStringAt(b: seq<byte>, pos: nat, s: string, after: seq<byte>)
    requires CString(s) && pos <= |b| && b[pos..] == NtString(s) + after
    ensures ReadString(b, pos) == Some((Seen(s), pos + |s| + 1))
    ensures b[pos + |s| + 1..] == after
  {
    var tail := b[pos..];
    assert forall j :: pos <= j < pos + |s| ==> b[j] == tail[j - pos];
    assert b[pos + |s|] == tail[|s|];
    FirstNulUnique(b, pos, pos + |s|);
    assert b[pos..pos + |s|] == tail[..|s|] == Chars(s);
  }

  lemma ReadInt16At(b: seq<byte>, pos: nat, x: uint16, after: seq<byte>)
    requires pos <= |b| && b[pos..] == Le16(x) + after
    ensures ReadInt16(b, pos) == Some((x, pos + 2)) && b[pos + 2..] == after
  {
    assert b[pos..pos + 2] == b[pos..][..2] == Le16(x);
    Le16RoundTrip(x, Le16(x));
  }

  lemma ReadInt32At(b: seq<byte>, pos: nat, x: uint32, after: seq<byte>)
    requires pos <= |b| && b[pos..] == Le32(x) + after
    ensures ReadInt32(b, pos) == Some((x, pos + 4)) && b[pos + 4..] == after
  {
    assert b[pos..pos + 4] == b[pos..][..4] == Le32(x);
    Le32RoundTrip(x, Le32(x));
  }

  lemma ReadBytesAt(b: seq<byte>, pos: nat, bs: seq<byte>, after: seq<byte>)
    requires pos <= |b| && b[pos..] == bs + after
    ensures ReadBytes(b, pos, |bs|) == if after == [] then None else Some((bs, pos + |bs|))
    ensures b[pos + |bs|..] == after
  {
    assert b[pos..pos + |bs|] == b[pos..][..|bs|] == bs;
  }

  // ---- typed fields ----

  datatype Field = Int8(v8: byte) | Int16(v16: uint16) | Int32(v32: uint32) | Text(s: string) | Bytes(bs: seq<byte>)
  datatype Kind = KInt8 | KInt16 | KInt32 | KText | KBytes(n: nat)

  predicate Writable(fs: seq<Field>) {
    forall i :: 0 <= i < |fs| && fs[i].Text? ==> CString(fs[i].s)
  }

  function KindOf(f: Field): Kind {
    match f
    case Int8(_) => KInt8
    case Int16(_) => KInt16
    case Int32(_) => KInt32
    case Text(_) => KText
    case Bytes(bs) => KBytes(|bs|)
  }

  function Kinds(fs: seq<Field>): (ks: seq<Kind>)
    ensures |ks| == |fs|
  {
    seq(|fs|, i requires 0 <= i < |fs| => KindOf(fs[i]))
  }

  function EncodeField(f: Field): (b: seq<byte>)
    requires f.Text? ==> CString(f.s)
  {
    match f
    case Int8(v) => [v]
    case Int16(v) => Le16(v)
    case Int32(v) => Le32(v)
    case Text(s) => NtString(s)
    case Bytes(bs) => bs
  }

  function Encode(fs: seq<Field>): (b: seq<byte>)
    requires Writable(fs)
  {
    if fs == [] then [] else EncodeField(fs[0]) + Encode(fs[1..])
  }

  function ReadField(b: seq<byte>, pos: nat, k: Kind): (r: Option<(Field, nat)>)
    ensures r.Some? ==> pos <= r.value.1 <= |b| || (k.KBytes? && k.n == 0)
  {
    match k
    case KInt8 => var (v, p) :- ReadInt8(b, pos); Some((Int8(v), p))
    case KInt16 => var (v, p) :- ReadInt16(b, pos); Some((Int16(v), p))
    case KInt32 => var (v, p) :- ReadInt32(b, pos); Some((Int32(v), p))
    case KText => var (v, p) :- ReadString(b, pos); Some((Text(v), p))
    case KBytes(n) => var (v, p) :- ReadBytes(b, pos, n); Some((Bytes(v), p))
  }

  /** Reading a list of fields one after the other, the way the handlers do. */
  function Decode(b: seq<byte>, pos: nat, ks: seq<Kind>): (r: Option<(seq<Field>, nat)>)
    decreases |ks|
  {
    if ks == [] then Some(([], pos))
    else
      var (f, p) :- ReadField(b, pos, ks[0]);
      var (fs, q) :- Decode(b, p, ks[1..]);
      Some(([f] + fs, q))
  }

  function SeenField(f: Field): Field
    requires f.Text? ==> CString(f.s)
  {
    if f.Text? then Text(Seen(f.s)) else f
  }

  function SeenFields(fs: seq<Field>): (r: seq<Field>)
    requires Writable(fs)
    ensures |r| == |fs|
  {
    seq(|fs|, i requires 0 <= i < |fs| => SeenField(fs[i]))
  }

  lemma ReadFieldAt(b: seq<byte>, pos: nat, f: Field, after: seq<byte>)
    requires f.Text? ==> CString(f.s)
    requires pos <= |b| && b[pos..] == EncodeField(f) + after
    requires f.Bytes? ==> after != []
    ensures ReadField(b, pos, KindOf(f)) == Some((SeenField(f), pos + |EncodeField(f)|))
    ensures b[pos + |EncodeField(f)|..] == after
  {
    hide ReadInt16, ReadInt32, ReadBytes, ReadString, Le16, Le32, NtString, Seen;
    match f
    case Int8(v) =>
      assert b[pos] == b[pos..][0];
    case Int16(v) => ReadInt16At(b, pos, v, after);
    case Int32(v) => ReadInt32At(b, pos, v, after);
    case Text(s) => ReadStringAt(b, pos, s, after);
    case Bytes(bs) => ReadBytesAt(b, pos, bs, after);
  }

  lemma Unfold(fs: seq<Field>)
    requires Writable(fs) && fs != []
    ensures Kinds(fs)[0] == KindOf(fs[0]) && Kinds(fs)[1..] == Kinds(fs[1..])
    ensures SeenFields(fs) == [SeenField(fs[0])] + SeenFields(fs[1..])
    ensures Encode(fs) == EncodeField(fs[0]) + Encode(fs[1..])
  {
  }

  /** Writing fields and reading them back with the same schema gives the same fields, strings
      filtered, and leaves the position at the end. */
  lemma {:induction false} FieldsReadBack(b: seq<byte>, pos: nat, fs: seq<Field>)
    requires Writable(fs) && pos <= |b| && b[pos..] == Encode(fs)
    requires fs != [] ==> !fs[|fs| - 1].Bytes?
    ensures Decode(b, pos, Kinds(fs)) == Some((SeenFields(fs), |b|))
    decreases |fs|
  {
    hide ReadField, EncodeField, KindOf, SeenField;
    if fs != [] {
      var f, rest := fs[0], fs[1..];
      if rest != [] {
        LastFieldTakesRoom(rest);
      }
      Unfold(fs);
      ReadFieldAt(b, pos, f, Encode(rest));
      FieldsReadBack(b, pos + |EncodeField(f)|, rest);
      DecodeSome(b, pos, Kinds(fs), SeenField(f), pos + |EncodeField(f)|, SeenFields(rest), |b|);
    }
  }

  /** The strict bound of can_read_bytes refuses a bytes field in last place. */
  lemma {:induction false} BytesInLastPlaceAreRefused(b: seq<byte>, pos: nat, fs: seq<Field>)
    requires Writable(fs) && pos <= |b| && b[pos..] == Encode(fs)
    requires fs != [] && fs[|fs| - 1].Bytes?
    ensures Decode(b, pos, Kinds(fs)) == None
    decreases |fs|
  {
    hide ReadField, EncodeField, KindOf, SeenField;
    var f, rest := fs[0], fs[1..];
    Unfold(fs);
    if f.Bytes? && Encode(rest) == [] {
      BlockAtTheEnd(b, pos, fs);
    } else {
      ReadFieldAt(b, pos, f, Encode(rest));
      var next := pos + |EncodeField(f)|;
      BytesInLastPlaceAreRefused(b, next, rest);
      assert Kinds(fs)[1..] == Kinds(rest);
      DecodeNone(b, pos, Kinds(fs), SeenField(f), next);
    }
  }

  /** The exact condition for the round trip of typed fields. */
  lemma FieldsRoundTripExactly(code: byte, fs: seq<Field>)
    requires Writable(fs) && |Encode(fs)| + 4 < 0x1_0000
    ensures Decode(Frame(code, Encode(fs)), 4, Kinds(fs)) == Some((SeenFields(fs), |Encode(fs)| + 4))
            <==> (fs == [] || !fs[|fs| - 1].Bytes?)
  {
    if fs == [] || !fs[|fs| - 1].Bytes? {
      FieldsReadBack(Frame(code, Encode(fs)), 4, fs);
    } else {
      BytesInLastPlaceAreRefused(Frame(code, Encode(fs)), 4, fs);
    }
  }

  lemma DecodeSome(b: seq<byte>, pos: nat, ks: seq<Kind>, f: Field, next: nat, fs: seq<Field>, end: nat)
    requires ks != [] && ReadField(b, pos, ks[0]) == Some((f, next))
    requires Decode(b, next, ks[1..]) == Some((fs, end))
    ensures Decode(b, pos, ks) == Some(([f] + fs, end))
  {
  }

  lemma DecodeNone(b: seq<byte>, pos: nat, ks: seq<Kind>, f: Field, next: nat)
    requires ks != [] && ReadField(b, pos, ks[0]) == Some((f, next))
    requires Decode(b, next, ks[1..]) == None
    ensures Decode(b, pos, ks) == None
  {
  }

  lemma BlockAtTheEnd(b: seq<byte>, pos: nat, fs: seq<Field>)
    requires Writable(fs) && pos <= |b| && b[pos..] == Encode(fs)
    requires fs != [] && fs[0].Bytes? && Encode(fs[1..]) == []
    ensures Decode(b, pos, Kinds(fs)) == None
  {
    assert ReadBytes(b, pos, |fs[0].bs|) == None;
  }

  lemma {:induction false} LastFieldTakesRoom(fs: seq<Field>)
    requires Writable(fs) && fs != [] && !fs[|fs| - 1].Bytes?
    ensures Encode(fs) != []
  {
    if |fs| == 1 {
      assert |EncodeField(fs[0])| > 0;
    } else {
      LastFieldTakesRoom(fs[1..]);
    }
  }
}
