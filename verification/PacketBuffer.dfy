/** The growable packet buffer of packet_buffer.c and its stream reader, as heap objects proved
    against the functions of Codec and Framing. */
module PacketBuffers {
  import opened Types
  import opened Codec
  import opened Framing

  const STARTING_LENGTH: uint16 := 64

  /** The capacities that doubling from STARTING_LENGTH can reach without leaving uint16_t. */
  predicate Doubled(n: nat) {
    n in {64, 128, 256, 512, 1024, 2048, 4096, 8192, 16384, 32768}
  }

  class PacketBuffer {
    var data: array<byte>
    var maxLength: uint16
    var position: uint16
    ghost var copied: nat  // bytes moved by every realloc so far

    /** get_length: the two length bytes of the header, little end first. */
    function Length(): (n: uint16)
      requires data.Length >= 4
      reads this, data
    {
      U16([data[2], data[3]])
    }

    ghost predicate Valid()
      reads this, data
    {
      && data.Length == maxLength
      && 4 <= maxLength
      && data[0] == 0xFF
      && 4 <= Length() <= maxLength
      && 4 <= position <= Length()
    }

    ghost function Contents(): (b: seq<byte>)
      requires Valid()
      reads this, data
      ensures IsFrame(b) && |b| == Length()
    {
      assert data[..Length()][2..4] == [data[2], data[3]];
      data[..Length()]
    }

    ghost function Payload(): seq<byte>
      requires Valid()
      reads this, data
    {
      data[4..Length()]
    }

    /** A buffer made by create_buffer and only added to since. */
    ghost predicate Growing()
      requires Valid()
      reads this, data
    {
      && Doubled(maxLength)
      && copied + 64 == maxLength
      && (maxLength == 64 || maxLength < 2 * Length())
    }

    /** The bytes of the buffer are the frame of its code and payload. */
    lemma ContentsIsFrame()
      requires Valid()
      ensures |Payload()| + 4 == Length() && Contents() == Frame(data[1], Payload())
    {
      Le16RoundTrip(0, [data[2], data[3]]);
    }

    /** All the copying done by doubling costs less than twice the final length. */
    lemma GrowthIsLinear()
      requires Valid() && Growing()
      ensures copied == maxLength - 64 && copied < 2 * Length()
      ensures Length() < 0x8000 ==> Length() < maxLength || maxLength as int * 2 < 0x1_0000
    {
    }

    constructor Create(code: byte)
      ensures Valid() && Growing() && fresh(data)
      ensures data[1] == code && Payload() == [] && position == 4
    {
      position := 4;
      maxLength := STARTING_LENGTH;
      copied := 0;
      data := new byte[STARTING_LENGTH];
      new;
      data[0], data[1], data[2], data[3] := 0xFF, code, 4, 0;
    }

    /** create_buffer_data: `body` is the packet without its header. */
    constructor FromData(code: byte, body: seq<byte>)
      requires |body| + 4 < 0x1_0000
      ensures Valid() && fresh(data)
      ensures Contents() == Frame(code, body) && position == 4
    {
      position := 4;
      maxLength := |body| + 4;
      copied := 0;
      data := new byte[|body| + 4];
      new;
      forall i | 0 <= i < |body| {
        data[4 + i] := body[i];
      }
      data[0], data[1], data[2], data[3] := 0xFF, code, (|body| + 4) % 0x100, (|body| + 4) / 0x100;
      assert Length() == |body| + 4;
      assert Payload() == body;
      ContentsIsFrame();
    }

    /** add_int8. Doubling is done in a uint16_t, so a full buffer of 32768 bytes cannot grow:
        that is all the precondition excludes. */
    method AddInt8(b: byte)
      requires Valid()
      requires Length() < maxLength || maxLength as int * 2 < 0x1_0000
      modifies this, data
      ensures Valid() && (data == old(data) || fresh(data))
      ensures data[1] == old(data[1]) && position == old(position)
      ensures Payload() == old(Payload()) + [b]
      ensures old(Growing()) ==> Growing()
    {
      if Length() == maxLength {
        Double();
      }
      Put(b);
    }

    /** realloc to twice the capacity. */
    method Double()
      requires Valid() && Length() == maxLength && maxLength as int * 2 < 0x1_0000
      modifies this, data
      ensures Valid() && fresh(data) && maxLength == 2 * old(maxLength) && copied == old(copied) + old(maxLength)
      ensures Length() == old(Length()) && data[1] == old(data[1]) && position == old(position)
      ensures Payload() == old(Payload())
    {
      var bigger := new byte[maxLength as int * 2];
      forall i | 0 <= i < data.Length {
        bigger[i] := data[i];
      }
      copied, maxLength := copied + maxLength, maxLength * 2;
      data := bigger;
      assert Length() == old(Length());
      assert Payload() == old(Payload());
    }

    /** Store a byte behind the last one and count it in the header. */
    method Put(b: byte)
      requires Valid() && Length() < maxLength
      modifies data
      ensures Valid() && Length() == old(Length()) + 1 && data[1] == old(data[1])
      ensures Payload() == old(Payload()) + [b]
    {
      var length := Length();
      data[length] := b;
      data[2], data[3] := (length + 1) % 0x100, (length + 1) / 0x100;
      assert Length() == length + 1;
      assert data[4..length + 1] == data[4..length] + [b];
    }

    /** Every add_* below stays within the 32768 bytes that doubling can reach. */
    ghost predicate HasRoom(n: nat)
      requires Valid()
      reads this, data
    {
      Growing() && Length() as int + n <= 0x8000
    }

    method AddBytes(bs: seq<byte>)
      requires Valid() && HasRoom(|bs|)
      modifies this, data
      ensures Valid() && Growing() && (data == old(data) || fresh(data))
      ensures data[1] == old(data[1]) && position == old(position)
      ensures Payload() == old(Payload()) + bs
    {
      var i := 0;
      while i < |bs|
        invariant 0 <= i <= |bs|
        invariant Valid() && HasRoom(|bs| - i) && (data == old(data) || fresh(data))
        invariant data[1] == old(data[1]) && position == old(position)
        invariant Payload() == old(Payload()) + bs[..i]
      {
        AddInt8(bs[i]);
        assert bs[..i] + [bs[i]] == bs[..i + 1];
        i := i + 1;
      }
      assert bs[..i] == bs;
    }

    method AddInt16(x: uint16)
      requires Valid() && HasRoom(2)
      modifies this, data
      ensures Valid() && Growing() && (data == old(data) || fresh(data))
      ensures data[1] == old(data[1]) && position == old(position)
      ensures Payload() == old(Payload()) + Le16(x)
    {
      AddInt8(x % 0x100);
      AddInt8(x / 0x100);
    }

    method AddInt32(x: uint32)
      requires Valid() && HasRoom(4)
      modifies this, data
      ensures Valid() && Growing() && (data == old(data) || fresh(data))
      ensures data[1] == old(data[1]) && position == old(position)
      ensures Payload() == old(Payload()) + Le32(x)
    {
      AddInt8(x % 0x100);
      AddInt8(x / 0x100 % 0x100);
      AddInt8(x / 0x1_0000 % 0x100);
      AddInt8(x / 0x100_0000);
    }

    /** add_ntstring: the characters and then the terminator. */
    method AddNtString(s: string)
      requires Valid() && CString(s) && HasRoom(|s| + 1)
      modifies this, data
      ensures Valid() && Growing() && (data == old(data) || fresh(data))
      ensures data[1] == old(data[1]) && position == old(position)
      ensures Payload() == old(Payload()) + NtString(s)
    {
      var i := 0;
      while i < |s| + 1
        invariant 0 <= i <= |s| + 1
        invariant Valid() && HasRoom(|s| + 1 - i) && (data == old(data) || fresh(data))
        invariant data[1] == old(data[1]) && position == old(position)
        invariant Payload() == old(Payload()) + NtString(s)[..i]
      {
        AddInt8(if i < |s| then s[i] as int else 0);
        assert NtString(s)[..i] + [NtString(s)[i]] == NtString(s)[..i + 1];
        i := i + 1;
      }
      assert NtString(s)[..i] == NtString(s);
    }

    // ---- reading: ok is false where the C program's assertion ends it ----

    method ReadNextInt8() returns (ok: bool, x: byte)
      requires Valid()
      modifies this`position
      ensures Valid() && Contents() == old(Contents())
      ensures ReadInt8(Contents(), old(position)) == if ok then Some((x, position)) else None
    {
      ok, x := position as int + 1 <= Length(), 0;
      if ok {
        x := data[position];
        position := position + 1;
      }
    }

    method ReadNextInt32() returns (ok: bool, x: uint32)
      requires Valid()
      modifies this`position
      ensures Valid() && Contents() == old(Contents())
      ensures ReadInt32(Contents(), old(position)) == if ok then Some((x, position)) else None
    {
      ok, x := position as int + 4 <= Length(), 0;
      if ok {
        var _, b0 := ReadNextInt8();
        var _, b1 := ReadNextInt8();
        var _, b2 := ReadNextInt8();
        var _, b3 := ReadNextInt8();
        x := b0 as int + 0x100 * b1 as int + 0x1_0000 * b2 as int + 0x100_0000 * b3 as int;
        assert Contents()[old(position)..old(position) + 4] == [b0, b1, b2, b3];
      }
    }

    method ReadNextInt16() returns (ok: bool, x: uint16)
      requires Valid()
      modifies this`position
      ensures Valid() && Contents() == old(Contents())
      ensures ReadInt16(Contents(), old(position)) == if ok then Some((x, position)) else None
    {
      ok, x := position as int + 2 <= Length(), 0;
      if ok {
        var _, b0 := ReadNextInt8();
        var _, b1 := ReadNextInt8();
        x := b0 as int + 0x100 * b1 as int;
        assert Contents()[old(position)..old(position) + 2] == [b0, b1];
      }
    }

    method ReadNextBytes(n: uint16) returns (ok: bool, bs: seq<byte>)
      requires Valid()
      modifies this`position
      ensures Valid() && Contents() == old(Contents())
      ensures ok ==> |bs| == n
      ensures ReadBytes(Contents(), old(position), n) == if ok then Some((bs, position)) else None
    {
      ok, bs := position as int + n < Length(), [];
      if ok {
        var i := 0;
        while i < n
          invariant 0 <= i <= n
          invariant Valid() && Contents() == old(Contents())
          invariant position == old(position) + i && old(position) as int + n < Length()
          invariant bs == Contents()[old(position)..position]
        {
          var _, x := ReadNextInt8();
          bs := bs + [x];
          i := i + 1;
        }
      }
    }

    method CanReadNtString() returns (ok: bool)
      requires Valid()
      ensures ok <==> FirstNul(Contents(), position) < |Contents()|
    {
      var i: int := position;
      while i < Length()
        invariant position <= i <= Length()
        invariant forall j :: position as int <= j < i ==> data[j] != 0
      {
        if data[i] == 0 {
          FirstNulUnique(Contents(), position, i);
          return true;
        }
        i := i + 1;
      }
      return false;
    }

    /** read_next_ntstring: at most maxLen - 1 bytes go into `out`, then a NUL, so only the first
        maxLen characters of `out` are ever written. The string in `out` is the filtered packet
        string, cut only when the limit is too small for it and its terminator. */
    method ReadNextNtString(out: array<char>, maxLen: uint16) returns (ok: bool)
      requires Valid() && 1 <= maxLen <= out.Length
      modifies this`position, out
      ensures Valid() && Contents() == old(Contents())
      ensures ok <==> FirstNul(Contents(), old(position)) < |Contents()|
      ensures forall j :: maxLen as int <= j < out.Length ==> out[j] == old(out[j])
      ensures ok ==>
        var n := FirstNul(Contents(), old(position)) - old(position);
        var m := if n < maxLen as int - 1 then n else maxLen - 1;
        && (forall j :: 0 <= j < m ==> out[j] == Filter(Contents()[old(position) + j]))
        && out[m] == '\0'
        && position == old(position) + (if n < maxLen as int - 1 then n + 1 else maxLen as int - 1)
    {
      hide FirstNul, Visible;
      ok := CanReadNtString();
      if !ok {
        return;
      }
      ghost var start, c := position, Contents();
      ghost var nul := FirstNul(c, start);
      var next: byte := 0xFF;
      var i: int := 0;
      while i < maxLen as int - 1 && next != 0
        invariant 0 <= i < maxLen
        invariant Valid() && Contents() == c && position == start + i
        invariant if next != 0 then start + i <= nul else start + i == nul + 1 && out[i - 1] == '\0'
        invariant forall j :: 0 <= j < i && start + j < nul ==> out[j] == Filter(c[start + j])
        invariant forall j :: maxLen as int <= j < out.Length ==> out[j] == old(out[j])
        decreases maxLen as int - i
      {
        var _, b := ReadNextInt8();
        assert b == c[start + i];
        next := b;
        out[i] := if next == 0 || 0x20 <= next <= 0x7F then next as char else '.';
        i := i + 1;
      }
      out[i] := '\0';
    }

    /** A handler's string read: a fresh buffer of get_length bytes and one of the limits the
        handlers pass, get_length or get_length - 1. Neither limit ever cuts the string. */
    method ReadString(slack: uint16) returns (ok: bool, s: string)
      requires Valid() && slack <= 1
      modifies this`position
      ensures Valid() && Contents() == old(Contents())
      ensures Codec.ReadString(Contents(), old(position)) == if ok then Some((s, position)) else None
    {
      var out := new char[Length()];
      s := "";
      ok := ReadNextNtString(out, Length() - slack);
      if ok {
        ghost var n := FirstNul(Contents(), old(position)) - old(position);
        ghost var text := FilterAll(Contents()[old(position)..old(position) + n]);
        assert forall j :: 0 <= j < n ==> out[j] == text[j];
        assert out[..n] == text;
        s := StringIn(out, n);
      }
    }
  }

  /** The C string at the start of a buffer whose terminator is at n. */
  method StringIn(out: array<char>, ghost n: nat) returns (s: string)
    requires n < out.Length && out[n] == '\0' && forall j :: 0 <= j < n ==> out[j] != '\0'
    ensures s == out[..n]
  {
    s := "";
    var i := 0;
    while out[i] != '\0'
      invariant 0 <= i <= n && s == out[..i]
      decreases n - i
    {
      s := s + [out[i]];
      i := i + 1;
    }
  }

  /** One connection: the bytes still to come from the peer, and the packets written to it, one
      entry for each write. */
  class Socket {
    const fd: nat
    var pending: seq<byte>
    var writes: seq<seq<byte>>
    var open: bool

    constructor (fd: nat)
      ensures this.fd == fd && open && pending == [] && writes == []
    {
      this.fd := fd;
      pending, writes, open := [], [], true;
    }

    method Read(n: nat) returns (got: seq<byte>)
      modifies this`pending
      ensures var k := if n <= |old(pending)| then n else |old(pending)|;
              got == old(pending)[..k] && pending == old(pending)[k..]
    {
      var k := if n <= |pending| then n else |pending|;
      got, pending := pending[..k], pending[k..];
    }

    /** write(2); on a closed descriptor it fails and nothing is sent. */
    method Write(bytes: seq<byte>)
      modifies this`writes
      ensures writes == if open then old(writes) + [bytes] else old(writes)
    {
      if open {
        writes := writes + [bytes];
      }
    }

    /** read_buffer: not alive is -1, alive without a buffer is NULL. */
    method ReadBuffer() returns (alive: bool, b: PacketBuffer?)
      modifies this`pending
      ensures var (o, rest) := ReadFrame(old(pending));
              && pending == rest
              && alive == !o.Closed?
              && (b != null <==> o.Packet?)
              && (b != null ==> fresh(b) && fresh(b.data) && b.Valid() && b.Contents() == o.bytes && b.position == 4)
    {
      ghost var stream := pending;
      alive, b := true, null;
      var header := Read(1);
      if |header| != 1 {
        return false, null;
      }
      var found := SkipGarbage(header[0], stream);
      if !found {
        return;
      }
      ghost var t := stream[Garbage(stream)..];
      var code := Read(1);
      if |code| != 1 {
        return;
      }
      var low := Read(1);
      if |low| != 1 {
        return;
      }
      var high := Read(1);
      if |high| != 1 {
        return;
      }
      assert pending == t[4..] && t[..4] == [0xFF, code[0], low[0], high[0]];
      alive, b := ReadBody(code[0], low[0], high[0], t);
    }

    /** Discard bytes until the 0xFF that starts a packet has been read. */
    method SkipGarbage(first: byte, ghost stream: seq<byte>) returns (found: bool)
      requires stream != [] && stream[0] == first && pending == stream[1..]
      modifies this`pending
      ensures found <==> Garbage(stream) < |stream|
      ensures pending == if found then stream[Garbage(stream) + 1..] else []
    {
      var header := [first];
      ghost var skipped := 0;
      while header[0] != 0xFF
        invariant |header| == 1
        invariant 0 <= skipped < |stream| && stream[skipped] == header[0]
        invariant forall j :: 0 <= j < skipped ==> stream[j] != 0xFF
        invariant pending == stream[skipped + 1..]
        decreases |pending|
      {
        header := Read(1);
        if |header| != 1 {
          return false;
        }
        skipped := skipped + 1;
      }
      return true;
    }

    /** The part of read_buffer after the four header bytes; `t` is the stream from the 0xFF on. */
    method ReadBody(code: byte, low: byte, high: byte, ghost t: seq<byte>) returns (alive: bool, b: PacketBuffer?)
      requires |t| >= 4 && t[..4] == [0xFF, code, low, high] && pending == t[4..]
      modifies this`pending
      ensures var length := U16([low, high]) as int;
              if length < 4 || length > MAX_PACKET then !alive && b == null && pending == t[4..]
              else if |t| < length then alive && b == null && pending == []
              else alive && b != null && fresh(b) && fresh(b.data) && b.Valid() && b.Contents() == t[..length] &&
                   b.position == 4 && pending == t[length..]
    {
      var length: int := low as int + 0x100 * high as int;
      if length < 4 || length > MAX_PACKET {
        return false, null;
      }
      var body := Read(length - 4);
      if |body| != length - 4 {
        return true, null;
      }
      b := new PacketBuffer.FromData(code, body);
      alive := true;
      Le16RoundTrip(0, [low, high]);
      assert t[..length] == t[..4] + body;
    }
  }
}
