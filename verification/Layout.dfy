/** The packets byte for byte, with the numbers of types.h and account.h. */
module Layout {
  import opened Types
  import opened Messages
  import Accounts
  import Codec

  /** Little-endian: byte k is the k-th digit to the base 256. */
  lemma Le16Bytes(x: uint16)
    ensures Codec.Le16(x) == [x % 256, x / 256]
    ensures x == x % 256 + 256 * (x / 256)
  {
  }

  function Power256(k: nat): (p: nat)
    ensures p > 0
  {
    if k == 0 then 1 else 256 * Power256(k - 1)
  }

  lemma Powers()
    ensures Power256(0) == 1 && Power256(1) == 256 && Power256(2) == 65536 && Power256(3) == 16777216
  {
    assert Power256(3) == 256 * Power256(2) == 256 * (256 * Power256(1));
  }

  lemma Le32Bytes(x: uint32, k: nat)
    requires k < 4
    ensures Codec.Le32(x)[k] == x / Power256(k) % 256
  {
    Powers();
  }

  /** What becomes of a string on its way: a character from space to DEL stays, any other is a dot. */
  lemma SeenIs(s: string, k: nat)
    requires CString(s) && k < |s|
    ensures |Codec.Seen(s)| == |s|
    ensures Codec.Seen(s)[k] == if 32 <= s[k] as int <= 127 then s[k] else '.'
  {
  }

  /** The characters as bytes, then a zero. */
  function Text(s: string): (b: seq<byte>)
    requires CString(s)
    ensures |b| == |s| + 1
  {
    seq(|s|, k requires 0 <= k < |s| => s[k] as int) + [0]
  }

  lemma TextIs(s: string)
    requires CString(s)
    ensures Codec.NtString(s) == Text(s)
  {
  }

  lemma CleanTextIs(s: string)
    requires Clean(s)
    ensures CString(s) && CleanNt(s) == Text(s)
  {
    Codec.CleanIsCString(s);
    TextIs(s);
  }

  lemma SmallNumber(x: uint32)
    requires x < 256
    ensures Codec.Le32(x) == [x, 0, 0, 0]
  {
  }

  /** The four bytes in front: 0xFF, the code, the length of the whole. */
  function Header(code: byte, length: uint16): seq<byte> {
    [0xFF, code, length % 256, length / 256]
  }

  lemma FrameIs(code: byte, payload: seq<byte>)
    requires |payload| + 4 < 0x1_0000
    ensures Codec.Frame(code, payload) == Header(code, |payload| + 4) + payload
  {
    Le16Bytes(|payload| + 4);
  }

  function NumberOf(k: EventKind): byte {
    if k.UserJoinChannel? then 0 else if k.UserInChannel? then 1 else if k.UserLeaveChannel? then 2
    else if k.TopicChanged? then 3 else if k.Info? then 4 else if k.Error? then 5
    else if k.Talk? then 6 else if k.Channel? then 7 else if k.WhisperTo? then 8 else 9
  }

  lemma EventCodesAre(k: EventKind)
    ensures EventCode(k) == NumberOf(k)
  {
  }

  /** What the server writes. */
  lemma ChatEventBytes(kind: EventKind, name: string, text: string)
    requires Sendable(ChatEvent(kind, name, text))
    ensures CString(name) && CString(text)
    ensures Wire(ChatEvent(kind, name, text)) ==
            Header(10, |name| + |text| + 10) + [NumberOf(kind), 0, 0, 0] + Text(name) + Text(text)
  {
    hide Codec.Le32, Text, CleanNt, Codec.Frame, EventCode, NumberOf;
    CleanTextIs(name);
    CleanTextIs(text);
    EventCodesAre(kind);
    SmallNumber(EventCode(kind));
    FrameIs(10, Payload(ChatEvent(kind, name, text)));
  }

  lemma LoginResponseBytes(status: Accounts.LoginStatus, name: string)
    requires Sendable(LoginResponse(status, name))
    ensures CString(name)
    ensures Wire(LoginResponse(status, name)) ==
            Header(4, |name| + 9) +
            [if status.LoginSuccess? then 0 else if status.IncorrectPassword? then 1
             else if status.UnknownAccount? then 2 else 3, 0, 0, 0] + Text(name)
  {
    hide Codec.Le32, Text, CleanNt, Codec.Frame;
    CleanTextIs(name);
    SmallNumber(LoginCode(status));
    FrameIs(4, Payload(LoginResponse(status, name)));
  }

  lemma CreateResponseBytes(status: Accounts.CreateStatus, name: string)
    requires Sendable(CreateResponse(status, name))
    ensures CString(name)
    ensures Wire(CreateResponse(status, name)) ==
            Header(6, |name| + 9) +
            [if status.CreateSuccess? then 0 else if status.NameTooShort? then 1 else if status.NameTooLong? then 2
             else if status.NameIllegal? then 3 else 4, 0, 0, 0] + Text(name)
  {
    hide Codec.Le32, Text, CleanNt, Codec.Frame;
    CleanTextIs(name);
    SmallNumber(CreateCode(status));
    FrameIs(6, Payload(CreateResponse(status, name)));
  }

  lemma ServerInformationBytes(token: uint32)
    ensures Wire(ServerInformation(token)) ==
            Header(2, 19) + Codec.Le32(token) + [1, 0, 0, 0] + Text("sha1") + [0] + [0]
  {
    hide Codec.Le32, Text, CleanNt, Codec.Frame;
    CleanTextIs("sha1");
    CleanTextIs("");
    EmptyText();
    SmallNumber(1);
    FrameIs(2, Payload(ServerInformation(token)));
  }

  lemma EmptyText()
    ensures Text("") == [0]
  {
  }

  lemma ErrorReportBytes(text: string)
    requires Sendable(ErrorReport(text))
    ensures CString(text) && Wire(ErrorReport(text)) == Header(11, |text| + 5) + Text(text)
  {
    hide Text, CleanNt, Codec.Frame;
    CleanTextIs(text);
    FrameIs(11, Payload(ErrorReport(text)));
  }

  /** What the client writes. */
  lemma ClientInformationBytes(token: uint32, time: uint32)
    ensures RequestWire(ClientInformation(token, time)) ==
            Header(1, 29) + Codec.Le32(token) + Codec.Le32(time) + [0, 0, 0, 0] + Text("Canada") + Text("Linux")
  {
    hide Codec.Le32, Text, CleanNt, Codec.Frame, Header;
    CleanTextIs("Canada");
    CleanTextIs("Linux");
    SmallNumber(0);
    var payload := RequestPayload(ClientInformation(token, time));
    FrameIs(1, payload);
    Regroup(Header(1, 29), Codec.Le32(token), Codec.Le32(time), [0, 0, 0, 0], Text("Canada"), Text("Linux"));
  }

  lemma Regroup(a: seq<byte>, b: seq<byte>, c: seq<byte>, d: seq<byte>, e: seq<byte>, f: seq<byte>)
    ensures a + (b + (c + (d + (e + f)))) == a + b + c + d + e + f
  {
  }

  lemma LoginBytes(digest: Digest, name: string)
    requires CString(name) && |name| < 256
    ensures RequestWire(Login(digest, name)) == Header(3, |name| + 25) + digest + Text(name)
  {
    hide Text, Codec.NtString, Codec.Frame, Header;
    TextIs(name);
    FrameIs(3, digest + Text(name));
    Appended(Header(3, |name| + 25), digest, Text(name));
  }

  lemma CreateBytes(digest: Digest, name: string)
    requires CString(name) && |name| < 256
    ensures RequestWire(Create(digest, name)) == Header(5, |name| + 25) + digest + Text(name)
  {
    hide Text, Codec.NtString, Codec.Frame, Header;
    TextIs(name);
    FrameIs(5, digest + Text(name));
    Appended(Header(5, |name| + 25), digest, Text(name));
  }

  lemma Appended(a: seq<byte>, b: seq<byte>, c: seq<byte>)
    ensures a + (b + c) == a + b + c
  {
  }

  lemma ChatCommandBytes(text: string)
    requires RequestOk(ChatCommand(text))
    ensures RequestWire(ChatCommand(text)) == Header(9, |text| + 5) + Text(text)
  {
    hide Text, Codec.NtString, Codec.Frame;
    TextIs(text);
    FrameIs(9, Codec.NtString(text));
  }
}
