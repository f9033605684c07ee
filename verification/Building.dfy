/** Building packets with the add_* calls of the handlers. */
module Building {
  import opened Types
  import opened Codec
  import opened Messages
  import opened PacketBuffers

  /** The calls that server.c and room.c make for each kind of packet. */
  method Build(p: Packet) returns (b: PacketBuffer)
    requires Sendable(p)
    ensures fresh(b) && fresh(b.data) && b.Valid() && b.Contents() == Wire(p)
  {
    hide Le32, NtString, U16, Doubled;
    match p {
      case ServerInformation(token) =>
        b := BuildServerInformation(token);
      case LoginResponse(status, name) =>
        b := BuildStatus(SID_LOGIN_RESPONSE, LoginCode(status), name);
      case CreateResponse(status, name) =>
        b := BuildStatus(SID_CREATE_RESPONSE, CreateCode(status), name);
      case ChatEvent(kind, name, text) =>
        b := BuildChatEvent(kind, name, text);
      case ErrorReport(text) =>
        b := BuildError(text);
    }
    b.ContentsIsFrame();
  }

  method BuildServerInformation(token: uint32) returns (b: PacketBuffer)
    ensures fresh(b) && fresh(b.data) && b.Valid() && b.data[1] == SID_SERVER_INFORMATION
    ensures b.Payload() == Payload(ServerInformation(token))
  {
    hide Le32, NtString, U16, Doubled, CleanNt;
    b := new PacketBuffer.Create(SID_SERVER_INFORMATION);
    b.GrowthIsLinear();
    b.AddInt32(token);
    b.AddInt32(1);
    b.ContentsIsFrame();
    AddClean(b, "sha1");
    AddClean(b, "");
    AddClean(b, "");
    Regroup(Le32(token), Le32(1), CleanNt("sha1"), CleanNt(""), CleanNt(""));
  }

  lemma Regroup(a: seq<byte>, b: seq<byte>, c: seq<byte>, d: seq<byte>, e: seq<byte>)
    ensures a + (b + (c + (d + e))) == [] + a + b + c + d + e
  {
  }

  method BuildStatus(code: byte, status: uint32, name: string) returns (b: PacketBuffer)
    requires Clean(name) && |name| <= MAX_PACKET
    ensures fresh(b) && fresh(b.data) && b.Valid() && b.data[1] == code
    ensures b.Payload() == Le32(status) + CleanNt(name)
  {
    hide Le32, NtString, U16, Doubled;
    b := new PacketBuffer.Create(code);
    b.GrowthIsLinear();
    b.AddInt32(status);
    b.ContentsIsFrame();
    AddClean(b, name);
  }

  method BuildChatEvent(kind: EventKind, name: string, text: string) returns (b: PacketBuffer)
    requires Clean(name) && |name| < MAX_NAME && Clean(text) && |text| <= MAX_PACKET
    ensures fresh(b) && fresh(b.data) && b.Valid() && b.data[1] == SID_CHATEVENT
    ensures b.Payload() == Le32(EventCode(kind)) + (CleanNt(name) + CleanNt(text))
  {
    hide Le32, NtString, U16, Doubled, EventCode;
    b := new PacketBuffer.Create(SID_CHATEVENT);
    b.GrowthIsLinear();
    b.AddInt32(EventCode(kind));
    b.ContentsIsFrame();
    AddClean(b, name);
    AddClean(b, text);
  }

  method BuildError(text: string) returns (b: PacketBuffer)
    requires Clean(text) && |text| <= MAX_PACKET
    ensures fresh(b) && fresh(b.data) && b.Valid() && b.data[1] == SID_ERROR
    ensures b.Payload() == CleanNt(text)
  {
    hide NtString, U16, Doubled;
    b := new PacketBuffer.Create(SID_ERROR);
    b.GrowthIsLinear();
    AddClean(b, text);
  }

  /** The calls that client.c makes for each kind of packet. */
  method BuildRequest(r: Request) returns (b: PacketBuffer)
    requires RequestOk(r)
    ensures fresh(b) && fresh(b.data) && b.Valid() && b.Contents() == RequestWire(r)
  {
    hide Le32, NtString, U16, Doubled;
    match r {
      case ClientInformation(token, time) =>
        b := BuildClientInformation(token, time);
      case Login(digest, name) =>
        b := BuildCredentials(SID_LOGIN, digest, name);
      case Create(digest, name) =>
        b := BuildCredentials(SID_CREATE, digest, name);
      case ChatCommand(text) =>
        b := BuildChatCommand(text);
    }
    b.ContentsIsFrame();
  }

  method BuildClientInformation(token: uint32, time: uint32) returns (b: PacketBuffer)
    ensures fresh(b) && fresh(b.data) && b.Valid() && b.data[1] == SID_CLIENT_INFORMATION
    ensures b.Payload() == RequestPayload(ClientInformation(token, time))
  {
    hide Le32, NtString, U16, Doubled, CleanNt;
    b := new PacketBuffer.Create(SID_CLIENT_INFORMATION);
    b.GrowthIsLinear();
    b.AddInt32(token);
    b.AddInt32(time);
    b.AddInt32(0);
    b.ContentsIsFrame();
    AddClean(b, "Canada");
    AddClean(b, "Linux");
    Regroup(Le32(token), Le32(time), Le32(0), CleanNt("Canada"), CleanNt("Linux"));
  }

  method BuildCredentials(code: byte, digest: Digest, name: string) returns (b: PacketBuffer)
    requires CString(name) && |name| < 256
    ensures fresh(b) && fresh(b.data) && b.Valid() && b.data[1] == code
    ensures b.Payload() == digest + NtString(name)
  {
    hide NtString, U16, Doubled;
    b := new PacketBuffer.Create(code);
    b.GrowthIsLinear();
    b.AddBytes(digest);
    b.ContentsIsFrame();
    b.AddNtString(name);
  }

  method BuildChatCommand(text: string) returns (b: PacketBuffer)
    requires CString(text) && |text| < MAX_PACKET - 4
    ensures fresh(b) && fresh(b.data) && b.Valid() && b.data[1] == SID_CHATCOMMAND
    ensures b.Payload() == NtString(text)
  {
    hide NtString, U16, Doubled;
    b := new PacketBuffer.Create(SID_CHATCOMMAND);
    b.GrowthIsLinear();
    b.AddNtString(text);
  }

  method AddClean(b: PacketBuffer, s: string)
    requires b.Valid() && Clean(s) && b.HasRoom(|s| + 1)
    modifies b, b.data
    ensures b.Valid() && b.Growing() && (b.data == old(b.data) || fresh(b.data))
    ensures b.data[1] == old(b.data[1]) && b.position == old(b.position)
    ensures b.Payload() == old(b.Payload()) + CleanNt(s)
    ensures b.Length() as int == old(b.Length()) as int + |s| + 1
  {
    CleanIsCString(s);
    b.ContentsIsFrame();
    b.AddNtString(s);
    b.ContentsIsFrame();
  }
}
