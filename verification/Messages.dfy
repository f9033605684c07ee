/** The messages of types.h: what each side writes, byte for byte, and what the other side's
    handlers read out of it. */
module Messages {
  import opened Types
  import opened Codec
  import Accounts

  // ---- packet codes (types.h) ----

  const SID_NULL: byte := 0
  const SID_CLIENT_INFORMATION: byte := 1
  const SID_SERVER_INFORMATION: byte := 2
  const SID_LOGIN: byte := 3
  const SID_LOGIN_RESPONSE: byte := 4
  const SID_CREATE: byte := 5
  const SID_CREATE_RESPONSE: byte := 6
  const SID_REQUEST_ROOM_LIST: byte := 7
  const SID_ROOM_LIST: byte := 8
  const SID_CHATCOMMAND: byte := 9
  const SID_CHATEVENT: byte := 10
  const SID_ERROR: byte := 11

  /** chatevent_subtype_t, in its declared order. */
  datatype EventKind =
    | UserJoinChannel | UserInChannel | UserLeaveChannel | TopicChanged | Info | Error | Talk | Channel
    | WhisperTo | WhisperFrom

  function EventCode(k: EventKind): (c: uint32)
    ensures c < 10
  {
    match k
    case UserJoinChannel => 0
    case UserInChannel => 1
    case UserLeaveChannel => 2
    case TopicChanged => 3
    case Info => 4
    case Error => 5
    case Talk => 6
    case Channel => 7
    case WhisperTo => 8
    case WhisperFrom => 9
  }

  function EventOf(c: uint32): (k: Option<EventKind>)
    ensures k.Some? ==> EventCode(k.value) == c
    ensures k.Some? <==> c < 10
  {
    match c
    case 0 => Some(UserJoinChannel)
    case 1 => Some(UserInChannel)
    case 2 => Some(UserLeaveChannel)
    case 3 => Some(TopicChanged)
    case 4 => Some(Info)
    case 5 => Some(Error)
    case 6 => Some(Talk)
    case 7 => Some(Channel)
    case 8 => Some(WhisperTo)
    case 9 => Some(WhisperFrom)
    case _ => None
  }

  function LoginCode(s: Accounts.LoginStatus): uint32 {
    match s
    case LoginSuccess => 0
    case IncorrectPassword => 1
    case UnknownAccount => 2
    case AccountInUse => 3
  }

  function CreateCode(s: Accounts.CreateStatus): uint32 {
    match s
    case CreateSuccess => 0
    case NameTooShort => 1
    case NameTooLong => 2
    case NameIllegal => 3
    case AccountExists => 4
  }

  // ---- server to client ----

  datatype Packet =
    | ServerInformation(token: uint32)
    | LoginResponse(login: Accounts.LoginStatus, name: string)
    | CreateResponse(create: Accounts.CreateStatus, name: string)
    | ChatEvent(kind: EventKind, name: string, text: string)
    | ErrorReport(text: string)

  function Code(p: Packet): byte {
    match p
    case ServerInformation(_) => SID_SERVER_INFORMATION
    case LoginResponse(_, _) => SID_LOGIN_RESPONSE
    case CreateResponse(_, _) => SID_CREATE_RESPONSE
    case ChatEvent(_, _, _) => SID_CHATEVENT
    case ErrorReport(_) => SID_ERROR
  }

  /** All strings the server sends have been through the filter, and none is longer than a
      packet it could have received. */
  predicate Sendable(p: Packet) {
    match p
    case ServerInformation(_) => true
    case LoginResponse(_, name) => Clean(name) && |name| <= MAX_PACKET
    case CreateResponse(_, name) => Clean(name) && |name| <= MAX_PACKET
    case ChatEvent(_, name, text) => Clean(name) && |name| < MAX_NAME && Clean(text) && |text| <= MAX_PACKET
    case ErrorReport(text) => Clean(text) && |text| <= MAX_PACKET
  }

  /** The payload, in the order of the add_* calls. */
  function Payload(p: Packet): (b: seq<byte>)
    requires Sendable(p)
    ensures |b| + 4 <= 0x8000
  {
    match p
    case ServerInformation(token) =>
      Le32(token) + (Le32(1) + (CleanNt("sha1") + (CleanNt("") + CleanNt(""))))
    case LoginResponse(status, name) => Le32(LoginCode(status)) + CleanNt(name)
    case CreateResponse(status, name) => Le32(CreateCode(status)) + CleanNt(name)
    case ChatEvent(kind, name, text) => Le32(EventCode(kind)) + (CleanNt(name) + CleanNt(text))
    case ErrorReport(text) => CleanNt(text)
  }

  function CleanNt(s: string): (b: seq<byte>)
    requires Clean(s)
    ensures |b| == |s| + 1
  {
    CleanIsCString(s);
    NtString(s)
  }

  function Wire(p: Packet): (b: seq<byte>)
    requires Sendable(p)
    ensures |b| == |Payload(p)| + 4
  {
    Frame(Code(p), Payload(p))
  }

  /** What a client handler reads. Only the fields it reads appear. */
  datatype Incoming =
    | Welcome(token: uint32)
    | LoginResult(code: uint32)
    | CreateResult(code: uint32, name: string)
    | Event(subtype: uint32, name: string, text: string)
    | Complaint(text: string)
    | Unhandled

  /** The reads of client.c's handlers; None is a failed assertion. */
  function ClientReads(b: seq<byte>): (r: Option<Incoming>)
    requires IsFrame(b)
  {
    if b[1] == SID_SERVER_INFORMATION then
      var (token, p0) :- ReadInt32(b, 4);
      var (_, p1) :- ReadInt32(b, p0);
      var (_, p2) :- ReadString(b, p1);
      var (_, p3) :- ReadString(b, p2);
      var (_, p4) :- ReadString(b, p3);
      Some(Welcome(token))
    else if b[1] == SID_LOGIN_RESPONSE then
      var (code, _) :- ReadInt32(b, 4);
      Some(LoginResult(code))
    else if b[1] == SID_CREATE_RESPONSE then
      var (code, p0) :- ReadInt32(b, 4);
      var (name, _) :- ReadString(b, p0);
      Some(CreateResult(code, name))
    else if b[1] == SID_CHATEVENT then
      ReadChatEvent(b)
    else if b[1] == SID_ERROR then
      var (text, _) :- ReadString(b, 4);
      Some(Complaint(text))
    else Some(Unhandled)
  }

  function ReadChatEvent(b: seq<byte>): (r: Option<Incoming>) {
    var (subtype, p0) :- ReadInt32(b, 4);
    var (name, p1) :- ReadString(b, p0);
    var (text, _) :- ReadString(b, p1);
    Some(Event(subtype, name, text))
  }

  /** The same packet as the client is meant to understand it. */
  function Meaning(p: Packet): Incoming {
    match p
    case ServerInformation(token) => Welcome(token)
    case LoginResponse(status, _) => LoginResult(LoginCode(status))
    case CreateResponse(status, name) => CreateResult(CreateCode(status), name)
    case ChatEvent(kind, name, text) => Event(EventCode(kind), name, text)
    case ErrorReport(text) => Complaint(text)
  }

  lemma ReadCleanAt(b: seq<byte>, pos: nat, s: string, after: seq<byte>)
    requires Clean(s) && pos <= |b| && b[pos..] == CleanNt(s) + after
    ensures ReadString(b, pos) == Some((s, pos + |s| + 1)) && b[pos + |s| + 1..] == after
  {
    hide FilterAll, Chars, NtString, ReadString;
    CleanIsCString(s);
    ReadStringAt(b, pos, s, after);
  }

  lemma ReadLastCleanAt(b: seq<byte>, pos: nat, s: string)
    requires Clean(s) && pos <= |b| && b[pos..] == CleanNt(s)
    ensures ReadString(b, pos) == Some((s, pos + |s| + 1))
  {
    assert CleanNt(s) + [] == CleanNt(s);
    ReadCleanAt(b, pos, s, []);
  }

  lemma ReadInt32First(b: seq<byte>, x: uint32, after: seq<byte>)
    requires |b| >= 4 && b[4..] == Le32(x) + after
    ensures ReadInt32(b, 4) == Some((x, 8)) && b[8..] == after
  {
    ReadInt32At(b, 4, x, after);
  }

  /** The client reads from every packet exactly what the server put in it. */
  lemma ClientReadsWhatTheServerWrote(p: Packet)
    requires Sendable(p)
    ensures IsFrame(Wire(p)) && ClientReads(Wire(p)) == Some(Meaning(p))
  {
    hide Le32, U32, ReadInt32, ReadString, CleanNt, Frame, ReadChatEvent;
    var b := Wire(p);
    FrameIsFrame(Code(p), Payload(p));
    match p
    case ServerInformation(token) =>
      ReadInt32First(b, token, Le32(1) + (CleanNt("sha1") + (CleanNt("") + CleanNt(""))));
      ReadInt32At(b, 8, 1, CleanNt("sha1") + (CleanNt("") + CleanNt("")));
      ReadCleanAt(b, 12, "sha1", CleanNt("") + CleanNt(""));
      ReadCleanAt(b, 17, "", CleanNt(""));
      ReadLastCleanAt(b, 18, "");
    case LoginResponse(status, name) =>
      ReadInt32First(b, LoginCode(status), CleanNt(name));
    case CreateResponse(status, name) =>
      ReadInt32First(b, CreateCode(status), CleanNt(name));
      ReadLastCleanAt(b, 8, name);
    case ChatEvent(kind, name, text) => ReadChatEventBack(b, kind, name, text);
    case ErrorReport(text) =>
      ReadLastCleanAt(b, 4, text);
  }

  lemma ReadChatEventBack(b: seq<byte>, kind: EventKind, name: string, text: string)
    requires Clean(name) && Clean(text) && |b| >= 4
    requires b[4..] == Le32(EventCode(kind)) + (CleanNt(name) + CleanNt(text))
    ensures ReadChatEvent(b) == Some(Event(EventCode(kind), name, text))
  {
    hide Le32, U32, ReadInt32, ReadString, CleanNt;
    ReadInt32First(b, EventCode(kind), CleanNt(name) + CleanNt(text));
    ReadCleanAt(b, 8, name, CleanNt(text));
    ReadLastCleanAt(b, 8 + |name| + 1, text);
  }

  /** A chat event reaches the client, instead of making its read_buffer give up the connection,
      exactly when name and text together leave room for the ten bytes around them. */
  lemma ChatEventFitsExactly(kind: EventKind, name: string, text: string)
    requires Sendable(ChatEvent(kind, name, text))
    ensures |Wire(ChatEvent(kind, name, text))| <= MAX_PACKET <==> |name| + |text| <= MAX_PACKET - 10
  {
  }

  // ---- client to server ----

  datatype Request =
    | ClientInformation(token: uint32, time: uint32)
    | Login(digest: Digest, name: string)
    | Create(digest: Digest, name: string)
    | ChatCommand(text: string)

  predicate RequestOk(r: Request) {
    match r
    case ClientInformation(_, _) => true
    case Login(_, name) => CString(name) && |name| < 256
    case Create(_, name) => CString(name) && |name| < 256
    case ChatCommand(text) => CString(text) && |text| < MAX_PACKET - 4
  }

  function RequestPayload(r: Request): (b: seq<byte>)
    requires RequestOk(r)
    ensures |b| + 4 <= MAX_PACKET
  {
    match r
    case ClientInformation(token, time) =>
      Le32(token) + (Le32(time) + (Le32(0) + (CleanNt("Canada") + CleanNt("Linux"))))
    case Login(digest, name) => digest + NtString(name)
    case Create(digest, name) => digest + NtString(name)
    case ChatCommand(text) => NtString(text)
  }

  function RequestWire(r: Request): (b: seq<byte>)
    requires RequestOk(r)
    ensures IsFrame(b) && |b| <= MAX_PACKET
  {
    var code := match r
      case ClientInformation(_, _) => SID_CLIENT_INFORMATION
      case Login(_, _) => SID_LOGIN
      case Create(_, _) => SID_CREATE
      case ChatCommand(_) => SID_CHATCOMMAND;
    FrameIsFrame(code, RequestPayload(r));
    Frame(code, RequestPayload(r))
  }

  /** The reads of process_SID_CLIENT_INFORMATION. */
  function ParseClientInformation(b: seq<byte>): (r: Option<uint32>) {
    var (token, p0) :- ReadInt32(b, 4);
    var (_, p1) :- ReadInt32(b, p0);
    var (_, p2) :- ReadInt32(b, p1);
    var (_, p3) :- ReadString(b, p2);
    var (_, _) :- ReadString(b, p3);
    Some(token)
  }

  /** The reads of process_SID_LOGIN and process_SID_CREATE. */
  function ParseCredentials(b: seq<byte>): (r: Option<(Digest, string)>)
    ensures r.Some? ==> Clean(r.value.1) && |r.value.1| <= |b|
  {
    var (digest, p0) :- ReadBytes(b, 4, HASH_LENGTH);
    var (name, _) :- ReadString(b, p0);
    Some((digest, name))
  }

  /** The single string of process_SID_CHATCOMMAND and process_SID_ERROR. */
  function ParseText(b: seq<byte>): (r: Option<string>)
    ensures r.Some? ==> Clean(r.value) && |r.value| <= |b|
  {
    var (text, _) :- ReadString(b, 4);
    Some(text)
  }

  /** The server reads from every request what the client put in it, names and texts filtered. */
  lemma ServerReadsWhatTheClientWrote(r: Request)
    requires RequestOk(r)
    ensures r.ClientInformation? ==>
              RequestWire(r)[1] == SID_CLIENT_INFORMATION && ParseClientInformation(RequestWire(r)) == Some(r.token)
    ensures r.Login? ==>
              RequestWire(r)[1] == SID_LOGIN && ParseCredentials(RequestWire(r)) == Some((r.digest, Seen(r.name)))
    ensures r.Create? ==>
              RequestWire(r)[1] == SID_CREATE && ParseCredentials(RequestWire(r)) == Some((r.digest, Seen(r.name)))
    ensures r.ChatCommand? ==>
              RequestWire(r)[1] == SID_CHATCOMMAND && ParseText(RequestWire(r)) == Some(Seen(r.text))
  {
    hide Le32, U32, ReadInt32, ReadString, ReadBytes, CleanNt, NtString, Seen;
    var b := RequestWire(r);
    match r
    case ClientInformation(token, time) =>
      var strings := CleanNt("Canada") + CleanNt("Linux");
      ReadInt32First(b, token, Le32(time) + (Le32(0) + strings));
      ReadInt32At(b, 8, time, Le32(0) + strings);
      ReadInt32At(b, 12, 0, strings);
      ReadCleanAt(b, 16, "Canada", CleanNt("Linux"));
      ReadLastCleanAt(b, 23, "Linux");
    case Login(digest, name) => CredentialsBack(b, digest, name);
    case Create(digest, name) => CredentialsBack(b, digest, name);
    case ChatCommand(text) =>
      assert NtString(text) + [] == NtString(text);
      ReadStringAt(b, 4, text, []);
  }

  lemma CredentialsBack(b: seq<byte>, digest: Digest, name: string)
    requires CString(name) && |b| >= 4 && b[4..] == digest + NtString(name)
    ensures ParseCredentials(b) == Some((digest, Seen(name)))
  {
    hide ReadBytes, ReadString, NtString, Seen;
    ReadBytesAt(b, 4, digest, NtString(name));
    assert NtString(name) + [] == NtString(name);
    ReadStringAt(b, 24, name, []);
  }
}
