/** The server as a state machine on values. A connection is named by its place in the order of
    accepts; `sent` is everything ever written to it. The classes of Server.dfy are proved to
    compute exactly these functions on their heap state. */
module ServerSpec {
  import opened Types
  import opened Messages
  import Assoc
  import Accounts
  import Framing
  import LinkedLists

  const MIN_ROOM_LENGTH: nat := 1
  const MAX_ROOM_LENGTH: nat := 16

  datatype UserState = Connected | SentClientInformation | NotInChannel | JoinedChannel

  datatype UserRecord = UserRecord(
    username: string,
    state: UserState,
    clientToken: uint32,
    serverToken: uint32,
    room: Option<string>,
    open: bool,
    sent: seq<Packet>)

  datatype RoomRecord = RoomRecord(name: string, users: Assoc.Table<nat>)

  datatype State = State(
    users: seq<UserRecord>,
    newUsers: seq<nat>,
    oldUsers: Assoc.Table<nat>,
    rooms: Assoc.Table<RoomRecord>,
    file: string,
    sha1: seq<byte> -> Digest,
    descriptors: nat,
    leaked: nat,
    crashed: bool)

  /** A reply of one of the read-only commands: a line of at most INPUT_LENGTH - 1 characters. */
  type Line = s: string | Clean(s) && |s| < 1024 witness ""
  datatype Notice = Notice(kind: EventKind, text: Line)

  /** What one read_buffer call can give. */
  type Reading = o: Framing.Outcome | o.Packet? ==> Framing.Acceptable(o.bytes) witness Framing.Nothing

  const NOBODY := UserRecord("", Connected, 0, 0, None, false, [])

  function Person(s: State, i: nat): UserRecord {
    if i < |s.users| then s.users[i] else NOBODY
  }

  function SetPerson(s: State, i: nat, u: UserRecord): State {
    if i < |s.users| then s.(users := s.users[i := u]) else s
  }

  // ---- descriptors ----

  /** The descriptors in use, of the `descriptors` that the process may have open beside its own:
      one for every connection, and one for every stream of the account file that find_account has
      left open. */
  function InUse(s: State): nat {
    |s.newUsers| + |s.oldUsers| + s.leaked
  }

  /** No file can be opened and no connection accepted. */
  predicate Exhausted(s: State) {
    InUse(s) >= s.descriptors
  }

  // ---- sending ----

  /** send_buffer: one packet to one connection; nothing happens on a closed one. */
  function Send(s: State, i: nat, p: Packet): State {
    var u := Person(s, i);
    if u.open then SetPerson(s, i, u.(sent := u.sent + [p])) else s
  }

  /** The loop of room_message. */
  function SendAll(s: State, ids: seq<nat>, p: Packet): State
    decreases |ids|
  {
    if ids == [] then s else SendAll(Send(s, ids[0], p), ids[1..], p)
  }

  /** send_chat: the receiver is looked up by name among the authenticated users. */
  function Chat(s: State, kind: EventKind, to: string, from: string, text: string): State {
    var user := Assoc.Find(s.oldUsers, to);
    if user.None? then s else Send(s, user.value, ChatEvent(kind, from, text))
  }

  /** send_chat of a user to itself. */
  function Tell(s: State, i: nat, kind: EventKind, text: string): State {
    Chat(s, kind, Person(s, i).username, Person(s, i).username, text)
  }

  /** The errors sent in reply to a packet that is out of place. */
  datatype Misuse = WrongState(handler: RequestKind) | NoRoomList | ServerOnly | UnknownCode
  datatype RequestKind = InformationRequest | LoginRequest | CreateRequest | ChatRequest

  function MisuseText(m: Misuse): (t: string)
    ensures Clean(t) && |t| < 64
  {
    match m
    case WrongState(h) => RequestName(h) + WrongStateText()
    case NoRoomList => NoRoomListText()
    case ServerOnly => ServerOnlyText()
    case UnknownCode => UnknownPacketText()
  }

  function WrongStateText(): (t: string)
    ensures Clean(t) && |t| < 32
  {
    " Invalid in this state"
  }

  function NoRoomListText(): (t: string)
    ensures Clean(t) && |t| < 64
  {
    "SID_REQUEST_ROOM_LIST " + "Not implemented yet.."
  }

  function ServerOnlyText(): (t: string)
    ensures Clean(t) && |t| < 64
  {
    "Client isn't allowed" + " to send that"
  }

  function UnknownPacketText(): (t: string)
    ensures Clean(t) && |t| < 64
  {
    "Unknown packet"
  }

  function RequestName(r: RequestKind): (t: string)
    ensures Clean(t) && |t| < 32
  {
    match r
    case InformationRequest => "SID_CLIENT_INFORMATION"
    case LoginRequest => "SID_LOGIN"
    case CreateRequest => "SID_CREATE"
    case ChatRequest => "SID_CHATCOMMAND"
  }

  /** send_error */
  function Complain(s: State, i: nat, m: Misuse): State {
    Send(s, i, ErrorReport(MisuseText(m)))
  }

  function Crash(s: State): State {
    s.(crashed := true)
  }

  // ---- rooms ----

  function Members(s: State, room: string): Assoc.Table<nat> {
    var r := Assoc.Find(s.rooms, room);
    if r.None? then [] else r.value.users
  }

  function SetMembers(s: State, room: string, users: Assoc.Table<nat>): State {
    var r := Assoc.Find(s.rooms, room);
    if r.None? then s else s.(rooms := Assoc.Add(s.rooms, room, r.value.(users := users)))
  }

  function RoomMessage(s: State, room: string, kind: EventKind, from: string, text: string): State {
    SendAll(s, Assoc.Values(Members(s, room)), ChatEvent(kind, from, text))
  }

  /** The loop of room_send_users_in_channel. */
  function SendUsersInChannel(s: State, i: nat, users: seq<nat>): State
    decreases |users|
  {
    if users == [] then s
    else SendUsersInChannel(Send(s, i, ChatEvent(UserInChannel, Person(s, users[0]).username, "")), i, users[1..])
  }

  function RoomCreate(name: string): RoomRecord {
    RoomRecord(Truncate(name, MAX_ROOM_LENGTH), [])
  }

  function RestrictedText(): (t: string)
    ensures Clean(t) && |t| < 64
  {
    "Sorry, that room " + "is restricted"
  }

  function TooShortText(): (t: string)
    ensures Clean(t) && |t| < 64
  {
    "Sorry, the name of that " + "room is too short"
  }

  function TooLongText(): (t: string)
    ensures Clean(t) && |t| < 64
  {
    "Sorry, the name of that " + "room is too long"
  }

  function LeavingText(): (t: string)
    ensures Clean(t) && |t| < 64
  {
    "Leaving chat"
  }

  function CreatingText(): (t: string)
    ensures Clean(t) && |t| < 64
  {
    "Creating new channel for you"
  }

  /** The first half of process_command_join. */
  function LeaveRoom(s: State, i: nat): State {
    var u := Person(s, i);
    if u.room.None? || !Assoc.Has(s.rooms, u.room.value) then s
    else
      var s1 := SetMembers(s, u.room.value, Assoc.Remove(Members(s, u.room.value), u.username));
      RoomMessage(s1, u.room.value, UserLeaveChannel, u.username, "")
  }

  /** The end of process_command_join without a room name. */
  function GoNowhere(s: State, i: nat): State {
    var s1 := Tell(s, i, Info, LeavingText());
    var s2 := Tell(s1, i, Channel, "");
    SetPerson(s2, i, Person(s2, i).(state := NotInChannel, room := None))
  }

  /** Create the room if the table does not have it. */
  function OpenRoom(s: State, i: nat, room: string): State {
    if Assoc.Has(s.rooms, room) then s
    else
      var s1 := Tell(s, i, Info, CreatingText());
      s1.(rooms := Assoc.Add(s1.rooms, room, RoomCreate(room)))
  }

  /** The end of process_command_join with a room name. */
  function EnterRoom(s: State, i: nat, room: string): State {
    var s1 := OpenRoom(s, i, room);
    var s2 := Tell(s1, i, Channel, room);
    var s3 := SendUsersInChannel(s2, i, Assoc.Values(Members(s2, room)));
    var s4 := SetPerson(s3, i, Person(s3, i).(state := JoinedChannel, room := Some(room)));
    var s5 := SetMembers(s4, room, Assoc.Add(Members(s4, room), Person(s4, i).username, i));
    RoomMessage(s5, room, UserJoinChannel, Person(s5, i).username, "")
  }

  /** process_command_join */
  function Join(s: State, i: nat, room: string): State {
    if SameIgnoringCase(room, "backstage") then Tell(s, i, Error, RestrictedText())
    else if 0 < |room| < MIN_ROOM_LENGTH then Tell(s, i, Error, TooShortText())
    else if |room| >= MAX_ROOM_LENGTH then Tell(s, i, Error, TooLongText())
    else if room == "" then GoNowhere(LeaveRoom(s, i), i)
    else EnterRoom(LeaveRoom(s, i), i, room)
  }

  // ---- the other commands ----

  function WhisperUsage(): (t: string)
    ensures Clean(t) && |t| < 64
  {
    "Usage: /w <user> <message>"
  }

  function NotLoggedOnText(): (t: string)
    ensures Clean(t) && |t| < 64
  {
    "User not logged on"
  }

  function NotInRoomText(): (t: string)
    ensures Clean(t) && |t| < 64
  {
    "You can only send chat " + "if you're in a room"
  }

  function UnknownCommandText(): (t: string)
    ensures Clean(t) && |t| < 64
  {
    "Unknown command; " + "type /help for " + "a command listing"
  }

  /** process_command_w */
  function Whisper(s: State, i: nat, param: string): State {
    var k := IndexOfChar(param, ' ');
    if k == |param| then Tell(s, i, Error, WhisperUsage())
    else
      var to := Assoc.Find(s.oldUsers, param[..k]);
      if to.None? then Tell(s, i, Error, NotLoggedOnText())
      else
        var me, you, text := Person(s, i).username, Person(s, to.value).username, param[k + 1..];
        Chat(Chat(s, WhisperFrom, you, me, text), WhisperTo, me, you, text)
  }

  /** Replies of /help, /finger, /who and /rooms: EID_INFO and EID_ERROR lines to the asker. */
  function Listing(s: State, i: nat, lines: seq<Notice>): State
    decreases |lines|
  {
    if lines == [] then s
    else Listing(Tell(s, i, if lines[0].kind.Error? then Error else Info, lines[0].text), i, lines[1..])
  }

  /** The talk branch of process_SID_CHATCOMMAND. A room that is not in the table would be a
      NULL pointer. */
  function Say(s: State, i: nat, text: string): State {
    var u := Person(s, i);
    if u.room.None? then Tell(s, i, Error, NotInRoomText())
    else if !Assoc.Has(s.rooms, u.room.value) then Crash(s)
    else RoomMessage(s, u.room.value, Talk, u.username, text)
  }

  predicate Named(command: string, names: seq<string>) {
    exists k :: 0 <= k < |names| && SameIgnoringCase(command, names[k])
  }

  const JOIN_NAMES := ["join", "channel"]
  const HELP_NAMES := ["help", "h", "?"]
  const FINGER_NAMES := ["finger", "whois", "whereis"]
  const WHISPER_NAMES := ["w", "whisper", "m", "msg"]
  const WHO_NAMES := ["who", "list"]
  const ROOMS_NAMES := ["rooms", "channels"]

  function Command(s: State, i: nat, command: string, param: string, lines: seq<Notice>): State {
    if Named(command, JOIN_NAMES) then Join(s, i, param)
    else if Named(command, HELP_NAMES) then Listing(s, i, lines)
    else if Named(command, FINGER_NAMES) then Listing(s, i, lines)
    else if Named(command, WHISPER_NAMES) then Whisper(s, i, param)
    else if Named(command, WHO_NAMES) then Listing(s, i, lines)
    else if Named(command, ROOMS_NAMES) then Listing(s, i, lines)
    else Tell(s, i, Error, UnknownCommandText())
  }

  /** process_SID_CHATCOMMAND after the string has been read. */
  function Message(s: State, i: nat, text: string, lines: seq<Notice>): State {
    if text != "" && text[0] == '/' then
      var line := text[1..];
      var k := IndexOfChar(line, ' ');
      Command(s, i, line[..k], if k < |line| then line[k + 1..] else "", lines)
    else Say(s, i, text)
  }

  // ---- packet handlers ----

  function ClientInformationHandler(s: State, i: nat, b: seq<byte>): State {
    var u := Person(s, i);
    if u.state != UserState.Connected then Complain(s, i, WrongState(InformationRequest))
    else
      var token := ParseClientInformation(b);
      if token.None? then Crash(s)
      else
        var s1 := SetPerson(s, i, u.(clientToken := token.value, state := SentClientInformation));
        Send(s1, i, ServerInformation(u.serverToken))
  }

  /** The status of a login: None is the exit on an account file that cannot be opened, or on a
      malformed one. */
  function LoginStatus(s: State, u: UserRecord, digest: Digest, name: string): Option<Accounts.LoginStatus> {
    if Assoc.Has(s.oldUsers, name) then Some(Accounts.AccountInUse)
    else if Exhausted(s) then None
    else Accounts.Login(s.sha1, s.file, name, digest, u.clientToken, u.serverToken)
  }

  /** The bookkeeping of a successful login. */
  function Promote(s: State, i: nat, name: string): State {
    var u := Person(s, i).(username := Truncate(name, MAX_NAME), state := NotInChannel);
    var s1 := SetPerson(s, i, u);
    s1.(newUsers := LinkedLists.WithoutFirst(s1.newUsers, i), oldUsers := Assoc.Add(s1.oldUsers, u.username, i))
  }

  function LoginHandler(s: State, i: nat, b: seq<byte>): State {
    var u := Person(s, i);
    if u.state != SentClientInformation then Complain(s, i, WrongState(LoginRequest))
    else
      var credentials := ParseCredentials(b);
      if credentials.None? then Crash(s)
      else
        var (digest, name) := credentials.value;
        var status := LoginStatus(s, u, digest, name);
        if status.None? then Crash(s)
        else
          var s1 := Send(s, i, LoginResponse(status.value, name));
          if status.value.LoginSuccess? then Promote(s1, i, name) else s1
  }

  function CreateHandler(s: State, i: nat, b: seq<byte>): State {
    var u := Person(s, i);
    if u.state != SentClientInformation then Complain(s, i, WrongState(CreateRequest))
    else
      var credentials := ParseCredentials(b);
      if credentials.None? then Crash(s)
      else
        var (hash, name) := credentials.value;
        if Accounts.ValidName(name) && Exhausted(s) then Crash(s)
        else
          var (status, file) := Accounts.Create(s.file, name, hash);
          Send(AfterCreate(s, status, file), i, CreateResponse(status, name))
  }

  /** What account_create leaves behind: the file, and a stream of it that stays open when the name
      was found. */
  function AfterCreate(s: State, status: Accounts.CreateStatus, file: string): State {
    s.(file := file, leaked := if status.AccountExists? then s.leaked + 1 else s.leaked)
  }

  function ChatCommandHandler(s: State, i: nat, b: seq<byte>, lines: seq<Notice>): State {
    var u := Person(s, i);
    if u.state != JoinedChannel && u.state != NotInChannel then Complain(s, i, WrongState(ChatRequest))
    else
      var text := ParseText(b);
      if text.None? then Crash(s) else Message(s, i, text.value, lines)
  }

  /** The switch of process_next_packet. */
  function Handle(s: State, i: nat, b: seq<byte>, lines: seq<Notice>): State
    requires |b| >= 4
  {
    if b[1] == SID_NULL then s
    else if b[1] == SID_CLIENT_INFORMATION then ClientInformationHandler(s, i, b)
    else if b[1] == SID_LOGIN then LoginHandler(s, i, b)
    else if b[1] == SID_CREATE then CreateHandler(s, i, b)
    else if b[1] == SID_REQUEST_ROOM_LIST then Complain(s, i, NoRoomList)
    else if b[1] == SID_CHATCOMMAND then ChatCommandHandler(s, i, b, lines)
    else if b[1] == SID_ERROR then (if ParseText(b).None? then Crash(s) else s)
    else if b[1] in [SID_SERVER_INFORMATION, SID_LOGIN_RESPONSE, SID_CREATE_RESPONSE, SID_ROOM_LIST, SID_CHATEVENT]
      then Complain(s, i, ServerOnly)
    else Complain(s, i, UnknownCode)
  }

  // ---- connections ----

  /** A connection that can be accepted. Without a free descriptor none can. */
  function AcceptConnection(s: State, token: uint32): State {
    if s.crashed || Exhausted(s) then s
    else s.(users := s.users + [UserRecord("Not logged in", UserState.Connected, 0, token, None, true, [])],
            newUsers := s.newUsers + [|s.users|])
  }

  function Close(s: State, i: nat): State {
    SetPerson(s, i, Person(s, i).(open := false))
  }

  /** One turn of the loop over the authenticated users in do_select. */
  function PollOld(s: State, i: nat, o: Reading, lines: seq<Notice>): State {
    if s.crashed then s
    else match o
      case Nothing => s
      case Packet(b) => Handle(s, i, b, lines)
      case Closed => Close(s.(oldUsers := Assoc.Remove(s.oldUsers, Person(s, i).username)), i)
  }

  /** One turn of the loop over the new users. */
  function PollNew(s: State, i: nat, o: Reading, lines: seq<Notice>): State {
    if s.crashed then s
    else match o
      case Nothing => s
      case Packet(b) => Handle(s, i, b, lines)
      case Closed => Close(s.(newUsers := LinkedLists.WithoutFirst(s.newUsers, i)), i)
  }

  // ---- runs ----

  datatype Event = Accept(token: uint32) | Poll(who: nat, reading: Reading, lines: seq<Notice>)

  /** A connection that is known to the server takes its turn in the loop for its collection. */
  function Step(s: State, e: Event): State {
    match e
    case Accept(token) => AcceptConnection(s, token)
    case Poll(i, o, lines) =>
      if i in s.newUsers then PollNew(s, i, o, lines)
      else if i in Assoc.Values(s.oldUsers) then PollOld(s, i, o, lines)
      else s
  }

  function Run(s: State, es: seq<Event>): State
    decreases |es|
  {
    if es == [] then s else Step(Run(s, es[..|es| - 1]), es[|es| - 1])
  }

  /** main: empty collections over an existing account file. */
  predicate Initial(s: State) {
    s.users == [] && s.newUsers == [] && s.oldUsers == [] && s.rooms == [] && s.leaked == 0 && !s.crashed
  }
}
