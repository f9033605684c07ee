/** The client of client.c, with the user list that output.c keeps for it, as an object proved
    against functions on values; and what that client shows once it has read everything that a
    server of ServerSpec has written to it. */
module ChatClient {
  import opened Types
  import opened Messages
  import opened PacketBuffers
  import Accounts
  import Assoc
  import Building
  import Codec
  import Framing
  import Guarantees
  import Handshake
  import Invariants
  import Layout
  import LinkedTables
  import Roster
  import S = ServerSpec

  // ---- on values ----

  /** `ended` is the exit of display_error, or a read that the program does not survive. */
  datatype ClientState = ClientState(
    serverToken: uint32,
    userList: Assoc.Table<string>,
    written: seq<seq<byte>>,
    ended: bool)

  function Write(st: ClientState, bytes: seq<byte>): ClientState {
    st.(written := st.written + [bytes])
  }

  /** The errors that a client reports back. */
  datatype Protest = NoRoomList | ClientOnly | UnknownCode

  function ProtestText(p: Protest): (t: string)
    ensures Clean(t) && |t| < 64
  {
    match p
    case NoRoomList => NoRoomListText()
    case ClientOnly => ClientOnlyText()
    case UnknownCode => UnknownCodeText()
  }

  function NoRoomListText(): (t: string)
    ensures Clean(t) && |t| < 64
  {
    "SID_ROOM_LIST " + "Not implemented yet.."
  }

  function ClientOnlyText(): (t: string)
    ensures Clean(t) && |t| < 64
  {
    "Server isn't allowed" + " to send that"
  }

  function UnknownCodeText(): (t: string)
    ensures Clean(t) && |t| < 64
  {
    "You sent an " + "unknown packet!"
  }

  function Complain(st: ClientState, p: Protest): ClientState {
    Write(st, Wire(ErrorReport(ProtestText(p))))
  }

  /** Carrying out what the handlers of the handshake decide. */
  function Follow(st: ClientState, r: Handshake.Reaction): ClientState {
    match r
    case Send(request) => if RequestOk(request) then Write(st, RequestWire(request)) else st
    case Exit => st.(ended := true)
    case Ignore => st
  }

  /** display_channel_event: an unknown subtype is only reported. */
  function ShowEvent(st: ClientState, subtype: uint32, name: string): ClientState {
    var kind := EventOf(subtype);
    if kind.None? then st else st.(userList := Roster.Show(st.userList, kind.value, name))
  }

  /** The four handlers of client.c, after their reads. */
  function Act(sha1: seq<byte> -> Digest, c: Handshake.Credentials, st: ClientState, read: Incoming): ClientState {
    match read
    case Welcome(token) => Follow(st.(serverToken := token), Handshake.React(sha1, c, token, read))
    case LoginResult(_) => Follow(st, Handshake.React(sha1, c, st.serverToken, read))
    case CreateResult(_, _) => Follow(st, Handshake.React(sha1, c, st.serverToken, read))
    case Event(subtype, name, _) => ShowEvent(st, subtype, name)
    case Complaint(_) => st
    case Unhandled => st
  }

  const HANDLED: set<byte> :=
    {SID_SERVER_INFORMATION, SID_LOGIN_RESPONSE, SID_CREATE_RESPONSE, SID_CHATEVENT, SID_ERROR}

  /** The switch of process_next_packet. */
  function Handle(sha1: seq<byte> -> Digest, c: Handshake.Credentials, st: ClientState, b: seq<byte>): ClientState
    requires Codec.IsFrame(b)
  {
    if b[1] == SID_NULL then st
    else if b[1] in HANDLED then
      var read := ClientReads(b);
      if read.None? then st.(ended := true) else Act(sha1, c, st, read.value)
    else if b[1] == SID_ROOM_LIST then Complain(st, NoRoomList)
    else if b[1] in {SID_CLIENT_INFORMATION, SID_LOGIN, SID_CREATE, SID_REQUEST_ROOM_LIST, SID_CHATCOMMAND}
      then Complain(st, ClientOnly)
    else Complain(st, UnknownCode)
  }

  /** process_next_packet. A closed connection ends the program, and so does the NULL that
      read_buffer returns for a frame that does not arrive whole: the client does not expect it. */
  function Take(sha1: seq<byte> -> Digest, c: Handshake.Credentials, st: ClientState, o: Framing.Outcome): ClientState
    requires o.Packet? ==> Codec.IsFrame(o.bytes)
  {
    if o.Packet? then Handle(sha1, c, st, o.bytes) else st.(ended := true)
  }

  /** Reading until the bytes that have arrived are used up or the program ends. */
  function ReadAll(sha1: seq<byte> -> Digest, c: Handshake.Credentials, st: ClientState, s: seq<byte>): ClientState
    decreases |s|
  {
    if s == [] || st.ended then st
    else
      var (o, rest) := Framing.ReadFrame(s);
      ReadAll(sha1, c, Take(sha1, c, st, o), rest)
  }

  // ---- what becomes of the server's packets ----

  /** The answers that make display_error end the program. */
  predicate Fatal(p: Packet) {
    || (p.LoginResponse? && (p.login.IncorrectPassword? || p.login.AccountInUse?))
    || (p.CreateResponse? && !p.create.CreateSuccess?)
  }

  /** One packet from the server does to the client what it means: it answers as the handshake
      says, or its list changes as the event says, and only a refusal ends it. */
  lemma HandlesWhatWasMeant(sha1: seq<byte> -> Digest, c: Handshake.Credentials, st: ClientState, p: Packet)
    requires Sendable(p) && Handshake.CanSend(c)
    ensures Codec.IsFrame(Wire(p)) && ClientReads(Wire(p)) == Some(Meaning(p))
    ensures var r := Handle(sha1, c, st, Wire(p));
            && r.userList == Roster.Receive(st.userList, p)
            && r.ended == (st.ended || Fatal(p))
            && r.serverToken == (if p.ServerInformation? then p.token else st.serverToken)
            && match Handshake.React(sha1, c, r.serverToken, Meaning(p))
               case Send(request) => RequestOk(request) && r.written == st.written + [RequestWire(request)]
               case _ => r.written == st.written
  {
    hide Wire, Sendable, RequestWire, Roster.Show, ClientReads, Accounts.Salted, Complain, EventOf, EventCode;
    ClientReadsWhatTheServerWrote(p);
    WireHasTheCode(p);
    if p.ChatEvent? {
      EventCodesRoundTrip(p.kind);
    }
  }

  /** The bytes that the client answers with: a login for the server's token and again after an
      account was created, a create for an unknown account, and the join of its channel after the
      login; no other packet is answered. */
  lemma AnswersByteForByte(sha1: seq<byte> -> Digest, c: Handshake.Credentials, st: ClientState, p: Packet)
    requires Sendable(p) && Handshake.CanSend(c)
    ensures Codec.IsFrame(Wire(p)) && CString("/join " + c.channel)
    ensures var r := Handle(sha1, c, st, Wire(p));
            r.written == st.written +
            if p.ServerInformation? || (p.CreateResponse? && p.create.CreateSuccess?) then
              var token := if p.ServerInformation? then p.token else st.serverToken;
              [Layout.Header(3, |c.name| + 25) + sha1(Accounts.Salted(c.clientToken, token, c.secret)) +
               Layout.Text(c.name)]
            else if p.LoginResponse? && p.login.UnknownAccount? then
              [Layout.Header(5, |c.name| + 25) + c.secret + Layout.Text(c.name)]
            else if p.LoginResponse? && p.login.LoginSuccess? then
              [Layout.Header(9, |c.channel| + 11) + Layout.Text("/join " + c.channel)]
            else []
  {
    hide Wire, Sendable, RequestWire, Accounts.Salted, Handle, Layout.Header, Layout.Text, Codec.IsFrame, ClientReads,
      Roster.Receive, Fatal;
    HandlesWhatWasMeant(sha1, c, st, p);
    JoinIsCString(c.channel);
    if p.ServerInformation? || (p.CreateResponse? && p.create.CreateSuccess?) {
      var token := if p.ServerInformation? then p.token else st.serverToken;
      Layout.LoginBytes(sha1(Accounts.Salted(c.clientToken, token, c.secret)), c.name);
    } else if p.LoginResponse? && p.login.UnknownAccount? {
      Layout.CreateBytes(c.secret, c.name);
    } else if p.LoginResponse? && p.login.LoginSuccess? {
      Layout.ChatCommandBytes("/join " + c.channel);
    }
  }

  lemma JoinIsCString(channel: string)
    requires CString(channel)
    ensures CString("/join " + channel)
  {
  }

  /** Packets that no server sends to a client are protested against; a keepalive is ignored. */
  lemma OutOfPlaceIsProtested(sha1: seq<byte> -> Digest, c: Handshake.Credentials, st: ClientState, b: seq<byte>)
    requires Codec.IsFrame(b) && b[1] !in {2, 4, 6, 10, 11}
    ensures b[1] == 0 ==> Handle(sha1, c, st, b) == st
    ensures var text := if b[1] == 8 then "SID_ROOM_LIST Not implemented yet.."
                        else if b[1] in {1, 3, 5, 7, 9} then "Server isn't allowed to send that"
                        else "You sent an unknown packet!";
            && Clean(text) && |text| < 64
            && (b[1] != 0 ==> Handle(sha1, c, st, b) == Write(st, Wire(ErrorReport(text))))
  {
    hide Wire, NoRoomListText, ClientOnlyText, UnknownCodeText;
    ProtestTexts();
  }

  lemma ProtestTexts()
    ensures NoRoomListText() == "SID_ROOM_LIST Not implemented yet.."
    ensures ClientOnlyText() == "Server isn't allowed to send that"
    ensures UnknownCodeText() == "You sent an unknown packet!"
  {
  }

  lemma EventCodesRoundTrip(kind: EventKind)
    ensures EventOf(EventCode(kind)) == Some(kind)
  {
  }

  lemma WireHasTheCode(p: Packet)
    requires Sendable(p)
    ensures Wire(p)[1] == Code(p)
  {
    hide Sendable, Payload;
  }

  /** The client's own limit on a packet. */
  predicate Fits(p: Packet)
    requires Sendable(p)
  {
    |Wire(p)| <= MAX_PACKET
  }

  /** What a client makes of a sequence of packets. */
  function HandleAll(sha1: seq<byte> -> Digest, c: Handshake.Credentials, st: ClientState, ps: seq<Packet>): ClientState
    requires Handshake.CanSend(c) && forall k :: 0 <= k < |ps| ==> Sendable(ps[k])
    decreases |ps|
  {
    if ps == [] || st.ended then st
    else if !Fits(ps[0]) then st.(ended := true)
    else
      HandlesWhatWasMeant(sha1, c, st, ps[0]);
      HandleAll(sha1, c, Handle(sha1, c, st, Wire(ps[0])), ps[1..])
  }

  /** The bytes that a sequence of writes puts on a connection. */
  function Bytes(ps: seq<Packet>): seq<byte>
    requires forall k :: 0 <= k < |ps| ==> Sendable(ps[k])
  {
    if ps == [] then [] else Wire(ps[0]) + Bytes(ps[1..])
  }

  lemma NothingToRead(sha1: seq<byte> -> Digest, c: Handshake.Credentials, st: ClientState, s: seq<byte>)
    requires s == [] || st.ended
    ensures ReadAll(sha1, c, st, s) == st
  {
  }

  lemma ReadAllTakesOne(sha1: seq<byte> -> Digest, c: Handshake.Credentials, st: ClientState,
                        f: seq<byte>, rest: seq<byte>)
    requires Codec.IsFrame(f) && !st.ended
    ensures ReadAll(sha1, c, st, f + rest) ==
            if |f| <= MAX_PACKET then ReadAll(sha1, c, Handle(sha1, c, st, f), rest) else st.(ended := true)
  {
    hide Handle, Framing.ReadFrame;
    if |f| <= MAX_PACKET {
      Framing.ReadFrameAfterJunk([], f, rest);
      assert [] + f + rest == f + rest;
    } else {
      Framing.OversizeFrameCloses(f, rest);
    }
  }

  /** A packet that does not arrive whole ends the program, and so does one in which a string has no
      end. */
  lemma ACutPacketEnds(sha1: seq<byte> -> Digest, c: Handshake.Credentials, st: ClientState, f: seq<byte>, k: nat)
    requires Codec.IsFrame(f) && 0 < k < |f| && !st.ended
    ensures ReadAll(sha1, c, st, f[..k]) == st.(ended := true)
  {
    hide Handle;
    var s := f[..k];
    assert s[Framing.Garbage(s)..] == s;
    assert k >= 4 ==> s[2..4] == f[2..4];
    var (o, rest) := Framing.ReadFrame(s);
    NothingToRead(sha1, c, st.(ended := true), rest);
  }

  lemma AnEndlessStringEnds(sha1: seq<byte> -> Digest, c: Handshake.Credentials, st: ClientState, b: seq<byte>)
    requires Codec.IsFrame(b) && b[1] in {2, 6, 10, 11} && forall k :: 4 <= k < |b| ==> b[k] != 0
    ensures Handle(sha1, c, st, b) == st.(ended := true)
  {
    hide Act, Complain;
    forall pos | 4 <= pos <= |b|
      ensures Codec.ReadString(b, pos) == None
    {
      assert Codec.FirstNul(b, pos) == |b|;
    }
  }

  /** The bytes of the server's packets are taken one packet at a time. */
  lemma {:induction false} ReadAllTakesPackets(sha1: seq<byte> -> Digest, c: Handshake.Credentials, st: ClientState,
                                       ps: seq<Packet>)
    requires Handshake.CanSend(c) && forall k :: 0 <= k < |ps| ==> Sendable(ps[k])
    ensures ReadAll(sha1, c, st, Bytes(ps)) == HandleAll(sha1, c, st, ps)
    decreases |ps|
  {
    hide Sendable, Wire, Handle, ReadAll, Codec.IsFrame;
    if ps == [] || st.ended {
      NothingToRead(sha1, c, st, Bytes(ps));
    } else {
      HandlesWhatWasMeant(sha1, c, st, ps[0]);
      ReadAllTakesOne(sha1, c, st, Wire(ps[0]), Bytes(ps[1..]));
      if Fits(ps[0]) {
        ReadAllTakesPackets(sha1, c, Handle(sha1, c, st, Wire(ps[0])), ps[1..]);
      }
    }
  }

  /** What ends the program: a refusal, or a packet longer than the client accepts. */
  predicate Stops(p: Packet)
    requires Sendable(p)
  {
    Fatal(p) || !Fits(p)
  }

  ghost predicate SomethingStops(ps: seq<Packet>)
    requires forall k :: 0 <= k < |ps| ==> Sendable(ps[k])
  {
    exists k :: 0 <= k < |ps| && Stops(ps[k])
  }

  /** The program ends on the first such packet and on nothing else; until then its list is the
      replay of what it was sent. */
  lemma {:induction false} EndsExactly(sha1: seq<byte> -> Digest, c: Handshake.Credentials, st: ClientState,
                                       ps: seq<Packet>)
    requires Handshake.CanSend(c) && forall k :: 0 <= k < |ps| ==> Sendable(ps[k])
    ensures var r := HandleAll(sha1, c, st, ps);
            && (r.ended <==> st.ended || SomethingStops(ps))
            && (!r.ended ==> r.userList == Roster.Replay(st.userList, ps))
    decreases |ps|
  {
    hide Sendable, Wire, Handle, Fatal, SomethingStops;
    if ps == [] {
      NothingStops();
    } else if !st.ended {
      FirstOrLater(ps);
      HandlesWhatWasMeant(sha1, c, st, ps[0]);
      if Fits(ps[0]) {
        EndsExactly(sha1, c, Handle(sha1, c, st, Wire(ps[0])), ps[1..]);
        Roster.ReplayResumes(st.userList, ps, 1);
        ReplayOne(st.userList, ps[0]);
        assert ps[..1] == [ps[0]];
      }
    }
  }

  lemma NothingStops()
    ensures !SomethingStops([])
  {
  }

  lemma ReplayOne(t: Assoc.Table<string>, p: Packet)
    ensures Roster.Replay(t, [p]) == Roster.Receive(t, p)
  {
    assert [p][..0] == [];
    assert Roster.Replay(t, []) == t;
  }

  lemma FirstOrLater(ps: seq<Packet>)
    requires ps != [] && forall k :: 0 <= k < |ps| ==> Sendable(ps[k])
    ensures SomethingStops(ps) <==> Stops(ps[0]) || SomethingStops(ps[1..])
  {
    hide Stops, Sendable;
    if k :| 0 <= k < |ps| && Stops(ps[k]) {
      assert k > 0 ==> Stops(ps[1..][k - 1]);
    }
    if k :| 0 <= k < |ps[1..]| && Stops(ps[1..][k]) {
      assert Stops(ps[k + 1]);
    }
  }

  lemma SentIsSendable(s: S.State, i: nat)
    requires Invariants.Inv(s) && i < |s.users|
    ensures forall k :: 0 <= k < |s.users[i].sent| ==> Sendable(s.users[i].sent[k])
  {
    assert Invariants.AllSendable(s.users[i].sent);
  }

  /** From the first byte to the list on the screen: a client that reads everything a server wrote
      to it shows exactly the users of its room, or at most itself outside of rooms, unless it was
      stopped by a refused login or account or by an overlong packet, and it is stopped by nothing
      else. */
  lemma ClientShowsItsRoom(s: S.State, i: nat, c: Handshake.Credentials, st: ClientState)
    requires Invariants.Inv(s) && Guarantees.IsConnected(s, i)
    requires Handshake.CanSend(c) && st.userList == [] && !st.ended
    ensures forall k :: 0 <= k < |s.users[i].sent| ==> Sendable(s.users[i].sent[k])
    ensures var u := s.users[i];
            var r := ReadAll(s.sha1, c, st, Bytes(u.sent));
            && (r.ended <==> SomethingStops(u.sent))
            && (!r.ended ==>
                  if u.room.Some? then Assoc.Keys(r.userList) == Assoc.Keys(S.Members(s, u.room.value))
                  else Assoc.Keys(r.userList) <= {u.username})
  {
    hide Roster.Replay, ReadAll, HandleAll, Sendable, Wire, Invariants.Inv, SomethingStops;
    var sent := s.users[i].sent;
    SentIsSendable(s, i);
    ReadAllTakesPackets(s.sha1, c, st, sent);
    EndsExactly(s.sha1, c, st, sent);
    Guarantees.RosterIsReplicated(s, i, 0);
    assert sent[..0] == [] && sent[0..] == sent;
    NothingReplayed();
  }

  lemma NothingReplayed()
    ensures Roster.Replay([], []) == []
  {
  }

  /** The buffer of get_length + 5 bytes in which the client composes its first command holds
      "/join ", the channel and the terminator exactly when the channel is at most seven characters
      longer than the name in the answer. */
  lemma FirstJoinFitsExactly(p: Packet, channel: string)
    requires p.LoginResponse? && Sendable(p)
    ensures |"/join " + channel| + 1 <= |Wire(p)| + 5 <==> |channel| <= |p.name| + 7
  {
  }

  // ---- the object ----

  /** A line that read_string of client.c can have stored. */
  type Entry = s: string | CString(s) && |s| < 256 witness ""

  class Client {
    const sha1: seq<byte> -> Digest
    const username: Entry
    const password: Entry
    const channel: Entry
    const clientToken: uint32
    const socket: Socket
    var serverToken: uint32
    var userList: LinkedTables.LinkedTable<string>
    var ended: bool

    ghost predicate Valid()
      reads this, socket`open, userList, userList.spine
    {
      socket.open && userList.Valid()
    }

    /** What was typed in, with password_hash_once of the password. */
    function Typed(): (c: Handshake.Credentials)
      ensures Handshake.CanSend(c)
    {
      Handshake.Credentials(username, sha1(Codec.Chars(password)), channel, clientToken)
    }

    ghost function Abs(): ClientState
      reads this, socket`writes, userList, userList.spine
    {
      ClientState(serverToken, userList.Model(), socket.writes, ended)
    }

    /** main, after the prompts: introduce yourself. */
    constructor (sha1: seq<byte> -> Digest, username: Entry, password: Entry, channel: Entry, clientToken: uint32,
                 time: uint32, socket: Socket)
      requires socket.open && socket.writes == []
      modifies socket`writes
      ensures Valid() && fresh(userList) && fresh(userList.spine) && this.sha1 == sha1 && this.socket == socket
      ensures Typed() == Handshake.Credentials(username, sha1(Codec.Chars(password)), channel, clientToken)
      ensures Abs() == ClientState(0, [], [RequestWire(ClientInformation(clientToken, time))], false)
    {
      this.sha1, this.username, this.password, this.channel := sha1, username, password, channel;
      this.clientToken, this.socket, serverToken, ended := clientToken, socket, 0, false;
      userList := new LinkedTables.LinkedTable<string>();
      new;
      hide RequestWire;
      var b := Building.BuildRequest(ClientInformation(clientToken, time));
      this.socket.Write(b.data[..b.Length()]);
    }

    lemma Fields()
      ensures Abs().serverToken == serverToken && Abs().ended == ended && Abs().written == socket.writes
    {
    }

    // ---- sending ----

    method Send(r: Request)
      requires Valid() && RequestOk(r)
      modifies socket`writes
      ensures Valid() && Abs() == Write(old(Abs()), RequestWire(r))
    {
      hide RequestWire, RequestOk;
      var b := Building.BuildRequest(r);
      socket.Write(b.data[..b.Length()]);
    }

    /** send_error */
    method SendError(p: Protest)
      requires Valid()
      modifies socket`writes
      ensures Valid() && Abs() == Complain(old(Abs()), p)
    {
      hide Wire, ProtestText;
      var b := Building.Build(ErrorReport(ProtestText(p)));
      socket.Write(b.data[..b.Length()]);
    }

    /** A login with password_hash_twice, for the server token of the moment. */
    method SendLogin()
      requires Valid()
      modifies socket`writes
      ensures Valid()
      ensures var login := Handshake.LoginRequest(sha1, Typed(), old(Abs()).serverToken);
              Abs() == Follow(old(Abs()), Handshake.Reaction.Send(login))
    {
      hide RequestWire, Accounts.Salted;
      var once := sha1(Codec.Chars(password));
      var twice := sha1(Accounts.Salted(clientToken, serverToken, once));
      Send(Login(twice, username));
    }

    /** display_error */
    method Exit()
      requires Valid()
      modifies this`ended
      ensures Valid() && Abs() == old(Abs()).(ended := true)
    {
      ended := true;
    }

    // ---- packet handlers ----

    ghost predicate Arrived(packet: PacketBuffer, code: byte)
      reads packet, packet.data
    {
      packet.Valid() && packet.position == 4 && packet.data[1] == code
    }

    method ProcessServerInformation(packet: PacketBuffer)
      requires Valid() && Arrived(packet, SID_SERVER_INFORMATION)
      modifies this`serverToken, this`ended, socket`writes, packet`position
      ensures Valid() && Abs() == Handle(sha1, Typed(), old(Abs()), old(packet.Contents()))
      ensures var read := ClientReads(old(packet.Contents()));
              read.Some? ==>
                var digest := sha1(Accounts.Salted(clientToken, read.value.token, sha1(Codec.Chars(password))));
                && serverToken == read.value.token
                && socket.writes == old(socket.writes) + [RequestWire(Login(digest, username))]
    {
      hide Codec.ReadInt32, Codec.ReadString, Valid, Abs, RequestWire;
      Fields();
      var ok, token := ReadServerInformation(packet);
      if !ok {
        Exit();
        return;
      }
      SetServerToken(token);
      SendLogin();
      Fields();
    }

    /** The three strings go into one buffer, of which nothing is used. */
    method ReadServerInformation(packet: PacketBuffer) returns (ok: bool, token: uint32)
      requires Arrived(packet, SID_SERVER_INFORMATION)
      modifies packet`position
      ensures ClientReads(old(packet.Contents())) == if ok then Some(Welcome(token)) else None
    {
      hide Codec.ReadInt32, Codec.ReadString;
      ok, token := packet.ReadNextInt32();
      if !ok { return; }
      var usable, hash, country, system;
      ok, usable := packet.ReadNextInt32();
      if !ok { return; }
      ok, hash := packet.ReadString(1);
      if !ok { return; }
      ok, country := packet.ReadString(1);
      if !ok { return; }
      ok, system := packet.ReadString(1);
    }

    method SetServerToken(token: uint32)
      requires Valid()
      modifies this`serverToken
      ensures Valid() && Abs() == old(Abs()).(serverToken := token)
    {
      serverToken := token;
    }

    method ProcessLoginResponse(packet: PacketBuffer)
      requires Valid() && Arrived(packet, SID_LOGIN_RESPONSE)
      modifies this`ended, socket`writes, packet`position
      ensures Valid() && Abs() == Handle(sha1, Typed(), old(Abs()), old(packet.Contents()))
      ensures ClientReads(old(packet.Contents())) == Some(LoginResult(0)) ==>
                && RequestOk(ChatCommand("/join " + channel))
                && socket.writes == old(socket.writes) + [RequestWire(ChatCommand("/join " + channel))]
      ensures ClientReads(old(packet.Contents())) == Some(LoginResult(2)) ==>
                socket.writes == old(socket.writes) + [RequestWire(Create(sha1(Codec.Chars(password)), username))]
      ensures ClientReads(old(packet.Contents())) !in {Some(LoginResult(0)), Some(LoginResult(2))} ==>
                ended && socket.writes == old(socket.writes)
    {
      hide Codec.ReadInt32, Valid, Abs, RequestWire;
      Fields();
      var ok, result := packet.ReadNextInt32();
      if !ok {
        Exit();
      } else if result == 0 {
        JoinIsSendable();
        Send(ChatCommand("/join " + channel));
      } else if result == 2 {
        var secret := sha1(Codec.Chars(password));
        Send(Create(secret, username));
      } else {
        Exit();
      }
      Fields();
    }

    lemma JoinIsSendable()
      ensures RequestOk(ChatCommand("/join " + channel))
    {
    }

    method ProcessCreateResponse(packet: PacketBuffer)
      requires Valid() && Arrived(packet, SID_CREATE_RESPONSE)
      modifies this`ended, socket`writes, packet`position
      ensures Valid() && Abs() == Handle(sha1, Typed(), old(Abs()), old(packet.Contents()))
      ensures var read := ClientReads(old(packet.Contents()));
              if read.Some? && read.value.code == 0 then
                var digest := sha1(Accounts.Salted(clientToken, serverToken, sha1(Codec.Chars(password))));
                socket.writes == old(socket.writes) + [RequestWire(Login(digest, username))]
              else ended && socket.writes == old(socket.writes)
    {
      hide Codec.ReadInt32, Codec.ReadString, Valid, Abs, RequestWire, Accounts.Salted;
      Fields();
      var ok, result := packet.ReadNextInt32();
      var name := "";
      if ok {
        ok, name := packet.ReadString(1);
      }
      if !ok || result != 0 {
        Exit();
      } else {
        SendLogin();
      }
      Fields();
    }

    method ProcessChatEvent(packet: PacketBuffer)
      requires Valid() && Arrived(packet, SID_CHATEVENT)
      modifies this`ended, this`userList, userList, userList.spine, packet`position
      ensures Valid() && Abs() == Handle(sha1, Typed(), old(Abs()), old(packet.Contents()))
      ensures userList == old(userList) || fresh(userList)
      ensures forall m :: m in userList.spine ==> m in old(userList.spine) || fresh(m)
    {
      hide Codec.ReadInt32, Codec.ReadString, Valid, Abs, ShowEvent;
      var ok, subtype := packet.ReadNextInt32();
      var name, text := "", "";
      if ok {
        ok, name := packet.ReadString(1);
      }
      if ok {
        ok, text := packet.ReadString(1);
      }
      if !ok {
        Exit();
      } else {
        DisplayChannelEvent(subtype, name);
      }
    }

    /** The table updates of display_channel_event. */
    method DisplayChannelEvent(subtype: uint32, name: string)
      requires Valid()
      modifies this`userList, userList, userList.spine
      ensures Valid() && Abs() == ShowEvent(old(Abs()), subtype, name)
      ensures userList == old(userList) || fresh(userList)
      ensures forall m :: m in userList.spine ==> m in old(userList.spine) || fresh(m)
    {
      hide Assoc.Add, Assoc.Remove, LinkedTables.LinkedTable.Valid, LinkedTables.LinkedTable.Model;
      if subtype == EventCode(UserJoinChannel) || subtype == EventCode(UserInChannel) {
        userList.Put(name, name);
      } else if subtype == EventCode(UserLeaveChannel) {
        var _ := userList.Delete(name);
      } else if subtype == EventCode(Channel) {
        userList := new LinkedTables.LinkedTable<string>();
        userList.Put(name, name);
      }
    }

    /** process_next_packet: false once the program has ended. */
    method ProcessNextPacket() returns (alive: bool)
      requires Valid() && !ended
      modifies this`serverToken, this`ended, this`userList, userList, userList.spine, socket`writes, socket`pending
      ensures Valid() && alive == !ended
      ensures Abs() == Take(sha1, Typed(), old(Abs()), Framing.ReadFrame(old(socket.pending)).0)
      ensures socket.pending == Framing.ReadFrame(old(socket.pending)).1
      ensures userList == old(userList) || fresh(userList)
      ensures forall m :: m in userList.spine ==> m in old(userList.spine) || fresh(m)
    {
      hide Valid, Abs, Handle, Framing.ReadFrame;
      var open, packet := socket.ReadBuffer();
      if packet == null {
        Exit();
      } else {
        Dispatch(packet);
      }
      alive := !ended;
    }

    /** The switch on the packet code. */
    method Dispatch(packet: PacketBuffer)
      requires Valid() && packet.Valid() && packet.position == 4
      modifies this`serverToken, this`ended, this`userList, userList, userList.spine, socket`writes, packet`position
      ensures Valid() && Abs() == Handle(sha1, Typed(), old(Abs()), old(packet.Contents()))
      ensures userList == old(userList) || fresh(userList)
      ensures forall m :: m in userList.spine ==> m in old(userList.spine) || fresh(m)
    {
      hide Valid, Abs, Act, ClientReads, Complain;
      var code := packet.data[1];
      if code == SID_SERVER_INFORMATION {
        ProcessServerInformation(packet);
      } else if code == SID_LOGIN_RESPONSE {
        ProcessLoginResponse(packet);
      } else if code == SID_CREATE_RESPONSE {
        ProcessCreateResponse(packet);
      } else if code == SID_ROOM_LIST {
        SendError(NoRoomList);
      } else if code == SID_CHATEVENT {
        ProcessChatEvent(packet);
      } else if code == SID_ERROR {
        ReadComplaint(packet);
      } else if code in {SID_CLIENT_INFORMATION, SID_LOGIN, SID_CREATE, SID_REQUEST_ROOM_LIST, SID_CHATCOMMAND} {
        SendError(ClientOnly);
      } else if code != SID_NULL {
        SendError(UnknownCode);
      }
    }

    /** A SID_ERROR is only displayed. */
    method ReadComplaint(packet: PacketBuffer)
      requires Valid() && Arrived(packet, SID_ERROR)
      modifies this`ended, packet`position
      ensures Valid() && Abs() == Handle(sha1, Typed(), old(Abs()), old(packet.Contents()))
    {
      hide Codec.ReadString, Valid, Abs;
      var ok, _ := packet.ReadString(0);
      if !ok {
        Exit();
      }
    }

    /** do_select: a line that was typed goes out, and then a packet comes in. */
    method DoSelect(typed: Option<string>, ready: bool) returns (alive: bool)
      requires Valid() && !ended && (typed.Some? ==> RequestOk(ChatCommand(typed.value)))
      modifies this`serverToken, this`ended, this`userList, userList, userList.spine, socket`writes, socket`pending
      ensures Valid() && alive == !ended
      ensures var st := if typed.Some? then Write(old(Abs()), RequestWire(ChatCommand(typed.value))) else old(Abs());
              Abs() == if ready then Take(sha1, Typed(), st, Framing.ReadFrame(old(socket.pending)).0) else st
    {
      hide Valid, Abs, Take, Framing.ReadFrame, RequestWire, RequestOk;
      if typed.Some? {
        Send(ChatCommand(typed.value));
      }
      alive := true;
      if ready {
        alive := ProcessNextPacket();
      }
    }

    /** The main loop, as long as bytes of the server are waiting. */
    method CatchUp()
      requires Valid()
      modifies this`serverToken, this`ended, this`userList, userList, userList.spine, socket`writes, socket`pending
      ensures Valid() && Abs() == ReadAll(sha1, Typed(), old(Abs()), old(socket.pending))
    {
      hide Valid, Abs, Take, Framing.ReadFrame;
      var alive := !ended;
      while alive && socket.pending != []
        invariant Valid() && alive == !ended
        invariant ReadAll(sha1, Typed(), Abs(), socket.pending) ==
                  ReadAll(sha1, Typed(), old(Abs()), old(socket.pending))
        invariant userList == old(userList) || fresh(userList)
        invariant forall m :: m in userList.spine ==> m in old(userList.spine) || fresh(m)
        decreases |socket.pending|
      {
        Fields();
        assert forall k :: 0 <= k < |userList.spine| ==> userList.spine[k] in userList.spine;
        alive := ProcessNextPacket();
      }
      Fields();
    }
  }
}
