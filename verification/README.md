# Cattle Chat in Dafny

Cattle Chat is a single-threaded chat server and its client. The server keeps the connections that have not logged in
(`new_users`), the users that have (`old_users`, by name) and the rooms (`rooms`, by name), and every user points back
at its room by name. Server and client exchange framed binary packets; each client rebuilds the list of the users in
its room from the events it is sent. This project models both programs and proves what holds over all their runs.

The model has two levels.

* **Values.** `ServerSpec` is the server as a state machine: one function for each handler, `Step` for one event
  (accept, or one turn of one connection in the select loop) and `Run` for a sequence of events. A connection is named
  by its place in the order of accepts, and `sent` is everything ever written to it, so a client that is behind has
  simply taken a prefix of `sent`. `Handshake` and `ChatClient` are the client in the same style; `Codec`, `Messages`,
  `Framing` and `Accounts` are the bytes on the wire, in a stream and in the account file.
* **Objects.** The C programs overwrite shared records, so the same behaviour is written again with classes: linked
  lists and tables (`LinkedLists`, `LinkedTables`), the growable packet buffer and the stream reader (`PacketBuffers`),
  the account file with its bounded reads (`Accounts.AccountStore`), the server with its users and rooms
  (`ChatServer`), and the client (`ChatClient.Client`). Every method is proved to compute the function on values,
  applied to the abstraction `Abs()` of the whole heap state. So what is proved about runs on values holds of the
  objects: `DoSelect` is a `Run`.

The main results:

1. **Rosters.** In every state with the invariants, so in every reachable one, whatever part of its packets a connected
   client has taken, once it takes the rest its list is exactly the key set of its room's table
   (`Guarantees.RosterIsReplicated`). From raw bytes, a client that reads everything shows its room, unless it was
   stopped by a refusal or by a packet longer than it accepts, which are the only things that stop it
   (`ChatClient.ClientShowsItsRoom`). `EndToEnd.Deliver` puts the two programs together: the client object, given what
   the server object wrote, shows the room that the server's own record names.
2. **Users and rooms.** The partition claimed at server.c:42-45, back-pointers that agree in both directions
   (disconnects included), room names that are never truncated, nobody in two rooms, no NULL room on the talk path.
3. **Select rounds.** A round over stale snapshots is a run of single events in which every ready user has one turn.
4. **Delivery.** Who receives what from a talk, a whisper and a join, and what the joining user is sent, packet for
   packet; and from the typed line on: which word in which capitals is which command, what its parameter is, and where
   every join leads (`CommandLines.ATypedCommandIsDone`, `Answers.WhereAJoinLeads`).
5. **Authentication.** A user is logged in under a name only because it sent the digest of its two tokens and the
   stored hash, with the tokens it still has, and a digest that is taken again under other tokens is a collision of
   SHA-1 (`Authentication.AuthenticatedOnlyByLogin`, `Passwords.AReplayedLoginNeedsACollision`).
6. **Handshake.** At most LOGIN, CREATE, LOGIN under any interleaving, exactly when it ends in success, and that it
   does when nobody else uses the name and the others cannot use up the descriptors, whatever else they do. It then
   leads into the room that was typed in, exactly if that is 1 to 15 characters long and not "backstage" in any
   capitals (`Entering.TheHandshakeEndsInTheRoom`).
7. **Survival.** The server process ends exactly when a packet arrives that is malformed for its sender's state, or
   that needs the account file while no descriptor is left (`Survival.RunCrashesExactly`). Packets that the client
   program builds, in any state and order, end it in the second way only, and exactly when the connections and the
   creates for existing names, each of which keeps a descriptor for good, have taken all there are
   (`Survival.ClientsEndTheServerExactly`). That does come about, whatever the number of descriptors
   (`Exhaustion.ClientsCanEndTheServer`).
8. **Accounts.** The printed file is read back through 72-character reads, including 31-character names whose newline
   arrives as a read of its own; which names can be registered is stated in numbers (`Registration.CreateIsAnswered`).
9. **Bytes.** Field and frame round trips with their exact conditions, every packet byte for byte with the numbers of
   types.h and account.h (`Layout`), resynchronisation, and a growable buffer whose total copying is linear.

Seven things that one might expect are false of the code, and are stated exactly:

* The server does not outlive its own clients: `find_account` returns at account.c:78-79 without closing the file when
  its caller wants no record, so every create for a name that exists keeps a descriptor, and a later login or create
  ends the process at account.c:57-58. One client's creates do it exactly when they are more than the descriptors left
  (`Exhaustion.RepeatedCreatesEndTheServer`); a run whose accepts and creates are fewer than those never does
  (`Survival.FewTakersEndNothing`).
* A user who disconnects stays listed in its room. `Departures.AGhostIsReachable` is a run in which that happens,
  `Departures.RunsAreGhostFreeExactly` says which runs are free of it, `Departures.GhostsStayUntilReplaced` how such an
  entry disappears, and `Departures.LeavingFirstStrandsNobody` proves the disconnect that would avoid it.
* A whisper reaches the user it names if and only if that name has no space
  (`Delivery.WhisperReachesExactlySpacelessNames`; doc/user.txt:77-80 says so of `/tell`), although names with a space
  can be registered. It goes to the user of the first word instead, with the rest of the name in front of the text
  (`Delivery.WhisperGoesToTheFirstWord`): `Witnesses.AWhisperGoesAstray` is a reachable state in which what is meant for
  RON BOWES is told to RON.
* A chat event can be too long for the client that receives it. A talk fits exactly when the speaker's name and the
  text have at most 9590 characters together (`Delivery.TalkFitsExactly`), and the server takes texts of 9595:
  `Witnesses.AnOverlongEventIsReachable` is a state in which one has been sent, and
  `Witnesses.AClientIsStoppedByItsOwnTalk` what it does to the speaker's own client.
* The client's first command overflows its buffer exactly when the channel is more than seven characters longer than
  the name in the answer: `ChatClient.FirstJoinFitsExactly`.
* A block of bytes at the end of a packet cannot be read back, because `can_read_bytes` compares strictly:
  `Codec.FieldsRoundTripExactly`.
* doc/developer.txt:31 calls the length field big-endian. The code writes and reads it little end first
  (packet_buffer.c:43-44 and 366-379), and so does the model.

`dafny verify dfyconfig.toml` checks everything.

## Model

| member | source | states |
|---|---|---|
| `Guarantees.RosterIsReplicated` | server.c:312-397 | In every state with the invariants, replaying the undelivered events over the list a connected client already shows gives exactly the names in its room's table; outside of rooms at most its own name, before login nothing |
| `ChatClient.ClientShowsItsRoom` | output.c:304-386 | A client that reads every byte such a server wrote to it shows exactly its room's names, and it is stopped early if and only if it was refused or sent an overlong packet |
| `EndToEnd.Deliver` | client.c:453-454 | The client object, given every byte the server object wrote to its user, shows exactly the names in the table of that user's room, and ends exactly if it was refused or sent an overlong packet |
| `EndToEnd.WhatArrives` | packet_buffer.c:424-434 | The bytes in the writes of a user's socket are those of the packets sent to it, so they do to a client what those packets do |
| `ChatClient.HandlesWhatWasMeant` | client.c:271-334 | Each server packet, read back from its bytes, updates the list as its event says, is answered with the request the handshake calls for, and ends the program only if it is a refusal |
| `ChatClient.AnswersByteForByte` | client.c:59-212 | The bytes of every answer: the digest of the 28-byte block under code 3, the hash of the password under code 5, "/join " and the typed channel under code 9, each after the packets that call for it, and nothing after any other |
| `ChatClient.OutOfPlaceIsProtested` | client.c:317-328 | Every packet that no server sends is answered with the error text for its code, and a keepalive with nothing |
| `ChatClient.ReadAllTakesPackets` | client.c:271-334 | The byte stream of the server's packets is consumed packet by packet, up to the first one that is too long or fatal |
| `ChatClient.EndsExactly` | output.c:459-491 | The client ends on the first refusal or overlong packet and on nothing else; until then its list is the replay of what it was sent |
| `ChatClient.ACutPacketEnds` | client.c:276-285 | A packet that has not arrived whole when the client reads it ends the program |
| `ChatClient.AnEndlessStringEnds` | packet_buffer.c:200-206 | So does a packet whose handler reads a string, if no zero follows its header |
| `Roster.ViewAfter` | output.c:304-386 | One more event changes the set of names shown as the protocol says: join and in-channel add, leave removes, channel starts afresh with oneself |
| `Roster.OnlyFourKindsCount` | output.c:304-386 | Kind by kind, the set of names after one more event; topics, notices, talks and whispers, and packets that are no events, leave it alone |
| `Roster.ReplayResumes` | output.c:304-386 | Delivering some packets now and the rest later gives the same list, in the same order, as delivering all of them |
| `Roster.ReplayIsUnique` | output.c:304-386 | The client's list never shows a name twice |
| `Guarantees.UsersArePartitioned` | server.c:39-46 | Connected users are exactly those in new_users or old_users, never both, each once, under their own names, on the side that their state says |
| `Guarantees.BackPointersAgree` | server.c:335-394 | A connected user's room exists and stores it under its own name, and whatever a room stores under a name is a user of that name who is in that room, also after disconnects |
| `Guarantees.RoomNamesAreSound` | server.c:318-377 | Every registered room is stored under its own untruncated name of 1 to 15 characters, never "backstage" in any capitals |
| `Guarantees.RoomsAndAccountsPersist` | server.c:367-377 | Over any run, rooms are never removed and a stored account keeps its hash |
| `Guarantees.ReachableInv` | server.c:730-832 | Every state reached from an empty server over a well-formed account file has the invariants |
| `Guarantees.StepGrows` | account.c:163-184 | One event removes no room and no account, and adds nobody but the acting user to a room |
| `Guarantees.JoinGrows` | server.c:312-397 | A join removes no room, adds only its own user to one, and leaves the account file alone |
| `Stepping.RunKeeps` | server.c:730-832 | All invariants hold in every state of every run |
| `Stepping.StepKeeps` | server.c:645-708 | Every event keeps all invariants |
| `Stepping.PromoteKeeps` | server.c:493-505 | A successful login moves the user from new_users to old_users, overwrites nobody and truncates no name |
| `Stepping.CloseOldKeeps` | server.c:806-811 | Closing an authenticated connection keeps every invariant although the user stays in its room |
| `Stepping.CollectionsMatchStates` | server.c:39-46 | Membership in the two collections is exactly being connected in the right pair of states |
| `Stepping.LoginStatusIsSound` | server.c:478-482 | The status of every login as a case distinction: name in use, no descriptor left (the process ends), unknown, digest right, digest wrong; the exit on a malformed account line is not among them |
| `Joining.JoinKeeps` | server.c:312-397 | Every join, refused or not, keeps all invariants, the rosters of all clients included |
| `Joining.LeaveRoomKeeps` | server.c:335-345 | After the departure every other client's list still matches its room, and the user is in no room's table |
| `Joining.EnterRoomKeeps` | server.c:367-394 | Entering a room brings the newcomer's list and those of all its members into step with the new table |
| `Joining.SendAllEffect` | room.c:90-91 | A broadcast gives one packet to each listed open connection and changes nothing else |
| `Rounds.RoundIsARun` | server.c:754-828 | A select round over snapshots taken before anything happened equals the run of its single events, and keeps every invariant |
| `Rounds.ReachableRun` | server.c:730-832 | What a reachable state runs to, a round included, is reachable |
| `Rounds.EveryReadyUserHasOneTurn` | server.c:800-828 | Exactly the connected, ready users have a turn, each one turn; the one accepted in the round has none and a promoted one no second |
| `Rounds.TurnsComeInOrder` | server.c:784-828 | The accept comes first in a round, then the authenticated users in table order, then the new users in list order |
| `Rounds.OnlyFailedReadsDisconnect` | server.c:803-826 | A failed read disconnects exactly that user, any other poll nobody |
| `Answers.ADisconnectTakesOutTheConnection` | server.c:803-826 | A lost connection is taken out of its collection; the record of its user, the rooms and everybody else stay as they are |
| `Answers.NothingComesOfIt` | server.c:630-640 | A read that brings no packet, a keepalive and a readable error report change nothing at all |
| `Rounds.SnapshotsAreSound` | server.c:754-768 | The two snapshots list connected users without repetition, each on its own side |
| `Rounds.OldLoop` | server.c:800-814 | The loop over authenticated users is a run of their turns, keeps the invariants and leaves the new users' snapshot valid |
| `Rounds.NewLoop` | server.c:815-828 | The loop over new users is a run of their turns and keeps the invariants |
| `Delivery.TalkReachesExactlyTheRoom` | server.c:616-624 | A talk sends one identical packet to every connected user of the room, the speaker included, and none to any other connected user; the room lookup never fails |
| `Delivery.TalkFitsExactly` | server.c:616-624 | What a talk sends to a connected user of the room is within MAX_PACKET if and only if the speaker's name and the text have at most 9590 characters together |
| `Answers.ATalkNeedsARoom` | server.c:614-619 | A talk outside of rooms sends the speaker one error event and changes nothing else |
| `Delivery.WhisperReachesExactlyTwo` | server.c:282-308 | A whisper to a name without a space reaches its addressee and is echoed to the sender, and changes nobody else |
| `Delivery.WhisperReachesExactlySpacelessNames` | server.c:287-297 | A connected user named in a whisper receives it if and only if the name has no space; with a space the record of that user does not change at all |
| `Delivery.WhisperGoesToTheFirstWord` | server.c:282-308 | Whatever is typed for the name, the whisper goes to the user of its first word, the rest of it in front of the text, with an echo to the sender; or nowhere but an error to the sender if nobody has that name |
| `Delivery.ANameWithASpace` | account.c:167-174 | A name with a space, as in the repository's own accounts.ini, is valid, and what a whisper makes of it |
| `Answers.AWhisperNeedsASpace` | server.c:287-292 | A whisper without a space sends its sender the usage line as one error event and changes nothing else |
| `Answers.AWhisperNeedsAUser` | server.c:297-301 | A whisper to a name that no connected, authenticated user has sends its sender one error event and changes nothing else |
| `Witnesses.AWhisperGoesAstray` | server.c:282-308 | A reachable state with ann, RON and RON BOWES online, in which "/w RON BOWES hi" tells RON "BOWES hi" and RON BOWES nothing |
| `Witnesses.AnOverlongEventIsReachable` | server.c:616-624 | A reachable state in which the last packet sent to a connected user is a talk longer than the client accepts |
| `Witnesses.AClientIsStoppedByItsOwnTalk` | packet_buffer.c:390-394 | The client of that user, reading everything that the server wrote to it, has ended |
| `Delivery.JoinIsExact` | server.c:333-395 | A join moves exactly this user and notifies exactly the connected users of both rooms, the departure before the arrival; every other room is unchanged |
| `Delivery.LeaveIsExact` | server.c:335-345 | Exactly the other connected users of the old room hear of the departure, and only that room's table loses the name |
| `Delivery.EnterIsExact` | server.c:367-394 | Exactly the connected users of the new room hear of the arrival, and only that room's table gains the name |
| `Delivery.LeavingChatIsExact` | server.c:347-364 | Joining without a name takes the user out, tells the old room, and leaves its client showing itself alone |
| `Delivery.RefusedJoinOnlyComplains` | server.c:318-332 | A refused join sends the user one error and changes nothing |
| `Answers.WhereAJoinLeads` | server.c:312-397 | For every name: one error if it is longer than 15 characters or spells "backstage" in any capitals, out of all rooms with two notices if it is empty, and otherwise into the table of that room |
| `Spelling.BackstageInAnyCapitals` | server.c:318 | The names refused by the comparison are those of nine letters each of which is that of "backstage", small or capital |
| `Delivery.MembersAreThoseInTheRoom` | room.c:61-71 | A connected user is in a room's table exactly when its own record names the room |
| `Delivery.MessageKeepsIdentity` | server.c:550-630 | No command changes the sender's name, tokens or connection, or takes it out of the authenticated states |
| `Transcripts.JoinTranscript` | server.c:366-394 | What the joining user is sent, in order: notice of creation if the room is new, the room, everybody found there in table order, its own arrival; an entry found under its own name is a departed user |
| `Transcripts.IntroductionsAreSent` | room.c:133-157 | The list of users arrives as one packet for each member, in order |
| `Commands.AliasesAreAsDocumented` | server.c:235-275 | The names that /help lists together do the same, whatever the order of the comparisons: those of join join, those of w whisper, and those of the other four groups answer the sender with the lines given for them |
| `Commands.CapitalsDoNotMatter` | server.c:585-612 | Two spellings of a command that differ in capitals do the same |
| `Spelling.SameIgnoringCaseIs` | server.c:585 | Two strings compare equal exactly if they have one length and at each place the same character, or a capital letter and the character 32 codes above it |
| `CommandLines.SplitsAtTheFirstSpace` | server.c:571-583 | The word ends at the first space and the parameter is all that follows it, spaces included; without a space it is empty |
| `CommandLines.AWordIsItsCommand` | server.c:585-608 | Each of the sixteen words, in any capitals, is its command: join and channel join, w, whisper, m and msg whisper, the other ten answer the sender with the lines given for them |
| `CommandLines.ATypedCommandIsDone` | server.c:550-608 | The packet that carries "/word parameter" is carried out with the parameter as typed but for the filter, and "/word" alone with an empty one |
| `CommandLines.AnyOtherWordIsUnknown` | server.c:609-612 | Any word that is none of the sixteen earns the sender one error event, and nothing else is different |
| `CommandLines.ATypedTextIsSaid` | server.c:614-626 | A text that does not start with a slash is said to the room |
| `Effects.HandleExtends` | server.c:645-708 | A packet changes no other user's record but for packets sent to it, retracts nothing that was sent, and sends nothing to others who have not logged in |
| `Effects.PollExtends` | server.c:800-828 | The same for a whole turn, closing the connection included |
| `Authentication.AuthenticatedOnlyByLogin` | server.c:467-505 | In every run a user is in old_users under a name only if an earlier packet of its own was a login for that name with the right digest, and its tokens are still those |
| `Authentication.StatesOnlyAdvance` | server.c:418-432 | States advance one at a time, but for moves between the two authenticated ones; the server token is fixed, and so is the client token once it was set |
| `Authentication.StepAuthenticates` | server.c:493-505 | One event authenticates nobody but the sender of a correct login |
| `Passwords.SaltedBytes` | password.c:37-47 | The block that is hashed has 28 bytes: the four of the client token, the four of the server token, both low end first, and the hash of the password |
| `Passwords.SaltedIsInjective` | password.c:37-47 | Different tokens or hashes make different blocks |
| `Passwords.AnOldDigestNeedsACollision` | account.c:141-160 | A digest that is good for two pairs of tokens shows two different 28-byte blocks with one SHA-1 |
| `Passwords.AReplayedLoginNeedsACollision` | server.c:478-482 | The same over runs: a digest taken from one connection and later from another, under other tokens, is such a collision |
| `Answers.AnAcceptDrawsTheToken` | user.c:20-34 | An accepted connection starts, unknown and in no room, with the token drawn for it |
| `Answers.TheTokenDrawnIsTheTokenSent` | server.c:436-445 | That token is what its client is told, whatever happens before it introduces itself, and what its logins are checked with |
| `Handshake.HandshakeSucceedsExactly` | client.c:59-212 | The client goes on to its first command if and only if, at the login, the server is alive with a descriptor left and the name is free, and either the stored hash gives the same digest, or there is no account, a valid name is still unregistered at the create and free at the second login, and a descriptor is left at both; and which state the server is then in |
| `Undisturbed.UndisturbedHandshakeSucceeds` | client.c:59-212 | With a valid name that nobody is logged in under, an account that is absent or has the same password, and more descriptors than the accepts and creates of the others can take, the handshake ends in success, whatever packets of the client program the others send meanwhile, as long as none is a login or create for that name; it takes no descriptor itself |
| `Entering.AnUndisturbedClientEntersItsRoom` | client.c:59-212 | Such a client, if its channel has 1 to 15 characters and is not the restricted room, ends up in the table of that room under its own name |
| `Entering.TheHandshakeEndsInTheRoom` | client.c:110-116 | After every handshake that succeeds, whatever the others do before, the first command is served as a join of the typed channel, which puts the user there exactly if the name is admissible, and otherwise leaves it in no room |
| `Entering.JoinedIsLoggedIn` | client.c:104-116 | A handshake that succeeds, under any interleaving, leaves the user authenticated under its typed name and in no room, and the client about to send "/join " and its channel |
| `Entering.TheFirstCommandJoins` | client.c:113-115 | That request is served as a join of the channel as the filter lets it through |
| `Undisturbed.NameStaysFree` | server.c:467-505 | Nobody comes to be logged in under a name by an event that is not a login for it |
| `Undisturbed.AccountStaysPut` | account.c:163-184 | A name's account changes only by an event that is a create for it |
| `Handshake.AtMostLoginCreateLogin` | client.c:96-212 | Whatever the others do, the client sends a prefix of login, create, login, and three answers always suffice |
| `Handshake.HandshakeStarts` | client.c:433-450 | The client information is answered with the very token the server checks against, and the client answers that with the login for it |
| `Handshake.LoginTurn` | server.c:456-513 | One login of this client, whatever the others did first, ends in one of the listed ways |
| `Handshake.CreateTurn` | server.c:515-548 | One create succeeds exactly for a valid unregistered name on a server that is alive with a descriptor left, and then stores the client's own hash |
| `Handshake.LastLogin` | client.c:170-185 | After a successful create the account cannot be unknown again: the login joins exactly if the server can look it up and the name is free |
| `Handshake.WaitingChangesNothing` | server.c:730-832 | Events of others leave a user that is logging in, and every stored account, as they were |
| `Arrivals.SomebodyLogsIn` | client.c:59-212 | From every reachable state with two descriptors left, and for every valid free name with no account or the same password, a reachable state in which that user is logged in too, the others and their accounts kept |
| `Survival.RunCrashesExactly` | account.c:55-59 | A run ends the process if and only if some packet in it, on arrival, is malformed for the state its sender is in or needs the account file with no descriptor left |
| `Survival.HandleCrashesExactly` | server.c:645-708 | A handler ends the process exactly when it starts reading a packet it cannot finish, or needs the account file with no descriptor left; the NULL room and the malformed account line never occur |
| `Survival.UnreadableIs` | packet_buffer.c:229-262 | In bytes, what cannot be read: a text without a zero after the header, credentials without one after the digest, a client information without two after its three numbers |
| `Survival.StepCrashesExactly` | server.c:800-828 | The same for one event of any kind |
| `Survival.ClientsEndTheServerExactly` | account.c:78-79 | A run of packets that the client program can build, in whatever states they arrive, ends the server if and only if some login or create that needs the account file finds connections and earlier creates for existing names to be at least as many as the descriptors |
| `Survival.FewTakersEndNothing` | account.c:55-59 | Such a run does not end the server while its accepts and creates are fewer than the descriptors left |
| `Exhaustion.RepeatedCreatesEndTheServer` | account.c:163-184 | k creates for an existing name by one client end the server if and only if k is more than the descriptors left; until then each takes one and the client may go on |
| `Exhaustion.CreateOnceMore` | account.c:78-79 | One create for an existing name takes one descriptor, or ends the server if none is left |
| `Exhaustion.ClientsCanEndTheServer` | account.c:55-59 | For every positive number of descriptors there is a run of client packets from an empty server that ends it |
| `Descriptors.RunLeaks` | account.c:78-79 | The streams that a run leaves open are its creates for existing names, each of them and nothing else |
| `Descriptors.StepUses` | server.c:784-828 | What one event does to the descriptors, exactly: an accept takes one, a close gives one back, a create for an existing name keeps one for good |
| `Descriptors.HandleUses` | account.c:41-184 | Of all packets, served in any state, only a create for an existing name takes a descriptor |
| `Descriptors.UseIsBounded` | server.c:784-797 | A run takes at most as many descriptors as it has accepts and creates |
| `Survival.OutOfPlaceOnlyEarnsAnError` | server.c:418-421 | A packet that the sender's state does not allow earns it one SID_ERROR and changes nothing else |
| `Answers.OutOfPlaceIsAnswered` | server.c:672-704 | The text of that error for each packet code in numbers |
| `Departures.GhostsComeExactlyFromDisconnects` | server.c:806-811 | Starting without departed members, an event leaves one exactly when it closes the connection of a user who is in a room |
| `Departures.RunsAreGhostFreeExactly` | server.c:806-811 | Every state of a run is free of departed members if and only if no event of it closes the connection of a user who is in a room |
| `Departures.GhostsStayUntilReplaced` | room.c:61-64 | Over any event a departed member stays listed under its name, unless and only unless the event brings a user of the same name into that room |
| `Departures.AGhostIsReachable` | server.c:806-811 | A run (connect, register, log in, join, hang up) after which a room lists somebody who is not connected |
| `Departures.LeavingFirstStrandsNobody` | server.c:806-811 | A disconnect that first leaves the room keeps every invariant and strands nobody |
| `Accounts.CreateRoundTrip` | account.c:163-184 | On a well-formed file, create succeeds and appends one record exactly for a valid absent name; then the name is found with its hash, every other name as before, and the file is well-formed |
| `Registration.CreateStatusIs` | account.c:163-184 | In numbers: too short below 2 characters, too long above 31, illegal with a character below 32, above 126 or a semicolon, exists if the name is found, success if none of these |
| `Registration.CreateIsAnswered` | server.c:515-548 | The create packet is answered with the name and that status; the process ends exactly for a name that could be registered when no descriptor is left |
| `Registration.ValidNameIs` | account.c:167-174 | The valid names are those of 2 to 31 characters from 32 to 126 without a semicolon |
| `Registration.TheRecordWritten` | account.c:130-135 | A successful create appends the name, a semicolon, two small hexadecimal digits for each of twenty bytes, the high one first, and a newline |
| `Registration.TheHashRead` | account.c:84-104 | A stored hash is read exactly if it starts with forty hexadecimal digits in either form, and its bytes are what they denote |
| `Accounts.FindIsLookup` | account.c:41-113 | First-match search of the printed file through bounded reads is the lookup in its records, hash intact |
| `Accounts.FirstChunkOfRecord` | account.c:64-72 | What the first bounded read returns of a record: the whole line, or for a 31-character name all but the newline |
| `Accounts.FindInFirstRecord` | account.c:64-109 | Searching past a record continues behind it, the stray newline of a long name skipped |
| `Accounts.HexRoundTrip` | account.c:93-104 | Parsing 40 printed hex digits gives back the hash |
| `Accounts.FoundNamesAreValid` | account.c:84-102 | In a well-formed file every name that is found is valid and its hash is readable |
| `Accounts.ValidNameIsClean` | account.c:167-174 | A valid account name survives the character filter and fits the username field |
| `Accounts.AccountStore.Fgets` | account.c:64-67 | The read loop returns what fgets with that size does |
| `Accounts.AccountStore.FindAccount` | account.c:41-113 | The first record with the name, in any file; failing exactly when no descriptor is left, and keeping the stream open exactly when the name is found and no record is wanted |
| `Accounts.AccountStore.Search` | account.c:62-109 | The loop over bounded reads finds the first record with the name |
| `Accounts.AccountStore.ReadHash` | account.c:84-104 | The digit loop parses the hash or reports the malformed line |
| `Accounts.AccountStore.AccountCreate` | account.c:163-184 | Result and new file are those of the function on values; it ends the process exactly for a valid name with no descriptor left, keeps a stream open exactly when the account exists, and never fails the assertion of add_account |
| `Accounts.AccountStore.AddAccount` | account.c:116-136 | For a name without a semicolon, as asserted, appends exactly the printed record; fails exactly when no descriptor is left |
| `Accounts.AccountStore.Append` | account.c:130-133 | The printing loop appends the name, a semicolon, forty digits and the newline |
| `Accounts.AccountStore.AccountLogin` | account.c:141-160 | The comparison loop succeeds exactly when the digest is the hash of the tokens and the stored hash; it fails exactly when no descriptor is left or the stored hash cannot be parsed, and keeps no stream open |
| `Framing.ReadFrameFindsTheNextFrame` | packet_buffer.c:333-419 | read_buffer returns a packet if and only if the stream is bytes without 0xFF, then that acceptable frame, then what it leaves |
| `Framing.DrainReturnsTheFramesSent` | packet_buffer.c:348-355 | Repeated reads return exactly the frames sent, in order, whatever garbage without 0xFF lies between and after them |
| `Framing.DrainIsCompositional` | packet_buffer.c:333-419 | A stream of frames followed by anything is read as the frames followed by what the rest gives |
| `Framing.Drain` | packet_buffer.c:333-419 | Reading until the connection is dead terminates on every finite stream, and returns only frames of acceptable length |
| `Framing.OversizeFrameCloses` | packet_buffer.c:390-394 | A frame above the limit makes read_buffer give up the connection |
| `Framing.ReadFrameGivesUpExactly` | packet_buffer.c:348-394 | The connection is given up exactly at the end of the stream or at a header whose length is below 4 or above 9600; otherwise, without a packet, all there was is used up |
| `Codec.FieldsRoundTripExactly` | packet_buffer.c:108-262 | Typed fields written in order are read back equal, strings filtered and the position at the end, if and only if the last field is not a byte block |
| `Codec.FieldsReadBack` | packet_buffer.c:108-262 | The same from any position of any buffer that ends with the encoded fields |
| `Codec.BytesInLastPlaceAreRefused` | packet_buffer.c:258-262 | A byte block in last place is refused by the strict comparison |
| `Codec.FramesAreExactlyHeaderPlusPayload` | packet_buffer.c:1-8 | The sequences with a consistent header are exactly 0xFF, code, little-endian total length, payload |
| `Codec.FilterIsIdempotent` | packet_buffer.c:210-211 | Filtering twice is filtering once, and it changes nothing exactly on clean strings |
| `Codec.ReadStringAt` | packet_buffer.c:200-216 | A string written at a position is read there, filtered, through its NUL |
| `Codec.Le16RoundTrip` | packet_buffer.c:128-135 | Little-endian 16-bit writing and reading are inverse in both directions |
| `Codec.Le32RoundTrip` | packet_buffer.c:136-145 | Little-endian 32-bit writing and reading are inverse in both directions |
| `Layout.Le16Bytes` | packet_buffer.c:128-135 | The low byte comes first |
| `Layout.Le32Bytes` | packet_buffer.c:136-145 | Byte k is the k-th digit to the base 256 |
| `Layout.SeenIs` | packet_buffer.c:210-211 | A character from 32 to 127 arrives as it is, any other as a dot |
| `Messages.ClientReadsWhatTheServerWrote` | types.h:19-142 | For every packet of the server, the client's handlers read exactly the fields that were put in |
| `Messages.ServerReadsWhatTheClientWrote` | types.h:26-98 | For every request of the client, the server's handlers read its fields, names and texts filtered |
| `Messages.ChatEventFitsExactly` | packet_buffer.h:19 | A chat event stays within MAX_PACKET exactly when name and text have at most 9590 characters together |
| `Messages.EventOf` | types.h:111-142 | Event kinds and their codes correspond one to one, and no other code has a kind |
| `Layout.ChatEventBytes` | types.h:94-142 | Code 10, the number of the event, the name and the text, each with its zero |
| `Layout.LoginResponseBytes` | account.h:32-38 | Code 4 and the number of each login status, then the name |
| `Layout.CreateResponseBytes` | account.h:23-30 | Code 6 and the number of each create status, then the name |
| `Layout.ServerInformationBytes` | server.c:440-445 | Code 2, the token, the number 1, "sha1" and two empty strings |
| `Layout.ErrorReportBytes` | server.c:81-89 | Code 11 and the text |
| `Layout.ClientInformationBytes` | client.c:437-449 | Code 1, token, time, zero, "Canada" and "Linux" |
| `Layout.LoginBytes` | client.c:86-91 | Code 3, the digest and the name |
| `Layout.CreateBytes` | client.c:136-140 | Code 5, the hash of the password and the name |
| `Layout.ChatCommandBytes` | client.c:43-52 | Code 9 and the line |
| `PacketBuffers.PacketBuffer.GrowthIsLinear` | packet_buffer.c:108-127 | Doubling copies capacity minus 64 bytes in all, less than twice the length; below 32768 bytes the next byte always fits |
| `PacketBuffers.PacketBuffer.ContentsIsFrame` | packet_buffer.c:40-51 | The header always encodes the length: the bytes of a buffer are the frame of its code and payload |
| `PacketBuffers.PacketBuffer.Create` | packet_buffer.c:54-71 | A new buffer is an empty frame of capacity 64 |
| `PacketBuffers.PacketBuffer.FromData` | packet_buffer.c:75-93 | A buffer made from a body is the frame of code and body |
| `PacketBuffers.PacketBuffer.AddInt8` | packet_buffer.c:108-127 | Appends one byte to the payload; growth keeps every earlier byte |
| `PacketBuffers.PacketBuffer.AddInt16` | packet_buffer.c:128-135 | Appends the two bytes, low end first |
| `PacketBuffers.PacketBuffer.AddInt32` | packet_buffer.c:136-145 | Appends the four bytes, low end first |
| `PacketBuffers.PacketBuffer.AddNtString` | packet_buffer.c:146-155 | Appends the characters and one NUL |
| `PacketBuffers.PacketBuffer.AddBytes` | packet_buffer.c:156-164 | Appends the block |
| `PacketBuffers.PacketBuffer.ReadNextInt8` | packet_buffer.c:170-175 | Reads the next byte, or reports the failed assertion at the end of the packet |
| `PacketBuffers.PacketBuffer.ReadNextInt16` | packet_buffer.c:176-186 | Reads two bytes, low end first, or reports the failed assertion |
| `PacketBuffers.PacketBuffer.ReadNextInt32` | packet_buffer.c:187-199 | Reads four bytes, low end first, or reports the failed assertion |
| `PacketBuffers.PacketBuffer.ReadNextBytes` | packet_buffer.c:217-227 | Reads a block, or reports the failed assertion when no byte follows it |
| `PacketBuffers.PacketBuffer.CanReadNtString` | packet_buffer.c:247-257 | True exactly when a NUL follows in the packet |
| `PacketBuffers.PacketBuffer.ReadNextNtString` | packet_buffer.c:200-216 | Never reads past the end once the check has passed, writes only the first max_length characters of its buffer, filters, terminates, and says where it stops when the limit cuts |
| `PacketBuffers.PacketBuffer.ReadString` | server.c:473-476 | With the limits the handlers pass, get_length or get_length - 1, nothing is ever cut and the string is consumed through its NUL |
| `PacketBuffers.Socket.ReadBuffer` | packet_buffer.c:333-419 | The byte-by-byte reader, with its three results, computes the function on streams |
| `PacketBuffers.Socket.SkipGarbage` | packet_buffer.c:348-355 | Discards exactly the bytes before the first 0xFF |
| `Assoc.AddRefinesMapUpdate` | table.c:45-75 | table_add maps exactly this key to exactly this value; a new key goes to the end, an old one keeps its place, keys stay unique |
| `Assoc.RemoveRefinesMapRemoval` | table.c:95-126 | table_remove deletes exactly this key, finding it then gives NULL, and the rest keeps its order |
| `LinkedTables.LinkedTable.Put` | table.c:45-75 | Walking the chain is the update of the ordered map; the chain stays acyclic |
| `LinkedTables.LinkedTable.Get` | table.c:78-92 | The walk returns the value of the key, or NULL exactly when it is absent |
| `LinkedTables.LinkedTable.Delete` | table.c:95-126 | Unlinks exactly the entry of the key and returns its value |
| `LinkedTables.LinkedTable.GetKeysAndValues` | table.c:131-186 | Keys and values are aligned with each other and with table_find, in insertion order, and the keys are all of them |
| `LinkedTables.LinkedTable.Count` | table.c:190-202 | The count is the number of entries and of distinct keys |
| `LinkedTables.KeysAreAsManyAsEntries` | table.c:190-202 | Unique keys make the number of entries the size of the map |
| `LinkedLists.LinkedList.AddBeginning` | list.c:58-73 | Prepends, and leaves the list unlocked |
| `LinkedLists.LinkedList.AddEnd` | list.c:75-102 | Appends, and leaves the list unlocked |
| `LinkedLists.LinkedList.RemoveBeginning` | list.c:105-126 | Removes and returns the first element, if any |
| `LinkedLists.LinkedList.RemoveEnd` | list.c:128-167 | Removes and returns the last element, if any |
| `LinkedLists.LinkedList.RemoveValue` | list.c:171-202 | Removes exactly the first occurrence and says whether there was one |
| `LinkedLists.LinkedList.GetElement` | list.c:205-226 | The element at an index, or nothing past the end |
| `LinkedLists.LinkedList.RemoveElement` | list.c:229-266 | Removes and returns the element at an index, if there is one |
| `LinkedLists.LinkedList.Contains` | list.c:269-282 | True exactly for the elements |
| `LinkedLists.LinkedList.GetCount` | list.c:286-299 | The length |
| `LinkedLists.LinkedList.GetArray` | list.c:303-326 | All elements in order |
| `Stepping.WithoutIsAllButOne` | list.c:171-202 | Without repetitions, removing a value leaves exactly the others, still without repetitions |
| `ChatServer.User.constructor` | user.c:20-34 | A new user: connected, not logged in, no room |
| `ChatServer.User.SetUsername` | user.c:50-54 | Stores the name, cut to 31 characters |
| `ChatServer.User.Send` | packet_buffer.c:424-434 | One packet more was sent to this user if its connection is open, and the bytes written stand for it |
| `ChatServer.Room.constructor` | room.c:25-37 | A new room without users, its name cut to 15 characters |
| `ChatServer.Room.AddUser` | room.c:61-64 | The user's name now stands for this user and every other name for what it did |
| `ChatServer.Room.RemoveUser` | room.c:68-71 | The user's name stands for nobody and every other name for what it did |
| `ChatServer.Server.constructor` | server.c:39-49 | An initial state of the machine over the given account file, with all its descriptors free; reachable if the file is well-formed |
| `ChatServer.Server.UserChanged` | user.c:50-112 | Overwriting one user's record changes exactly that record of the machine's state |
| `ChatServer.Server.RoomChanged` | room.c:61-71 | Overwriting one room's table changes exactly that table of the machine's state |
| `ChatServer.Server.SendError` | server.c:81-89 | The error packet, built with the add calls, is one Send of the machine |
| `ChatServer.Server.SendChat` | server.c:93-116 | Looked up by name, sent to that user, and false exactly if nobody has the name |
| `ChatServer.Server.RoomMessage` | room.c:74-96 | The loop over the members is the broadcast of the machine |
| `ChatServer.Server.SendUsersInChannel` | room.c:133-157 | The loop sends the machine's list of users |
| `ChatServer.Server.ProcessCommandJoin` | server.c:312-397 | Computes the machine's join on the shared records |
| `ChatServer.Server.ProcessCommandW` | server.c:282-308 | Computes the machine's whisper |
| `ChatServer.Server.Say` | server.c:614-626 | Computes the machine's talk, the missing room included |
| `ChatServer.Server.ProcessMessage` | server.c:572-626 | Splits and dispatches the command line as the machine does |
| `ChatServer.Server.ProcessChatCommand` | server.c:550-630 | Computes the machine's handler on the packet's bytes |
| `ChatServer.Server.ProcessClientInformation` | server.c:408-454 | Computes the machine's handler on the packet's bytes |
| `ChatServer.Server.ProcessLogin` | server.c:456-513 | Computes the machine's handler on the packet's bytes |
| `ChatServer.Server.ProcessCreate` | server.c:515-548 | Computes the machine's handler on the packet's bytes, the account file included |
| `ChatServer.Server.Promote` | server.c:495-504 | Renames, advances, and moves the user between the collections in one step of the machine |
| `ChatServer.Server.ProcessNextPacket` | server.c:645-708 | Reads one packet from the connection's bytes and dispatches it as the machine does |
| `ChatServer.Server.AcceptConnection` | server.c:784-797 | Adds a fresh connection at the end of new_users, if a descriptor is left |
| `ChatServer.Server.PollOldUsers` | server.c:800-814 | The loop over the snapshot is the machine's loop, although handlers change the collections under it |
| `ChatServer.Server.PollNewUsers` | server.c:815-828 | The same for the new users |
| `ChatServer.Server.DoSelect` | server.c:730-832 | One call is one round of the machine, equal to a run of single events; it keeps all invariants, and reachability |
| `ChatServer.Server.Snapshots` | server.c:754-768 | The object snapshots hold different users, each once, and none in common |
| `Building.Build` | server.c:106-112 | The add calls for each packet of the server produce its bytes |
| `Building.BuildRequest` | client.c:433-450 | The add calls for each packet of the client produce its bytes |
| `ChatClient.Client.constructor` | client.c:412-450 | The client starts with an empty list and has sent its client information |
| `ChatClient.Client.ProcessServerInformation` | client.c:59-94 | Remembers the token and writes the login: the digest of the block of both tokens and the hash of the typed password |
| `ChatClient.Client.ProcessLoginResponse` | client.c:96-153 | Writes "/join " and the typed channel after success, the create with the hash of the typed password for an unknown account, and ends otherwise |
| `ChatClient.FirstJoinFitsExactly` | client.c:110-116 | The buffer for the first /join command holds it, terminator included, if and only if the channel is at most seven characters longer than the name in the answer |
| `ChatClient.Client.ProcessCreateResponse` | client.c:155-212 | Writes the login again after success and ends otherwise |
| `ChatClient.Client.ProcessChatEvent` | client.c:219-237 | Reads the event and shows it |
| `ChatClient.Client.DisplayChannelEvent` | output.c:304-386 | The linked user list changes as the function on values says, for every subtype |
| `ChatClient.Client.ProcessNextPacket` | client.c:271-334 | One packet from the connection's bytes, or the end of the program |
| `ChatClient.Client.DoSelect` | client.c:336-377 | A typed line goes out and then a packet comes in |
| `ChatClient.Client.CatchUp` | client.c:453-454 | The main loop over waiting bytes terminates and computes the function on values |

## Left out

- Sockets, `select`, `accept` and signals: a connection is a queue of bytes to come and the list of what was written to it; readiness, the tokens drawn with `rand` and the time are parameters; connections get fresh numbers, so the reuse of file descriptors is not modelled, and a write to a closed connection does nothing.
- Short reads and blocking: `read` returns what was asked for as long as that many bytes are still to come; a packet that arrives in pieces is the `Nothing` result, which any event of a run may have.
- PacketBuffers.PacketBuffer.AddInt8: does not model what happens when a full buffer of 32768 bytes doubles its 16-bit capacity; no packet of either program comes near that.
- PacketBuffers.PacketBuffer.FromData: buffers made from received data are only read, so adding to them (their capacity is not a power of two times 64) is left unspecified beyond AddInt8.
- ChatServer.Server.ProcessClientInformation: stores the client token after the last read instead of after the first; only a packet that ends the process could show the difference.
- Commands.AliasesAreAsDocumented: takes the lines that four of the groups answer with as a parameter, like SendListing below; what the six groups are and what join and w do is the code's.
- CommandLines.AWordIsItsCommand: has the same parameter.
- ChatServer.Server.ProcessMessage: has the same parameter.
- ChatServer.Server.SendListing: the lines that /help, /finger, /who and /rooms answer with are a parameter (any info or error lines of at most 1023 characters, sent to the asker alone); their texts, the room and user listings and the ip addresses would add only easy members.
- ChatServer.Room.AddUser: updates a field of sequence type, as described under DoSelect.
- ChatServer.Room.RemoveUser: the same.
- ChatServer.Server.DoSelect: the keepalive branch is left out, and the collections of users, the room table and the tables of room members are fields of sequence type updated by the functions that `LinkedTables` and `LinkedLists` are proved against, not the linked objects themselves; the client's user list is the linked object.
- Accounts.CreateRoundTrip: says nothing about account files edited by hand into something `account_create` could not have written; the functions and methods of `Accounts` themselves are defined and proved for every file without NUL characters.
- SHA-1: a function that is a parameter of every state; nothing is assumed of it, so a login with another password that has the same digest counts as correct.
- ChatServer.Server.AcceptConnection: an accept without a free descriptor is no step; the code goes on with the failed result and puts a user on descriptor -1, which the C language leaves undefined from the first FD_SET on. Descriptors above FD_SETSIZE are left out for the same reason.
- Survival.RunCrashesExactly: leaves out what ends the process from outside its handlers: the signal that a write to a reset connection raises, and lack of memory.
- Accounts.AccountStore.FindAccount: the second attempt, opening the file for appending, fails in the model exactly when the first does for lack of a descriptor; a missing file is an empty one, and permissions, disk space and the files of other programs are left out.
- Accounts.AccountStore.AccountLogin: the stream is closed before the hash is parsed, while the code parses first; the order shows only on a malformed line, where the process ends.
- ChatClient.Client.ProcessLoginResponse: does not model what happens after the first /join has overflowed its buffer; the command is sent whole.
- Memory: allocation, `free`, the `valid` flag, `destroy_*`, and the sizes of allocated buffers other than those of packets and of the strings read from them.
- Display: windows, colours, timestamps, the line editor and the prompts of the client; `display_error` is the end of the client program.
- The keepalive packet sent when select times out, and the incoming SID_NULL beyond being ignored.
- udp.c and nc.c, `room_set_topic` and `room_packet` (never called), `print_*`, and the room list packets beyond the error they earn.
- Commands that only doc/user.txt describes: /tell, /bye, /newroom and /member are unknown commands to the code and to the model.
