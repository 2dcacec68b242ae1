# UNETLowLevel session protocol in Dafny

This project models the session layer of UNETLowLevel, a small Unity
multiplayer demo. A server keeps the registry of connected participants. It
answers each new connection with an `ASKNAME` roster and renames a
participant when its `NAMEIS` arrives, announcing the name with `CNN`. It
announces departures with `DC`. At a fixed rate it broadcasts every
participant's position in one `ASKPOSITION` packet. A client mirrors the
participants it is told about and learns its own id from `ASKNAME`. It
answers `ASKPOSITION` with its own `MYPOSITION`.

The model has seven modules:

- `Text`: the .NET string operations the protocol relies on.
  - `string.Split`, the joins the senders build with `+=`, and `Trim(char)`.
  - `Int32.ToString` and `Int32.Parse` with the invariant culture.
  - The round trips that connect them.
- `Wire`: the wire protocol.
  - The two channels, a sent packet, a transport event and a position.
  - The six message formats, with a decoding round trip for each.
- `Registry`: what the server does, as functions over the list of
  `ServerClient` records. Each reaction says what the registry becomes,
  which packets go out, and whether the handler threw.
- `ServerSession`: the `Server` MonoBehaviour as a class.
  - Fields: `isStarted`, `lastMovementUpdate`, `clients` and `outbox`
    (every packet handed to `NetworkTransport.Send`).
  - Methods: one per handler, each with its loops. Each method is proved to
    do what the matching `Registry` function says.
- `Mirror`: what the client does, as functions over a `Session` record of the
  `Client` fields the protocol touches.
  - A handler's loop is `Chain`, which stops at the first field that throws.
  - An exception is an outcome with `ok == false`. Changes made before the
    throw stay, as they do in the source.
- `ClientSession`: the `Client` MonoBehaviour as a class whose methods are
  proved against `Mirror`.
- `Agreement`: what a client makes of the packets a server builds, and what
  a server makes of the packets a client builds. These lemmas compose the
  two sides.
  - `JoinStartsNewcomer` follows a newcomer through connect, `ASKNAME`,
    `NAMEIS` and `CNN` until it is started.

Exceptions model C#'s unhandled exceptions:
- `IndexOutOfRangeException` on a missing field.
- `FormatException` or `OverflowException` from `Parse`.
- `NullReferenceException` when `List.Find` returns null.
- `KeyNotFoundException` and `ArgumentException` from the dictionary.

Each ends the handler and, on the server, the rest of `Update`. An exception
that the source catches does not end the handler: `KeyNotFoundException`
around `p = players[...]` in `OnAskPosition`.

The model follows the code, quirks included:

- A disconnect of an id that is not in the registry still broadcasts
  `DC|id` to everybody. `List.Remove(null)` removes nothing, and the `Send`
  that follows runs anyway (`Registry.DisconnectionAlwaysAnnounces`).
- The rate gate fires when strictly more than the rate has passed
  (`Time.time - lastMovementUpdate > movementUpdateRate`), so a gap of exactly
  the rate does not fire.
- The client's roster loop stops one field short of the end. The newcomer's
  own `TEMP` entry is therefore never spawned from `ASKNAME`; its own avatar
  comes from the later `CNN` (`Agreement.ClientReadsAskName`,
  `Agreement.JoinStartsNewcomer`).
- A `NAMEIS` or `MYPOSITION` from an id the registry does not hold makes
  `Find` return null, and the handler throws, so that frame's position
  broadcast is skipped.
- The server reads a name from `NAMEIS` as the text up to the first `|`
  (`Agreement.ServerReadsNameIs`).
- A `%` in a name breaks the rosters sent to later newcomers. The entry
  `a%b%1` gives `int.Parse("b")`, which throws, and the newcomer's roster
  loop stops there (`Agreement.PercentInNameStopsRoster`).
- A `CNN` for an id the client already mirrors throws at `players.Add`, and
  the old entry stays. A newcomer whose `ASKNAME` listed a peer still called
  `TEMP` therefore keeps `TEMP` after that peer's `CNN`
  (`Mirror.SpawnedAddsOne`, `Agreement.ClientReadsConnected`).

## Model

| member | source | states |
|---|---|---|
| Text.SplitJoin | src/UNETLowLevel/Assets/Scripts/Server.cs:90 | splitting a join of parts that hold no separator gives the parts back |
| Text.JoinSplit | src/UNETLowLevel/Assets/Scripts/Client.cs:116 | joining the parts of a split gives the original text back |
| Text.SplitPartsFree | src/UNETLowLevel/Assets/Scripts/Client.cs:164 | no part of a split contains the separator |
| Text.JoinAvoids | src/UNETLowLevel/Assets/Scripts/Server.cs:130 | a character that is neither the separator nor in any part does not occur in the join, so a '%'-join of numerals has no '\|' |
| Text.TrimDelimited | src/UNETLowLevel/Assets/Scripts/Server.cs:137 | trimming the one trailing separator of a text that neither starts nor ends with it gives that text |
| Text.IntToString | src/UNETLowLevel/Assets/Scripts/Server.cs:130 | the numeral is non-empty, all digits after an optional '-', and holds no '|' or '%' |
| Text.ParseIntToString | src/UNETLowLevel/Assets/Scripts/Client.cs:204 | Int32.Parse reads back every int that Int32.ToString printed |
| Text.ParseIntTrailingNuls | src/UNETLowLevel/Assets/Scripts/Client.cs:217 | Int32.Parse also reads a printed int followed by any run of `'\0'` characters, which it accepts after a number |
| Text.ParseInt | src/UNETLowLevel/Assets/Scripts/Client.cs:217 | a value that parses lies in the int range |
| Wire.ParseVec3 | src/UNETLowLevel/Assets/Scripts/Server.cs:99 | three parsed coordinates lie in the int range |
| Wire.RosterEntryDecodes | src/UNETLowLevel/Assets/Scripts/Server.cs:170 | an entry `name%id` for a name without '%' splits into the name and the id, and the id parses back |
| Wire.PositionTupleDecodes | src/UNETLowLevel/Assets/Scripts/Server.cs:130 | a tuple `id%x%y%z` splits into four fields that parse back to the id and the position |
| Wire.AskNameDecodes | src/UNETLowLevel/Assets/Scripts/Server.cs:168-173 | an ASKNAME text splits into the header, the new id and the entries, given entries without '\|' |
| Wire.AskPositionDecodes | src/UNETLowLevel/Assets/Scripts/Server.cs:125-137 | an ASKPOSITION text splits into the header and the tuples; with no records it is just the header |
| Wire.NameIsDecodes | src/UNETLowLevel/Assets/Scripts/Client.cs:207 | `NAMEIS\|name` splits into the header and the name when the name has no '\|' |
| Wire.ConnectedDecodes | src/UNETLowLevel/Assets/Scripts/Server.cs:156 | `CNN\|name\|id` splits into the header, the name and an id that parses back |
| Wire.DisconnectedDecodes | src/UNETLowLevel/Assets/Scripts/Server.cs:186 | `DC\|id` splits into the header and an id that parses back |
| Wire.MyPositionDecodes | src/UNETLowLevel/Assets/Scripts/Client.cs:191 | a MYPOSITION text splits into four fields whose coordinates parse back to the position |
| Registry.FindIndex | src/UNETLowLevel/Assets/Scripts/Server.cs:153 | `List.Find`: the index of the first record with the id, or -1 when no record has it |
| Registry.FindIndexFindsIds | src/UNETLowLevel/Assets/Scripts/Server.cs:194 | Find succeeds exactly for the ids in the registry |
| Registry.ConnectionAnnouncesRoster | src/UNETLowLevel/Assets/Scripts/Server.cs:158-179 | a connect appends one TEMP record at the origin, keeps the earlier ones, and sends one reliable ASKNAME to the newcomer: its id, then every record's `name%id` in order, its own last |
| Registry.NameIsRenamesAndAnnounces | src/UNETLowLevel/Assets/Scripts/Server.cs:150-157 | NAMEIS succeeds exactly for a registered id; it renames that record only and sends `CNN\|name\|id` reliably to every record, the sender included, in order; an unknown id changes and sends nothing |
| Registry.MyPositionMovesSilently | src/UNETLowLevel/Assets/Scripts/Server.cs:146-149 | MYPOSITION moves exactly the sender's record, sends nothing, and fails for an unknown id |
| Registry.RemovalKeepsOthers | src/UNETLowLevel/Assets/Scripts/Server.cs:183 | removing one record keeps the ids unique and removes exactly that record's id |
| Registry.DisconnectionAlwaysAnnounces | src/UNETLowLevel/Assets/Scripts/Server.cs:180-187 | a disconnect removes the id's record when there is one, keeps the list otherwise, and always sends `DC\|id` reliably to every remaining record |
| Registry.TuplesBarFree | src/UNETLowLevel/Assets/Scripts/Server.cs:130 | no position tuple holds '\|', so the tuples survive the '\|'-split of the packet |
| Registry.PositionBroadcastDecodes | src/UNETLowLevel/Assets/Scripts/Server.cs:119-141 | the broadcast splits into the header and one tuple per record, in order, each parsing back to that record's id and position, and goes unreliably to every record |
| Registry.OtherHeadersIgnored | src/UNETLowLevel/Assets/Scripts/Server.cs:101-103 | a data message with any other header leaves the registry as it is and sends nothing |
| Registry.MalformedDataDropped | src/UNETLowLevel/Assets/Scripts/Server.cs:93-99 | a NAMEIS without its name field, a MYPOSITION with only two coordinates, and a MYPOSITION whose coordinates do not all parse each fail with every name and position kept and nothing sent, so that frame's position broadcast is skipped too |
| Registry.ReplaceKeepsIds | src/UNETLowLevel/Assets/Scripts/Server.cs:148 | updating a record in place keeps the set of ids and their uniqueness |
| Registry.ConnectionKeepsRegistry | src/UNETLowLevel/Assets/Scripts/Server.cs:158-164 | a connect of a new id keeps the registry well formed and adds exactly that id |
| Registry.DisconnectionKeepsRegistry | src/UNETLowLevel/Assets/Scripts/Server.cs:180-183 | a disconnect keeps the registry well formed and removes exactly that id |
| Registry.OnDataKeepsRegistry | src/UNETLowLevel/Assets/Scripts/Server.cs:81-106 | a data message keeps the registry well formed and its ids unchanged, whatever the message |
| Registry.ReactKeepsRegistry | src/UNETLowLevel/Assets/Scripts/Server.cs:79-117 | every event a live transport can report (a connect of an id not yet registered, any other event as it comes) keeps the registry well formed and changes its ids exactly as the connect or disconnect says |
| Registry.RegistryTracksConnections | src/UNETLowLevel/Assets/Scripts/Server.cs:60-117 | over any trace of transport events the registry holds exactly the ids connected and not yet disconnected, each once |
| Registry.AskPositionExample | src/UNETLowLevel/Assets/Scripts/Server.cs:125-137 | records 1 at (0,0,0) and 2 at (1,2,3) give exactly `ASKPOSITION\|1%0%0%0\|2%1%2%3` |
| ServerSession.Server.constructor | src/UNETLowLevel/Assets/Scripts/Server.cs:27-34 | the server starts stopped, with an empty registry and nothing sent |
| ServerSession.Server.Start | src/UNETLowLevel/Assets/Scripts/Server.cs:37-58 | Start sets isStarted |
| ServerSession.Server.Update | src/UNETLowLevel/Assets/Scripts/Server.cs:60-143 | before Start nothing changes; otherwise the registry and the packets are those of the event's reaction, and the position broadcast follows, with the time recorded, exactly when the handler did not throw and strictly more than the rate has passed |
| ServerSession.Server.Dispatch | src/UNETLowLevel/Assets/Scripts/Server.cs:79-117 | the switch on the event and on the header does what the event's reaction says, missing fields and failed parses included |
| ServerSession.Server.PositionPacket | src/UNETLowLevel/Assets/Scripts/Server.cs:125-137 | the loop that appends `id%x%y%z\|` per record, followed by the trim, builds the ASKPOSITION text of the records |
| ServerSession.Server.AskNamePacket | src/UNETLowLevel/Assets/Scripts/Server.cs:168-173 | the loop that appends `name%id\|` per record, followed by the trim, builds the ASKNAME text of the newcomer's id and the roster |
| ServerSession.Server.OnMyPosition | src/UNETLowLevel/Assets/Scripts/Server.cs:146-149 | the registry becomes what the MYPOSITION reaction gives, and the handler throws exactly when that reaction does |
| ServerSession.Server.OnNameIs | src/UNETLowLevel/Assets/Scripts/Server.cs:150-157 | the registry and the packets sent are those of the NAMEIS reaction |
| ServerSession.Server.OnConnection | src/UNETLowLevel/Assets/Scripts/Server.cs:158-179 | the registry and the packets sent are those of the connect reaction |
| ServerSession.Server.OnDisconnection | src/UNETLowLevel/Assets/Scripts/Server.cs:180-187 | the registry and the packets sent are those of the disconnect reaction |
| ServerSession.Server.SendTo | src/UNETLowLevel/Assets/Scripts/Server.cs:191-196 | sending to one id sends one packet exactly when the id is registered; otherwise the loop over the null record throws and nothing is sent |
| ServerSession.Server.Send | src/UNETLowLevel/Assets/Scripts/Server.cs:198-207 | one packet per record of the list, in list order, on the given channel |
| ServerSession.PositionMessageDelimited | src/UNETLowLevel/Assets/Scripts/Server.cs:137 | the ASKPOSITION text neither starts nor ends with '\|', so the trim removes only the separator the loop appended |
| ServerSession.AskNameDelimited | src/UNETLowLevel/Assets/Scripts/Server.cs:173 | the ASKNAME text neither starts nor ends with '\|', so the trim removes only the separator the loop appended |
| Mirror.SpawnedAddsOne | src/UNETLowLevel/Assets/Scripts/Client.cs:220-248 | SpawnPlayer raises isStarted exactly for our own id, even when the add throws; it succeeds exactly for an id without an entry, adds that entry and changes no other; nothing else changes and nothing is sent |
| Mirror.DepartedRemovesOne | src/UNETLowLevel/Assets/Scripts/Client.cs:249-253 | PlayerDisconnected succeeds exactly for an id with an entry, removes that entry only and changes nothing else |
| Mirror.ChainStopsAtFailure | src/UNETLowLevel/Assets/Scripts/Client.cs:211-218 | once a field of a handler's loop throws, the later fields are never looked at |
| Mirror.OtherHeadersIgnored | src/UNETLowLevel/Assets/Scripts/Client.cs:133-135 | a message with any other header changes nothing and sends nothing |
| Mirror.PositionLoopSilent | src/UNETLowLevel/Assets/Scripts/Client.cs:162-187 | the position loop sends nothing and changes only realPosition and p |
| Mirror.AskPositionRepliesOnce | src/UNETLowLevel/Assets/Scripts/Client.cs:156-193 | a started client answers ASKPOSITION with exactly one unreliable MYPOSITION when it does not throw, which needs its own entry, and with nothing when it throws; the mirror is untouched |
| Mirror.AskPositionWaitsForStart | src/UNETLowLevel/Assets/Scripts/Client.cs:158-159 | before it is started, a client ignores ASKPOSITION entirely |
| Mirror.RosterLoopKeepsStarted | src/UNETLowLevel/Assets/Scripts/Client.cs:211-218 | the roster loop sends nothing, keeps our id and never lowers isStarted |
| Mirror.StartedNeverReset | src/UNETLowLevel/Assets/Scripts/Client.cs:119-136 | no message lowers isStarted, and only ASKNAME changes our id |
| Mirror.AskNameAnswersOnce | src/UNETLowLevel/Assets/Scripts/Client.cs:199-219 | once the id field parses, ASKNAME sets our id and sends exactly one reliable `NAMEIS\|name`, whatever the roster does; with no entries before the last field nothing else changes |
| Agreement.MirrorOfKeys | src/UNETLowLevel/Assets/Scripts/Client.cs:247 | the mirror built from a registry has exactly the registry's ids as keys |
| Agreement.LastOtherSettles | src/UNETLowLevel/Assets/Scripts/Client.cs:175 | the last position of a peer in a broadcast does not change when the same broadcast is read again |
| Agreement.LastKnownSettles | src/UNETLowLevel/Assets/Scripts/Client.cs:176 | the last known peer of a broadcast does not change when the same broadcast is read again |
| Agreement.RosterLoopMirrors | src/UNETLowLevel/Assets/Scripts/Client.cs:211-218 | over entries built from well-formed records, none known yet and none ours, the roster loop spawns each record in order, succeeds and adds exactly the registry's mirror |
| Agreement.ClientReadsAskName | src/UNETLowLevel/Assets/Scripts/Client.cs:199-219 | a client reading the ASKNAME a server sends on connect takes its id, answers one NAMEIS, and mirrors every earlier record but not its own |
| Agreement.AskNameExamplePacket | src/UNETLowLevel/Assets/Scripts/Server.cs:175 | MUHAND (1) and HUSSAM (2) registered and 3 connecting give exactly `ASKNAME\|3\|MUHAND%1\|HUSSAM%2\|TEMP%3` |
| Agreement.AskNameExample | src/UNETLowLevel/Assets/Scripts/Client.cs:201 | a fresh client reading that packet takes id 3, spawns MUHAND (1) and HUSSAM (2) but not TEMP (3), and sends one NAMEIS |
| Agreement.PercentInNameStopsRoster | src/UNETLowLevel/Assets/Scripts/Client.cs:214-217 | a registered name `a%b` makes a later newcomer's roster loop throw at that entry, with nothing spawned |
| Agreement.PositionLoopFollowsRegistry | src/UNETLowLevel/Assets/Scripts/Client.cs:162-187 | over the tuples of a well-formed registry the position loop never throws and leaves realPosition and p at the last record other than us |
| Agreement.ClientReadsAskPosition | src/UNETLowLevel/Assets/Scripts/Client.cs:156-193 | a started client with its own entry reads a server's broadcast without throwing, moves to the last peer's position and sends one MYPOSITION |
| Agreement.AskPositionIdempotent | src/UNETLowLevel/Assets/Scripts/Client.cs:156-193 | reading the same broadcast twice leaves the client as reading it once did, and sends the same reply |
| Agreement.ClientReadsConnected | src/UNETLowLevel/Assets/Scripts/Client.cs:124-125 | a client reading the server's `CNN\|name\|id` spawns exactly that name and id |
| Agreement.ClientReadsDisconnected | src/UNETLowLevel/Assets/Scripts/Client.cs:127-128 | a client reading the server's `DC\|id` removes exactly that id |
| Agreement.ServerReadsNameIs | src/UNETLowLevel/Assets/Scripts/Server.cs:95-96 | a server reading a client's NAMEIS renames the sender to the name up to its first '\|' |
| Agreement.ServerReadsWholeName | src/UNETLowLevel/Assets/Scripts/Server.cs:95-96 | a name without '\|' arrives whole |
| Agreement.ServerReadsMyPosition | src/UNETLowLevel/Assets/Scripts/Server.cs:98-99 | a server reading a client's MYPOSITION moves the sender to exactly that position |
| Agreement.JoinStartsNewcomer | src/UNETLowLevel/Assets/Scripts/Server.cs:158-179 | connect, ASKNAME, NAMEIS and CNN in turn: the newcomer answers one NAMEIS, the server renames its record and sends one CNN per record, the last to the newcomer, and the newcomer ends up started with the earlier records and itself mirrored |
| ClientSession.Client.constructor | src/UNETLowLevel/Assets/Scripts/Client.cs:28-46 | a client starts unconnected and not started, with no name, connection id 0, connection time 0, our id 0 (the default that SpawnPlayer compares against before any ASKNAME), no players, no peer, the origin as position and nothing sent |
| ClientSession.Client.Connect | src/UNETLowLevel/Assets/Scripts/Client.cs:49-85 | an empty name changes nothing; otherwise the name, the connection, its time and isConnected are set |
| ClientSession.Client.Update | src/UNETLowLevel/Assets/Scripts/Client.cs:87-141 | before Connect, and for any event but data, nothing changes; a data message does to the session and the packets what the client's reaction to it says |
| ClientSession.Client.OnAskPosition | src/UNETLowLevel/Assets/Scripts/Client.cs:156-193 | the loop over the tuples, followed by the reply, does what the ASKPOSITION reaction says, including where it throws |
| ClientSession.Client.PositionOne | src/UNETLowLevel/Assets/Scripts/Client.cs:164-186 | one iteration of the position loop does what the reaction to that tuple says and sends nothing |
| ClientSession.Client.OnAskName | src/UNETLowLevel/Assets/Scripts/Client.cs:199-219 | parsing the id, answering NAMEIS and spawning the roster do what the ASKNAME reaction says, including where it throws |
| ClientSession.Client.SpawnRoster | src/UNETLowLevel/Assets/Scripts/Client.cs:211-218 | the loop from field 2 to the second-to-last field does what the roster loop says, stopping at the first entry that throws |
| ClientSession.Client.SpawnOne | src/UNETLowLevel/Assets/Scripts/Client.cs:214-217 | one iteration of the roster loop does what the reaction to that entry says |
| ClientSession.Client.SpawnPlayer | src/UNETLowLevel/Assets/Scripts/Client.cs:220-248 | isStarted and the dictionary become what SpawnPlayer's reaction gives, and the add throws exactly when it does |
| ClientSession.Client.PlayerDisconnected | src/UNETLowLevel/Assets/Scripts/Client.cs:249-253 | the dictionary becomes what the departure's reaction gives, and the lookup throws exactly when it does |
| ClientSession.Client.Send | src/UNETLowLevel/Assets/Scripts/Client.cs:258-266 | exactly one packet is sent, on the client's connection to the server |

## Left out

- The Unity transport is left out. `NetworkTransport.Init`, `AddHost`,
  `AddWebsocketHost`, `Connect` and `Receive` become parameters: the
  connection an event or a Connect reports. `Send` becomes an append to
  `outbox`. Host and channel ids, the error byte and the send-failure codes
  are not modelled.
- The UTF-16 encoding is left out, and so is the 1024-byte receive buffer:
  messages longer than that buffer are not modelled. A message is its
  text.
- Floating point is left out. Coordinates are C# ints, printed with
  `Int32.ToString` and read with `Int32.Parse`. `float.Parse`,
  `float.ToString` and culture-dependent formatting are not modelled.
- `Text.ParseInt` covers `Int32.Parse` with the invariant culture only:
  optional white space, one sign, digits, trailing `'\0'` characters and
  the int range. The signs and digits of other cultures are left out.
- `Time.time` is an integer number of milliseconds passed to `Update`, and
  `movementUpdateRate` (1/20 s) is the constant 50.
- The frame loop itself is left out. Each `Update` call handles one received
  event.
- Presentation and engine calls are left out:
  - `Debug.Log`;
  - `Instantiate`, `AddComponent<PlayerMotor>`, the avatar's `TextMesh`
    and `Destroy`;
  - the name read from the `NameInput` field, which becomes `Connect`'s
    parameter;
  - `FixedUpdate`'s `Vector3.Lerp` of the peer's avatar.
- Player avatars are left out. `Player` keeps only the name and the id.
- `ClientSession.Client.OnAskPosition`: our own avatar's position
  (`players[ourClientId].avatar.transform.position`) is the `myPosition`
  parameter. Only the dictionary lookup that can throw is modelled.
- `ClientSession.Client.SpawnPlayer`: `GameObject.Find("Canvas")` is not
  modelled. The source would throw on a second spawn of our own id, once
  the canvas is inactive. In the model, such a spawn fails only when our
  entry is already in the dictionary.
- `Mirror.SpawnedAddsOne`: the same `GameObject.Find("Canvas")` lookup is
  not modelled in `Mirror.Spawned`. The lemma's "raises isStarted for our
  own id" does not cover the source's throw on a second spawn of our own id
  once the canvas is inactive.
- `connectionTime` is recorded by `Connect` and read nowhere, so nothing is
  stated about it.
- Disconnect events on the client side are not handled by the source and
  are not modelled beyond being ignored.
