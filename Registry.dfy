/** The server side of the protocol as functions of the registry: the list
    of connected participants, what each transport event and each client
    message does to it, and which packets the server hands to the transport
    in reply. The Server class implements these reactions step by step. */
module Registry {
  import opened Text
  import opened Wire

  /** One connected participant as the server keeps it. */
  datatype ServerClient = ServerClient(connectionId: int, playerName: string, position: Vec3)

  /** The name a participant carries until its NAMEIS arrives. */
  const Placeholder: string := "TEMP"

  /** movementUpdateRate, 1/20 of a second, in milliseconds. */
  const MovementUpdateRate: int := 50

  /** What an event did: the new registry, the packets sent, and false when the
      handler threw (the registry is then the one before the event). */
  datatype Reaction = Reaction(clients: seq<ServerClient>, sent: seq<Packet>, ok: bool)

  // ---------------------------------------------------------------------
  // Views of the registry
  // ---------------------------------------------------------------------

  /** List.Find(c => c.connectionId == id): the position of the first record
      with that id, or -1 where Find returns null. */
  function FindIndex(cs: seq<ServerClient>, id: int): (i: int)
    ensures -1 <= i < |cs|
    ensures i >= 0 ==> cs[i].connectionId == id
    ensures forall k :: 0 <= k < |cs| && (i < 0 || k < i) ==> cs[k].connectionId != id
  {
    if cs == [] then -1
    else if cs[0].connectionId == id then 0
    else
      var j := FindIndex(cs[1..], id);
      if j < 0 then -1 else j + 1
  }

  /** The connection ids present in the registry. */
  function Ids(cs: seq<ServerClient>): set<int>
  {
    set i | 0 <= i < |cs| :: cs[i].connectionId
  }

  predicate UniqueIds(cs: seq<ServerClient>)
  {
    forall i, j :: 0 <= i < j < |cs| ==> cs[i].connectionId != cs[j].connectionId
  }

  /** What every registry the server builds satisfies: ids are unique, every
      value fits C#'s int, and no name holds the field separator (names only
      ever come out of a '|'-split). */
  predicate WellFormed(cs: seq<ServerClient>)
  {
    && UniqueIds(cs)
    && forall i :: 0 <= i < |cs| ==>
         && '|' !in cs[i].playerName
         && IsInt32(cs[i].connectionId)
         && IsInt32Vec(cs[i].position)
  }

  /** The `name%id` entries of an ASKNAME roster, in list order. */
  function Roster(cs: seq<ServerClient>): seq<string>
  {
    seq(|cs|, i requires 0 <= i < |cs| => RosterEntry(cs[i].playerName, cs[i].connectionId))
  }

  /** The `id%x%y%z` tuples of an ASKPOSITION packet, in list order. */
  function PositionTuples(cs: seq<ServerClient>): seq<string>
  {
    seq(|cs|, i requires 0 <= i < |cs| => PositionTuple(cs[i].connectionId, cs[i].position))
  }

  /** One packet per record, in list order, all with the same text. */
  function FanOut(message: string, channel: Channel, cs: seq<ServerClient>): seq<Packet>
  {
    seq(|cs|, i requires 0 <= i < |cs| => Packet(cs[i].connectionId, channel, message))
  }

  // ---------------------------------------------------------------------
  // Reactions
  // ---------------------------------------------------------------------

  /** A connect: the new record goes at the end with the placeholder name, and
      the newcomer alone gets the roster, its own entry last. */
  function Connection(cs: seq<ServerClient>, id: int): Reaction
  {
    var cs' := cs + [ServerClient(id, Placeholder, Origin)];
    Reaction(cs', [Packet(id, Reliable, AskNameMessage(id, Roster(cs')))], true)
  }

  /** A disconnect: the first record with the id goes (none if there is none),
      and everybody left is told, whether or not a record went. */
  function Disconnection(cs: seq<ServerClient>, id: int): Reaction
  {
    var i := FindIndex(cs, id);
    var cs' := if i < 0 then cs else cs[..i] + cs[i + 1..];
    Reaction(cs', FanOut(DisconnectedMessage(id), Reliable, cs'), true)
  }

  /** NAMEIS: the sender's record takes the name and everybody, the sender
      included, is told; an unknown sender makes Find return null and the
      handler throw before it sends anything. */
  function NameIs(cs: seq<ServerClient>, id: int, name: string): Reaction
  {
    var i := FindIndex(cs, id);
    if i < 0 then Reaction(cs, [], false)
    else
      var cs' := cs[i := cs[i].(playerName := name)];
      Reaction(cs', FanOut(ConnectedMessage(name, id), Reliable, cs'), true)
  }

  /** MYPOSITION: the sender's record takes the position; nothing is sent. */
  function MyPosition(cs: seq<ServerClient>, id: int, pos: Vec3): Reaction
  {
    var i := FindIndex(cs, id);
    if i < 0 then Reaction(cs, [], false)
    else Reaction(cs[i := cs[i].(position := pos)], [], true)
  }

  /** A data event, dispatched on field 0 of its '|'-split. A missing field or
      a field Int32.Parse rejects throws before anything changes; any other
      header is only logged. */
  function OnData(cs: seq<ServerClient>, id: int, message: string): Reaction
  {
    var data := Split(message, '|');
    if data[0] == "NAMEIS" then
      if |data| < 2 then Reaction(cs, [], false) else NameIs(cs, id, data[1])
    else if data[0] == "MYPOSITION" then
      if |data| < 4 then Reaction(cs, [], false)
      else match ParseVec3(data[1], data[2], data[3])
        case None => Reaction(cs, [], false)
        case Some(pos) => MyPosition(cs, id, pos)
    else Reaction(cs, [], true)
  }

  /** The reaction to one event of the transport. */
  function React(cs: seq<ServerClient>, ev: NetEvent): Reaction
  {
    match ev
    case Nothing => Reaction(cs, [], true)
    case ConnectEvent(id) => Connection(cs, id)
    case DisconnectEvent(id) => Disconnection(cs, id)
    case DataEvent(id, message) => OnData(cs, id, message)
  }

  /** The rate gate: a broadcast is due once strictly more than the rate has
      passed since the last one. */
  predicate Due(now: int, lastMovementUpdate: int)
  {
    now - lastMovementUpdate > MovementUpdateRate
  }

  /** The periodic broadcast: one ASKPOSITION to every record, unreliably. */
  function PositionBroadcast(cs: seq<ServerClient>): seq<Packet>
  {
    FanOut(AskPositionMessage(PositionTuples(cs)), Unreliable, cs)
  }

  // ---------------------------------------------------------------------
  // Properties of the reactions
  // ---------------------------------------------------------------------

  /** Find succeeds exactly for the ids in the registry. */
  lemma FindIndexFindsIds(cs: seq<ServerClient>, id: int)
    ensures FindIndex(cs, id) >= 0 <==> id in Ids(cs)
  {
    var i := FindIndex(cs, id);
    if i >= 0 {
      assert cs[i].connectionId in Ids(cs);
    }
    if id in Ids(cs) {
      var k :| 0 <= k < |cs| && cs[k].connectionId == id;
    }
  }

  /** After any prefix, the last field of a non-empty roster ends in a digit. */
  lemma RosterEndsInDigit(prefix: seq<string>, cs: seq<ServerClient>)
    requires |cs| > 0
    ensures var parts := prefix + Roster(cs);
      var l := parts[|parts| - 1]; |l| > 0 && IsDigit(l[|l| - 1])
  {
    var c := cs[|cs| - 1];
    RosterEntryLast(c.playerName, c.connectionId);
  }

  lemma RosterSnoc(cs: seq<ServerClient>, c: ServerClient)
    ensures Roster(cs + [c]) == Roster(cs) + [RosterEntry(c.playerName, c.connectionId)]
  {
    assert forall i :: 0 <= i < |cs| ==> (cs + [c])[i] == cs[i];
  }

  /** A connect appends exactly one placeholder record and leaves the earlier
      ones as they were; it sends one packet, to the newcomer, reliably, and
      that packet splits into ASKNAME, the newcomer's id, the earlier
      records' entries in list order, and last the newcomer's own entry. */
  lemma ConnectionAnnouncesRoster(cs: seq<ServerClient>, id: int)
    requires WellFormed(cs)
    ensures var r := Connection(cs, id);
      && r.ok
      && |r.clients| == |cs| + 1
      && r.clients[..|cs|] == cs
      && r.clients[|cs|] == ServerClient(id, Placeholder, Origin)
      && |r.sent| == 1 && r.sent[0].target == id && r.sent[0].channel == Reliable
      && Split(r.sent[0].message, '|')
         == ["ASKNAME", IntToString(id)] + Roster(cs) + [RosterEntry(Placeholder, id)]
  {
    var c := ServerClient(id, Placeholder, Origin);
    var cs' := cs + [c];
    RosterSnoc(cs, c);
    var entries := Roster(cs');
    forall i | 0 <= i < |entries| ensures '|' !in entries[i] {
      assert '|' !in cs'[i].playerName;
    }
    AskNameDecodes(id, entries);
    assert cs'[..|cs|] == cs;
  }

  /** NAMEIS succeeds exactly when the sender is registered. It then renames
      the sender's record and no other, and sends `CNN|name|id` once to every
      record, the sender included, reliably and in list order; otherwise it
      changes and sends nothing. */
  lemma NameIsRenamesAndAnnounces(cs: seq<ServerClient>, id: int, name: string)
    requires UniqueIds(cs)
    ensures var r := NameIs(cs, id, name);
      && (r.ok <==> id in Ids(cs))
      && (!r.ok ==> r.clients == cs && r.sent == [])
      && (r.ok ==>
           && |r.clients| == |cs|
           && (forall k :: 0 <= k < |cs| ==>
                 r.clients[k] == if cs[k].connectionId == id then cs[k].(playerName := name) else cs[k])
           && |r.sent| == |cs|
           && forall k :: 0 <= k < |cs| ==>
                r.sent[k] == Packet(cs[k].connectionId, Reliable, ConnectedMessage(name, id)))
  {
    FindIndexFindsIds(cs, id);
  }

  /** MYPOSITION succeeds exactly when the sender is registered. It then moves
      the sender's record and no other, and never sends anything. */
  lemma MyPositionMovesSilently(cs: seq<ServerClient>, id: int, pos: Vec3)
    requires UniqueIds(cs)
    ensures var r := MyPosition(cs, id, pos);
      && r.sent == []
      && (r.ok <==> id in Ids(cs))
      && (!r.ok ==> r.clients == cs)
      && (r.ok ==>
           && |r.clients| == |cs|
           && forall k :: 0 <= k < |cs| ==>
                r.clients[k] == if cs[k].connectionId == id then cs[k].(position := pos) else cs[k])
  {
    FindIndexFindsIds(cs, id);
  }

  /** Removing the record at i from a registry with unique ids removes its id
      and keeps the ids unique. */
  lemma RemovalKeepsOthers(cs: seq<ServerClient>, i: int)
    requires UniqueIds(cs) && 0 <= i < |cs|
    ensures UniqueIds(cs[..i] + cs[i + 1..])
    ensures Ids(cs[..i] + cs[i + 1..]) == Ids(cs) - {cs[i].connectionId}
    ensures WellFormed(cs) ==> WellFormed(cs[..i] + cs[i + 1..])
  {
    var cs' := cs[..i] + cs[i + 1..];
    assert forall k :: 0 <= k < |cs'| ==> cs'[k] == cs[if k < i then k else k + 1];
    forall x | x in Ids(cs) - {cs[i].connectionId} ensures x in Ids(cs') {
      var k :| 0 <= k < |cs| && cs[k].connectionId == x;
      assert cs'[if k < i then k else k - 1] == cs[k];
    }
  }

  /** A disconnect always tells every remaining record, reliably. When the id
      is not registered the registry is unchanged and `DC|id` still goes out;
      otherwise exactly that id leaves and the order of the others is kept. */
  lemma DisconnectionAlwaysAnnounces(cs: seq<ServerClient>, id: int)
    requires UniqueIds(cs)
    ensures var r := Disconnection(cs, id);
      && r.ok
      && |r.sent| == |r.clients|
      && (forall k :: 0 <= k < |r.clients| ==>
            r.sent[k] == Packet(r.clients[k].connectionId, Reliable, DisconnectedMessage(id)))
      && (id !in Ids(cs) ==> r.clients == cs)
      && (id in Ids(cs) ==>
            && (exists i :: 0 <= i < |cs| && cs[i].connectionId == id && r.clients == cs[..i] + cs[i + 1..])
            && Ids(r.clients) == Ids(cs) - {id})
      && UniqueIds(r.clients)
  {
    FindIndexFindsIds(cs, id);
    var i := FindIndex(cs, id);
    var r := Disconnection(cs, id);
    if i >= 0 {
      RemovalKeepsOthers(cs, i);
      assert r.clients == cs[..i] + cs[i + 1..];
      assert 0 <= i < |cs| && cs[i].connectionId == id;
    } else {
      assert r.clients == cs;
    }
  }

  /** No position tuple holds '|': its fields are numerals joined by '%'. */
  lemma TuplesBarFree(cs: seq<ServerClient>)
    ensures forall i :: 0 <= i < |PositionTuples(cs)| ==> '|' !in PositionTuples(cs)[i]
  {
    forall i | 0 <= i < |cs| ensures '|' !in PositionTuples(cs)[i] {
      var c := cs[i];
      JoinAvoids([IntToString(c.connectionId), IntToString(c.position.x),
                  IntToString(c.position.y), IntToString(c.position.z)], '%', '|');
    }
  }

  /** The periodic packet splits into ASKPOSITION and one tuple per record in
      list order, each of which reads back as that record's id and position;
      with an empty registry it is exactly "ASKPOSITION". It goes once to
      every record, unreliably. */
  lemma PositionBroadcastDecodes(cs: seq<ServerClient>)
    requires WellFormed(cs)
    ensures var m := AskPositionMessage(PositionTuples(cs));
      && (cs == [] ==> m == "ASKPOSITION")
      && var d := Split(m, '|');
      && |d| == |cs| + 1 && d[0] == "ASKPOSITION"
      && (forall k :: 0 <= k < |cs| ==>
            var t := Split(d[k + 1], '%');
            |t| == 4 && ParseInt(t[0]) == Some(cs[k].connectionId)
            && ParseVec3(t[1], t[2], t[3]) == Some(cs[k].position))
      && PositionBroadcast(cs) == FanOut(m, Unreliable, cs)
  {
    var tuples := PositionTuples(cs);
    TuplesBarFree(cs);
    AskPositionDecodes(tuples);
    var d := Split(AskPositionMessage(tuples), '|');
    forall k | 0 <= k < |cs|
      ensures var t := Split(d[k + 1], '%');
        |t| == 4 && ParseInt(t[0]) == Some(cs[k].connectionId)
        && ParseVec3(t[1], t[2], t[3]) == Some(cs[k].position)
    {
      assert d[k + 1] == tuples[k];
      PositionTupleDecodes(cs[k].connectionId, cs[k].position);
    }
  }

  /** A data event whose header is neither NAMEIS nor MYPOSITION changes
      nothing and sends nothing. */
  lemma OtherHeadersIgnored(cs: seq<ServerClient>, id: int, message: string)
    requires Split(message, '|')[0] != "NAMEIS" && Split(message, '|')[0] != "MYPOSITION"
    ensures OnData(cs, id, message) == Reaction(cs, [], true)
  {
  }

  /** A NAMEIS without its name field, a MYPOSITION with fewer than three
      coordinates, or one whose coordinates Int32.Parse rejects, throws at
      the index or the parse: every name and position stays as it was,
      nothing is sent, and the handler fails. */
  lemma MalformedDataDropped(cs: seq<ServerClient>, id: int, x: string, y: string, z: string)
    requires '|' !in x && '|' !in y && '|' !in z
    ensures OnData(cs, id, "NAMEIS") == Reaction(cs, [], false)
    ensures OnData(cs, id, Join(["MYPOSITION", x, y], '|')) == Reaction(cs, [], false)
    ensures ParseVec3(x, y, z).None? ==>
              OnData(cs, id, Join(["MYPOSITION", x, y, z], '|')) == Reaction(cs, [], false)
  {
    SplitOfPart("NAMEIS", '|');
    SplitJoin(["MYPOSITION", x, y], '|');
    SplitJoin(["MYPOSITION", x, y, z], '|');
  }

  // ---------------------------------------------------------------------
  // Membership over a whole session
  // ---------------------------------------------------------------------

  /** The transport's side of the bargain for one event: it reports a connect
      only for an id that is not connected, and ids fit C#'s int. */
  predicate Admissible(cs: seq<ServerClient>, ev: NetEvent)
  {
    ev.ConnectEvent? ==> ev.connectionId !in Ids(cs) && IsInt32(ev.connectionId)
  }

  /** How one event changes the set of connected ids. */
  function LiveAfter(live: set<int>, ev: NetEvent): set<int>
  {
    match ev
    case ConnectEvent(id) => live + {id}
    case DisconnectEvent(id) => live - {id}
    case _ => live
  }

  /** Replacing a record by one with the same id keeps the ids and their
      uniqueness. */
  lemma ReplaceKeepsIds(cs: seq<ServerClient>, i: int, c: ServerClient)
    requires 0 <= i < |cs| && c.connectionId == cs[i].connectionId
    ensures Ids(cs[i := c]) == Ids(cs)
    ensures UniqueIds(cs) ==> UniqueIds(cs[i := c])
  {
    var cs' := cs[i := c];
    assert forall k :: 0 <= k < |cs| ==> cs'[k].connectionId == cs[k].connectionId;
    forall x | x in Ids(cs) ensures x in Ids(cs') {
      var k :| 0 <= k < |cs| && cs[k].connectionId == x;
      assert cs'[k].connectionId == x;
    }
  }

  lemma ConnectionKeepsRegistry(cs: seq<ServerClient>, id: int)
    requires WellFormed(cs) && id !in Ids(cs) && IsInt32(id)
    ensures WellFormed(Connection(cs, id).clients)
    ensures Ids(Connection(cs, id).clients) == Ids(cs) + {id}
  {
    var cs' := Connection(cs, id).clients;
    assert forall k :: 0 <= k < |cs| ==> cs'[k] == cs[k];
    assert cs'[|cs|].connectionId == id;
    forall k | 0 <= k < |cs| ensures cs[k].connectionId != id {
      assert cs[k].connectionId in Ids(cs);
    }
    forall x | x in Ids(cs) + {id} ensures x in Ids(cs') {
      if x != id {
        var k :| 0 <= k < |cs| && cs[k].connectionId == x;
        assert cs'[k].connectionId == x;
      }
    }
  }

  lemma DisconnectionKeepsRegistry(cs: seq<ServerClient>, id: int)
    requires WellFormed(cs)
    ensures WellFormed(Disconnection(cs, id).clients)
    ensures Ids(Disconnection(cs, id).clients) == Ids(cs) - {id}
  {
    FindIndexFindsIds(cs, id);
    var i := FindIndex(cs, id);
    var cs' := Disconnection(cs, id).clients;
    if i >= 0 {
      assert cs' == cs[..i] + cs[i + 1..];
      RemovalKeepsOthers(cs, i);
    } else {
      assert cs' == cs;
    }
  }

  lemma OnDataKeepsRegistry(cs: seq<ServerClient>, id: int, message: string)
    requires WellFormed(cs)
    ensures WellFormed(OnData(cs, id, message).clients)
    ensures Ids(OnData(cs, id, message).clients) == Ids(cs)
  {
    var data := Split(message, '|');
    var i := FindIndex(cs, id);
    if data[0] == "NAMEIS" && |data| >= 2 && i >= 0 {
      SplitPartsFree(message, '|');
      assert '|' !in data[1];
      ReplaceKeepsIds(cs, i, cs[i].(playerName := data[1]));
    } else if data[0] == "MYPOSITION" && |data| >= 4 && ParseVec3(data[1], data[2], data[3]).Some? && i >= 0 {
      ReplaceKeepsIds(cs, i, cs[i].(position := ParseVec3(data[1], data[2], data[3]).value));
    }
  }

  /** Every reaction keeps the registry well formed, and changes its ids
      exactly as the event's connect or disconnect says: NAMEIS and
      MYPOSITION never add or remove anybody. */
  lemma ReactKeepsRegistry(cs: seq<ServerClient>, ev: NetEvent)
    requires WellFormed(cs) && Admissible(cs, ev)
    ensures WellFormed(React(cs, ev).clients)
    ensures Ids(React(cs, ev).clients) == LiveAfter(Ids(cs), ev)
  {
    match ev
    case Nothing =>
    case ConnectEvent(id) => ConnectionKeepsRegistry(cs, id);
    case DisconnectEvent(id) => DisconnectionKeepsRegistry(cs, id);
    case DataEvent(id, message) => OnDataKeepsRegistry(cs, id, message);
  }

  /** The ids with a connect not yet matched by a disconnect. */
  function Live(trace: seq<NetEvent>): set<int>
  {
    if trace == [] then {} else LiveAfter(Live(trace[..|trace| - 1]), trace[|trace| - 1])
  }

  /** The registry after a server has seen the events of a trace from the start. */
  function Replay(trace: seq<NetEvent>): seq<ServerClient>
  {
    if trace == [] then [] else React(Replay(trace[..|trace| - 1]), trace[|trace| - 1]).clients
  }

  /** A trace the transport can produce: every connect is for an id that is
      not connected at that point, and every id fits C#'s int. */
  predicate TransportTrace(trace: seq<NetEvent>)
  {
    forall k :: 0 <= k < |trace| && trace[k].ConnectEvent? ==>
      trace[k].connectionId !in Live(trace[..k]) && IsInt32(trace[k].connectionId)
  }

  /** Over any trace the transport can produce, the registry holds exactly the
      ids with an unmatched connect, each once, whatever messages arrived in
      between. */
  lemma {:induction false} RegistryTracksConnections(trace: seq<NetEvent>)
    requires TransportTrace(trace)
    ensures Ids(Replay(trace)) == Live(trace)
    ensures WellFormed(Replay(trace))
  {
    if trace != [] {
      var n := |trace| - 1;
      var prefix := trace[..n];
      assert forall k :: 0 <= k < n ==> prefix[..k] == trace[..k];
      assert TransportTrace(prefix);
      RegistryTracksConnections(prefix);
      assert trace[..n] == prefix;
      ReactKeepsRegistry(Replay(prefix), trace[n]);
    }
  }

  lemma ExampleTuple(id: int, pos: Vec3, text: string)
    requires 0 <= id < 10 && 0 <= pos.x < 10 && 0 <= pos.y < 10 && 0 <= pos.z < 10
    requires text == [DigitChar(id), '%', DigitChar(pos.x), '%', DigitChar(pos.y), '%', DigitChar(pos.z)]
    ensures PositionTuple(id, pos) == text
  {
    var f := [[DigitChar(id)], [DigitChar(pos.x)], [DigitChar(pos.y)], [DigitChar(pos.z)]];
    assert [IntToString(id), IntToString(pos.x), IntToString(pos.y), IntToString(pos.z)] == f;
    JoinCons(f[2], [f[3]], '%');
    assert [f[2]] + [f[3]] == f[2..];
    JoinCons(f[1], f[2..], '%');
    assert [f[1]] + f[2..] == f[1..];
    JoinCons(f[0], f[1..], '%');
    assert [f[0]] + f[1..] == f;
  }

  lemma ExampleTuplesOf(c1: ServerClient, c2: ServerClient)
    ensures PositionTuples([c1, c2])
         == [PositionTuple(c1.connectionId, c1.position), PositionTuple(c2.connectionId, c2.position)]
  {
  }

  lemma ExampleText()
    ensures AskPositionMessage(["1%0%0%0", "2%1%2%3"]) == "ASKPOSITION|1%0%0%0|2%1%2%3"
  {
    JoinCons("1%0%0%0", ["2%1%2%3"], '|');
    assert ["1%0%0%0"] + ["2%1%2%3"] == ["1%0%0%0", "2%1%2%3"];
    JoinCons("ASKPOSITION", ["1%0%0%0", "2%1%2%3"], '|');
  }

  /** The example packet: records 1 at (0,0,0) and 2 at (1,2,3). */
  lemma AskPositionExample()
    ensures AskPositionMessage(PositionTuples([ServerClient(1, "A", Vec3(0, 0, 0)),
                                               ServerClient(2, "B", Vec3(1, 2, 3))]))
            == "ASKPOSITION|1%0%0%0|2%1%2%3"
  {
    ExampleTuple(1, Vec3(0, 0, 0), "1%0%0%0");
    ExampleTuple(2, Vec3(1, 2, 3), "2%1%2%3");
    ExampleTuplesOf(ServerClient(1, "A", Vec3(0, 0, 0)), ServerClient(2, "B", Vec3(1, 2, 3)));
    ExampleText();
  }
}
