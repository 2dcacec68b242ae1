/** The two sides together: what a client makes of the packets the server
    builds, and what the server makes of the packets a client builds. */
module Agreement {
  import opened Text
  import opened Wire
  import opened Registry
  import opened Mirror

  // ---------------------------------------------------------------------
  // Reference views of a registry from the client's side
  // ---------------------------------------------------------------------

  /** The dictionary entries a client makes from registry records. */
  function MirrorOf(cs: seq<ServerClient>): map<int, Player>
  {
    if cs == [] then map[]
    else
      var c := cs[|cs| - 1];
      MirrorOf(cs[..|cs| - 1])[c.connectionId := Player(c.playerName, c.connectionId)]
  }

  /** Names a client can read back out of a '%'-split roster entry. */
  predicate PercentFree(cs: seq<ServerClient>)
  {
    forall i :: 0 <= i < |cs| ==> '%' !in cs[i].playerName
  }

  /** The position of the last record that is not `ourId`, or `current`
      when every record is `ourId`. */
  function LastOtherPosition(cs: seq<ServerClient>, ourId: int, current: Vec3): Vec3
  {
    if cs == [] then current
    else if cs[|cs| - 1].connectionId != ourId then cs[|cs| - 1].position
    else LastOtherPosition(cs[..|cs| - 1], ourId, current)
  }

  /** The dictionary entry of the last record that is not `ourId` and has an
      entry, or `current` when there is none. */
  function LastKnownPeer(cs: seq<ServerClient>, ourId: int, players: map<int, Player>,
                         current: Option<Player>): Option<Player>
  {
    if cs == [] then current
    else
      var id := cs[|cs| - 1].connectionId;
      if id != ourId && id in players then Some(players[id])
      else LastKnownPeer(cs[..|cs| - 1], ourId, players, current)
  }

  lemma IdsSnoc(cs: seq<ServerClient>)
    requires cs != []
    ensures Ids(cs) == Ids(cs[..|cs| - 1]) + {cs[|cs| - 1].connectionId}
  {
    var init := cs[..|cs| - 1];
    forall x | x in Ids(cs) ensures x in Ids(init) + {cs[|cs| - 1].connectionId} {
      var k :| 0 <= k < |cs| && cs[k].connectionId == x;
      if k < |init| { assert init[k] == cs[k]; }
    }
    forall x | x in Ids(init) ensures x in Ids(cs) {
      var k :| 0 <= k < |init| && init[k].connectionId == x;
      assert cs[k] == init[k];
    }
  }

  /** The client ends up with an entry for exactly the registry's ids. */
  lemma {:induction false} MirrorOfKeys(cs: seq<ServerClient>)
    ensures MirrorOf(cs).Keys == Ids(cs)
  {
    if cs != [] {
      MirrorOfKeys(cs[..|cs| - 1]);
      IdsSnoc(cs);
    }
  }

  /** A later broadcast over the same registry leaves the position where the
      first one put it. */
  lemma {:induction false} LastOtherSettles(cs: seq<ServerClient>, ourId: int, current: Vec3)
    ensures LastOtherPosition(cs, ourId, LastOtherPosition(cs, ourId, current))
         == LastOtherPosition(cs, ourId, current)
  {
    if cs != [] && cs[|cs| - 1].connectionId == ourId {
      LastOtherSettles(cs[..|cs| - 1], ourId, current);
    }
  }

  lemma {:induction false} LastKnownSettles(cs: seq<ServerClient>, ourId: int, players: map<int, Player>,
                                            current: Option<Player>)
    ensures LastKnownPeer(cs, ourId, players, LastKnownPeer(cs, ourId, players, current))
         == LastKnownPeer(cs, ourId, players, current)
  {
    if cs != [] {
      var id := cs[|cs| - 1].connectionId;
      if !(id != ourId && id in players) {
        LastKnownSettles(cs[..|cs| - 1], ourId, players, current);
      }
    }
  }

  // ---------------------------------------------------------------------
  // ASKNAME: the roster
  // ---------------------------------------------------------------------

  /** Overriding after a merge is merging the overridden map. */
  lemma MergeUpdate(P: map<int, Player>, M: map<int, Player>, k: int, v: Player)
    ensures (P + M)[k := v] == P + M[k := v]
  {
  }

  /** One roster entry built from a record spawns that record, when it is
      neither known yet nor us. */
  lemma SpawnEntryOfRecord(st: Step, c: ServerClient)
    requires st.ok && '%' !in c.playerName && IsInt32(c.connectionId)
    requires c.connectionId !in st.session.players && c.connectionId != st.session.ourClientId
    ensures SpawnEntry(st, RosterEntry(c.playerName, c.connectionId))
         == Step(st.session.(players := st.session.players[c.connectionId := Player(c.playerName, c.connectionId)]),
                 st.sent, true)
  {
    RosterEntryDecodes(c.playerName, c.connectionId);
    var r := Spawned(st.session, c.playerName, c.connectionId);
    assert r.session == st.session.(players := st.session.players[c.connectionId := Player(c.playerName, c.connectionId)]);
    assert st.sent + [] == st.sent;
  }

  /** The roster loop over entries built from records spawns one entry per
      record, in order, and succeeds, when none of them is known yet and
      none is us; it sends nothing and touches nothing else. */
  lemma {:induction false} RosterLoopMirrors(st: Step, cs: seq<ServerClient>)
    requires st.ok && WellFormed(cs) && PercentFree(cs)
    requires forall i :: 0 <= i < |cs| ==>
      cs[i].connectionId !in st.session.players && cs[i].connectionId != st.session.ourClientId
    ensures Chain(st, Roster(cs), SpawnEntry)
         == Step(st.session.(players := st.session.players + MirrorOf(cs)), st.sent, true)
  {
    var P := st.session.players;
    if cs == [] {
      assert P + map[] == P;
      assert st.session.(players := P) == st.session;
    } else {
      var n := |cs| - 1;
      var init := cs[..n];
      var c := cs[n];
      assert cs == init + [c];
      assert forall i :: 0 <= i < n ==> init[i] == cs[i];
      RosterLoopMirrors(st, init);
      assert c.connectionId !in MirrorOf(init) by {
        MirrorOfKeys(init);
        assert forall k :: 0 <= k < n ==> init[k].connectionId != c.connectionId;
      }
      RosterLoopSnoc(st, init, c);
      RosterSnoc(init, c);
      MirrorOfSnoc(init, c);
      MergeUpdate(P, MirrorOf(init), c.connectionId, Player(c.playerName, c.connectionId));
    }
  }

  lemma MirrorOfSnoc(init: seq<ServerClient>, c: ServerClient)
    ensures MirrorOf(init + [c]) == MirrorOf(init)[c.connectionId := Player(c.playerName, c.connectionId)]
  {
    var cs := init + [c];
    assert cs[..|cs| - 1] == init;
  }

  /** The inductive step of RosterLoopMirrors: one more record, neither
      known, mirrored already nor us, adds its own entry. */
  lemma RosterLoopSnoc(st: Step, init: seq<ServerClient>, c: ServerClient)
    requires Chain(st, Roster(init), SpawnEntry)
          == Step(st.session.(players := st.session.players + MirrorOf(init)), st.sent, true)
    requires '%' !in c.playerName && IsInt32(c.connectionId)
    requires c.connectionId !in st.session.players && c.connectionId !in MirrorOf(init)
    requires c.connectionId != st.session.ourClientId
    ensures Chain(st, Roster(init) + [RosterEntry(c.playerName, c.connectionId)], SpawnEntry)
         == Step(st.session.(players := (st.session.players + MirrorOf(init))[c.connectionId := Player(c.playerName, c.connectionId)]),
                 st.sent, true)
  {
    var prev := Chain(st, Roster(init), SpawnEntry);
    ChainSnoc(st, Roster(init), RosterEntry(c.playerName, c.connectionId), SpawnEntry);
    SpawnEntryOfRecord(prev, c);
  }

  /** What a newcomer makes of the ASKNAME the server sends it: it takes the
      id the server gave it, answers with one NAMEIS, and spawns every
      participant registered before it, in order, but not itself (its own
      entry is the last field, which the loop stops short of) — so it is not
      started yet. */
  lemma ClientReadsAskName(s: Session, cs: seq<ServerClient>, cnnId: int, myPosition: Vec3)
    requires WellFormed(cs) && PercentFree(cs) && cnnId !in Ids(cs) && IsInt32(cnnId)
    requires forall i :: 0 <= i < |cs| ==> cs[i].connectionId !in s.players
    ensures AfterMessage(s, Connection(cs, cnnId).sent[0].message, myPosition)
         == Step(s.(ourClientId := cnnId, players := s.players + MirrorOf(cs)),
                 [Packet(s.connectionId, Reliable, NameIsMessage(s.playerName))], true)
  {
    var msg := Connection(cs, cnnId).sent[0].message;
    ConnectionAnnouncesRoster(cs, cnnId);
    var data := Split(msg, '|');
    assert data == ["ASKNAME", IntToString(cnnId)] + Roster(cs) + [RosterEntry(Placeholder, cnnId)];
    assert AfterMessage(s, msg, myPosition) == AfterAskName(s, data);
    ParseIntToString(cnnId);
    assert ParseInt(data[1]) == Some(cnnId);
    assert RosterFields(data) == Roster(cs);
    assert forall i :: 0 <= i < |cs| ==> cs[i].connectionId != cnnId;
    var named := Step(s.(ourClientId := cnnId),
                      [Packet(s.connectionId, Reliable, NameIsMessage(s.playerName))], true);
    assert AfterAskName(s, data) == Chain(named, Roster(cs), SpawnEntry);
    RosterLoopMirrors(named, cs);
  }

  lemma AskNameExampleJoin()
    ensures Join(["ASKNAME", "3", "MUHAND%1", "HUSSAM%2", "TEMP%3"], '|') == "ASKNAME|3|MUHAND%1|HUSSAM%2|TEMP%3"
  {
    JoinFive("ASKNAME", "3", "MUHAND%1", "HUSSAM%2", "TEMP%3", '|');
  }

  /** The server builds the packet of the example in OnAskName's comment
      when MUHAND (1) and HUSSAM (2) are registered and 3 connects. */
  lemma AskNameExamplePacket()
    ensures Connection([ServerClient(1, "MUHAND", Origin), ServerClient(2, "HUSSAM", Origin)], 3).sent[0].message
         == "ASKNAME|3|MUHAND%1|HUSSAM%2|TEMP%3"
  {
    var cs := [ServerClient(1, "MUHAND", Origin), ServerClient(2, "HUSSAM", Origin)];
    assert IntToString(1) == "1" && IntToString(2) == "2" && IntToString(3) == "3";
    var cs' := Connection(cs, 3).clients;
    assert Roster(cs')[0] == "MUHAND%1" && Roster(cs')[1] == "HUSSAM%2" && Roster(cs')[2] == "TEMP%3";
    assert ["ASKNAME", IntToString(3)] + Roster(cs') == ["ASKNAME", "3", "MUHAND%1", "HUSSAM%2", "TEMP%3"];
    AskNameExampleJoin();
  }

  /** The registry of that example: MUHAND (1) and HUSSAM (2). */
  lemma ExampleRegistry()
    ensures var cs := [ServerClient(1, "MUHAND", Origin), ServerClient(2, "HUSSAM", Origin)];
      WellFormed(cs) && PercentFree(cs) && Ids(cs) == {1, 2}
      && MirrorOf(cs) == map[1 := Player("MUHAND", 1), 2 := Player("HUSSAM", 2)]
  {
    var cs := [ServerClient(1, "MUHAND", Origin), ServerClient(2, "HUSSAM", Origin)];
    IdsSnoc(cs);
    IdsSnoc(cs[..1]);
    assert cs[..1][..0] == [];
    assert MirrorOf(cs[..1]) == map[1 := Player("MUHAND", 1)];
  }

  /** What a fresh client makes of that packet: MUHAND (1) and HUSSAM (2)
      are spawned, TEMP (3) is the client itself and is not. */
  lemma AskNameExample(s: Session, myPosition: Vec3)
    requires s.players == map[]
    ensures AfterMessage(s, "ASKNAME|3|MUHAND%1|HUSSAM%2|TEMP%3", myPosition)
         == Step(s.(ourClientId := 3,
                    players := map[1 := Player("MUHAND", 1), 2 := Player("HUSSAM", 2)]),
                 [Packet(s.connectionId, Reliable, "NAMEIS|" + s.playerName)], true)
  {
    var cs := [ServerClient(1, "MUHAND", Origin), ServerClient(2, "HUSSAM", Origin)];
    ExampleRegistry();
    AskNameExamplePacket();
    ClientReadsAskName(s, cs, 3, myPosition);
    assert s.players + MirrorOf(cs) == MirrorOf(cs);
  }

  /** The ASKNAME for 3 after "a%b" (1) and "C" (2): its fields. */
  lemma PercentExampleFields()
    ensures Split(Connection([ServerClient(1, "a%b", Origin), ServerClient(2, "C", Origin)], 3).sent[0].message, '|')
         == ["ASKNAME", "3", "a%b%1", "C%2", "TEMP%3"]
  {
    var cs := [ServerClient(1, "a%b", Origin), ServerClient(2, "C", Origin)];
    assert IntToString(1) == "1" && IntToString(2) == "2" && IntToString(3) == "3";
    ConnectionAnnouncesRoster(cs, 3);
    assert Roster(cs)[0] == "a%b%1" && Roster(cs)[1] == "C%2";
    assert Roster(cs) == ["a%b%1", "C%2"];
    assert RosterEntry(Placeholder, 3) == "TEMP%3";
  }

  /** The entry `a%b%1` makes the roster loop throw: "b" is read as the id. */
  lemma PercentEntryThrows(st: Step)
    ensures SpawnEntry(st, "a%b%1") == st.(ok := false)
  {
    assert Join(["a", "b", "1"], '%') == "a%b%1";
    SplitJoin(["a", "b", "1"], '%');
    assert TrimWhite("b") == "b" && !IsDigit('b');
    assert ParseInt("b") == None;
  }

  /** A name holding '%' throws every later newcomer's roster loop off: a
      client that joins after "a%b" reads "b" as an id, throws, and spawns
      nobody, not even the participants listed after it. */
  lemma PercentInNameStopsRoster(s: Session, myPosition: Vec3)
    requires s.players == map[]
    ensures var cs := [ServerClient(1, "a%b", Origin), ServerClient(2, "C", Origin)];
      WellFormed(cs)
      && var r := AfterMessage(s, Connection(cs, 3).sent[0].message, myPosition);
      !r.ok && r.session.players == map[]
  {
    var cs := [ServerClient(1, "a%b", Origin), ServerClient(2, "C", Origin)];
    PercentExampleFields();
    var data := ["ASKNAME", "3", "a%b%1", "C%2", "TEMP%3"];
    ParseIntToString(3);
    assert IntToString(3) == "3";
    var named := Step(s.(ourClientId := 3),
                      [Packet(s.connectionId, Reliable, NameIsMessage(s.playerName))], true);
    var entries := RosterFields(data);
    assert entries == ["a%b%1", "C%2"];
    assert entries[..1] == ["a%b%1"];
    PercentEntryThrows(named);
    assert !Chain(named, entries[..1], SpawnEntry).ok;
    ChainStopsAtFailure(named, entries, SpawnEntry, 1);
  }

  // ---------------------------------------------------------------------
  // ASKPOSITION: the periodic broadcast
  // ---------------------------------------------------------------------

  /** One tuple built from a record: our own record is skipped, any other
      moves realPosition there and points p at its entry when it has one. */
  lemma PositionEntryOfRecord(st: Step, c: ServerClient)
    requires IsInt32(c.connectionId) && IsInt32Vec(c.position)
    ensures PositionEntry(st, PositionTuple(c.connectionId, c.position))
         == if c.connectionId == st.session.ourClientId then st
            else st.(session := st.session.(
                       realPosition := c.position,
                       p := if c.connectionId in st.session.players
                            then Some(st.session.players[c.connectionId]) else st.session.p))
  {
    PositionTupleDecodes(c.connectionId, c.position);
  }

  /** The tuple loop over a broadcast of records moves realPosition to the
      last record that is not us, and p to the last such record with an
      entry; later tuples win. */
  lemma {:induction false} PositionLoopFollowsRegistry(st: Step, cs: seq<ServerClient>)
    requires st.ok && WellFormed(cs)
    ensures Chain(st, PositionTuples(cs), PositionEntry)
         == st.(session := st.session.(
                  realPosition := LastOtherPosition(cs, st.session.ourClientId, st.session.realPosition),
                  p := LastKnownPeer(cs, st.session.ourClientId, st.session.players, st.session.p)))
  {
    if cs == [] {
      assert st.session.(realPosition := st.session.realPosition, p := st.session.p) == st.session;
    } else {
      var n := |cs| - 1;
      var init := cs[..n];
      var c := cs[n];
      assert WellFormed(init) by {
        assert forall i :: 0 <= i < n ==> init[i] == cs[i];
      }
      PositionLoopFollowsRegistry(st, init);
      var prev := Chain(st, PositionTuples(init), PositionEntry);
      assert PositionTuples(cs)[..n] == PositionTuples(init);
      assert PositionTuples(cs)[n] == PositionTuple(c.connectionId, c.position);
      ChainLast(st, PositionTuples(cs), PositionEntry);
      PositionEntryOfRecord(prev, c);
    }
  }

  /** What a started client that has its own entry makes of the server's
      broadcast: realPosition and p follow the last other participant, and
      it answers with exactly one MYPOSITION, unreliably. */
  lemma ClientReadsAskPosition(s: Session, cs: seq<ServerClient>, myPosition: Vec3)
    requires WellFormed(cs) && s.isStarted && s.ourClientId in s.players
    ensures AfterMessage(s, AskPositionMessage(PositionTuples(cs)), myPosition)
         == Step(s.(realPosition := LastOtherPosition(cs, s.ourClientId, s.realPosition),
                    p := LastKnownPeer(cs, s.ourClientId, s.players, s.p)),
                 [Packet(s.connectionId, Unreliable, MyPositionMessage(myPosition))], true)
  {
    TuplesBarFree(cs);
    AskPositionDecodes(PositionTuples(cs));
    var data := Split(AskPositionMessage(PositionTuples(cs)), '|');
    assert Tail(data) == PositionTuples(cs);
    PositionLoopFollowsRegistry(Step(s, [], true), cs);
  }

  /** The same broadcast read twice leaves the client where reading it once
      did, and draws the same single reply. */
  lemma AskPositionIdempotent(s: Session, cs: seq<ServerClient>, myPosition: Vec3)
    requires WellFormed(cs) && s.isStarted && s.ourClientId in s.players
    ensures var m := AskPositionMessage(PositionTuples(cs));
      var once := AfterMessage(s, m, myPosition);
      var twice := AfterMessage(once.session, m, myPosition);
      twice.ok && twice.session == once.session && twice.sent == once.sent
  {
    ClientReadsAskPosition(s, cs, myPosition);
    var once := AfterMessage(s, AskPositionMessage(PositionTuples(cs)), myPosition);
    ClientReadsAskPosition(once.session, cs, myPosition);
    LastOtherSettles(cs, s.ourClientId, s.realPosition);
    LastKnownSettles(cs, s.ourClientId, s.players, s.p);
  }

  // ---------------------------------------------------------------------
  // CNN and DC
  // ---------------------------------------------------------------------

  /** A CNN from the server spawns the named participant. */
  lemma ClientReadsConnected(s: Session, name: string, id: int, myPosition: Vec3)
    requires '|' !in name && IsInt32(id)
    ensures AfterMessage(s, ConnectedMessage(name, id), myPosition) == Spawned(s, name, id)
  {
    ConnectedDecodes(name, id);
  }

  /** A DC from the server removes the participant's entry. */
  lemma ClientReadsDisconnected(s: Session, id: int, myPosition: Vec3)
    requires IsInt32(id)
    ensures AfterMessage(s, DisconnectedMessage(id), myPosition) == Departed(s, id)
  {
    DisconnectedDecodes(id);
  }

  // ---------------------------------------------------------------------
  // What the server makes of the client's packets
  // ---------------------------------------------------------------------

  /** The server renames the sender to its name up to the first '|'. */
  lemma ServerReadsNameIs(cs: seq<ServerClient>, id: int, name: string)
    ensures OnData(cs, id, NameIsMessage(name)) == NameIs(cs, id, Split(name, '|')[0])
  {
    var msg := NameIsMessage(name);
    assert msg == "NAMEIS" + ['|'] + name;
    SplitAfterPart("NAMEIS", '|', name);
    var data := Split(msg, '|');
    assert data == ["NAMEIS"] + Split(name, '|');
    assert data[0] == "NAMEIS" && |data| >= 2 && data[1] == Split(name, '|')[0];
  }

  /** A name without '|' arrives whole. */
  lemma ServerReadsWholeName(cs: seq<ServerClient>, id: int, name: string)
    requires '|' !in name
    ensures OnData(cs, id, NameIsMessage(name)) == NameIs(cs, id, name)
  {
    ServerReadsNameIs(cs, id, name);
    SplitOfPart(name, '|');
  }

  /** The server moves the sender's record to the position it reported. */
  lemma ServerReadsMyPosition(cs: seq<ServerClient>, id: int, pos: Vec3)
    requires IsInt32Vec(pos)
    ensures OnData(cs, id, MyPositionMessage(pos)) == MyPosition(cs, id, pos)
  {
    MyPositionDecodes(pos);
  }

  // ---------------------------------------------------------------------
  // A whole join
  // ---------------------------------------------------------------------

  /** A newcomer joins a well-formed session: the server registers it and
      sends ASKNAME; the newcomer answers NAMEIS; the server renames its
      record and tells everybody CNN; the CNN the newcomer itself receives
      spawns its own avatar, and it is started, with an entry for every
      participant and for itself. */
  lemma JoinStartsNewcomer(s: Session, cs: seq<ServerClient>, cnnId: int, myPosition: Vec3)
    requires WellFormed(cs) && PercentFree(cs) && cnnId !in Ids(cs) && IsInt32(cnnId)
    requires s.players == map[] && '|' !in s.playerName
    ensures var joined := Connection(cs, cnnId);
      var asked := AfterMessage(s, joined.sent[0].message, myPosition);
      && asked.ok
      && asked.sent == [Packet(s.connectionId, Reliable, NameIsMessage(s.playerName))]
      && var named := OnData(joined.clients, cnnId, asked.sent[0].message);
      && named.ok
      && named.clients == cs + [ServerClient(cnnId, s.playerName, Origin)]
      && |named.sent| == |cs| + 1
      && named.sent[|cs|] == Packet(cnnId, Reliable, ConnectedMessage(s.playerName, cnnId))
      && var started := AfterMessage(asked.session, named.sent[|cs|].message, myPosition);
      && started.ok && started.session.isStarted
      && started.session.players == MirrorOf(cs)[cnnId := Player(s.playerName, cnnId)]
  {
    var joined := Connection(cs, cnnId);
    ClientReadsAskName(s, cs, cnnId, myPosition);
    var asked := AfterMessage(s, joined.sent[0].message, myPosition);
    assert asked.sent == [Packet(s.connectionId, Reliable, NameIsMessage(s.playerName))];
    assert asked.session.players == MirrorOf(cs) by {
      assert map[] + MirrorOf(cs) == MirrorOf(cs);
    }
    ConnectionKeepsRegistry(cs, cnnId);
    ServerReadsWholeName(joined.clients, cnnId, s.playerName);
    NameIsRenamesAndAnnounces(joined.clients, cnnId, s.playerName);
    assert cnnId in Ids(joined.clients);
    var named := OnData(joined.clients, cnnId, asked.sent[0].message);
    assert named.clients == cs + [ServerClient(cnnId, s.playerName, Origin)];
    ClientReadsConnected(asked.session, s.playerName, cnnId, myPosition);
    MirrorOfKeys(cs);
  }
}
