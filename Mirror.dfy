/** The client side of the protocol as functions of the client's session
    state: what each message from the server does to the mirror of peers,
    to the client's own id and flags, and which packets the client sends
    back. The Client class implements these reactions step by step. */
module Mirror {
  import opened Text
  import opened Wire

  /** A peer as the client mirrors it; the avatar object is left out. */
  datatype Player = Player(playerName: string, connectionId: int)

  /** The fields of the Client MonoBehaviour that the protocol reads or writes. */
  datatype Session = Session(
    playerName: string,          // the local name, sent in NAMEIS
    connectionId: int,           // the transport's connection to the server
    ourClientId: int,            // the id the server gave us
    isStarted: bool,             // our own avatar has been spawned
    players: map<int, Player>,   // every spawned participant, by id
    realPosition: Vec3,          // the last position received for a peer
    p: Option<Player>)           // the peer that position was last matched to

  /** The outcome of one handler: the new session, the packets it sent, and
      false when it threw. What it changed and sent before throwing stays. */
  datatype Step = Step(session: Session, sent: seq<Packet>, ok: bool)

  // ---------------------------------------------------------------------
  // SpawnPlayer and PlayerDisconnected
  // ---------------------------------------------------------------------

  /** SpawnPlayer: our own id raises isStarted first; then Dictionary.Add
      adds the entry, or throws when the key is already there. */
  function Spawned(s: Session, playerName: string, cnnId: int): Step
  {
    var s1 := if cnnId == s.ourClientId then s.(isStarted := true) else s;
    if cnnId in s1.players then Step(s1, [], false)
    else Step(s1.(players := s1.players[cnnId := Player(playerName, cnnId)]), [], true)
  }

  /** Spawning succeeds exactly for an id without an entry, and then adds
      that entry and changes no other; isStarted is raised exactly for our
      own id, even when the add throws; nothing is sent and nothing else
      changes. */
  lemma SpawnedAddsOne(s: Session, playerName: string, cnnId: int)
    ensures var r := Spawned(s, playerName, cnnId);
      && r.sent == []
      && (r.ok <==> cnnId !in s.players)
      && r.session.isStarted == (s.isStarted || cnnId == s.ourClientId)
      && r.session.players.Keys == s.players.Keys + {cnnId}
      && (forall k :: k in s.players ==> r.session.players[k] == s.players[k])
      && (r.ok ==> r.session.players[cnnId] == Player(playerName, cnnId))
      && r.session == s.(isStarted := r.session.isStarted, players := r.session.players)
  {
  }

  /** PlayerDisconnected: players[cnnId] throws for an absent key; otherwise
      the entry goes. */
  function Departed(s: Session, cnnId: int): Step
  {
    if cnnId !in s.players then Step(s, [], false)
    else Step(s.(players := s.players - {cnnId}), [], true)
  }

  /** Removing succeeds exactly for an id with an entry; exactly that entry
      goes, every other entry stays as it was, nothing is sent and nothing
      else changes. */
  lemma DepartedRemovesOne(s: Session, cnnId: int)
    ensures var r := Departed(s, cnnId);
      && r.sent == []
      && (r.ok <==> cnnId in s.players)
      && r.session.players.Keys == s.players.Keys - {cnnId}
      && (forall k :: k in r.session.players ==> r.session.players[k] == s.players[k])
      && r.session == s.(players := r.session.players)
  {
  }

  // ---------------------------------------------------------------------
  // The handler loops
  // ---------------------------------------------------------------------

  /** A handler's loop over the fields of a message: each field in order,
      stopping at the first one that throws. */
  function Chain(st: Step, items: seq<string>, f: (Step, string) -> Step): Step
  {
    if items == [] then st
    else
      var prev := Chain(st, items[..|items| - 1], f);
      if prev.ok then f(prev, items[|items| - 1]) else prev
  }

  /** Once a loop has thrown, the fields after that one are never looked at. */
  lemma {:induction false} ChainStopsAtFailure(st: Step, items: seq<string>, f: (Step, string) -> Step, k: int)
    requires 0 <= k <= |items| && !Chain(st, items[..k], f).ok
    ensures Chain(st, items, f) == Chain(st, items[..k], f)
  {
    if k < |items| {
      var init := items[..|items| - 1];
      assert init[..k] == items[..k];
      ChainStopsAtFailure(st, init, f, k);
    } else {
      assert items[..k] == items;
    }
  }

  /** The last step of a loop over a non-empty list of fields, when the
      steps before it did not throw. */
  lemma ChainLast(st: Step, items: seq<string>, f: (Step, string) -> Step)
    requires items != [] && Chain(st, items[..|items| - 1], f).ok
    ensures Chain(st, items, f) == f(Chain(st, items[..|items| - 1], f), items[|items| - 1])
  {
  }

  /** One more field after a loop that did not throw. */
  lemma ChainSnoc(st: Step, items: seq<string>, x: string, f: (Step, string) -> Step)
    requires Chain(st, items, f).ok
    ensures Chain(st, items + [x], f) == f(Chain(st, items, f), x)
  {
    assert (items + [x])[..|items|] == items;
  }

  /** Step k of a loop whose first k steps did not throw. */
  lemma ChainStep(st: Step, items: seq<string>, f: (Step, string) -> Step, k: int)
    requires 0 <= k < |items| && Chain(st, items[..k], f).ok
    ensures Chain(st, items[..k + 1], f) == f(Chain(st, items[..k], f), items[k])
  {
    assert items[..k + 1][..k] == items[..k];
    ChainLast(st, items[..k + 1], f);
  }

  /** One roster entry of ASKNAME: split on '%', then SpawnPlayer(d[0],
      int.Parse(d[1])); a missing d[1] or a bad number throws. */
  function SpawnEntry(st: Step, entry: string): Step
  {
    var d := Split(entry, '%');
    if |d| < 2 then st.(ok := false)
    else match ParseInt(d[1])
      case None => st.(ok := false)
      case Some(id) =>
        var r := Spawned(st.session, d[0], id);
        Step(r.session, st.sent + r.sent, r.ok)
  }

  /** The outcomes of one roster entry, in the order the handler meets them. */
  lemma SpawnEntryCases(st: Step, entry: string)
    ensures var d := Split(entry, '%');
      var r := SpawnEntry(st, entry);
      && (|d| < 2 || ParseInt(d[1]).None? ==> r == st.(ok := false))
      && (|d| >= 2 && ParseInt(d[1]).Some? ==>
            var sp := Spawned(st.session, d[0], ParseInt(d[1]).value);
            r == Step(sp.session, st.sent, sp.ok))
  {
    var d := Split(entry, '%');
    if |d| >= 2 && ParseInt(d[1]).Some? {
      assert st.sent + [] == st.sent;
    }
  }

  /** One tuple of ASKPOSITION: split on '%'; our own id is skipped. For any
      other id the position is read and becomes realPosition, and p becomes
      that peer only when it is in the dictionary (the KeyNotFoundException
      is caught). A bad number or a missing field throws. */
  function PositionEntry(st: Step, tuple: string): Step
  {
    var d := Split(tuple, '%');
    match ParseInt(d[0])
    case None => st.(ok := false)
    case Some(id) =>
      if st.session.ourClientId == id then st
      else if |d| < 4 then st.(ok := false)
      else match ParseVec3(d[1], d[2], d[3])
        case None => st.(ok := false)
        case Some(pos) =>
          var moved := st.session.(realPosition := pos);
          st.(session := if id in moved.players then moved.(p := Some(moved.players[id])) else moved)
  }

  /** The outcomes of one ASKPOSITION tuple, in the order the handler
      meets them. */
  lemma PositionEntryCases(st: Step, tuple: string)
    ensures var d := Split(tuple, '%');
      var r := PositionEntry(st, tuple);
      && (ParseInt(d[0]).None? ==> r == st.(ok := false))
      && (ParseInt(d[0]).Some? && ParseInt(d[0]).value == st.session.ourClientId ==> r == st)
      && (ParseInt(d[0]).Some? && ParseInt(d[0]).value != st.session.ourClientId ==>
            if |d| < 4 || ParseVec3(d[1], d[2], d[3]).None? then r == st.(ok := false)
            else
              var id := ParseInt(d[0]).value;
              r == st.(session := st.session.(
                         realPosition := ParseVec3(d[1], d[2], d[3]).value,
                         p := if id in st.session.players then Some(st.session.players[id]) else st.session.p)))
  {
  }

  // ---------------------------------------------------------------------
  // The handlers
  // ---------------------------------------------------------------------

  /** The roster fields OnAskName spawns: indices 2 up to but not including
      the last one. */
  function RosterFields(data: seq<string>): seq<string>
  {
    if |data| > 2 then data[2..|data| - 1] else []
  }

  /** OnAskName: ourClientId from field 1, one NAMEIS to the server, then
      the roster fields spawned in order. */
  function AfterAskName(s: Session, data: seq<string>): Step
  {
    if |data| < 2 then Step(s, [], false)
    else match ParseInt(data[1])
      case None => Step(s, [], false)
      case Some(id) =>
        var named := Step(s.(ourClientId := id),
                          [Packet(s.connectionId, Reliable, NameIsMessage(s.playerName))], true);
        Chain(named, RosterFields(data), SpawnEntry)
  }

  /** The fields after the header. */
  function Tail(data: seq<string>): seq<string>
  {
    if |data| > 0 then data[1..] else []
  }

  /** OnAskPosition: nothing before we are started; otherwise every tuple in
      order, then one MYPOSITION with our own avatar's position, which needs
      our own entry in the dictionary. */
  function AfterAskPosition(s: Session, data: seq<string>, myPosition: Vec3): Step
  {
    if !s.isStarted then Step(s, [], true)
    else
      var st := Chain(Step(s, [], true), Tail(data), PositionEntry);
      if !st.ok then st
      else if st.session.ourClientId !in st.session.players then st.(ok := false)
      else st.(sent := st.sent + [Packet(s.connectionId, Unreliable, MyPositionMessage(myPosition))])
  }

  /** A data event, dispatched on field 0 of its '|'-split; any other header
      is only logged. */
  function AfterMessage(s: Session, msg: string, myPosition: Vec3): Step
  {
    var data := Split(msg, '|');
    if data[0] == "ASKNAME" then AfterAskName(s, data)
    else if data[0] == "CNN" then
      if |data| < 3 then Step(s, [], false)
      else match ParseInt(data[2])
        case None => Step(s, [], false)
        case Some(id) => Spawned(s, data[1], id)
    else if data[0] == "DC" then
      if |data| < 2 then Step(s, [], false)
      else match ParseInt(data[1])
        case None => Step(s, [], false)
        case Some(id) => Departed(s, id)
    else if data[0] == "ASKPOSITION" then AfterAskPosition(s, data, myPosition)
    else Step(s, [], true)
  }

  // ---------------------------------------------------------------------
  // Properties
  // ---------------------------------------------------------------------

  /** A header other than the four is only logged: nothing changes, nothing is sent. */
  lemma OtherHeadersIgnored(s: Session, msg: string, myPosition: Vec3)
    requires var h := Split(msg, '|')[0]; h != "ASKNAME" && h != "CNN" && h != "DC" && h != "ASKPOSITION"
    ensures AfterMessage(s, msg, myPosition) == Step(s, [], true)
  {
  }

  /** The tuple loop of OnAskPosition sends nothing and touches nothing but
      realPosition and p. */
  lemma {:induction false} PositionLoopSilent(st: Step, tuples: seq<string>)
    ensures var r := Chain(st, tuples, PositionEntry);
      r.sent == st.sent
      && r.session == st.session.(realPosition := r.session.realPosition, p := r.session.p)
  {
    if tuples != [] {
      PositionLoopSilent(st, tuples[..|tuples| - 1]);
    }
  }

  /** Once started, a successful OnAskPosition sends exactly one packet, a
      MYPOSITION with our own position on the unreliable channel, however
      many tuples arrived; it succeeds only if our own entry exists. */
  lemma AskPositionRepliesOnce(s: Session, data: seq<string>, myPosition: Vec3)
    requires s.isStarted
    ensures var r := AfterAskPosition(s, data, myPosition);
      && (r.ok ==> r.sent == [Packet(s.connectionId, Unreliable, MyPositionMessage(myPosition))])
      && (r.ok ==> s.ourClientId in s.players)
      && (!r.ok ==> r.sent == [])
      && r.session.players == s.players
  {
    PositionLoopSilent(Step(s, [], true), Tail(data));
  }

  /** Before our own avatar is spawned, ASKPOSITION does nothing at all. */
  lemma AskPositionWaitsForStart(s: Session, data: seq<string>, myPosition: Vec3)
    requires !s.isStarted
    ensures AfterAskPosition(s, data, myPosition) == Step(s, [], true)
  {
  }

  /** The roster loop of OnAskName never sends and never lowers isStarted. */
  lemma {:induction false} RosterLoopKeepsStarted(st: Step, entries: seq<string>)
    ensures var r := Chain(st, entries, SpawnEntry);
      r.sent == st.sent && (st.session.isStarted ==> r.session.isStarted)
      && r.session.ourClientId == st.session.ourClientId
  {
    if entries != [] {
      RosterLoopKeepsStarted(st, entries[..|entries| - 1]);
    }
  }

  /** isStarted, once true, stays true whatever message arrives: nothing
      ever resets it. The id the server gave us changes only on ASKNAME. */
  lemma StartedNeverReset(s: Session, msg: string, myPosition: Vec3)
    ensures var r := AfterMessage(s, msg, myPosition);
      && (s.isStarted ==> r.session.isStarted)
      && (Split(msg, '|')[0] != "ASKNAME" ==> r.session.ourClientId == s.ourClientId)
  {
    var data := Split(msg, '|');
    if data[0] == "ASKNAME" && |data| >= 2 && ParseInt(data[1]).Some? {
      var named := Step(s.(ourClientId := ParseInt(data[1]).value),
                        [Packet(s.connectionId, Reliable, NameIsMessage(s.playerName))], true);
      RosterLoopKeepsStarted(named, RosterFields(data));
    } else if data[0] == "ASKPOSITION" && s.isStarted {
      PositionLoopSilent(Step(s, [], true), Tail(data));
    }
  }

  /** OnAskName always answers with exactly one NAMEIS, reliably, once field 1
      reads as a number, and ourClientId is that number from then on; a
      roster with no more than one entry spawns nobody. */
  lemma AskNameAnswersOnce(s: Session, data: seq<string>)
    requires |data| >= 2 && ParseInt(data[1]).Some?
    ensures var r := AfterAskName(s, data);
      && r.sent == [Packet(s.connectionId, Reliable, NameIsMessage(s.playerName))]
      && r.session.ourClientId == ParseInt(data[1]).value
      && (|data| <= 3 ==> r.ok && r.session == s.(ourClientId := ParseInt(data[1]).value))
  {
    var named := Step(s.(ourClientId := ParseInt(data[1]).value),
                      [Packet(s.connectionId, Reliable, NameIsMessage(s.playerName))], true);
    RosterLoopKeepsStarted(named, RosterFields(data));
  }
}
