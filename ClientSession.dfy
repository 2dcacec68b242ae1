/** The Client MonoBehaviour: its own name and connection, the id the server
    gave it, the dictionary of spawned participants, the last position
    received for a peer, and every packet it has handed to the transport.
    Each handler is proved to do what the matching function of the Mirror
    module says. */
module ClientSession {
  import opened Text
  import opened Wire
  import opened Mirror

  class Client {
    var playerName: string
    var connectionId: int
    var connectionTime: int
    var isConnected: bool
    var ourClientId: int
    var isStarted: bool
    var players: map<int, Player>
    var realPosition: Vec3
    var p: Option<Player>
    /** Every NetworkTransport.Send so far, oldest first. */
    var outbox: seq<Packet>

    /** The fields the protocol reads and writes, as one value. */
    function State(): Session
      reads this
    {
      Session(playerName, connectionId, ourClientId, isStarted, players, realPosition, p)
    }

    constructor ()
      ensures !isConnected && !isStarted && players == map[]
      ensures realPosition == Origin && p == None && outbox == []
      ensures playerName == "" && connectionId == 0 && connectionTime == 0 && ourClientId == 0
    {
      playerName := "";
      connectionId := 0;
      connectionTime := 0;
      isConnected := false;
      ourClientId := 0;
      isStarted := false;
      players := map[];
      realPosition := Origin;
      p := None;
      outbox := [];
    }

    /** Connect with the name typed in: an empty name only logs an error.
        Otherwise the name is kept and the connection the transport opens
        (`serverConnection`) is recorded with the time it was made. */
    method Connect(pName: string, serverConnection: int, now: int)
      modifies this`playerName, this`connectionId, this`connectionTime, this`isConnected
      ensures pName == "" ==> unchanged(this)
      ensures pName != "" ==>
        playerName == pName && connectionId == serverConnection
        && connectionTime == now && isConnected
    {
      if pName == "" {
        return;
      }
      playerName := pName;
      connectionId := serverConnection;
      connectionTime := now;
      isConnected := true;
    }

    /** One frame: nothing before Connect; otherwise the event the transport
        reports, of which only data is handled. `myPosition` is where our own
        avatar stands, read when ASKPOSITION is answered. */
    method Update(ev: NetEvent, myPosition: Vec3) returns (ok: bool)
      modifies this`ourClientId, this`isStarted, this`players, this`realPosition, this`p, this`outbox
      ensures !(old(isConnected) && ev.DataEvent?) ==>
        ok && State() == old(State()) && outbox == old(outbox)
      ensures old(isConnected) && ev.DataEvent? ==>
        var r := AfterMessage(old(State()), ev.message, myPosition);
        ok == r.ok && State() == r.session && outbox == old(outbox) + r.sent
    {
      if !isConnected {
        return true;
      }
      match ev {
        case DataEvent(_, msg) =>
          var splitData := Split(msg, '|');
          if splitData[0] == "ASKNAME" {
            ok := OnAskName(splitData);
          } else if splitData[0] == "CNN" {
            if |splitData| < 3 {
              return false;
            }
            var cnnId := ParseInt(splitData[2]);
            if cnnId.None? {
              return false;
            }
            ok := SpawnPlayer(splitData[1], cnnId.value);
          } else if splitData[0] == "DC" {
            if |splitData| < 2 {
              return false;
            }
            var cnnId := ParseInt(splitData[1]);
            if cnnId.None? {
              return false;
            }
            ok := PlayerDisconnected(cnnId.value);
          } else if splitData[0] == "ASKPOSITION" {
            ok := OnAskPosition(splitData, myPosition);
          } else {
            ok := true;   // logged as an invalid message
          }
        case _ =>
          ok := true;
      }
    }

    /** ASKPOSITION: every tuple but our own moves realPosition, and p when
        the id has an entry; then one MYPOSITION goes back. */
    method OnAskPosition(data: seq<string>, myPosition: Vec3) returns (ok: bool)
      requires |data| > 0   // a '|'-split is never empty
      modifies this`realPosition, this`p, this`outbox
      ensures var r := AfterAskPosition(old(State()), data, myPosition);
        ok == r.ok && State() == r.session && outbox == old(outbox) + r.sent
    {
      if !isStarted {
        return true;
      }
      ghost var start := Step(State(), [], true);
      ghost var tuples := Tail(data);
      ghost var st := start;
      var i := 1;
      while i < |data|
        invariant 1 <= i <= |data|
        invariant st == Chain(start, tuples[..i - 1], PositionEntry)
        invariant st.ok && State() == st.session && outbox == old(outbox) + st.sent
      {
        assert data[i] == tuples[i - 1];
        ChainStep(start, tuples, PositionEntry, i - 1);
        ok := PositionOne(data[i], st);
        st := PositionEntry(st, data[i]);
        if !ok {
          ChainStopsAtFailure(start, tuples, PositionEntry, i);
          return;
        }
        i := i + 1;
      }
      assert tuples[..i - 1] == tuples;
      if ourClientId !in players {
        return false;
      }
      Send(MyPositionMessage(myPosition), Unreliable);
      ok := true;
    }

    /** One ASKPOSITION tuple: split on '%'; our own id is skipped; any
        other moves realPosition, and p when the id has an entry. A field
        that is missing or does not parse throws. */
    method PositionOne(tuple: string, ghost st: Step) returns (ok: bool)
      requires st.ok && State() == st.session
      modifies this`realPosition, this`p
      ensures var r := PositionEntry(st, tuple);
        ok == r.ok && State() == r.session && r.sent == st.sent
    {
      PositionEntryCases(st, tuple);
      var d := Split(tuple, '%');
      var id := ParseInt(d[0]);
      if id.None? {
        return false;
      }
      if ourClientId != id.value {
        if |d| < 4 {
          return false;
        }
        var pos := ParseVec3(d[1], d[2], d[3]);
        if pos.None? {
          return false;
        }
        realPosition := pos.value;
        if id.value in players {
          p := Some(players[id.value]);   // otherwise KeyNotFoundException, caught
        }
      }
      ok := true;
    }

    /** ASKNAME: keep the id the server gave us, answer NAMEIS, then spawn
        the roster entries. */
    method OnAskName(data: seq<string>) returns (ok: bool)
      modifies this`ourClientId, this`isStarted, this`players, this`outbox
      ensures var r := AfterAskName(old(State()), data);
        ok == r.ok && State() == r.session && outbox == old(outbox) + r.sent
    {
      if |data| < 2 {
        return false;
      }
      var id := ParseInt(data[1]);
      if id.None? {
        return false;
      }
      ourClientId := id.value;
      Send(NameIsMessage(playerName), Reliable);
      ghost var named := Step(old(State()).(ourClientId := id.value),
                              [Packet(connectionId, Reliable, NameIsMessage(playerName))], true);
      assert AfterAskName(old(State()), data) == Chain(named, RosterFields(data), SpawnEntry);
      RosterLoopKeepsStarted(named, RosterFields(data));
      ok := SpawnRoster(data, named);
    }

    /** The roster loop of OnAskName: the entries from index 2 up to, not
        including, the last, each spawned in turn, stopping at the first that
        throws. It sends nothing. */
    method SpawnRoster(data: seq<string>, ghost named: Step) returns (ok: bool)
      requires named.ok && State() == named.session
      modifies this`isStarted, this`players
      ensures var r := Chain(named, RosterFields(data), SpawnEntry);
        ok == r.ok && State() == r.session
    {
      ghost var entries := RosterFields(data);
      ghost var st := named;
      var i := 2;
      while i < |data| - 1
        invariant 2 <= i <= |entries| + 2
        invariant st == Chain(named, entries[..i - 2], SpawnEntry)
        invariant st.ok && State() == st.session
      {
        assert data[i] == entries[i - 2];
        ChainStep(named, entries, SpawnEntry, i - 2);
        ok := SpawnOne(data[i], st);
        st := SpawnEntry(st, data[i]);
        if !ok {
          ChainStopsAtFailure(named, entries, SpawnEntry, i - 1);
          return;
        }
        i := i + 1;
      }
      assert entries[..i - 2] == entries;
      ok := true;
    }

    /** One roster entry: split on '%'; a missing id field or an id that does
        not parse throws; otherwise the participant is spawned. */
    method SpawnOne(entry: string, ghost st: Step) returns (ok: bool)
      requires st.ok && State() == st.session
      modifies this`isStarted, this`players
      ensures var r := SpawnEntry(st, entry);
        ok == r.ok && State() == r.session
    {
      SpawnEntryCases(st, entry);
      var d := Split(entry, '%');
      var cnnId := if |d| < 2 then None else ParseInt(d[1]);   // d[1] or int.Parse throws
      if cnnId.None? {
        return false;
      }
      ok := SpawnPlayer(d[0], cnnId.value);
    }

    /** Spawn a participant: our own id starts us; then the entry is added,
        which throws when the id already has one. */
    method SpawnPlayer(name: string, cnnId: int) returns (ok: bool)
      modifies this`isStarted, this`players
      ensures var r := Spawned(old(State()), name, cnnId);
        ok == r.ok && State() == r.session
    {
      if cnnId == ourClientId {
        isStarted := true;
      }
      if cnnId in players {
        return false;   // Dictionary.Add: the key is already present
      }
      players := players[cnnId := Player(name, cnnId)];
      ok := true;
    }

    /** A participant left: its entry goes; an absent id throws. */
    method PlayerDisconnected(cnnId: int) returns (ok: bool)
      modifies this`players
      ensures var r := Departed(old(State()), cnnId);
        ok == r.ok && State() == r.session
    {
      if cnnId !in players {
        return false;
      }
      players := players - {cnnId};
      ok := true;
    }

    /** Send to the server over the one connection. */
    method Send(message: string, channel: Channel)
      modifies this`outbox
      ensures outbox == old(outbox) + [Packet(connectionId, channel, message)]
    {
      outbox := outbox + [Packet(connectionId, channel, message)];
    }
  }
}
