/** The Server MonoBehaviour: the registry it changes in place, the time of
    its last position broadcast, and every packet it has handed to the
    transport. Each handler is proved to do what the matching reaction of
    the Registry module says. */
module ServerSession {
  import opened Text
  import opened Wire
  import opened Registry

  class Server {
    var isStarted: bool
    var lastMovementUpdate: int
    var clients: seq<ServerClient>
    /** Every NetworkTransport.Send so far, oldest first. */
    var outbox: seq<Packet>

    constructor ()
      ensures !isStarted && lastMovementUpdate == 0 && clients == [] && outbox == []
    {
      isStarted := false;
      lastMovementUpdate := 0;
      clients := [];
      outbox := [];
    }

    /** Start: the transport is set up (left out) and the server begins to listen. */
    method Start()
      modifies this`isStarted
      ensures isStarted
    {
      isStarted := true;
    }

    /** One frame: take the event the transport reports, react to it, then
        broadcast positions if the rate gate lets the broadcast through.
        Before Start nothing happens. When the handler throws, the rest of
        the frame, the broadcast included, is skipped. */
    method Update(ev: NetEvent, now: int) returns (ok: bool)
      modifies this`clients, this`outbox, this`lastMovementUpdate
      ensures !old(isStarted) ==>
        ok && clients == old(clients) && outbox == old(outbox)
        && lastMovementUpdate == old(lastMovementUpdate)
      ensures old(isStarted) ==>
        var r := React(old(clients), ev);
        && ok == r.ok
        && clients == r.clients
        && if r.ok && Due(now, old(lastMovementUpdate))
           then lastMovementUpdate == now
                && outbox == old(outbox) + r.sent + PositionBroadcast(r.clients)
           else lastMovementUpdate == old(lastMovementUpdate)
                && outbox == old(outbox) + r.sent
    {
      if !isStarted {
        return true;
      }
      ok := Dispatch(ev);
      if !ok {
        return;
      }
      if now - lastMovementUpdate > MovementUpdateRate {
        lastMovementUpdate := now;
        var positionPacket := PositionPacket();
        Send(positionPacket, Unreliable, clients);
      }
    }

    /** The switch on the event type: connect, disconnect, or data
        dispatched on the header; a handler that throws ends the frame. */
    method Dispatch(ev: NetEvent) returns (ok: bool)
      modifies this`clients, this`outbox
      ensures var r := React(old(clients), ev);
        ok == r.ok && clients == r.clients && outbox == old(outbox) + r.sent
    {
      match ev {
        case Nothing =>
          ok := true;
        case ConnectEvent(cnnId) =>
          OnConnection(cnnId);
          ok := true;
        case DisconnectEvent(cnnId) =>
          OnDisconnection(cnnId);
          ok := true;
        case DataEvent(cnnId, msg) =>
          var splitData := Split(msg, '|');
          if splitData[0] == "NAMEIS" {
            if |splitData| < 2 {
              return false;
            }
            ok := OnNameIs(cnnId, splitData[1]);
          } else if splitData[0] == "MYPOSITION" {
            if |splitData| < 4 {
              return false;
            }
            var pos := ParseVec3(splitData[1], splitData[2], splitData[3]);
            if pos.None? {
              return false;
            }
            ok := OnMyPosition(cnnId, pos.value);
          } else {
            ok := true;
          }
      }
    }

    /** The ASKPOSITION packet, built by appending `id%x%y%z|` per record and
        trimming the '|' at the end. */
    method PositionPacket() returns (positionPacket: string)
      ensures positionPacket == AskPositionMessage(PositionTuples(clients))
    {
      positionPacket := "ASKPOSITION|";
      var i := 0;
      while i < |clients|
        invariant 0 <= i <= |clients|
        invariant positionPacket == Join(["ASKPOSITION"] + PositionTuples(clients[..i]), '|') + "|"
      {
        var p := PositionTuple(clients[i].connectionId, clients[i].position);
        TuplesSnoc(clients, i);
        JoinSnoc(["ASKPOSITION"] + PositionTuples(clients[..i]), '|', p);
        positionPacket := positionPacket + p + "|";
        i := i + 1;
      }
      assert clients[..i] == clients;
      PositionMessageDelimited(clients);
      TrimDelimited(AskPositionMessage(PositionTuples(clients)), '|');
      positionPacket := Trim(positionPacket, '|');
    }

    /** The ASKNAME text for a newcomer, built by appending `name%id|` per
        record and trimming the '|' at the end. */
    method AskNamePacket(cnnId: int) returns (msg: string)
      requires |clients| > 0
      ensures msg == AskNameMessage(cnnId, Roster(clients))
    {
      msg := "ASKNAME|" + IntToString(cnnId) + "|";
      assert msg == Join(["ASKNAME", IntToString(cnnId)] + Roster(clients[..0]), '|') + "|";
      var i := 0;
      while i < |clients|
        invariant 0 <= i <= |clients|
        invariant msg == Join(["ASKNAME", IntToString(cnnId)] + Roster(clients[..i]), '|') + "|"
      {
        var entry := clients[i].playerName + "%" + IntToString(clients[i].connectionId);
        RosterPrefixSnoc(cnnId, clients, i);
        JoinSnoc(["ASKNAME", IntToString(cnnId)] + Roster(clients[..i]), '|', entry);
        msg := msg + entry + "|";
        i := i + 1;
      }
      assert clients[..i] == clients;
      AskNameDelimited(cnnId, clients);
      TrimDelimited(AskNameMessage(cnnId, Roster(clients)), '|');
      msg := Trim(msg, '|');
    }

    method OnMyPosition(cnnId: int, pos: Vec3) returns (ok: bool)
      modifies this`clients
      ensures var r := MyPosition(old(clients), cnnId, pos);
        clients == r.clients && ok == r.ok
    {
      var i := FindIndex(clients, cnnId);
      if i < 0 {
        return false;   // Find returned null
      }
      clients := clients[i := clients[i].(position := pos)];
      ok := true;
    }

    method OnNameIs(cnnId: int, playerName: string) returns (ok: bool)
      modifies this`clients, this`outbox
      ensures var r := NameIs(old(clients), cnnId, playerName);
        clients == r.clients && outbox == old(outbox) + r.sent && ok == r.ok
    {
      var i := FindIndex(clients, cnnId);
      if i < 0 {
        return false;   // Find returned null
      }
      clients := clients[i := clients[i].(playerName := playerName)];
      Send(ConnectedMessage(playerName, cnnId), Reliable, clients);
      ok := true;
    }

    method OnConnection(cnnId: int)
      modifies this`clients, this`outbox
      ensures var r := Connection(old(clients), cnnId);
        clients == r.clients && outbox == old(outbox) + r.sent
    {
      clients := clients + [ServerClient(cnnId, Placeholder, Origin)];
      var msg := AskNamePacket(cnnId);
      assert clients[|clients| - 1].connectionId == cnnId;
      var sent := SendTo(msg, Reliable, cnnId);
      assert sent;
    }

    method OnDisconnection(cnnId: int)
      modifies this`clients, this`outbox
      ensures var r := Disconnection(old(clients), cnnId);
        clients == r.clients && outbox == old(outbox) + r.sent
    {
      ghost var r := Disconnection(clients, cnnId);
      var i := FindIndex(clients, cnnId);
      if i >= 0 {
        clients := clients[..i] + clients[i + 1..];   // Remove(null) removes nothing
      }
      ghost var left := clients;
      assert left == r.clients;
      Send(DisconnectedMessage(cnnId), Reliable, clients);
      assert outbox == old(outbox) + FanOut(DisconnectedMessage(cnnId), Reliable, left);
    }

    /** Send to one connection: a one-element list holding what Find returns;
        a null there throws when the loop reads its id. */
    method SendTo(message: string, channel: Channel, cnnId: int) returns (ok: bool)
      modifies this`outbox
      ensures ok <==> cnnId in Ids(clients)
      ensures outbox == old(outbox) + if ok then [Packet(cnnId, channel, message)] else []
    {
      FindIndexFindsIds(clients, cnnId);
      var i := FindIndex(clients, cnnId);
      if i < 0 {
        return false;
      }
      Send(message, channel, [clients[i]]);
      ok := true;
    }

    /** Send to a list: one packet per record, in list order. */
    method Send(message: string, channel: Channel, c: seq<ServerClient>)
      modifies this`outbox
      ensures outbox == old(outbox) + FanOut(message, channel, c)
    {
      var i := 0;
      while i < |c|
        invariant 0 <= i <= |c|
        invariant outbox == old(outbox) + FanOut(message, channel, c[..i])
      {
        assert FanOut(message, channel, c[..i + 1])
            == FanOut(message, channel, c[..i]) + [Packet(c[i].connectionId, channel, message)];
        outbox := outbox + [Packet(c[i].connectionId, channel, message)];
        i := i + 1;
      }
      assert c[..i] == c;
    }
  }

  lemma TuplesSnoc(cs: seq<ServerClient>, i: int)
    requires 0 <= i < |cs|
    ensures ["ASKPOSITION"] + PositionTuples(cs[..i + 1])
         == ["ASKPOSITION"] + PositionTuples(cs[..i]) + [PositionTuple(cs[i].connectionId, cs[i].position)]
  {
    assert PositionTuples(cs[..i + 1])
        == PositionTuples(cs[..i]) + [PositionTuple(cs[i].connectionId, cs[i].position)];
  }

  lemma RosterPrefixSnoc(cnnId: int, cs: seq<ServerClient>, i: int)
    requires 0 <= i < |cs|
    ensures ["ASKNAME", IntToString(cnnId)] + Roster(cs[..i + 1])
         == ["ASKNAME", IntToString(cnnId)] + Roster(cs[..i]) + [RosterEntry(cs[i].playerName, cs[i].connectionId)]
  {
    assert cs[..i + 1] == cs[..i] + [cs[i]];
    RosterSnoc(cs[..i], cs[i]);
  }

  /** The ASKPOSITION text neither starts nor ends with '|'. */
  lemma PositionMessageDelimited(cs: seq<ServerClient>)
    ensures var m := AskPositionMessage(PositionTuples(cs));
      |m| > 0 && m[0] != '|' && m[|m| - 1] != '|'
  {
    var parts := ["ASKPOSITION"] + PositionTuples(cs);
    if cs != [] {
      var c := cs[|cs| - 1];
      var fields := [IntToString(c.connectionId), IntToString(c.position.x),
                     IntToString(c.position.y), IntToString(c.position.z)];
      JoinLast(fields, '%');
      assert parts[|parts| - 1] == Join(fields, '%');
    }
    JoinLast(parts, '|');
  }

  /** The ASKNAME text of a non-empty registry neither starts nor ends with '|'. */
  lemma AskNameDelimited(cnnId: int, cs: seq<ServerClient>)
    requires |cs| > 0
    ensures var m := AskNameMessage(cnnId, Roster(cs));
      |m| > 0 && m[0] != '|' && m[|m| - 1] != '|'
  {
    RosterEndsInDigit(["ASKNAME", IntToString(cnnId)], cs);
    JoinDelimited(["ASKNAME", IntToString(cnnId)] + Roster(cs), '|');
  }
}
