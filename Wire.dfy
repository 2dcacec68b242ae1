/** The wire protocol shared by server and client: the two delivery
    qualities, what is handed to the transport and what it delivers, and the
    six text messages with their decoding round trips. Every message is a
    header followed by '|'-separated fields; roster entries and position
    tuples are themselves '%'-separated. */
module Wire {
  import opened Text

  datatype Channel = Reliable | Unreliable

  /** One NetworkTransport.Send call: the connection, the channel, the text. */
  datatype Packet = Packet(target: int, channel: Channel, message: string)

  /** A position. Coordinates are integers, printed and parsed like ids. */
  datatype Vec3 = Vec3(x: int, y: int, z: int)

  /** Vector3.zero, the position of a record that has not reported yet. */
  const Origin: Vec3 := Vec3(0, 0, 0)

  /** What one NetworkTransport.Receive call reports. */
  datatype NetEvent =
    | Nothing
    | ConnectEvent(connectionId: int)
    | DisconnectEvent(connectionId: int)
    | DataEvent(connectionId: int, message: string)

  predicate IsInt32Vec(v: Vec3) { IsInt32(v.x) && IsInt32(v.y) && IsInt32(v.z) }

  // ---------------------------------------------------------------------
  // Builders
  // ---------------------------------------------------------------------

  /** `name%id`, one participant of an ASKNAME roster. */
  function RosterEntry(name: string, id: int): string
  {
    name + "%" + IntToString(id)
  }

  /** `ASKNAME|newId|entry|entry|...`, sent to a participant that just connected. */
  function AskNameMessage(newId: int, entries: seq<string>): string
  {
    Join(["ASKNAME", IntToString(newId)] + entries, '|')
  }

  /** A roster entry ends in the last digit of its id. */
  lemma RosterEntryLast(name: string, id: int)
    ensures var e := RosterEntry(name, id);
      |e| > 0 && IsDigit(e[|e| - 1])
  {
    var digits := IntToString(id);
    assert RosterEntry(name, id)[|RosterEntry(name, id)| - 1] == digits[|digits| - 1];
  }

  /** `NAMEIS|name`, the client's answer to ASKNAME. */
  function NameIsMessage(name: string): string
  {
    "NAMEIS|" + name
  }

  /** `CNN|name|id`, the announcement that a participant has a name. */
  function ConnectedMessage(name: string, id: int): string
  {
    "CNN|" + name + "|" + IntToString(id)
  }

  /** `DC|id`, the announcement that a participant left. */
  function DisconnectedMessage(id: int): string
  {
    "DC|" + IntToString(id)
  }

  /** `id%x%y%z`, one participant of an ASKPOSITION packet. */
  function PositionTuple(id: int, pos: Vec3): string
  {
    Join([IntToString(id), IntToString(pos.x), IntToString(pos.y), IntToString(pos.z)], '%')
  }

  /** `ASKPOSITION|tuple|tuple|...`, the periodic broadcast. */
  function AskPositionMessage(tuples: seq<string>): string
  {
    Join(["ASKPOSITION"] + tuples, '|')
  }

  /** `MYPOSITION|x|y|z`, the client's answer to ASKPOSITION. */
  function MyPositionMessage(pos: Vec3): string
  {
    "MYPOSITION|" + IntToString(pos.x) + "|" + IntToString(pos.y) + "|" + IntToString(pos.z)
  }

  /** Three coordinate fields, each read with Int32.Parse; None where one of
      them would throw. */
  function ParseVec3(x: string, y: string, z: string): (r: Option<Vec3>)
    ensures r.Some? ==> IsInt32Vec(r.value)
  {
    match (ParseInt(x), ParseInt(y), ParseInt(z))
    case (Some(a), Some(b), Some(c)) => Some(Vec3(a, b, c))
    case _ => None
  }

  // ---------------------------------------------------------------------
  // Decoding round trips
  // ---------------------------------------------------------------------

  /** A roster entry splits on '%' into the name and the id, which reads back. */
  lemma RosterEntryDecodes(name: string, id: int)
    requires '%' !in name && IsInt32(id)
    ensures Split(RosterEntry(name, id), '%') == [name, IntToString(id)]
    ensures ParseInt(IntToString(id)) == Some(id)
  {
    assert RosterEntry(name, id) == Join([name, IntToString(id)], '%');
    SplitJoin([name, IntToString(id)], '%');
    ParseIntToString(id);
  }

  /** A position tuple splits on '%' into four fields that read back as the
      id and the position. */
  lemma PositionTupleDecodes(id: int, pos: Vec3)
    requires IsInt32(id) && IsInt32Vec(pos)
    ensures var d := Split(PositionTuple(id, pos), '%');
      |d| == 4 && ParseInt(d[0]) == Some(id) && ParseVec3(d[1], d[2], d[3]) == Some(pos)
  {
    var fields := [IntToString(id), IntToString(pos.x), IntToString(pos.y), IntToString(pos.z)];
    SplitJoin(fields, '%');
    ParseIntToString(id);
    ParseIntToString(pos.x);
    ParseIntToString(pos.y);
    ParseIntToString(pos.z);
  }

  /** ASKNAME splits into its header, the new id (which reads back) and the
      roster entries, in order. */
  lemma AskNameDecodes(newId: int, entries: seq<string>)
    requires forall i :: 0 <= i < |entries| ==> '|' !in entries[i]
    ensures Split(AskNameMessage(newId, entries), '|') == ["ASKNAME", IntToString(newId)] + entries
    ensures IsInt32(newId) ==> ParseInt(IntToString(newId)) == Some(newId)
  {
    var parts := ["ASKNAME", IntToString(newId)] + entries;
    assert forall i :: 0 <= i < |parts| ==> '|' !in parts[i] by {
      forall i | 0 <= i < |parts| ensures '|' !in parts[i] {
        if i >= 2 { assert parts[i] == entries[i - 2]; }
      }
    }
    SplitJoin(parts, '|');
    if IsInt32(newId) {
      ParseIntToString(newId);
    }
  }

  /** ASKPOSITION splits into its header and the tuples, in order; with no
      tuples it is the bare header. */
  lemma AskPositionDecodes(tuples: seq<string>)
    requires forall i :: 0 <= i < |tuples| ==> '|' !in tuples[i]
    ensures Split(AskPositionMessage(tuples), '|') == ["ASKPOSITION"] + tuples
    ensures tuples == [] ==> AskPositionMessage(tuples) == "ASKPOSITION"
  {
    var parts := ["ASKPOSITION"] + tuples;
    assert forall i :: 0 <= i < |parts| ==> '|' !in parts[i] by {
      forall i | 0 <= i < |parts| ensures '|' !in parts[i] {
        if i >= 1 { assert parts[i] == tuples[i - 1]; }
      }
    }
    SplitJoin(parts, '|');
  }

  /** NAMEIS splits into its header and the name. */
  lemma NameIsDecodes(name: string)
    requires '|' !in name
    ensures Split(NameIsMessage(name), '|') == ["NAMEIS", name]
  {
    assert NameIsMessage(name) == Join(["NAMEIS", name], '|');
    SplitJoin(["NAMEIS", name], '|');
  }

  /** CNN splits into its header, the name and the id, which reads back. */
  lemma ConnectedDecodes(name: string, id: int)
    requires '|' !in name && IsInt32(id)
    ensures Split(ConnectedMessage(name, id), '|') == ["CNN", name, IntToString(id)]
    ensures ParseInt(IntToString(id)) == Some(id)
  {
    var fields := ["CNN", name, IntToString(id)];
    assert Join(fields[1..], '|') == name + "|" + IntToString(id);
    assert ConnectedMessage(name, id) == Join(fields, '|');
    SplitJoin(["CNN", name, IntToString(id)], '|');
    ParseIntToString(id);
  }

  /** DC splits into its header and the id, which reads back. */
  lemma DisconnectedDecodes(id: int)
    requires IsInt32(id)
    ensures Split(DisconnectedMessage(id), '|') == ["DC", IntToString(id)]
    ensures ParseInt(IntToString(id)) == Some(id)
  {
    assert DisconnectedMessage(id) == Join(["DC", IntToString(id)], '|');
    SplitJoin(["DC", IntToString(id)], '|');
    ParseIntToString(id);
  }

  /** MYPOSITION splits into its header and three fields that read back as
      the position. */
  lemma MyPositionDecodes(pos: Vec3)
    requires IsInt32Vec(pos)
    ensures var d := Split(MyPositionMessage(pos), '|');
      |d| == 4 && d[0] == "MYPOSITION" && ParseVec3(d[1], d[2], d[3]) == Some(pos)
  {
    var fields := ["MYPOSITION", IntToString(pos.x), IntToString(pos.y), IntToString(pos.z)];
    assert Join(fields[2..], '|') == IntToString(pos.y) + "|" + IntToString(pos.z);
    assert Join(fields[1..], '|') == IntToString(pos.x) + "|" + Join(fields[2..], '|');
    assert MyPositionMessage(pos) == Join(fields, '|');
    SplitJoin(fields, '|');
    ParseIntToString(pos.x);
    ParseIntToString(pos.y);
    ParseIntToString(pos.z);
  }
}
