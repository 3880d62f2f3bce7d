/** The multi-room server's room table and its per-connection state.  The
    table is the `rooms` map (with its insertion order, which the listing
    follows); rooms are `Room` objects that connections hold references
    to.  A connection remembers the room it last joined (`currentRoomId`,
    `currentRoom`) and forwards its handlers to that object. */
module RoomTable {
  import opened Common
  import opened Turn
  import opened SessionLog
  import opened Backlog
  import opened RoomSpec
  import opened Rooms
  import opened Csv

  /** `projectName || '無題プロジェクト'`. */
  const DefaultProjectName: string := "無題プロジェクト"

  // ---------------------------------------------------------------------
  // Room ids

  /** A character `String.prototype.trim` removes: ECMAScript white space
      (tab, vertical tab, form feed, space, no-break space, byte-order mark
      and the other space separators) and line terminators. */
  predicate IsJsWhitespace(c: char)
  {
    c == '\t' || c == '\n' || c == '\U{000B}' || c == '\U{000C}' || c == '\r' || c == ' '
    || c == '\U{00A0}' || c == '\U{1680}' || ('\U{2000}' <= c <= '\U{200A}')
    || c == '\U{2028}' || c == '\U{2029}' || c == '\U{202F}' || c == '\U{205F}'
    || c == '\U{3000}' || c == '\U{FEFF}'
  }

  /** Drops leading white space. */
  function TrimStart(s: string): (r: string)
    ensures |r| <= |s| && r == s[|s| - |r|..]
    ensures forall i :: 0 <= i < |s| - |r| ==> IsJsWhitespace(s[i])
    ensures r != [] ==> !IsJsWhitespace(r[0])
  {
    if s != [] && IsJsWhitespace(s[0]) then TrimStart(s[1..]) else s
  }

  /** Drops trailing white space. */
  function TrimEnd(s: string): (r: string)
    ensures |r| <= |s| && r == s[..|r|]
    ensures forall i :: |r| <= i < |s| ==> IsJsWhitespace(s[i])
    ensures r != [] ==> !IsJsWhitespace(r[|r| - 1])
  {
    if s != [] && IsJsWhitespace(s[|s| - 1]) then TrimEnd(s[..|s| - 1]) else s
  }

  /** `String.prototype.trim`: the longest infix with no white space at
      either end, all of whose surroundings are white space. */
  function Trim(s: string): (r: string)
    ensures r != [] ==> !IsJsWhitespace(r[0]) && !IsJsWhitespace(r[|r| - 1])
    ensures r == [] <==> forall k :: 0 <= k < |s| ==> IsJsWhitespace(s[k])
    ensures exists i :: 0 <= i <= |s| - |r| && TrimmedAt(s, r, i)
  {
    var t := TrimStart(s);
    var r := TrimEnd(t);
    var i := |s| - |t|;
    assert r == s[i..][..|r|];
    forall k | i + |r| <= k < |s| ensures IsJsWhitespace(s[k]) {
      assert s[k] == t[k - i];
    }
    assert TrimmedAt(s, r, i);
    r
  }

  /** `r` is `s` with the `i` characters before it and the ones after it,
      all white space, taken away. */
  ghost predicate TrimmedAt(s: string, r: string, i: nat)
  {
    && i + |r| <= |s| && r == s[i..][..|r|]
    && (forall k :: 0 <= k < i ==> IsJsWhitespace(s[k]))
    && (forall k :: i + |r| <= k < |s| ==> IsJsWhitespace(s[k]))
  }

  /** `/^[a-zA-Z0-9_-]+$/`. */
  predicate IsIdChar(c: char)
  {
    ('a' <= c <= 'z') || ('A' <= c <= 'Z') || ('0' <= c <= '9') || c == '_' || c == '-'
  }

  predicate ValidCustomId(s: string)
  {
    |s| > 0 && forall i :: 0 <= i < |s| ==> IsIdChar(s[i])
  }

  /** Why room creation was refused. */
  datatype CreateError = IdInUse | IdCharset

  /** The id the room-creation endpoint settles on.  A custom id that is
      blank after trimming is ignored in favour of the generated one;
      otherwise the trimmed custom id is used, refused first if a room
      already has it and then if it has a character outside
      `[a-zA-Z0-9_-]`. */
  function ChooseRoomId(existing: set<string>, customRoomId: string, generatedId: string): (r: Result<string, CreateError>)
    ensures Trim(customRoomId) == "" ==> r == Ok(generatedId)
    ensures Trim(customRoomId) != "" ==>
              && (r == Err(IdInUse) <==> Trim(customRoomId) in existing)
              && (r == Err(IdCharset) <==> Trim(customRoomId) !in existing && !ValidCustomId(Trim(customRoomId)))
              && (r.Ok? <==> Trim(customRoomId) !in existing && ValidCustomId(Trim(customRoomId)))
              && (r.Ok? ==> r.value == Trim(customRoomId))
  {
    var trimmed := Trim(customRoomId);
    if trimmed != "" then
      if trimmed in existing then Err(IdInUse)
      else if !ValidCustomId(trimmed) then Err(IdCharset)
      else Ok(trimmed)
    else Ok(generatedId)
  }

  /** A custom id that is accepted never carries surrounding white space
      and never collides with an existing room. */
  lemma AcceptedCustomIdIsClean(existing: set<string>, customRoomId: string, generatedId: string)
    requires Trim(customRoomId) != ""
    requires ChooseRoomId(existing, customRoomId, generatedId).Ok?
    ensures var id := ChooseRoomId(existing, customRoomId, generatedId).value;
            id !in existing && ValidCustomId(id)
            && !IsJsWhitespace(id[0]) && !IsJsWhitespace(id[|id| - 1])
  {
  }

  // ---------------------------------------------------------------------
  // The table

  /** One row of the room listing (and the body of the room lookup). */
  datatype RoomInfo = RoomInfo(id: string, projectName: string, participantCount: nat,
                               messageCount: nat, systemMode: Mode, createdAt: int)

  /** Why an export request was refused. */
  datatype ExportError = InvalidRoom | InvalidExportType

  class Registry {
    var rooms: map<string, Room>
    /** The keys of `rooms` in insertion order (a JavaScript `Map` iterates
        in that order). */
    var order: seq<string>

    ghost predicate Valid()
      reads this
    {
      && Distinct(order)
      && (forall k :: k in rooms <==> k in order)
      && "" !in rooms
      && (forall a, b :: a in rooms && b in rooms && a != b ==> rooms[a] != rooms[b])
    }

    constructor()
      ensures Valid() && rooms == map[] && order == []
    {
      rooms := map[];
      order := [];
    }

    /** The room-creation endpoint, from its body fields (`""` for an
        absent field) and a freshly generated id.  A refused request leaves
        the table unchanged.  An accepted one stores a new room record under
        the id; a generated id that happens to be in use replaces that
        room, keeping its place in the order, as `Map.set` does. */
    method CreateRoom(projectName: string, customRoomId: string, generatedId: string, now: Clock)
      returns (r: Result<string, CreateError>)
      requires Valid() && generatedId != ""
      modifies this
      ensures Valid()
      ensures r == ChooseRoomId(old(rooms).Keys, customRoomId, generatedId)
      ensures r.Err? ==> rooms == old(rooms) && order == old(order)
      ensures r.Ok? ==>
                && rooms.Keys == old(rooms).Keys + {r.value}
                && fresh(rooms[r.value])
                && rooms[r.value].id == r.value
                && rooms[r.value].projectName == (if projectName == "" then DefaultProjectName else projectName)
                && rooms[r.value].State() == Initial(now.millis)
                && (forall k :: k in old(rooms) && k != r.value ==> rooms[k] == old(rooms)[k])
                && order == (if r.value in old(rooms) then old(order) else old(order) + [r.value])
    {
      r := ChooseRoomId(rooms.Keys, customRoomId, generatedId);
      if r.Err? {
        return;
      }
      var roomId := r.value;
      var room := new Room(roomId, if projectName == "" then DefaultProjectName else projectName, now);
      SetRoom(roomId, room);
    }

    /** `rooms.set(roomId, room)` for a room object not yet in the table: a
        new key goes to the end of the order, an existing one keeps its
        place. */
    method SetRoom(roomId: string, room: Room)
      requires Valid() && roomId != ""
      requires forall k :: k in rooms ==> rooms[k] != room
      modifies this
      ensures Valid()
      ensures rooms == old(rooms)[roomId := room]
      ensures room.State() == old(room.State())
      ensures rooms.Keys == old(rooms).Keys + {roomId}
      ensures forall k :: k in old(rooms) && k != roomId ==> rooms[k] == old(rooms)[k]
      ensures order == (if roomId in old(rooms) then old(order) else old(order) + [roomId])
    {
      if roomId !in rooms {
        order := order + [roomId];
      }
      rooms := rooms[roomId := room];
    }

    /** The listing row of one room. */
    function Info(id: string, room: Room): (info: RoomInfo)
      reads room
      ensures info.id == id && info.projectName == room.projectName
      ensures info.participantCount == |room.participants| && info.messageCount == |room.sessionLog|
      ensures info.systemMode == room.systemMode && info.createdAt == room.createdAt
    {
      RoomInfo(id, room.projectName, |room.participants|, |room.sessionLog|, room.systemMode, room.createdAt)
    }

    function InfoList(ids: seq<string>): (infos: seq<RoomInfo>)
      requires forall i :: 0 <= i < |ids| ==> ids[i] in rooms
      reads this, rooms.Values
      ensures |infos| == |ids|
      ensures forall i :: 0 <= i < |ids| ==> infos[i] == Info(ids[i], rooms[ids[i]])
    {
      if ids == [] then [] else [Info(ids[0], rooms[ids[0]])] + InfoList(ids[1..])
    }

    /** The room listing: one row per room, in table order. */
    function List(): (infos: seq<RoomInfo>)
      requires Valid()
      reads this, rooms.Values
      ensures |infos| == |rooms|
      ensures forall i :: 0 <= i < |infos| ==> infos[i].id in rooms && infos[i] == Info(infos[i].id, rooms[infos[i].id])
      ensures forall k :: k in rooms ==> exists i :: 0 <= i < |infos| && infos[i].id == k
      ensures |infos| == |order| && forall i :: 0 <= i < |infos| ==> infos[i].id == order[i]
    {
      KeysAreOrder();
      var infos := InfoList(order);
      forall k | k in rooms ensures exists i :: 0 <= i < |infos| && infos[i].id == k {
        var i :| 0 <= i < |order| && order[i] == k;
        assert infos[i].id == k;
      }
      infos
    }

    lemma KeysAreOrder()
      requires Valid()
      ensures |rooms| == |order|
    {
      DistinctCard(order, rooms.Keys);
    }

    /** The room lookup: the room's row, or not found. */
    function Get(roomId: string): (r: Option<RoomInfo>)
      reads this, rooms.Values
      ensures r.None? <==> roomId !in rooms
      ensures r.Some? ==> r.value == Info(rooms[roomId].id, rooms[roomId])
    {
      if roomId in rooms then Some(Info(rooms[roomId].id, rooms[roomId])) else None
    }

    /** The room-deletion endpoint: removes exactly that key, or reports
        not found and changes nothing.  Connections that joined the room
        keep their reference to its object. */
    method Delete(roomId: string) returns (found: bool)
      requires Valid()
      modifies this
      ensures Valid()
      ensures found <==> roomId in old(rooms)
      ensures rooms == old(rooms) - {roomId}
      ensures !found ==> order == old(order)
      ensures found ==> exists j :: 0 <= j < |old(order)| && old(order)[j] == roomId
                                   && order == old(order)[..j] + old(order)[j + 1..]
      ensures forall k :: k in order <==> k in old(order) && k != roomId
    {
      if roomId in rooms {
        var i :| 0 <= i < |order| && order[i] == roomId;
        RemoveDistinct(order, i);
        order := order[..i] + order[i + 1..];
        rooms := rooms - {roomId};
        return true;
      }
      return false;
    }

    /** The log-clearing endpoint: an unknown (or empty) id is refused;
        otherwise the room's log is emptied and its session restarted. */
    method ClearLog(roomId: string, now: Clock) returns (ok: bool)
      modifies if roomId != "" && roomId in rooms then {rooms[roomId]} else {}
      ensures ok <==> roomId != "" && roomId in rooms
      ensures ok ==> rooms[roomId].State() == RoomSpec.ResetSessionLog(old(rooms[roomId].State()), now)
    {
      if roomId == "" || roomId !in rooms {
        return false;
      }
      rooms[roomId].ResetSessionLog(now);
      return true;
    }

    /** The export endpoint: the room is checked before the type; the
        body is the byte-order mark followed by the CSV of the room's log. */
    method Export(roomId: string, typeName: string) returns (r: Result<string, ExportError>)
      ensures roomId == "" || roomId !in rooms ==> r == Err(InvalidRoom)
      ensures roomId != "" && roomId in rooms && ParseExportType(typeName).None? ==> r == Err(InvalidExportType)
      ensures roomId != "" && roomId in rooms && ParseExportType(typeName).Some? ==>
                r == Ok(Bom + CsvText(rooms[roomId].sessionLog, ParseExportType(typeName).value))
    {
      if roomId == "" || roomId !in rooms {
        return Err(InvalidRoom);
      }
      var room := rooms[roomId];
      var t := ParseExportType(typeName);
      if t.None? {
        return Err(InvalidExportType);
      }
      var csvData := GenerateCsv(room.sessionLog, t.value);
      return Ok(Bom + csvData);
    }
  }

  // ---------------------------------------------------------------------
  // Connections

  /** The per-connection closure state of the multi-room server. */
  class Connection {
    const socketId: SocketId
    var currentRoomId: Option<string>
    var currentRoom: Room?

    constructor(socketId: SocketId)
      ensures this.socketId == socketId && currentRoomId == None && currentRoom == null
    {
      this.socketId := socketId;
      currentRoomId := None;
      currentRoom := null;
    }

    /** `join_admin`: binds the connection to an existing room and reports
        the room's status; an unknown id is an error and binds nothing. */
    method JoinAdmin(table: Registry, roomId: string) returns (events: seq<Event>)
      modifies this
      ensures roomId == "" || roomId !in table.rooms ==>
                events == [InvalidRoomId] && currentRoom == old(currentRoom) && currentRoomId == old(currentRoomId)
      ensures roomId != "" && roomId in table.rooms ==>
                && currentRoomId == Some(roomId) && currentRoom == table.rooms[roomId]
                && events == [SystemStatus(currentRoom.systemMode, currentRoom.takeQueue, currentRoom.isEmergencyMode)]
    {
      if roomId == "" || roomId !in table.rooms {
        return [InvalidRoomId];
      }
      currentRoomId := Some(roomId);
      currentRoom := table.rooms[roomId];
      events := [SystemStatus(currentRoom.systemMode, currentRoom.takeQueue, currentRoom.isEmergencyMode)];
    }

    /** `join_display`: binds the connection to an existing room. */
    method JoinDisplay(table: Registry, roomId: string) returns (events: seq<Event>)
      modifies this
      ensures roomId == "" || roomId !in table.rooms ==>
                events == [InvalidRoomId] && currentRoom == old(currentRoom) && currentRoomId == old(currentRoomId)
      ensures roomId != "" && roomId in table.rooms ==>
                currentRoomId == Some(roomId) && currentRoom == table.rooms[roomId] && events == []
    {
      if roomId == "" || roomId !in table.rooms {
        return [InvalidRoomId];
      }
      currentRoomId := Some(roomId);
      currentRoom := table.rooms[roomId];
      events := [];
    }

    /** `join`: binds the connection to an existing room and joins its turn
        ring.  A connection that joins a second room stays listed in the
        first. */
    method Join(table: Registry, roomId: string, name: string, now: Clock) returns (events: seq<Event>)
      modifies this, if roomId in table.rooms then {table.rooms[roomId]} else {}
      ensures roomId == "" || roomId !in table.rooms ==>
                events == [InvalidRoomId] && currentRoom == old(currentRoom) && currentRoomId == old(currentRoomId)
      ensures roomId != "" && roomId in table.rooms ==>
                && currentRoomId == Some(roomId) && currentRoom == table.rooms[roomId]
                && (currentRoom.State(), events) == RoomSpec.Join(old(table.rooms[roomId].State()), socketId, name, now)
    {
      if roomId == "" || roomId !in table.rooms {
        return [InvalidRoomId];
      }
      currentRoomId := Some(roomId);
      currentRoom := table.rooms[roomId];
      events := currentRoom.Join(socketId, name, now);
    }

    /** `next_sender`; ignored before the connection has joined a room. */
    method NextSender() returns (events: seq<Event>)
      modifies currentRoom
      ensures currentRoom == null ==> events == []
      ensures currentRoom != null ==>
                (currentRoom.State(), events) == RoomSpec.NextSender(old(currentRoom.State()), socketId)
    {
      if currentRoom == null {
        return [];
      }
      events := currentRoom.NextSender(socketId);
    }

    /** `send_text`; ignored before the connection has joined a room. */
    method SendText(text: string, now: Clock) returns (events: seq<Event>)
      modifies currentRoom
      ensures currentRoom == null ==> events == []
      ensures currentRoom != null ==>
                (currentRoom.State(), events) == RoomSpec.SendText(old(currentRoom.State()), socketId, text, now)
    {
      if currentRoom == null {
        return [];
      }
      events := currentRoom.SendText(socketId, text, now);
    }

    /** `disconnect`: leaves the turn ring of the room last joined. */
    method Disconnect() returns (events: seq<Event>)
      modifies currentRoom
      ensures currentRoom == null ==> events == []
      ensures currentRoom != null ==>
                (currentRoom.State(), events) == RoomSpec.Disconnect(old(currentRoom.State()), socketId)
    {
      if currentRoom == null {
        return [];
      }
      events := currentRoom.Disconnect(socketId);
    }

    /** `toggle_system_mode`. */
    method ToggleSystemMode(newMode: Mode) returns (events: seq<Event>)
      modifies currentRoom
      ensures currentRoom == null ==> events == []
      ensures currentRoom != null ==>
                (currentRoom.State(), events) == RoomSpec.ToggleSystemMode(old(currentRoom.State()), newMode)
    {
      if currentRoom == null {
        return [];
      }
      events := currentRoom.ToggleSystemMode(newMode);
    }

    /** `return_to_take_mode`. */
    method ReturnToTakeMode() returns (events: seq<Event>)
      modifies currentRoom
      ensures currentRoom == null ==> events == []
      ensures currentRoom != null ==>
                (currentRoom.State(), events) == RoomSpec.ReturnToTakeMode(old(currentRoom.State()))
    {
      if currentRoom == null {
        return [];
      }
      events := currentRoom.ReturnToTakeMode();
    }

    /** `take_call_next` as written. */
    method TakeCallNext() returns (events: seq<Event>)
      modifies currentRoom
      ensures currentRoom == null ==> events == []
      ensures currentRoom != null ==>
                (currentRoom.State(), events) == RoomSpec.TakeCallNextAsWritten(old(currentRoom.State()))
    {
      if currentRoom == null {
        return [];
      }
      events := currentRoom.TakeCallNext();
    }

    /** `take_call_next` with the guard widened to emergencies. */
    method TakeCallNextCorrected() returns (events: seq<Event>)
      modifies currentRoom
      ensures currentRoom == null ==> events == []
      ensures currentRoom != null ==>
                (currentRoom.State(), events) == RoomSpec.TakeCallNext(old(currentRoom.State()))
    {
      if currentRoom == null {
        return [];
      }
      events := currentRoom.TakeCallNextCorrected();
    }

    /** `take_send_text`. */
    method TakeSendText(text: string, now: Clock) returns (events: seq<Event>)
      modifies currentRoom
      ensures currentRoom == null ==> events == []
      ensures currentRoom != null ==>
                (currentRoom.State(), events) == RoomSpec.TakeSendText(old(currentRoom.State()), text, now)
    {
      if currentRoom == null {
        return [];
      }
      events := currentRoom.TakeSendText(text, now);
    }

    /** `send_translated_text`, with this server's half-width label. */
    method SendTranslatedText(translatedText: string, now: Clock) returns (events: seq<Event>)
      modifies currentRoom
      ensures currentRoom == null ==> events == []
      ensures currentRoom != null ==>
                (currentRoom.State(), events)
                  == RoomSpec.SendTranslatedText(old(currentRoom.State()), translatedText, now, TranslatedLabelRooms)
    {
      if currentRoom == null {
        return [];
      }
      events := currentRoom.SendTranslatedText(translatedText, now, TranslatedLabelRooms);
    }

    /** `speech_recognition_result`. */
    method SpeechRecognitionResult(text: string, sender: Option<string>, now: Clock) returns (events: seq<Event>)
      modifies currentRoom
      ensures currentRoom == null ==> events == []
      ensures currentRoom != null ==>
                (currentRoom.State(), events)
                  == RoomSpec.SpeechRecognitionResult(old(currentRoom.State()), text, sender, now)
    {
      if currentRoom == null {
        return [];
      }
      events := currentRoom.SpeechRecognitionResult(text, sender, now);
    }
  }
}
