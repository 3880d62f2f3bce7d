/** The minimal single-room server: a turn ring and a session log kept in
    module-level variables, with no take mode and no queue.  Its state is
    the `RoomState` of a room that stays in real-time mode with an empty
    queue, so each handler is proved against the same `RoomSpec`
    transition as the room servers' handlers. */
module MinimalServer {
  import opened Common
  import opened Turn
  import opened SessionLog
  import opened Backlog
  import opened RoomSpec
  import opened Csv

  /** A room state the minimal server can be in. */
  predicate RealtimeOnly(s: RoomState)
  {
    s.queue == [] && s.mode == Realtime && !s.emergency
  }

  /** Every handler of the minimal server keeps a real-time room with an
      empty queue in that shape, so its three missing variables are never
      needed. */
  lemma HandlersStayRealtime(s: RoomState, socket: SocketId, name: string, text: string, now: Clock)
    requires RealtimeOnly(s)
    ensures RealtimeOnly(RoomSpec.Join(s, socket, name, now).0)
    ensures RealtimeOnly(RoomSpec.NextSender(s, socket).0)
    ensures RealtimeOnly(RoomSpec.SendText(s, socket, text, now).0)
    ensures RealtimeOnly(RoomSpec.Disconnect(s, socket).0)
    ensures RealtimeOnly(RoomSpec.ResetSessionLog(s, now))
  {
  }

  /** Why an export request was refused. */
  datatype ExportError = InvalidExportType

  class Server {
    var participants: seq<Participant>
    var currentSenderIndex: nat
    var sessionLog: seq<LogEntry>
    var sessionStartTime: int

    function TurnRing(): Ring
      reads this
    {
      Ring(participants, currentSenderIndex)
    }

    /** The server's variables as the state of a real-time room with an
        empty queue. */
    function State(): (s: RoomState)
      reads this
      ensures RealtimeOnly(s)
    {
      RoomState(TurnRing(), sessionLog, sessionStartTime, [], Realtime, false)
    }

    /** The variables at start-up. */
    constructor(now: Clock)
      ensures State() == Initial(now.millis)
    {
      participants := [];
      currentSenderIndex := 0;
      sessionLog := [];
      sessionStartTime := now.millis;
    }

    /** `resetSessionLog()`, also the whole of the log-clearing endpoint. */
    method ResetSessionLog(now: Clock)
      modifies this
      ensures State() == RoomSpec.ResetSessionLog(old(State()), now)
    {
      sessionLog := [];
      sessionStartTime := now.millis;
    }

    /** `addMessageToLog(message, sender)`. */
    method AddMessageToLog(now: Clock, text: string, sender: string)
      modifies this
      ensures State() == RoomSpec.AddMessageToLog(old(State()), now, text, sender)
    {
      sessionLog := sessionLog + [Entry(sessionStartTime, now, text, sender)];
    }

    /** `rotateSender()`. */
    method RotateSender() returns (nextSender: Option<Participant>)
      modifies this
      ensures (TurnRing(), nextSender) == Turn.RotateSender(old(TurnRing()))
      ensures sessionLog == old(sessionLog) && sessionStartTime == old(sessionStartTime)
    {
      if |participants| == 0 {
        currentSenderIndex := 0;
        return None;
      }
      currentSenderIndex := (currentSenderIndex + 1) % |participants|;
      return Some(participants[currentSenderIndex]);
    }

    /** `getCurrentSender()`. */
    method GetCurrentSender() returns (sender: Option<Participant>)
      modifies this
      ensures (TurnRing(), sender) == CurrentSender(old(TurnRing()))
      ensures sessionLog == old(sessionLog) && sessionStartTime == old(sessionStartTime)
    {
      if |participants| == 0 {
        return None;
      }
      if currentSenderIndex >= |participants| {
        currentSenderIndex := 0;
      }
      return Some(participants[currentSenderIndex]);
    }

    /** `adjustSenderIndex()`. */
    method AdjustSenderIndex()
      modifies this
      ensures TurnRing() == Turn.AdjustSenderIndex(old(TurnRing()))
      ensures sessionLog == old(sessionLog) && sessionStartTime == old(sessionStartTime)
    {
      if |participants| == 0 {
        currentSenderIndex := 0;
      } else if currentSenderIndex >= |participants| {
        currentSenderIndex := 0;
      }
    }

    /** `join`. */
    method Join(socket: SocketId, name: string, now: Clock) returns (events: seq<Event>)
      modifies this
      ensures (State(), events) == RoomSpec.Join(old(State()), socket, name, now)
    {
      var participant := Participant(socket, name, now.millis);
      participants := participants + [participant];
      if |participants| == 1 {
        ResetSessionLog(now);
      }
      var currentSender := GetCurrentSender();
      events := [Joined(participant), ParticipantsUpdated(participants, currentSender, currentSenderIndex)];
    }

    /** `next_sender`. */
    method NextSender(socket: SocketId) returns (events: seq<Event>)
      modifies this
      ensures (State(), events) == RoomSpec.NextSender(old(State()), socket)
    {
      var currentSender := GetCurrentSender();
      if currentSender.None? || currentSender.value.id != socket {
        return [NoSendRight];
      }
      var nextSender := RotateSender();
      events := [SenderUpdated(nextSender, currentSenderIndex)];
    }

    /** `send_text`: the holder's text always goes to the log. */
    method SendText(socket: SocketId, text: string, now: Clock) returns (events: seq<Event>)
      modifies this
      ensures (State(), events) == RoomSpec.SendText(old(State()), socket, text, now)
    {
      var currentSender := GetCurrentSender();
      if currentSender.None? || currentSender.value.id != socket {
        return [NoSendRight];
      }
      var name := currentSender.value.name;
      AddMessageToLog(now, text, name);
      events := [TextReceived(Message(now.millis, text, name))];
      var nextSender := RotateSender();
      events := events + [SenderUpdated(nextSender, currentSenderIndex)];
    }

    /** `disconnect`. */
    method Disconnect(socket: SocketId) returns (events: seq<Event>)
      modifies this
      ensures (State(), events) == RoomSpec.Disconnect(old(State()), socket)
    {
      if !HasSocket(participants, socket) {
        return [];
      }
      var _ := GetCurrentSender();
      participants := WithoutSocket(participants, socket);
      AdjustSenderIndex();
      var newCurrentSender := GetCurrentSender();
      events := [ParticipantsUpdated(participants, newCurrentSender, currentSenderIndex)];
    }

    /** The export endpoint: the type is checked, then the body is the
        byte-order mark followed by the CSV of the log. */
    method Export(typeName: string) returns (r: Result<string, ExportError>)
      ensures ParseExportType(typeName).None? ==> r == Err(InvalidExportType)
      ensures ParseExportType(typeName).Some? ==>
                r == Ok(Bom + CsvText(sessionLog, ParseExportType(typeName).value))
    {
      var t := ParseExportType(typeName);
      if t.None? {
        return Err(InvalidExportType);
      }
      var csvData := GenerateCsv(sessionLog, t.value);
      return Ok(Bom + csvData);
    }
  }
}
