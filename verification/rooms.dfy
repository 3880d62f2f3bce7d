/** A room object: the record the multi-room server keeps per room in its
    `rooms` map and mutates in place from its handlers.  The single-room
    server keeps the same fields as module-level globals, so one `Room`
    object also stands for that server's state.  Every method is proved to
    change the object exactly as the matching `RoomSpec` transition says,
    so the properties proved in `RoomProps` hold of the objects. */
module Rooms {
  import opened Common
  import opened Turn
  import opened SessionLog
  import opened Backlog
  import opened RoomSpec

  class Room {
    const id: string
    const projectName: string
    const createdAt: int
    var participants: seq<Participant>
    var currentSenderIndex: nat
    var sessionLog: seq<LogEntry>
    var sessionStartTime: int
    var takeQueue: seq<QueueItem>
    var systemMode: Mode
    var isEmergencyMode: bool

    /** The turn ring held in `participants` and `currentSenderIndex`. */
    function TurnRing(): Ring
      reads this
    {
      Ring(participants, currentSenderIndex)
    }

    /** The fields the handlers read and write, as one value. */
    function State(): RoomState
      reads this
    {
      RoomState(TurnRing(), sessionLog, sessionStartTime, takeQueue, systemMode, isEmergencyMode)
    }

    /** The room record created by the room-creation endpoint: no
        participants, index 0, empty log and queue, real-time mode, no
        emergency. */
    constructor(id: string, projectName: string, now: Clock)
      ensures this.id == id && this.projectName == projectName && createdAt == now.millis
      ensures State() == Initial(now.millis)
    {
      this.id := id;
      this.projectName := projectName;
      createdAt := now.millis;
      participants := [];
      currentSenderIndex := 0;
      sessionLog := [];
      sessionStartTime := now.millis;
      takeQueue := [];
      systemMode := Realtime;
      isEmergencyMode := false;
    }

    // -------------------------------------------------------------------
    // Turn ring

    /** `rotateSender(room)`. */
    method RotateSender() returns (nextSender: Option<Participant>)
      modifies this
      ensures (TurnRing(), nextSender) == Turn.RotateSender(old(TurnRing()))
      ensures State() == old(State()).(ring := TurnRing())
    {
      if |participants| == 0 {
        currentSenderIndex := 0;
        return None;
      }
      currentSenderIndex := (currentSenderIndex + 1) % |participants|;
      return Some(participants[currentSenderIndex]);
    }

    /** `getCurrentSender(room)`. */
    method GetCurrentSender() returns (sender: Option<Participant>)
      modifies this
      ensures (TurnRing(), sender) == CurrentSender(old(TurnRing()))
      ensures State() == old(State()).(ring := TurnRing())
    {
      if |participants| == 0 {
        return None;
      }
      if currentSenderIndex >= |participants| {
        currentSenderIndex := 0;
      }
      return Some(participants[currentSenderIndex]);
    }

    /** `adjustSenderIndex(room)`. */
    method AdjustSenderIndex()
      modifies this
      ensures TurnRing() == Turn.AdjustSenderIndex(old(TurnRing()))
      ensures State() == old(State()).(ring := TurnRing())
    {
      if |participants| == 0 {
        currentSenderIndex := 0;
      } else if currentSenderIndex >= |participants| {
        currentSenderIndex := 0;
      }
    }

    // -------------------------------------------------------------------
    // Log and queue helpers

    /** The log reset done by `join` for the first participant, by the
        log-clearing endpoint and by `resetSessionLog`. */
    method ResetSessionLog(now: Clock)
      modifies this
      ensures State() == RoomSpec.ResetSessionLog(old(State()), now)
    {
      sessionLog := [];
      sessionStartTime := now.millis;
    }

    /** `addMessageToLog(room, message, sender)`. */
    method AddMessageToLog(now: Clock, text: string, sender: string)
      modifies this
      ensures State() == RoomSpec.AddMessageToLog(old(State()), now, text, sender)
    {
      sessionLog := sessionLog + [Entry(sessionStartTime, now, text, sender)];
    }

    /** `checkQueueStatus(room)`. */
    method CheckQueueStatus() returns (events: seq<Event>)
      modifies this
      ensures (State(), events) == RoomSpec.CheckQueueStatus(old(State()))
    {
      var currentSize := |takeQueue|;
      events := [];
      if currentSize >= EmergencyThreshold {
        if systemMode == Take {
          systemMode := Realtime;
          isEmergencyMode := true;
          events := [SystemModeChanged(Realtime, EmergencyQueueFull), EmergencyRealtimeSwitched(currentSize)];
        }
      } else if currentSize >= CriticalThreshold {
        events := [QueueCritical(currentSize)];
      } else if currentSize >= WarnThreshold {
        events := [QueueWarning(currentSize)];
      }
    }

    /** `addToTakeQueue(room, message, sender)`. */
    method AddToTakeQueue(now: Clock, text: string, sender: string) returns (events: seq<Event>)
      modifies this
      ensures (State(), events) == RoomSpec.AddToTakeQueue(old(State()), now, text, sender)
    {
      takeQueue := takeQueue + [NewItem(now, text, sender)];
      events := CheckQueueStatus();
      events := events + [TakeQueueUpdated(takeQueue)];
    }

    // -------------------------------------------------------------------
    // Handlers

    /** The room part of `join` (after the room id has been checked). */
    method Join(socket: SocketId, name: string, now: Clock) returns (events: seq<Event>)
      modifies this
      ensures (State(), events) == RoomSpec.Join(old(State()), socket, name, now)
    {
      var participant := Participant(socket, name, now.millis);
      participants := participants + [participant];
      if |participants| == 1 {
        ResetSessionLog(now);
      }
      var currentSender := GetCurrentSender();
      events := [Joined(participant), ParticipantsUpdated(participants, currentSender, currentSenderIndex)];
    }

    /** `next_sender`. */
    method NextSender(socket: SocketId) returns (events: seq<Event>)
      modifies this
      ensures (State(), events) == RoomSpec.NextSender(old(State()), socket)
    {
      var currentSender := GetCurrentSender();
      if currentSender.None? || currentSender.value.id != socket {
        return [NoSendRight];
      }
      var nextSender := RotateSender();
      events := [SenderUpdated(nextSender, currentSenderIndex)];
    }

    /** `send_text`. */
    method SendText(socket: SocketId, text: string, now: Clock) returns (events: seq<Event>)
      modifies this
      ensures (State(), events) == RoomSpec.SendText(old(State()), socket, text, now)
    {
      var currentSender := GetCurrentSender();
      if currentSender.None? || currentSender.value.id != socket {
        return [NoSendRight];
      }
      var name := currentSender.value.name;
      if systemMode == Realtime {
        AddMessageToLog(now, text, name);
        events := [TextReceived(Message(now.millis, text, name))];
      } else {
        events := AddToTakeQueue(now, text, name);
      }
      var nextSender := RotateSender();
      events := events + [SenderUpdated(nextSender, currentSenderIndex)];
    }

    /** The room part of `disconnect`. */
    method Disconnect(socket: SocketId) returns (events: seq<Event>)
      modifies this
      ensures (State(), events) == RoomSpec.Disconnect(old(State()), socket)
    {
      if !HasSocket(participants, socket) {
        return [];
      }
      var _ := GetCurrentSender();
      participants := WithoutSocket(participants, socket);
      AdjustSenderIndex();
      var newCurrentSender := GetCurrentSender();
      events := [ParticipantsUpdated(participants, newCurrentSender, currentSenderIndex)];
    }

    /** `toggle_system_mode`. */
    method ToggleSystemMode(newMode: Mode) returns (events: seq<Event>)
      modifies this
      ensures (State(), events) == RoomSpec.ToggleSystemMode(old(State()), newMode)
    {
      if newMode == Take && isEmergencyMode {
        if |takeQueue| > ReturnThreshold {
          return [ModeChangeError(|takeQueue|)];
        }
        isEmergencyMode := false;
      }
      systemMode := newMode;
      events := [SystemModeChanged(systemMode, ManualChange),
                 SystemStatus(systemMode, takeQueue, isEmergencyMode)];
    }

    /** `return_to_take_mode`. */
    method ReturnToTakeMode() returns (events: seq<Event>)
      modifies this
      ensures (State(), events) == RoomSpec.ReturnToTakeMode(old(State()))
    {
      if |takeQueue| > ReturnThreshold {
        return [ReturnError(|takeQueue|, |takeQueue| - ReturnThreshold)];
      }
      systemMode := Take;
      isEmergencyMode := false;
      events := [SystemModeChanged(Take, ManualReturn), ReturnSuccess(|takeQueue|)];
    }

    /** `take_call_next` as written: the oldest item is called only in take
        mode. */
    method TakeCallNext() returns (events: seq<Event>)
      modifies this
      ensures (State(), events) == RoomSpec.TakeCallNextAsWritten(old(State()))
    {
      events := [];
      if |takeQueue| > 0 && systemMode == Take {
        var nextItem := takeQueue[0];
        takeQueue := takeQueue[1..];
        events := [TextCalled(nextItem), TakeQueueUpdated(takeQueue)] + RoomSpec.CheckReturnAvailability(State());
      }
    }

    /** `take_call_next` with the guard widened to emergencies (see
        `RoomSpec.TakeCallNext`), so that a forced backlog can be worked off. */
    method TakeCallNextCorrected() returns (events: seq<Event>)
      modifies this
      ensures (State(), events) == RoomSpec.TakeCallNext(old(State()))
    {
      events := [];
      if |takeQueue| > 0 && (systemMode == Take || isEmergencyMode) {
        var nextItem := takeQueue[0];
        takeQueue := takeQueue[1..];
        events := [TextCalled(nextItem), TakeQueueUpdated(takeQueue)] + RoomSpec.CheckReturnAvailability(State());
      }
    }

    /** `take_send_text`. */
    method TakeSendText(text: string, now: Clock) returns (events: seq<Event>)
      modifies this
      ensures (State(), events) == RoomSpec.TakeSendText(old(State()), text, now)
    {
      events := [];
      if systemMode == Take {
        AddMessageToLog(now, text, TakeLabel);
        events := [TextReceived(Message(now.millis, text, TakeLabel)), TextSent];
      }
    }

    /** `send_translated_text`, logging under `senderLabel`. */
    method SendTranslatedText(translatedText: string, now: Clock, senderLabel: string) returns (events: seq<Event>)
      modifies this
      ensures (State(), events) == RoomSpec.SendTranslatedText(old(State()), translatedText, now, senderLabel)
    {
      events := [];
      if systemMode == Take {
        AddMessageToLog(now, translatedText, senderLabel);
        events := [TextReceived(Message(now.millis, translatedText, senderLabel)), TranslatedTextSent];
      }
    }

    /** `speech_recognition_result`. */
    method SpeechRecognitionResult(text: string, sender: Option<string>, now: Clock) returns (events: seq<Event>)
      modifies this
      ensures (State(), events) == RoomSpec.SpeechRecognitionResult(old(State()), text, sender, now)
    {
      var speechSender := SpeechSender(sender);
      if systemMode == Realtime {
        AddMessageToLog(now, text, speechSender);
        events := [TextReceived(Message(now.millis, text, speechSender))];
      } else {
        events := AddToTakeQueue(now, text, speechSender);
      }
      events := events + [SpeechResultReceived(systemMode)];
    }
  }
}
