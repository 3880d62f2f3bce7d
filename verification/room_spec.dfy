/** The per-room coordination state machine as pure transitions.  Each
    handler of a room (the room objects of the multi-room server, the
    module-level globals of the single-room server) is a function from the
    room's state and the request's inputs to the new state and the events
    the handler emits, in emission order.  The `Room` class's methods are
    proved equal to these functions; the properties of the server are
    proved about them in `RoomProps`. */
module RoomSpec {
  import opened Common
  import opened Turn
  import opened SessionLog
  import opened Backlog

  /** What the room's handlers read and write: the turn ring
      (`participants`, `currentSenderIndex`), the session log and its start
      time, the take queue, `systemMode` and `isEmergencyMode`. */
  datatype RoomState = RoomState(
    ring: Ring,
    log: seq<LogEntry>,
    sessionStart: int,
    queue: seq<QueueItem>,
    mode: Mode,
    emergency: bool)

  /** A caption as broadcast with `text_received`. */
  datatype Message = Message(id: int, text: string, sender: string)

  /** Why `system_mode_changed` was emitted. */
  datatype ModeReason = EmergencyQueueFull | ManualChange | ManualReturn

  /** The events a handler emits (payload fields that are fixed strings or
      the fixed thresholds are left out). */
  datatype Event =
    | Joined(participant: Participant)
    | ParticipantsUpdated(participants: seq<Participant>, currentSender: Option<Participant>, senderIndex: nat)
    | SenderUpdated(currentSender: Option<Participant>, senderIndex: nat)
    | NoSendRight
    | TextReceived(message: Message)
    | TakeQueueUpdated(queue: seq<QueueItem>)
    | SystemModeChanged(mode: Mode, reason: ModeReason)
    | EmergencyRealtimeSwitched(queueSize: nat)
    | QueueCritical(count: nat)
    | QueueWarning(count: nat)
    | TakeModeAvailable(currentQueue: nat)
    | ModeChangeError(count: nat)
    | SystemStatus(mode: Mode, queue: seq<QueueItem>, isEmergency: bool)
    | ReturnError(count: nat, remaining: int)
    | ReturnSuccess(count: nat)
    | TextCalled(item: QueueItem)
    | TextSent
    | TranslatedTextSent
    | SpeechResultReceived(mode: Mode)
    | InvalidRoomId

  /** Sender label of captions sent from the take desk. */
  const TakeLabel: string := "テイク担当者"
  /** Sender label of translated captions in the multi-room server. */
  const TranslatedLabelRooms: string := "テイク担当者(翻訳版)"
  /** Sender label of translated captions in the single-room server
      (full-width parentheses). */
  const TranslatedLabelGlobal: string := "テイク担当者（翻訳版）"
  /** Sender label of speech-recognition results that name no sender. */
  const SpeechDefaultSender: string := "AI音声認識"

  /** The state of a freshly created room, or of the server at start-up. */
  function Initial(now: int): (s: RoomState)
    ensures s.ring.participants == [] && s.ring.index == 0
    ensures s.log == [] && s.queue == [] && s.mode == Realtime && !s.emergency
  {
    RoomState(Ring([], 0), [], now, [], Realtime, false)
  }

  /** The room invariant: the ring invariant, and an emergency only while the
      room runs in real-time mode. */
  predicate Inv(s: RoomState)
  {
    IndexOk(s.ring) && (s.emergency ==> s.mode == Realtime)
  }

  /** True when the connection `socket` currently holds the right to send. */
  predicate IsHolder(r: Ring, socket: SocketId)
  {
    Holder(r).Some? && Holder(r).value.id == socket
  }

  // ---------------------------------------------------------------------
  // Helpers shared by the handlers

  /** `resetSessionLog` (and the log-clearing endpoint): empty log, new
      session start. */
  function ResetSessionLog(s: RoomState, now: Clock): (s': RoomState)
    ensures s'.log == [] && s'.sessionStart == now.millis
    ensures s' == s.(log := [], sessionStart := now.millis)
  {
    s.(log := [], sessionStart := now.millis)
  }

  /** `addMessageToLog`: appends exactly one entry; nothing else changes. */
  function AddMessageToLog(s: RoomState, now: Clock, text: string, sender: string): (s': RoomState)
    ensures s'.log == s.log + [Entry(s.sessionStart, now, text, sender)]
    ensures s' == s.(log := s'.log)
  {
    s.(log := s.log + [Entry(s.sessionStart, now, text, sender)])
  }

  /** `checkQueueStatus`: compares the queue length with the thresholds and
      raises exactly one tier.  At or above the emergency threshold a room in
      take mode is forced into real-time mode with the emergency flag set (a
      room already in real-time mode is left alone); otherwise the critical or
      the warning signal is raised. */
  function CheckQueueStatus(s: RoomState): (res: (RoomState, seq<Event>))
    ensures res.0.ring == s.ring && res.0.log == s.log && res.0.queue == s.queue
    ensures res.0 != s <==> |s.queue| >= EmergencyThreshold && s.mode == Take
    ensures res.0 != s ==> res.0.mode == Realtime && res.0.emergency
    ensures |res.1| <= 2
    ensures ((exists n :: EmergencyRealtimeSwitched(n) in res.1)
             <==> |s.queue| >= EmergencyThreshold && s.mode == Take)
    ensures (QueueCritical(|s.queue|) in res.1
             <==> CriticalThreshold <= |s.queue| < EmergencyThreshold)
    ensures (QueueWarning(|s.queue|) in res.1
             <==> WarnThreshold <= |s.queue| < CriticalThreshold)
    ensures (|res.1| == 0
             <==> |s.queue| < WarnThreshold || (|s.queue| >= EmergencyThreshold && s.mode == Realtime))
  {
    var currentSize := |s.queue|;
    if currentSize >= EmergencyThreshold then
      if s.mode == Take then
        (s.(mode := Realtime, emergency := true),
         [SystemModeChanged(Realtime, EmergencyQueueFull), EmergencyRealtimeSwitched(currentSize)])
      else
        assert s.mode == Realtime;
        (s, [])
    else if currentSize >= CriticalThreshold then (s, [QueueCritical(currentSize)])
    else if currentSize >= WarnThreshold then (s, [QueueWarning(currentSize)])
    else (s, [])
  }

  /** `addToTakeQueue`: pushes one waiting item at the back, runs the
      threshold check, then reports the queue. */
  function AddToTakeQueue(s: RoomState, now: Clock, text: string, sender: string): (res: (RoomState, seq<Event>))
    ensures res.0.queue == s.queue + [NewItem(now, text, sender)]
    ensures res.0.ring == s.ring && res.0.log == s.log
    ensures |res.1| >= 1 && res.1[|res.1| - 1] == TakeQueueUpdated(res.0.queue)
  {
    var pushed := s.(queue := s.queue + [NewItem(now, text, sender)]);
    var (checked, alerts) := CheckQueueStatus(pushed);
    (checked, alerts + [TakeQueueUpdated(checked.queue)])
  }

  /** `checkReturnAvailability`: signals that take mode may be resumed, only
      during an emergency, in real-time mode, with the queue at or below the
      return threshold. */
  function CheckReturnAvailability(s: RoomState): (events: seq<Event>)
    ensures events != [] <==> s.emergency && s.mode == Realtime && |s.queue| <= ReturnThreshold
    ensures events != [] ==> events == [TakeModeAvailable(|s.queue|)]
  {
    if s.emergency && s.mode == Realtime && |s.queue| <= ReturnThreshold then
      [TakeModeAvailable(|s.queue|)]
    else []
  }

  // ---------------------------------------------------------------------
  // Turn-ring handlers

  /** `join`: appends the participant at the end of the ring; the first
      participant starts a new session log; the holder is then looked up. */
  function Join(s: RoomState, socket: SocketId, name: string, now: Clock): (res: (RoomState, seq<Event>))
    ensures res.0.ring.participants == s.ring.participants + [Participant(socket, name, now.millis)]
    ensures res.0.queue == s.queue && res.0.mode == s.mode && res.0.emergency == s.emergency
    ensures s.ring.participants != [] ==> res.0.log == s.log && res.0.sessionStart == s.sessionStart
    ensures s.ring.participants == [] ==> res.0.log == [] && res.0.sessionStart == now.millis
  {
    var p := Participant(socket, name, now.millis);
    var added := s.(ring := s.ring.(participants := s.ring.participants + [p]));
    var started := if |added.ring.participants| == 1 then ResetSessionLog(added, now) else added;
    var (ring, currentSender) := CurrentSender(started.ring);
    (started.(ring := ring), [Joined(p), ParticipantsUpdated(ring.participants, currentSender, ring.index)])
  }

  /** `next_sender`: only the holder may pass the turn; anyone else gets an
      error.  The holder lookup's index repair is kept either way. */
  function NextSender(s: RoomState, socket: SocketId): (res: (RoomState, seq<Event>))
    ensures res.0 == s.(ring := res.0.ring) && res.0.ring.participants == s.ring.participants
    ensures |res.1| == 1
  {
    var (ring, currentSender) := CurrentSender(s.ring);
    if currentSender.None? || currentSender.value.id != socket then
      (s.(ring := ring), [NoSendRight])
    else
      var (rotated, nextSender) := RotateSender(ring);
      (s.(ring := rotated), [SenderUpdated(nextSender, rotated.index)])
  }

  /** `send_text`: only the holder may send.  In real-time mode the caption
      is logged and broadcast; in take mode it is queued.  Either way the
      turn then passes to the next participant. */
  function SendText(s: RoomState, socket: SocketId, text: string, now: Clock): (res: (RoomState, seq<Event>))
    ensures res.0.ring.participants == s.ring.participants
    ensures |res.0.log| + |res.0.queue| <= |s.log| + |s.queue| + 1
  {
    var (ring, currentSender) := CurrentSender(s.ring);
    if currentSender.None? || currentSender.value.id != socket then
      (s.(ring := ring), [NoSendRight])
    else
      var name := currentSender.value.name;
      var held := s.(ring := ring);
      var (sent, events) :=
        if held.mode == Realtime then
          (AddMessageToLog(held, now, text, name), [TextReceived(Message(now.millis, text, name))])
        else AddToTakeQueue(held, now, text, name);
      var (rotated, nextSender) := RotateSender(sent.ring);
      (sent.(ring := rotated), events + [SenderUpdated(nextSender, rotated.index)])
  }

  /** `disconnect`: a participant's entries are all removed, the index is
      repaired and the new holder reported; a socket that is not a
      participant changes nothing. */
  function Disconnect(s: RoomState, socket: SocketId): (res: (RoomState, seq<Event>))
    ensures !HasSocket(s.ring.participants, socket) ==> res == (s, [])
  {
    if !HasSocket(s.ring.participants, socket) then (s, [])
    else
      var (looked, _) := CurrentSender(s.ring);
      var removed := looked.(participants := WithoutSocket(looked.participants, socket));
      var (ring, currentSender) := CurrentSender(AdjustSenderIndex(removed));
      (s.(ring := ring), [ParticipantsUpdated(ring.participants, currentSender, ring.index)])
  }

  // ---------------------------------------------------------------------
  // Mode and take-queue handlers

  /** `toggle_system_mode`: switching to take mode during an emergency is
      refused while the queue is above the return threshold, and otherwise
      clears the emergency; any other switch just sets the mode (switching
      to real-time mode never clears the emergency). */
  function ToggleSystemMode(s: RoomState, newMode: Mode): (res: (RoomState, seq<Event>))
    ensures newMode == Take && s.emergency && |s.queue| > ReturnThreshold ==>
              res == (s, [ModeChangeError(|s.queue|)])
    ensures !(newMode == Take && s.emergency && |s.queue| > ReturnThreshold) ==>
              res.0.mode == newMode
              && res.0.emergency == (s.emergency && newMode == Realtime)
              && res.0 == s.(mode := newMode, emergency := res.0.emergency)
              && res.1 == [SystemModeChanged(newMode, ManualChange),
                           SystemStatus(newMode, s.queue, res.0.emergency)]
  {
    if newMode == Take && s.emergency then
      if |s.queue| > ReturnThreshold then (s, [ModeChangeError(|s.queue|)])
      else
        var cleared := s.(emergency := false, mode := newMode);
        (cleared, [SystemModeChanged(newMode, ManualChange),
                   SystemStatus(newMode, cleared.queue, cleared.emergency)])
    else
      var switched := s.(mode := newMode);
      assert newMode == Realtime || !s.emergency;
      (switched, [SystemModeChanged(newMode, ManualChange),
                  SystemStatus(newMode, switched.queue, switched.emergency)])
  }

  /** `return_to_take_mode`: refused, reporting how many items are still to
      be processed, while the queue is above the return threshold (whether
      or not there is an emergency); otherwise take mode without emergency. */
  function ReturnToTakeMode(s: RoomState): (res: (RoomState, seq<Event>))
    ensures |s.queue| > ReturnThreshold ==>
              res == (s, [ReturnError(|s.queue|, |s.queue| - ReturnThreshold)])
              && res.1[0].remaining > 0
    ensures |s.queue| <= ReturnThreshold ==>
              res.0 == s.(mode := Take, emergency := false)
              && res.1 == [SystemModeChanged(Take, ManualReturn), ReturnSuccess(|s.queue|)]
  {
    if |s.queue| > ReturnThreshold then
      (s, [ReturnError(|s.queue|, |s.queue| - ReturnThreshold)])
    else
      (s.(mode := Take, emergency := false),
       [SystemModeChanged(Take, ManualReturn), ReturnSuccess(|s.queue|)])
  }

  /** Takes the oldest item off the queue and reports it, then checks
      whether take mode may be resumed. */
  function PopOldest(s: RoomState): (res: (RoomState, seq<Event>))
    requires |s.queue| > 0
    ensures res.0 == s.(queue := s.queue[1..])
    ensures |res.1| >= 2 && res.1[0] == TextCalled(s.queue[0])
  {
    var nextItem := s.queue[0];
    var rest := s.(queue := s.queue[1..]);
    (rest, [TextCalled(nextItem), TakeQueueUpdated(rest.queue)] + CheckReturnAvailability(rest))
  }

  /** `take_call_next` as written: the oldest item is called only when the
      queue is non-empty and the room is in take mode.  See
      `RoomProps.EmergencyTrapsAsWritten` for why this guard is too narrow. */
  function TakeCallNextAsWritten(s: RoomState): (res: (RoomState, seq<Event>))
    ensures |s.queue| > 0 && s.mode == Take ==> res == PopOldest(s)
    ensures !(|s.queue| > 0 && s.mode == Take) ==> res == (s, [])
  {
    if |s.queue| > 0 && s.mode == Take then PopOldest(s) else (s, [])
  }

  /** `take_call_next` with the guard widened so that the backlog can also be
      worked off during an emergency, which is what the return threshold and
      `checkReturnAvailability` are waiting for. */
  function TakeCallNext(s: RoomState): (res: (RoomState, seq<Event>))
    ensures |s.queue| > 0 && (s.mode == Take || s.emergency) ==> res == PopOldest(s)
    ensures !(|s.queue| > 0 && (s.mode == Take || s.emergency)) ==> res == (s, [])
  {
    if |s.queue| > 0 && (s.mode == Take || s.emergency) then PopOldest(s) else (s, [])
  }

  /** `take_send_text`: in take mode the edited caption is logged under the
      take-desk label and broadcast; in real-time mode nothing happens. */
  function TakeSendText(s: RoomState, text: string, now: Clock): (res: (RoomState, seq<Event>))
    ensures s.mode == Take ==>
              res.0 == AddMessageToLog(s, now, text, TakeLabel)
              && res.1 == [TextReceived(Message(now.millis, text, TakeLabel)), TextSent]
    ensures s.mode == Realtime ==> res == (s, [])
  {
    if s.mode == Take then
      (AddMessageToLog(s, now, text, TakeLabel),
       [TextReceived(Message(now.millis, text, TakeLabel)), TextSent])
    else (s, [])
  }

  /** `send_translated_text`: as `take_send_text`, with the translated-caption
      label (which differs between the server variants). */
  function SendTranslatedText(s: RoomState, translatedText: string, now: Clock, senderLabel: string): (res: (RoomState, seq<Event>))
    ensures s.mode == Take ==>
              res.0 == AddMessageToLog(s, now, translatedText, senderLabel)
              && res.1 == [TextReceived(Message(now.millis, translatedText, senderLabel)), TranslatedTextSent]
    ensures s.mode == Realtime ==> res == (s, [])
  {
    if s.mode == Take then
      (AddMessageToLog(s, now, translatedText, senderLabel),
       [TextReceived(Message(now.millis, translatedText, senderLabel)), TranslatedTextSent])
    else (s, [])
  }

  /** `data.sender || 'AI音声認識'`: an absent or empty sender gets the
      default senderLabel. */
  function SpeechSender(sender: Option<string>): (name: string)
    ensures sender.Some? && sender.value != "" ==> name == sender.value
    ensures !(sender.Some? && sender.value != "") ==> name == SpeechDefaultSender
  {
    if sender.Some? && sender.value != "" then sender.value else SpeechDefaultSender
  }

  /** `speech_recognition_result`: like a holder's send, but without the
      turn check and without rotating; the acknowledgement reports the mode
      after the result was handled. */
  function SpeechRecognitionResult(s: RoomState, text: string, sender: Option<string>, now: Clock): (res: (RoomState, seq<Event>))
    ensures res.0.ring == s.ring
    ensures |res.0.log| + |res.0.queue| == |s.log| + |s.queue| + 1
  {
    var speechSender := SpeechSender(sender);
    var (handled, events) :=
      if s.mode == Realtime then
        (AddMessageToLog(s, now, text, speechSender), [TextReceived(Message(now.millis, text, speechSender))])
      else AddToTakeQueue(s, now, text, speechSender);
    (handled, events + [SpeechResultReceived(handled.mode)])
  }

  // ---------------------------------------------------------------------
  // All requests a room serves

  datatype Request =
    | JoinReq(socket: SocketId, name: string)
    | NextSenderReq(socket: SocketId)
    | SendTextReq(socket: SocketId, text: string)
    | DisconnectReq(socket: SocketId)
    | ToggleReq(newMode: Mode)
    | ReturnReq
    | CallNextReq
    | TakeSendReq(text: string)
    | TranslatedReq(text: string)
    | SpeechReq(text: string, sender: Option<string>)
    | ClearLogReq

  /** One request handled by a room, with the corrected `take_call_next`. */
  function Step(s: RoomState, req: Request, now: Clock, translatedLabel: string): (res: (RoomState, seq<Event>))
    ensures !req.JoinReq? && !req.DisconnectReq? ==> res.0.ring.participants == s.ring.participants
    ensures |res.0.queue| <= |s.queue| + 1
  {
    match req
    case JoinReq(socket, name) => Join(s, socket, name, now)
    case NextSenderReq(socket) => NextSender(s, socket)
    case SendTextReq(socket, text) => SendText(s, socket, text, now)
    case DisconnectReq(socket) => Disconnect(s, socket)
    case ToggleReq(newMode) => ToggleSystemMode(s, newMode)
    case ReturnReq => ReturnToTakeMode(s)
    case CallNextReq => TakeCallNext(s)
    case TakeSendReq(text) => TakeSendText(s, text, now)
    case TranslatedReq(text) => SendTranslatedText(s, text, now, translatedLabel)
    case SpeechReq(text, sender) => SpeechRecognitionResult(s, text, sender, now)
    case ClearLogReq => (ResetSessionLog(s, now), [])
  }

  /** One request handled with `take_call_next` as written. */
  function StepAsWritten(s: RoomState, req: Request, now: Clock, translatedLabel: string): (res: (RoomState, seq<Event>))
    ensures !req.JoinReq? && !req.DisconnectReq? ==> res.0.ring.participants == s.ring.participants
    ensures |res.0.queue| <= |s.queue| + 1
  {
    if req.CallNextReq? then TakeCallNextAsWritten(s) else Step(s, req, now, translatedLabel)
  }
}
