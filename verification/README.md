# Realtime transcription server — a verified model of its coordination core

The system is a Node.js/Socket.IO server for live captioning. Several typists
("senders") take turns sending caption text to a display, one turn at a time.
The right to send ("送信権") passes round an insertion-ordered participant ring.
Every caption shown goes into a session log, which can be exported as CSV in
two formats.

A dual-mode dispatcher routes captions:
- In `realtime` mode they go straight to the display.
- In `take` mode they wait in a FIFO queue until an editor calls them.
- Backpressure thresholds of 500, 800 and 1000 queued items raise a warning, a
  critical signal and a forced switch to real-time mode (an "emergency").
- The room may return to take mode once the queue is at or below 800 items.

The repository holds four server variants, and this model covers the core of
each:

- `server.js` is the minimal single-room server: one turn ring, the log and
  the CSV export. It is `MinimalServer.Server`.
- `main-server.js` adds the take queue, the modes and the emergency. It keeps
  them in module-level variables, so it is the one-room case of the room
  object below.
- `old/20251029main-server.js` keeps a table of room objects created through
  an HTTP endpoint. It also keeps per-connection state that points at the
  room last joined. These are:
  - `Rooms.Room`, a class with the room's fields;
  - `RoomTable.Registry`, the `rooms` map with its insertion order;
  - `RoomTable.Connection`, the connection's `currentRoomId`/`currentRoom`.
- `1209main-server.js` is a separate operator-room server. Operators pick
  prepared subtitles from a per-room queue by id, and each room has at most
  one display. This is `OperatorRooms.Server`. Its handlers look the room up
  on every call, so rooms are values in a map that the server reassigns.

## Structure

Each room handler is first a pure transition in `RoomSpec`, from a
`RoomState` plus the request's inputs to a new state and the events emitted in
order. `Rooms.Room` and `MinimalServer.Server` are classes whose fields are the
source's variables. Each of their methods is proved to change the object
exactly as the matching `RoomSpec` transition says (`ensures (State(), events)
== RoomSpec.X(old(State()), …)`). `RoomProps` then proves the server's
properties about the transitions.

`take_call_next` has two models. `RoomSpec.TakeCallNextAsWritten`, `StepAsWritten`
and `RunAsWritten` follow the source. `RoomSpec.TakeCallNext`, `Step` and `Run` use the
widened guard described under "## Findings". The class methods named
`TakeCallNext` follow the source; `TakeCallNextCorrected` follows the fix. The
properties of the queue and of the forced switch are proved for both.

The CSV export is a loop method, `Csv.GenerateCsv`, proved equal to the
function `Csv.CsvText`. Independent readers (`ReadQuoted`, `ParseTextOnly`,
`ParseTimecodeCsv`) show that reading an export back gives the logged fields.

The clock, `toLocaleTimeString('ja-JP')` and the random room id are
parameters: `Clock(millis, localTime)` and `generatedId`. Socket.IO delivery
is replaced by the list of events or notices a handler emits.

## Model

| member | source | states |
|---|---|---|
| Turn.CurrentSender | server.js:166-178 | an empty ring has no holder; otherwise an out-of-range index is reset to 0 and the holder is the participant at the resulting index; a ring that satisfies the index invariant is left unchanged |
| Turn.RotateSender | server.js:155-163 | an empty ring gets index 0 and no sender; otherwise the index moves one place forward, wrapping from the last participant to the first; the result always satisfies the index invariant |
| Turn.AdjustSenderIndex | server.js:181-187 | the participants are unchanged, the index invariant is re-established and an index that still names a participant is kept |
| Turn.WithoutSocket | server.js:339 | the filtered list holds exactly the participants of other connections, and is no longer than before |
| Turn.WithoutSocketKeepsOrder | server.js:334-359 | removing a connection keeps the others in their original relative order, drops exactly its entries, leaves none of them behind, and is the identity for a non-participant |
| Turn.RotateFullCircle | server.js:155-163 | n rotations over a ring of n participants return the turn to the participant who held it |
| Turn.RotatePeriodic | server.js:155-163 | the holder after k + n rotations is the holder after k rotations |
| SessionLog.Entry | server.js:41-51 | a log entry keeps sender and text as given, is stamped with the clock, and its elapsed time plus the session start is the clock reading |
| Backlog.NewItem | main-server.js:146-166 | a queued item keeps sender and text as given, is stamped with the clock, and has status waiting |
| Csv.ParseExportType | server.js:102-105 | exactly the two names `text-only` and `with-timecode` are accepted, and every other name is refused |
| Csv.QuoteRoundTrip | server.js:83-84 | un-escaping a quoted field gives back the original text, whatever quotes, commas or line breaks it holds |
| Csv.Quote | server.js:83-84 | an escaped field is wrapped in double quotes and is at least two characters longer than the text |
| Csv.JsRem | server.js:79 | JavaScript `%`: the result differs from the dividend by a multiple of the divisor; it is Dafny's remainder for a non-negative dividend and lies in (-b, 0] for a negative one, which together fix the truncating remainder |
| Csv.NatToStringValue | server.js:80 | the decimal rendering of a number is a digit string worth that number, with one digit below 10 and two below 100 |
| Csv.Pad2Value | server.js:80 | left-padding a numeral with zeros keeps its value |
| Csv.Timecode | server.js:76-80 | the elapsed-time column is at least `mm:ss` wide and holds the colon separator |
| Csv.TimecodeRoundTrip | server.js:76-80 | for non-negative elapsed time the timecode is minutes and two-digit seconds below 60, it has no comma, and reading it back gives the whole seconds elapsed |
| Csv.CsvText | server.js:54-94 | the no-data text is returned exactly when the log is empty, and the export of a non-empty log starts with the header of the requested type |
| Csv.GenerateCsv | server.js:54-94 | the loop that appends one row per entry builds exactly the header followed by every entry's row in log order, or the no-data text for an empty log |
| Csv.TextRowsRoundTrip | server.js:64-72 | reading the text-only rows back gives every logged text in order |
| Csv.TextOnlyRoundTrip | server.js:54-72 | reading a text-only export back gives every logged text in order, and nothing else |
| Csv.TimecodeRowRoundTrip | server.js:73-90 | for a time of day without a comma and a non-negative elapsed time, one with-timecode row reads back as the entry's sender, time of day, whole elapsed seconds and text |
| Csv.TimecodeRowsRoundTrip | server.js:73-90 | the rows of an exportable log read back as one record per entry, in order |
| Csv.TimecodeCsvRoundTrip | server.js:54-94 | for an exportable log, reading a with-timecode export back gives one record per entry, in order |
| RoomSpec.Initial | old/20251029main-server.js:471-482 | a new room has no participants, index 0, an empty log and queue, real-time mode and no emergency |
| RoomSpec.ResetSessionLog | server.js:34-38 | the log is emptied and the session restarted at the clock reading, and nothing else changes |
| RoomSpec.AddMessageToLog | main-server.js:133-143 | exactly one entry is appended to the log, and nothing else changes |
| RoomSpec.CheckQueueStatus | main-server.js:169-209 | exactly one tier is raised: the forced switch iff the queue is at 1000 or more in take mode, critical iff it is in [800, 1000), warning iff it is in [500, 800); nothing is raised below 500 or in real-time mode at 1000 or more; only the forced switch changes state |
| RoomSpec.AddToTakeQueue | main-server.js:146-166 | one item is pushed at the back, the ring and log are untouched, and the last event reports the new queue |
| RoomSpec.CheckReturnAvailability | main-server.js:212-224 | take mode is announced as available iff there is an emergency, in real-time mode, with at most 800 items queued |
| RoomSpec.Join | main-server.js:777-837 | the newcomer is appended to the participants; queue, mode and emergency are untouched; the first participant restarts the log at the clock reading, and later ones keep the log and its start |
| RoomSpec.NextSender | main-server.js:840-861 | only the turn index may change, and exactly one reply is emitted |
| RoomSpec.SendText | main-server.js:864-907 | the participants are unchanged and at most one caption is logged or queued |
| RoomSpec.Disconnect | main-server.js:1058-1083 | a connection that is not a participant changes nothing and emits nothing |
| RoomSpec.ToggleSystemMode | main-server.js:668-700 | switching to take mode in an emergency is refused above 800 items and otherwise clears the emergency; any other switch sets the mode and keeps the flag |
| RoomSpec.ReturnToTakeMode | main-server.js:703-724 | it is refused above 800 items, reporting a positive remainder; otherwise the room is in take mode with no emergency |
| RoomSpec.PopOldest | main-server.js:729-745 | the oldest item leaves the queue and is the one called |
| RoomSpec.TakeCallNextAsWritten | main-server.js:727-748 | as written, the oldest item is called only with a non-empty queue in take mode; otherwise nothing happens |
| RoomSpec.TakeCallNext | main-server.js:727-748 | corrected: the oldest item is called with a non-empty queue in take mode or during an emergency; otherwise nothing happens |
| RoomSpec.TakeSendText | main-server.js:751-774 | in take mode the text is logged under the take-desk label and broadcast; in real-time mode nothing happens |
| RoomSpec.SendTranslatedText | main-server.js:639-665 | in take mode the translated text is logged under the translated label and broadcast; in real-time mode nothing happens |
| RoomSpec.SpeechSender | main-server.js:945 | a present, non-empty sender is used, and otherwise the default speech label |
| RoomSpec.SpeechRecognitionResult | main-server.js:936-984 | the ring is untouched and exactly one caption is logged or queued |
| RoomSpec.Step | main-server.js:777-1083 | with the corrected call guard, one request changes the participants only if it is a join or a disconnect, and queues at most one item |
| RoomSpec.StepAsWritten | main-server.js:777-1083 | with the handlers as written, one request changes the participants only if it is a join or a disconnect, and queues at most one item |
| RoomProps.JoinAppends | main-server.js:777-837 | join appends the newcomer at the end without moving the index; the first participant restarts the log and becomes the holder, and otherwise the holder is unchanged |
| RoomProps.NonHolderChangesNothing | main-server.js:840-907 | next_sender and send_text from a connection without the turn are refused, and the room is unchanged |
| RoomProps.HolderPasses | main-server.js:840-861 | the holder passing the turn rotates it one place, and nothing else changes |
| RoomProps.HolderSendsRealtime | main-server.js:864-907 | in real-time mode the holder's text is logged exactly once, unmodified and under the holder's name, then the turn rotates; queue and mode are untouched |
| RoomProps.HolderSendsTake | main-server.js:864-907 | in take mode the holder's text is queued exactly once at the back and the log is untouched; the push that reaches 1000 items forces real-time mode with the emergency flag |
| RoomProps.DisconnectRemoves | main-server.js:1058-1083 | a participant's entries are all removed, the others keep their order, and the index is kept while in range and reset to 0 otherwise |
| RoomProps.SpeechKeepsInv | main-server.js:936-984 | a speech result is logged in real-time mode or queued in take mode under the speech sender, without the turn check or rotation, and is acknowledged with the mode after handling |
| RoomProps.StepKeepsInv | main-server.js:668-724 | every request, handled as written or with the corrected call guard, keeps the room invariant: the index names a participant, and the emergency flag is only set in real-time mode |
| RoomProps.QueueGrowsOnlyInTake | main-server.js:146-166 | the queue grows only in take mode, by exactly one item at the back; otherwise it is unchanged or loses exactly its oldest item |
| RoomProps.QueueGrowsOnlyInTakeAsWritten | main-server.js:146-166 | with the handlers as written, the queue grows only in take mode, by exactly one item at the back; otherwise it is unchanged or loses exactly its oldest item |
| RoomProps.CallNextIsFifo | main-server.js:727-748 | k calls hand out the k oldest items in queue order and leave the rest queued in order; nothing else changes |
| RoomProps.TakeModeCallsAgree | main-server.js:727-748 | in take mode the call guard as written and the corrected one give the same result |
| RoomProps.CallNextTimesAgree | main-server.js:727-748 | from take mode, any number of calls as written does exactly what the corrected calls do |
| RoomProps.CallNextIsFifoAsWritten | main-server.js:727-748 | with the handler as written, k calls in take mode hand out the k oldest items in queue order and leave the rest queued in order; nothing else changes |
| RoomProps.CheckQueueStatusForced | main-server.js:169-209 | the threshold check forces at most one switch, and does so exactly at 1000 or more items in take mode |
| RoomProps.StepForced | main-server.js:169-209 | one request forces at most one switch; a forced switch needs take mode before and leaves real-time mode with the emergency flag after; in real-time mode only a request into take mode leaves it |
| RoomProps.StepForcedAsWritten | main-server.js:169-209 | the same bound on the forced switch for one request handled as written |
| RoomProps.ForcedAtMostOncePerStay | main-server.js:169-209 | between two requests into take mode, the forced switch fires at most once, and never when the room starts in real-time mode |
| RoomProps.ForcedAtMostOncePerStayAsWritten | main-server.js:169-209 | with the handlers as written, between two requests into take mode the forced switch fires at most once, and never when the room starts in real-time mode |
| RoomProps.StepAsWrittenTrapped | main-server.js:727-748 | as written, any single request in an emergency above 800 items leaves the room in the emergency, in real-time mode, with the same queue |
| RoomProps.EmergencyTrapsAsWritten | main-server.js:727-748 | as written, no sequence of requests gets a room with an emergency backlog above 800 items back to take mode or shortens its queue |
| RoomProps.ThousandthCaptionTrapsAsWritten | main-server.js:727-748 | as written, the holder's caption that brings a take-mode queue to 1000 items traps the room in real-time mode for good |
| RoomProps.EmergencyDrains | main-server.js:212-224 | with the corrected guard, n - 800 calls work an emergency backlog of n items down to 800 in FIFO order, the last call announces take mode, and the return then succeeds and clears the emergency |
| Rooms.Room.constructor | old/20251029main-server.js:471-482 | the room record starts in the initial state, with the given id and project name |
| Rooms.Room.RotateSender | old/20251029main-server.js:650-658 | the room's ring and returned sender are those of the rotation specification; the other fields are unchanged |
| Rooms.Room.GetCurrentSender | old/20251029main-server.js:661-673 | the room's ring and returned sender are those of the holder lookup specification; the other fields are unchanged |
| Rooms.Room.AdjustSenderIndex | old/20251029main-server.js:676-684 | the room's ring is the index repair of the old ring; the other fields are unchanged |
| Rooms.Room.ResetSessionLog | old/20251029main-server.js:580-581 | the room's new state is RoomSpec.ResetSessionLog of the old one |
| Rooms.Room.AddMessageToLog | old/20251029main-server.js:171-183 | the room's new state is RoomSpec.AddMessageToLog of the old one |
| Rooms.Room.CheckQueueStatus | old/20251029main-server.js:211-253 | state and events are RoomSpec.CheckQueueStatus of the old state |
| Rooms.Room.AddToTakeQueue | old/20251029main-server.js:186-208 | state and events are RoomSpec.AddToTakeQueue of the old state |
| Rooms.Room.Join | old/20251029main-server.js:1000-1073 | state and events are RoomSpec.Join of the old state |
| Rooms.Room.NextSender | old/20251029main-server.js:1076-1099 | state and events are RoomSpec.NextSender of the old state |
| Rooms.Room.SendText | old/20251029main-server.js:1102-1147 | state and events are RoomSpec.SendText of the old state |
| Rooms.Room.Disconnect | old/20251029main-server.js:1295-1325 | state and events are RoomSpec.Disconnect of the old state |
| Rooms.Room.ToggleSystemMode | old/20251029main-server.js:883-917 | state and events are RoomSpec.ToggleSystemMode of the old state |
| Rooms.Room.ReturnToTakeMode | old/20251029main-server.js:920-943 | state and events are RoomSpec.ReturnToTakeMode of the old state |
| Rooms.Room.TakeCallNext | old/20251029main-server.js:946-969 | state and events are RoomSpec.TakeCallNextAsWritten of the old state: only a take-mode room with a non-empty queue calls its oldest item |
| Rooms.Room.TakeCallNextCorrected | old/20251029main-server.js:946-969 | state and events are the corrected RoomSpec.TakeCallNext of the old state, which also calls during an emergency |
| Rooms.Room.TakeSendText | old/20251029main-server.js:972-997 | state and events are RoomSpec.TakeSendText of the old state |
| Rooms.Room.SendTranslatedText | old/20251029main-server.js:852-880 | state and events are RoomSpec.SendTranslatedText of the old state under the given label |
| Rooms.Room.SpeechRecognitionResult | old/20251029main-server.js:1180-1221 | state and events are RoomSpec.SpeechRecognitionResult of the old state |
| RoomTable.Trim | old/20251029main-server.js:449-450 | the trimmed id has no white space at either end; it is empty iff the input is all white space; and it is an infix surrounded only by white space |
| RoomTable.ChooseRoomId | old/20251029main-server.js:449-468 | a blank custom id gives the generated id; otherwise the trimmed id is refused as in use iff a room has it, refused for its charset iff it is new but outside `[a-zA-Z0-9_-]+`, and used otherwise |
| RoomTable.AcceptedCustomIdIsClean | old/20251029main-server.js:453-466 | an accepted custom id is new, matches the id charset and has no surrounding white space |
| RoomTable.Registry.constructor | old/20251029main-server.js:89 | the table starts empty |
| RoomTable.Registry.CreateRoom | old/20251029main-server.js:444-501 | the result is ChooseRoomId of the existing ids; a refusal leaves the table unchanged; otherwise a fresh initial room with the default or given project name is stored under the id, all other rooms are unchanged, and a new id goes to the end of the order |
| RoomTable.Registry.SetRoom | old/20251029main-server.js:471 | `Map.set`: the key maps to the room, a new key is appended to the order and an existing one keeps its place |
| RoomTable.Registry.List | old/20251029main-server.js:504-518 | one row per room in insertion order, each the row of its room, and every room is listed |
| RoomTable.Registry.Get | old/20251029main-server.js:534-553 | a room's row, or not found exactly when the id is unknown |
| RoomTable.Registry.Delete | old/20251029main-server.js:521-531 | it reports found iff the key existed; exactly that key leaves the table, and it is cut out of the order so the other rooms keep their relative order |
| RoomTable.Registry.ClearLog | old/20251029main-server.js:572-586 | it is refused iff the id is empty or unknown; otherwise that room's log is reset |
| RoomTable.Registry.Export | old/20251029main-server.js:401-441 | an unknown room is refused first, then an unknown type; otherwise the body is the byte-order mark followed by the room's CSV |
| RoomTable.Connection.constructor | old/20251029main-server.js:690-691 | a new connection has joined no room |
| RoomTable.Connection.JoinAdmin | old/20251029main-server.js:694-722 | an unknown id is an error and binds nothing; otherwise the connection is bound to the room and gets its status |
| RoomTable.Connection.JoinDisplay | old/20251029main-server.js:725-740 | an unknown id is an error and binds nothing; otherwise the connection is bound to the room |
| RoomTable.Connection.Join | old/20251029main-server.js:1000-1073 | an unknown id is an error; otherwise the connection is bound to the room and the room does RoomSpec.Join |
| RoomTable.Connection.NextSender | old/20251029main-server.js:1076-1099 | nothing before a join; otherwise the bound room does RoomSpec.NextSender |
| RoomTable.Connection.SendText | old/20251029main-server.js:1102-1147 | nothing before a join; otherwise the bound room does RoomSpec.SendText |
| RoomTable.Connection.Disconnect | old/20251029main-server.js:1295-1325 | nothing before a join; otherwise the room last joined does RoomSpec.Disconnect |
| RoomTable.Connection.ToggleSystemMode | old/20251029main-server.js:883-917 | nothing before a join; otherwise the bound room does RoomSpec.ToggleSystemMode |
| RoomTable.Connection.ReturnToTakeMode | old/20251029main-server.js:920-943 | nothing before a join; otherwise the bound room does RoomSpec.ReturnToTakeMode |
| RoomTable.Connection.TakeCallNext | old/20251029main-server.js:946-969 | nothing before a join; otherwise the bound room does RoomSpec.TakeCallNextAsWritten |
| RoomTable.Connection.TakeCallNextCorrected | old/20251029main-server.js:946-969 | nothing before a join; otherwise the bound room does the corrected RoomSpec.TakeCallNext |
| RoomTable.Connection.TakeSendText | old/20251029main-server.js:972-997 | nothing before a join; otherwise the bound room does RoomSpec.TakeSendText |
| RoomTable.Connection.SendTranslatedText | old/20251029main-server.js:852-880 | nothing before a join; otherwise the bound room logs under the half-width translated label |
| RoomTable.Connection.SpeechRecognitionResult | old/20251029main-server.js:1180-1221 | nothing before a join; otherwise the bound room does RoomSpec.SpeechRecognitionResult |
| MinimalServer.HandlersStayRealtime | server.js:190-359 | every handler keeps a real-time room with an empty queue in that shape |
| MinimalServer.Server.State | server.js:26-31 | the server's variables always form a room state in real-time mode with an empty queue and no emergency |
| MinimalServer.Server.constructor | server.js:26-31 | the variables start as the initial room state |
| MinimalServer.Server.ResetSessionLog | server.js:34-38 | the new state is RoomSpec.ResetSessionLog of the old one |
| MinimalServer.Server.AddMessageToLog | server.js:41-51 | the new state is RoomSpec.AddMessageToLog of the old one |
| MinimalServer.Server.RotateSender | server.js:155-163 | ring and sender are those of the rotation specification; the log is unchanged |
| MinimalServer.Server.GetCurrentSender | server.js:166-178 | ring and sender are those of the holder lookup specification; the log is unchanged |
| MinimalServer.Server.AdjustSenderIndex | server.js:181-187 | the ring is the index repair of the old ring; the log is unchanged |
| MinimalServer.Server.Join | server.js:194-246 | state and events are RoomSpec.Join of the old state |
| MinimalServer.Server.NextSender | server.js:249-270 | state and events are RoomSpec.NextSender of the old state |
| MinimalServer.Server.SendText | server.js:273-306 | state and events are RoomSpec.SendText of the old (real-time) state |
| MinimalServer.Server.Disconnect | server.js:334-359 | state and events are RoomSpec.Disconnect of the old state |
| MinimalServer.Server.Export | server.js:97-130 | an unknown type is refused; otherwise the body is the byte-order mark followed by the log's CSV |
| OperatorRooms.EmptyRoom | 1209main-server.js:34-40 | a new room has no operators, an empty queue and no display |
| OperatorRooms.FindOperator | 1209main-server.js:261 | it gives the first entry of the socket, or -1 exactly when the socket has none |
| OperatorRooms.FindItem | 1209main-server.js:184 | it gives the first queue item with the id, or -1 exactly when there is none |
| OperatorRooms.Splice | 1209main-server.js:203 | index -1 leaves the sequence alone; any other index drops that one element and shifts the rest down |
| OperatorRooms.SpliceMultiset | 1209main-server.js:203 | splicing out an element loses exactly that element |
| OperatorRooms.DropSocket | 1209main-server.js:260-278 | one room's disconnect keeps id and queue, and clears the display iff it held the socket |
| OperatorRooms.DropSocketOperators | 1209main-server.js:261-264 | a disconnect takes exactly the socket's first operator entry out of a room, if it has one, and leaves every other socket's entries as they were, in order |
| OperatorRooms.DeletionNotices | 1209main-server.js:56-62 | one room-deleted notice per operator entry in list order, then one to the display if set |
| OperatorRooms.Summary | 1209main-server.js:283-288 | a room's row carries its id, operator count, whether it has a display and its queue length |
| OperatorRooms.Summaries | 1209main-server.js:282-291 | one row per id given, in order |
| OperatorRooms.LeftNotice | 1209main-server.js:263-271 | an operator-left notice with the shortened list is sent iff the socket was one of the room's operators |
| OperatorRooms.NoLeftNoticesForStranger | 1209main-server.js:256-279 | a socket that is an operator nowhere leaves without a notice |
| OperatorRooms.DisconnectAll | 1209main-server.js:260-278 | visiting the rooms keeps the table's keys |
| OperatorRooms.DisconnectAllRooms | 1209main-server.js:260-278 | visiting each room once drops the socket from exactly the rooms visited and leaves the others alone |
| OperatorRooms.DisconnectAllNotices | 1209main-server.js:260-278 | visiting each room once sends the operator-left notices room by room, in the order visited |
| OperatorRooms.Server.constructor | 1209main-server.js:19 | the table starts empty |
| OperatorRooms.Server.RoomList | 1209main-server.js:282-291 | one row per room, in table order |
| OperatorRooms.Server.CreateRoom | 1209main-server.js:30-46 | a room is created only under a new id, appended to the order; an existing room is untouched; the creator is answered and the list pushed either way |
| OperatorRooms.Server.DeleteRoom | 1209main-server.js:49-68 | a missing room is ignored; otherwise operators and then the display are told, exactly that key is cut out of the table order, the other rooms keep their relative order, and the list is pushed |
| OperatorRooms.Server.JoinRoom | 1209main-server.js:71-109 | a missing room and a socket already among the operators are refused without change; otherwise the operator is appended and announced to the joiner and the room |
| OperatorRooms.Server.JoinDisplay | 1209main-server.js:112-126 | a missing room is refused; otherwise the socket replaces the room's display |
| OperatorRooms.Server.SendSubtitle | 1209main-server.js:129-149 | a missing room is refused; the subtitle goes to the display iff there is one, and the table is not touched |
| OperatorRooms.Server.AddToQueue | 1209main-server.js:152-172 | a missing room is refused; otherwise one item stamped with the clock is appended and the queue is reported |
| OperatorRooms.Server.SendFromQueue | 1209main-server.js:175-207 | a missing room or unknown item is refused without change; otherwise the first item with the id is shown on the display if any, taken out of the queue, and the queue is reported |
| OperatorRooms.Server.RemoveFromQueue | 1209main-server.js:210-225 | a missing room is refused; an unknown item is ignored; otherwise the first item with the id is taken out and the queue reported |
| OperatorRooms.Server.DisconnectFrom | 1209main-server.js:260-278 | the callback's room and notice are DropSocket and LeftNotice of the room |
| OperatorRooms.Server.DisconnectRooms | 1209main-server.js:260-278 | the loop over the rooms computes exactly DisconnectAll |
| OperatorRooms.Server.Disconnect | 1209main-server.js:256-279 | every room, in table order, becomes DropSocket of itself, keys and order are unchanged, and the notices are the operator-left notices in table order |

`main-server.js` has the same handler bodies on globals. It is modelled by the
same `RoomSpec` transitions:
- its `rotateSender`, `getCurrentSender` and `adjustSenderIndex` are at
  470-503;
- its `generateCSV` is at 227-267 and its export endpoint at 351-384;
- it differs only in the translated-caption label, which uses full-width
  parentheses (`RoomSpec.TranslatedLabelGlobal`).

## Left out

- Typing indicators (`typing`, `clear_typing`) are left out. They relay to other clients and change no state.
- Translation (DeepL configuration, `execute_translation`, the translation endpoints) is left out. It calls an external service.
- HTTP routing, static pages, basic auth, the status and message-listing endpoints and `log-stats` are left out. They read state or only format it.
- The speech test endpoints (`/api/speech-integration/test`) are left out. They are test scaffolding that duplicates `speech_recognition_result` with a fixed caption; in the multi-room server they call the module-level helpers, which belong to no room.
- `get_system_status` and `speech_system_status` are left out. They only report state.
- The operator-room server's `restart-server`, `SIGTERM` handler and `server-info` emit are left out. They concern the process, not the rooms.
- The export file name is left out, because it depends on the wall clock.
- Socket.IO delivery and room membership are left out. Each handler returns its events or notices in emission order instead.
- The clock, the `ja-JP` time-of-day string and `generateRoomId()` are parameters, not modelled.
- `systemMode` has two values here. The source's `toggle_system_mode` stores whatever string the client sends; in such a mode no caption is logged or queued.
- Payload fields that are fixed strings (messages, `success`, thresholds in the payload) are not in the events.
- A connection's `socket.join` to a Socket.IO room is not modelled. The operator-room server's `join-display` replacing an earlier display is.
- Csv.TimecodeRowsRoundTrip: the round trip needs a time of day without a comma and a non-negative elapsed time (`Exportable`). The `ja-JP` format and a clock that runs forward give both, but neither is modelled.
- Csv.TimecodeRowRoundTrip: needs the same two conditions for its one row.
- Csv.TimecodeCsvRoundTrip: needs an `Exportable` log, for the same reason.
- RoomTable.Connection.Join: a connection that joins a second room stays listed in the first. Its later handlers act on the second room only. This is the source's behaviour, modelled as such.
- RoomTable.Registry.Delete: connections that joined a deleted room keep their reference to its object and go on acting on it. The model keeps that aliasing; the room is only gone from the table.
- RoomTable.Registry.Export: caption texts and participant names are assumed to be strings. The source stores whatever the client sends, so a `send_text` or `take_send_text` without `text`, or a `join` without `name`, logs `undefined`; the next export then throws in `replace` and the endpoint answers 500. That error path is not modelled.
- MinimalServer.Server.Export: the same assumption and the same unmodelled 500 path, for the single-room server's log.
- OperatorRooms.Server.CreateRoom: the source accepts any `roomId`, including an absent one (`undefined`). The model takes a string, so the empty string stands for that case.

## Findings

| source | as written | input that shows it | evidently intended | confidence | as-written member | corrected member |
|---|---|---|---|---|---|---|
| main-server.js:728 (also old/20251029main-server.js:949) | `take_call_next` pops only when `systemMode === 'take'`. The forced switch at 1000 items sets real-time mode, and both ways back to take mode need at most 800 items queued. | In take mode with 999 items queued, the holder sends one caption: the queue reaches 1000 and the room is forced into real-time mode with the emergency flag. No later request shortens the queue or leaves real-time mode, and `checkReturnAvailability` can never fire. | The emergency backlog can be worked off by calling items while the emergency lasts, so that the return threshold and the take-mode-available signal can be reached. | not executed | RoomProps.ThousandthCaptionTrapsAsWritten | RoomProps.EmergencyDrains |
