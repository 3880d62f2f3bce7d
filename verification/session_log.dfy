/** The session log every server variant keeps for CSV export: one entry per
    caption shown on the display, stamped relative to the start of the
    session. */
module SessionLog {
  import opened Common

  /** A log entry: id (`Date.now()` at logging time), the wall-clock time of
      day the entry was made, sender label, caption text, and milliseconds
      elapsed since the session started. */
  datatype LogEntry = LogEntry(id: int, localTime: string, sender: string, text: string, sessionTime: int)

  /** `addMessageToLog`: the entry the server appends for `text` from
      `sender` when the clock reads `now` and the session started at
      `sessionStart`. */
  function Entry(sessionStart: int, now: Clock, text: string, sender: string): (e: LogEntry)
    ensures e.sender == sender && e.text == text
    ensures e.id == now.millis && e.localTime == now.localTime
    ensures e.sessionTime + sessionStart == now.millis
  {
    LogEntry(now.millis, now.localTime, sender, text, now.millis - sessionStart)
  }
}
