/** Vocabulary of the dual-mode dispatch: the two system modes, the take-queue
    item, and the fixed backpressure thresholds (`queueSettings`). */
module Backlog {
  import opened Common

  /** `systemMode`: captions go straight to the display (`realtime`) or are
      held in the take queue for an editor (`take`). */
  datatype Mode = Realtime | Take

  /** The only status a queued item ever has. */
  datatype ItemStatus = Waiting

  /** A take-queue item: id (`Date.now()`), wall-clock time of day, sender
      label, caption text and status. */
  datatype QueueItem = QueueItem(id: int, localTime: string, sender: string, text: string, status: ItemStatus)

  const WarnThreshold: nat := 500
  const CriticalThreshold: nat := 800
  const EmergencyThreshold: nat := 1000
  const ReturnMargin: nat := 200

  /** Largest queue length at which a room may go back to `take` mode. */
  const ReturnThreshold: nat := EmergencyThreshold - ReturnMargin

  /** The item `addToTakeQueue` pushes for `text` from `sender` at `now`. */
  function NewItem(now: Clock, text: string, sender: string): (item: QueueItem)
    ensures item.status == Waiting && item.text == text && item.sender == sender
    ensures item.id == now.millis && item.localTime == now.localTime
  {
    QueueItem(now.millis, now.localTime, sender, text, Waiting)
  }
}
