/** Properties of the per-room state machine: the room invariant is kept by
    every request, only the holder of the turn can send or pass it, the
    take queue is a FIFO that grows only in take mode, the forced switch to
    real-time mode fires at most once per stay in take mode, and the
    emergency can be worked off (with the widened `take_call_next` guard)
    or never (with the guard as written). */
module RoomProps {
  import opened Common
  import opened Turn
  import opened SessionLog
  import opened Backlog
  import opened RoomSpec

  // ---------------------------------------------------------------------
  // Turn ring

  /** `join` appends the newcomer at the end without moving the index; the
      first participant starts a new session log and becomes the holder,
      otherwise the holder is unchanged. */
  lemma JoinAppends(s: RoomState, socket: SocketId, name: string, now: Clock)
    requires Inv(s)
    ensures var (t, events) := Join(s, socket, name, now);
            var p := Participant(socket, name, now.millis);
            && t.ring.participants == s.ring.participants + [p]
            && t.ring.index == s.ring.index
            && t.log == (if s.ring.participants == [] then [] else s.log)
            && t.sessionStart == (if s.ring.participants == [] then now.millis else s.sessionStart)
            && t.queue == s.queue && t.mode == s.mode && t.emergency == s.emergency
            && Inv(t)
            && Holder(t.ring) == (if s.ring.participants == [] then Some(p) else Holder(s.ring))
            && events == [Joined(p), ParticipantsUpdated(t.ring.participants, Holder(t.ring), t.ring.index)]
  {
    var p := Participant(socket, name, now.millis);
    var ps := s.ring.participants + [p];
    if s.ring.participants != [] {
      assert ps[s.ring.index] == s.ring.participants[s.ring.index];
    }
  }

  /** A request from a connection that does not hold the turn is refused
      with an error, and neither the ring, the log, the queue nor the mode
      changes — for `next_sender` and `send_text` alike. */
  lemma NonHolderChangesNothing(s: RoomState, socket: SocketId, text: string, now: Clock)
    requires Inv(s) && !IsHolder(s.ring, socket)
    ensures NextSender(s, socket) == (s, [NoSendRight])
    ensures SendText(s, socket, text, now) == (s, [NoSendRight])
  {
  }

  /** The holder passing the turn moves it to the next participant in ring
      order; nothing else changes. */
  lemma HolderPasses(s: RoomState, socket: SocketId)
    requires Inv(s) && IsHolder(s.ring, socket)
    ensures var (t, events) := NextSender(s, socket);
            && t == s.(ring := RotateSender(s.ring).0)
            && events == [SenderUpdated(RotateSender(s.ring).1, t.ring.index)]
            && Inv(t)
  {
  }

  /** In real-time mode the holder's caption is logged exactly once, under
      the holder's name and with the text unmodified, and broadcast; the
      turn then rotates; the queue and mode are untouched. */
  lemma HolderSendsRealtime(s: RoomState, socket: SocketId, text: string, now: Clock)
    requires Inv(s) && IsHolder(s.ring, socket) && s.mode == Realtime
    ensures var (t, events) := SendText(s, socket, text, now);
            var name := Holder(s.ring).value.name;
            && t.log == s.log + [Entry(s.sessionStart, now, text, name)]
            && t.log[|s.log|].sender == name && t.log[|s.log|].text == text
            && t.ring == RotateSender(s.ring).0
            && t.queue == s.queue && t.mode == s.mode && t.emergency == s.emergency
            && t.sessionStart == s.sessionStart
            && events == [TextReceived(Message(now.millis, text, name)),
                          SenderUpdated(RotateSender(s.ring).1, t.ring.index)]
            && Inv(t)
  {
  }

  /** In take mode the holder's caption is queued exactly once, at the back,
      with status waiting; the log is untouched and the turn rotates.  The
      push that brings the queue to the emergency threshold forces real-time
      mode with the emergency flag. */
  lemma HolderSendsTake(s: RoomState, socket: SocketId, text: string, now: Clock)
    requires Inv(s) && IsHolder(s.ring, socket) && s.mode == Take
    ensures var (t, events) := SendText(s, socket, text, now);
            var name := Holder(s.ring).value.name;
            && t.queue == s.queue + [NewItem(now, text, name)]
            && t.queue[|s.queue|].status == Waiting && t.queue[|s.queue|].text == text
            && t.log == s.log && t.sessionStart == s.sessionStart
            && t.ring == RotateSender(s.ring).0
            && t.mode == (if |t.queue| >= EmergencyThreshold then Realtime else Take)
            && t.emergency == (|t.queue| >= EmergencyThreshold)
            && events[|events| - 1] == SenderUpdated(RotateSender(s.ring).1, t.ring.index)
            && Inv(t)
  {
  }

  /** `disconnect` of a participant removes all of its entries and keeps the
      other participants in their original order; the index is kept while it
      still names a participant and reset to 0 otherwise. */
  lemma DisconnectRemoves(s: RoomState, socket: SocketId)
    requires Inv(s) && HasSocket(s.ring.participants, socket)
    ensures var (t, events) := Disconnect(s, socket);
            var rest := WithoutSocket(s.ring.participants, socket);
            && t.ring.participants == rest
            && IsSubsequence(rest, s.ring.participants)
            && |rest| == |s.ring.participants| - CountSocket(s.ring.participants, socket)
            && !HasSocket(rest, socket)
            && t.ring.index == (if s.ring.index < |rest| then s.ring.index else 0)
            && t == s.(ring := t.ring)
            && events == [ParticipantsUpdated(rest, Holder(t.ring), t.ring.index)]
            && Inv(t)
  {
    WithoutSocketKeepsOrder(s.ring.participants, socket);
  }

  // ---------------------------------------------------------------------
  // The room invariant

  lemma SpeechKeepsInv(s: RoomState, text: string, sender: Option<string>, now: Clock)
    requires Inv(s)
    ensures var (t, events) := SpeechRecognitionResult(s, text, sender, now);
            && Inv(t) && t.ring == s.ring
            && (s.mode == Realtime ==>
                  t.log == s.log + [Entry(s.sessionStart, now, text, SpeechSender(sender))] && t.queue == s.queue)
            && (s.mode == Take ==>
                  t.queue == s.queue + [NewItem(now, text, SpeechSender(sender))] && t.log == s.log)
            && events[|events| - 1] == SpeechResultReceived(t.mode)
  {
  }

  /** Every request a room serves keeps the room invariant: the holder
      index names a participant (or is 0 on an empty ring), and the
      emergency flag is only ever set in real-time mode. */
  lemma StepKeepsInv(s: RoomState, req: Request, now: Clock, translatedLabel: string)
    requires Inv(s)
    ensures Inv(Step(s, req, now, translatedLabel).0)
    ensures Inv(StepAsWritten(s, req, now, translatedLabel).0)
  {
    match req {
      case JoinReq(socket, name) => JoinAppends(s, socket, name, now);
      case NextSenderReq(socket) =>
        if IsHolder(s.ring, socket) { HolderPasses(s, socket); }
        else { NonHolderChangesNothing(s, socket, "", now); }
      case SendTextReq(socket, text) =>
        if !IsHolder(s.ring, socket) { NonHolderChangesNothing(s, socket, text, now); }
        else if s.mode == Realtime { HolderSendsRealtime(s, socket, text, now); }
        else { HolderSendsTake(s, socket, text, now); }
      case DisconnectReq(socket) =>
        if HasSocket(s.ring.participants, socket) { DisconnectRemoves(s, socket); }
      case SpeechReq(text, sender) => SpeechKeepsInv(s, text, sender, now);
      case _ =>
    }
  }

  // ---------------------------------------------------------------------
  // The take queue

  /** The queue grows only in take mode, and then by exactly one item at the
      back; otherwise it is unchanged or loses exactly its oldest item. */
  lemma QueueGrowsOnlyInTake(s: RoomState, req: Request, now: Clock, translatedLabel: string)
    requires Inv(s)
    ensures var t := Step(s, req, now, translatedLabel).0;
            && (|t.queue| > |s.queue| ==>
                  s.mode == Take && |t.queue| == |s.queue| + 1 && t.queue[..|s.queue|] == s.queue)
            && (|t.queue| <= |s.queue| ==>
                  t.queue == s.queue || (|s.queue| > 0 && t.queue == s.queue[1..]))
  {
    match req {
      case SendTextReq(socket, text) =>
        if !IsHolder(s.ring, socket) { NonHolderChangesNothing(s, socket, text, now); }
        else if s.mode == Realtime { HolderSendsRealtime(s, socket, text, now); }
        else {
          HolderSendsTake(s, socket, text, now);
          var t := Step(s, req, now, translatedLabel).0;
          assert t.queue[..|s.queue|] == s.queue;
        }
      case SpeechReq(text, sender) =>
        SpeechKeepsInv(s, text, sender, now);
        var t := Step(s, req, now, translatedLabel).0;
        if s.mode == Take {
          assert t.queue[..|s.queue|] == s.queue;
        }
      case JoinReq(socket, name) => JoinAppends(s, socket, name, now);
      case _ =>
    }
  }

  /** The same for the handlers as written: `take_call_next` as written only
      ever pops, so the queue still grows only in take mode. */
  lemma QueueGrowsOnlyInTakeAsWritten(s: RoomState, req: Request, now: Clock, translatedLabel: string)
    requires Inv(s)
    ensures var t := StepAsWritten(s, req, now, translatedLabel).0;
            && (|t.queue| > |s.queue| ==>
                  s.mode == Take && |t.queue| == |s.queue| + 1 && t.queue[..|s.queue|] == s.queue)
            && (|t.queue| <= |s.queue| ==>
                  t.queue == s.queue || (|s.queue| > 0 && t.queue == s.queue[1..]))
  {
    if !req.CallNextReq? {
      QueueGrowsOnlyInTake(s, req, now, translatedLabel);
    }
  }

  /** `k` successive `take_call_next` requests. */
  function CallNextTimes(s: RoomState, k: nat): (RoomState, seq<Event>)
    decreases k
  {
    if k == 0 then (s, [])
    else
      var (s1, e1) := TakeCallNext(s);
      var (s2, e2) := CallNextTimes(s1, k - 1);
      (s2, e1 + e2)
  }

  /** The items reported by `text_called` events, in order. */
  function Called(events: seq<Event>): seq<QueueItem>
  {
    if events == [] then []
    else (if events[0].TextCalled? then [events[0].item] else []) + Called(events[1..])
  }

  lemma {:induction false} CalledAppend(a: seq<Event>, b: seq<Event>)
    ensures Called(a + b) == Called(a) + Called(b)
    decreases |a|
  {
    if a == [] {
      assert a + b == b;
    } else {
      CalledAppend(a[1..], b);
      assert (a + b)[0] == a[0];
      assert (a + b)[1..] == a[1..] + b;
      var head := if a[0].TextCalled? then [a[0].item] else [];
      assert Called(a + b) == head + (Called(a[1..]) + Called(b));
      assert head + (Called(a[1..]) + Called(b)) == (head + Called(a[1..])) + Called(b);
    }
  }

  lemma PopOldestCalls(s: RoomState)
    requires |s.queue| > 0
    ensures Called(PopOldest(s).1) == [s.queue[0]]
  {
    var rest := s.(queue := s.queue[1..]);
    var tail := [TakeQueueUpdated(rest.queue)] + CheckReturnAvailability(rest);
    assert PopOldest(s).1 == [TextCalled(s.queue[0])] + tail;
    CalledAppend([TextCalled(s.queue[0])], tail);
    assert Called(tail) == [] by {
      assert tail[1..] == CheckReturnAvailability(rest);
      if CheckReturnAvailability(rest) != [] {
        assert CheckReturnAvailability(rest)[1..] == [];
      }
    }
  }

  /** The first of `k` calls pops the oldest item. */
  lemma CallNextStep(s: RoomState, k: nat)
    requires s.mode == Take || s.emergency
    requires 0 < k <= |s.queue|
    ensures var s1 := s.(queue := s.queue[1..]);
            CallNextTimes(s, k) == (CallNextTimes(s1, k - 1).0, PopOldest(s).1 + CallNextTimes(s1, k - 1).1)
  {
    assert TakeCallNext(s) == (s.(queue := s.queue[1..]), PopOldest(s).1);
  }

  /** `take_call_next` is strictly FIFO: `k` calls hand out the `k` oldest
      items in the order they were queued and leave the rest queued in
      order; nothing else in the room changes. */
  lemma {:induction false} CallNextIsFifo(s: RoomState, k: nat)
    requires s.mode == Take || s.emergency
    requires k <= |s.queue|
    ensures CallNextTimes(s, k).0 == s.(queue := s.queue[k..])
    ensures Called(CallNextTimes(s, k).1) == s.queue[..k]
    decreases k
  {
    if k > 0 {
      var s1 := s.(queue := s.queue[1..]);
      var e1 := PopOldest(s).1;
      CallNextStep(s, k);
      PopOldestCalls(s);
      CallNextIsFifo(s1, k - 1);
      var e2 := CallNextTimes(s1, k - 1).1;
      CalledAppend(e1, e2);
      assert s.queue[1..][k - 1..] == s.queue[k..];
      assert [s.queue[0]] + s.queue[1..][..k - 1] == s.queue[..k];
    }
  }

  /** In take mode the call-next guard as written and the widened one
      agree. */
  lemma TakeModeCallsAgree(s: RoomState)
    requires s.mode == Take
    ensures TakeCallNextAsWritten(s) == TakeCallNext(s)
  {
  }

  /** `k` successive `take_call_next` requests, as written. */
  function CallNextTimesAsWritten(s: RoomState, k: nat): (RoomState, seq<Event>)
    decreases k
  {
    if k == 0 then (s, [])
    else
      var (s1, e1) := TakeCallNextAsWritten(s);
      var (s2, e2) := CallNextTimesAsWritten(s1, k - 1);
      (s2, e1 + e2)
  }

  /** A call keeps the room in take mode, so from take mode any number of
      calls as written does what the widened guard does. */
  lemma {:induction false} CallNextTimesAgree(s: RoomState, k: nat)
    requires s.mode == Take
    ensures CallNextTimesAsWritten(s, k) == CallNextTimes(s, k)
    decreases k
  {
    if k > 0 {
      TakeModeCallsAgree(s);
      var s1 := TakeCallNext(s).0;
      assert s1.mode == Take;
      CallNextTimesAgree(s1, k - 1);
    }
  }

  /** `take_call_next` as written is strictly FIFO in take mode. */
  lemma CallNextIsFifoAsWritten(s: RoomState, k: nat)
    requires s.mode == Take
    requires k <= |s.queue|
    ensures CallNextTimesAsWritten(s, k).0 == s.(queue := s.queue[k..])
    ensures Called(CallNextTimesAsWritten(s, k).1) == s.queue[..k]
  {
    CallNextTimesAgree(s, k);
    CallNextIsFifo(s, k);
  }

  // ---------------------------------------------------------------------
  // The forced switch

  /** Number of forced switches (`emergency_realtime_switched`) among
      `events`. */
  function CountForced(events: seq<Event>): nat
  {
    if events == [] then 0
    else (if events[0].EmergencyRealtimeSwitched? then 1 else 0) + CountForced(events[1..])
  }

  lemma {:induction false} CountForcedAppend(a: seq<Event>, b: seq<Event>)
    ensures CountForced(a + b) == CountForced(a) + CountForced(b)
    decreases |a|
  {
    if a == [] {
      assert a + b == b;
    } else {
      CountForcedAppend(a[1..], b);
      assert (a + b)[0] == a[0];
      assert (a + b)[1..] == a[1..] + b;
    }
  }

  /** A request that can put a room back into take mode. */
  predicate IntoTake(req: Request)
  {
    (req.ToggleReq? && req.newMode == Take) || req.ReturnReq?
  }

  lemma CountForcedNone(events: seq<Event>)
    requires forall i :: 0 <= i < |events| ==> !events[i].EmergencyRealtimeSwitched?
    ensures CountForced(events) == 0
  {
    if events != [] {
      CountForcedNone(events[1..]);
    }
  }

  lemma CheckQueueStatusForced(s: RoomState)
    ensures CountForced(CheckQueueStatus(s).1) == (if |s.queue| >= EmergencyThreshold && s.mode == Take then 1 else 0)
  {
    var events := CheckQueueStatus(s).1;
    if |s.queue| >= EmergencyThreshold && s.mode == Take {
      var n := |s.queue|;
      assert events == [SystemModeChanged(Realtime, EmergencyQueueFull)] + [EmergencyRealtimeSwitched(n)];
      CountForcedAppend([SystemModeChanged(Realtime, EmergencyQueueFull)], [EmergencyRealtimeSwitched(n)]);
      assert [SystemModeChanged(Realtime, EmergencyQueueFull)][1..] == [];
      assert [EmergencyRealtimeSwitched(n)][1..] == [];
    } else {
      CountForcedNone(events);
    }
  }

  lemma AddToTakeQueueForced(s: RoomState, now: Clock, text: string, sender: string)
    ensures var (t, events) := AddToTakeQueue(s, now, text, sender);
            && CountForced(events) == (if |t.queue| >= EmergencyThreshold && s.mode == Take then 1 else 0)
            && t.mode == (if |t.queue| >= EmergencyThreshold then Realtime else s.mode)
            && t.emergency == (s.emergency || (|t.queue| >= EmergencyThreshold && s.mode == Take))
  {
    var pushed := s.(queue := s.queue + [NewItem(now, text, sender)]);
    CheckQueueStatusForced(pushed);
    var (checked, alerts) := CheckQueueStatus(pushed);
    CountForcedAppend(alerts, [TakeQueueUpdated(checked.queue)]);
  }

  /** What one request may do with the forced switch: fire it at most once,
      only out of take mode and landing in real-time mode with the
      emergency flag; in real-time mode, only a request into take mode can
      leave it. */
  ghost predicate ForcedBounded(s: RoomState, req: Request, t: RoomState, events: seq<Event>)
  {
    && CountForced(events) <= 1
    && (CountForced(events) == 1 ==> s.mode == Take && t.mode == Realtime && t.emergency)
    && (s.mode == Realtime && !IntoTake(req) ==> t.mode == Realtime && CountForced(events) == 0)
  }

  lemma ForcedSend(s: RoomState, socket: SocketId, text: string, now: Clock)
    requires Inv(s)
    ensures var (t, events) := SendText(s, socket, text, now);
            ForcedBounded(s, SendTextReq(socket, text), t, events)
  {
    var (ring, cur) := CurrentSender(s.ring);
    if !IsHolder(s.ring, socket) {
      NonHolderChangesNothing(s, socket, text, now);
      CountForcedNone([NoSendRight]);
    } else if s.mode == Realtime {
      HolderSendsRealtime(s, socket, text, now);
      CountForcedNone(SendText(s, socket, text, now).1);
    } else {
      var name := cur.value.name;
      var held := s.(ring := ring);
      AddToTakeQueueForced(held, now, text, name);
      var (sent, ev) := AddToTakeQueue(held, now, text, name);
      var (rotated, next) := RotateSender(sent.ring);
      CountForcedAppend(ev, [SenderUpdated(next, rotated.index)]);
      CountForcedNone([SenderUpdated(next, rotated.index)]);
    }
  }

  lemma ForcedSpeech(s: RoomState, text: string, sender: Option<string>, now: Clock)
    requires Inv(s)
    ensures var (t, events) := SpeechRecognitionResult(s, text, sender, now);
            ForcedBounded(s, SpeechReq(text, sender), t, events)
  {
    var who := SpeechSender(sender);
    if s.mode == Take {
      AddToTakeQueueForced(s, now, text, who);
      var (handled, ev) := AddToTakeQueue(s, now, text, who);
      CountForcedAppend(ev, [SpeechResultReceived(handled.mode)]);
      CountForcedNone([SpeechResultReceived(handled.mode)]);
    } else {
      CountForcedNone(SpeechRecognitionResult(s, text, sender, now).1);
    }
  }

  lemma ForcedCallNext(s: RoomState)
    requires Inv(s)
    ensures var (t, events) := TakeCallNext(s);
            ForcedBounded(s, CallNextReq, t, events)
  {
    if |s.queue| > 0 && (s.mode == Take || s.emergency) {
      var rest := s.(queue := s.queue[1..]);
      CountForcedNone([TextCalled(s.queue[0]), TakeQueueUpdated(rest.queue)] + CheckReturnAvailability(rest));
    } else {
      CountForcedNone([]);
    }
  }

  /** One request forces at most one switch; a forced switch needs take mode
      before and leaves real-time mode with the emergency flag after; in
      real-time mode only a request into take mode can leave it. */
  lemma StepForced(s: RoomState, req: Request, now: Clock, translatedLabel: string)
    requires Inv(s)
    ensures var (t, events) := Step(s, req, now, translatedLabel);
            ForcedBounded(s, req, t, events)
  {
    var (t, events) := Step(s, req, now, translatedLabel);
    match req {
      case SendTextReq(socket, text) => ForcedSend(s, socket, text, now);
      case SpeechReq(text, sender) => ForcedSpeech(s, text, sender, now);
      case CallNextReq => ForcedCallNext(s);
      case JoinReq(socket, name) =>
        JoinAppends(s, socket, name, now);
        CountForcedNone(events);
      case NextSenderReq(socket) =>
        if IsHolder(s.ring, socket) { HolderPasses(s, socket); }
        else { NonHolderChangesNothing(s, socket, "", now); }
        CountForcedNone(events);
      case DisconnectReq(socket) =>
        if HasSocket(s.ring.participants, socket) { DisconnectRemoves(s, socket); }
        CountForcedNone(events);
      case ToggleReq(newMode) => CountForcedNone(events);
      case ReturnReq => CountForcedNone(events);
      case TakeSendReq(text) => CountForcedNone(events);
      case TranslatedReq(text) => CountForcedNone(events);
      case ClearLogReq => CountForcedNone(events);
    }
  }

  lemma ForcedCallNextAsWritten(s: RoomState)
    requires Inv(s)
    ensures var (t, events) := TakeCallNextAsWritten(s);
            ForcedBounded(s, CallNextReq, t, events)
  {
    if |s.queue| > 0 && s.mode == Take {
      var rest := s.(queue := s.queue[1..]);
      CountForcedNone([TextCalled(s.queue[0]), TakeQueueUpdated(rest.queue)] + CheckReturnAvailability(rest));
    } else {
      CountForcedNone([]);
    }
  }

  /** The same bound for the handlers as written. */
  lemma StepForcedAsWritten(s: RoomState, req: Request, now: Clock, translatedLabel: string)
    requires Inv(s)
    ensures var (t, events) := StepAsWritten(s, req, now, translatedLabel);
            ForcedBounded(s, req, t, events)
  {
    if req.CallNextReq? {
      ForcedCallNextAsWritten(s);
    } else {
      StepForced(s, req, now, translatedLabel);
    }
  }

  /** A sequence of requests, each with the clock reading it was handled at. */
  function Run(s: RoomState, reqs: seq<(Request, Clock)>, translatedLabel: string): (RoomState, seq<Event>)
    decreases |reqs|
  {
    if reqs == [] then (s, [])
    else
      var (s1, e1) := Step(s, reqs[0].0, reqs[0].1, translatedLabel);
      var (s2, e2) := Run(s1, reqs[1..], translatedLabel);
      (s2, e1 + e2)
  }

  /** Between two requests that put the room into take mode, the forced
      switch to real-time mode fires at most once (and never, if the room
      starts in real-time mode); the run keeps the room invariant. */
  lemma {:induction false} ForcedAtMostOncePerStay(s: RoomState, reqs: seq<(Request, Clock)>, translatedLabel: string)
    requires Inv(s)
    requires forall i :: 0 <= i < |reqs| ==> !IntoTake(reqs[i].0)
    ensures CountForced(Run(s, reqs, translatedLabel).1) <= 1
    ensures s.mode == Realtime ==> CountForced(Run(s, reqs, translatedLabel).1) == 0
    ensures Inv(Run(s, reqs, translatedLabel).0)
    decreases |reqs|
  {
    if reqs != [] {
      var (s1, e1) := Step(s, reqs[0].0, reqs[0].1, translatedLabel);
      StepForced(s, reqs[0].0, reqs[0].1, translatedLabel);
      StepKeepsInv(s, reqs[0].0, reqs[0].1, translatedLabel);
      assert forall i :: 0 <= i < |reqs[1..]| ==> !IntoTake(reqs[1..][i].0) by {
        forall i | 0 <= i < |reqs[1..]| ensures !IntoTake(reqs[1..][i].0) {
          assert reqs[1..][i] == reqs[i + 1];
        }
      }
      ForcedAtMostOncePerStay(s1, reqs[1..], translatedLabel);
      var (s2, e2) := Run(s1, reqs[1..], translatedLabel);
      CountForcedAppend(e1, e2);
    }
  }

  // ---------------------------------------------------------------------
  // Leaving an emergency

  /** A sequence of requests handled with `take_call_next` as written. */
  function RunAsWritten(s: RoomState, reqs: seq<(Request, Clock)>, translatedLabel: string): (RoomState, seq<Event>)
    decreases |reqs|
  {
    if reqs == [] then (s, [])
    else
      var (s1, e1) := StepAsWritten(s, reqs[0].0, reqs[0].1, translatedLabel);
      var (s2, e2) := RunAsWritten(s1, reqs[1..], translatedLabel);
      (s2, e1 + e2)
  }

  /** Between two requests into take mode, the forced switch fires at most
      once with the handlers as written too. */
  lemma {:induction false} ForcedAtMostOncePerStayAsWritten(s: RoomState, reqs: seq<(Request, Clock)>, translatedLabel: string)
    requires Inv(s)
    requires forall i :: 0 <= i < |reqs| ==> !IntoTake(reqs[i].0)
    ensures CountForced(RunAsWritten(s, reqs, translatedLabel).1) <= 1
    ensures s.mode == Realtime ==> CountForced(RunAsWritten(s, reqs, translatedLabel).1) == 0
    ensures Inv(RunAsWritten(s, reqs, translatedLabel).0)
    decreases |reqs|
  {
    if reqs != [] {
      var (s1, e1) := StepAsWritten(s, reqs[0].0, reqs[0].1, translatedLabel);
      StepForcedAsWritten(s, reqs[0].0, reqs[0].1, translatedLabel);
      StepKeepsInv(s, reqs[0].0, reqs[0].1, translatedLabel);
      assert forall i :: 0 <= i < |reqs[1..]| ==> !IntoTake(reqs[1..][i].0) by {
        forall i | 0 <= i < |reqs[1..]| ensures !IntoTake(reqs[1..][i].0) {
          assert reqs[1..][i] == reqs[i + 1];
        }
      }
      ForcedAtMostOncePerStayAsWritten(s1, reqs[1..], translatedLabel);
      var (s2, e2) := RunAsWritten(s1, reqs[1..], translatedLabel);
      CountForcedAppend(e1, e2);
    }
  }

  /** With `take_call_next` as written, a single request in an emergency
      above the return threshold leaves the room in the emergency, in
      real-time mode, with exactly the same queue. */
  lemma StepAsWrittenTrapped(s: RoomState, req: Request, now: Clock, translatedLabel: string)
    requires Inv(s) && s.emergency && |s.queue| > ReturnThreshold
    ensures var t := StepAsWritten(s, req, now, translatedLabel).0;
            Inv(t) && t.emergency && t.mode == Realtime && t.queue == s.queue
  {
    StepKeepsInv(s, req, now, translatedLabel);
    match req {
      case SendTextReq(socket, text) =>
        if !IsHolder(s.ring, socket) { NonHolderChangesNothing(s, socket, text, now); }
        else { HolderSendsRealtime(s, socket, text, now); }
      case SpeechReq(text, sender) => SpeechKeepsInv(s, text, sender, now);
      case JoinReq(socket, name) => JoinAppends(s, socket, name, now);
      case NextSenderReq(socket) =>
        if IsHolder(s.ring, socket) { HolderPasses(s, socket); }
        else { NonHolderChangesNothing(s, socket, "", now); }
      case DisconnectReq(socket) =>
        if HasSocket(s.ring.participants, socket) { DisconnectRemoves(s, socket); }
      case _ =>
    }
  }

  /** With `take_call_next` as written, once the forced switch has left a
      backlog above the return threshold, no sequence of requests whatever
      brings the room back to take mode or shrinks the queue: the call-next
      guard needs take mode, and every way back to take mode needs a
      shorter queue. */
  lemma {:induction false} EmergencyTrapsAsWritten(s: RoomState, reqs: seq<(Request, Clock)>, translatedLabel: string)
    requires Inv(s) && s.emergency && |s.queue| > ReturnThreshold
    ensures var t := RunAsWritten(s, reqs, translatedLabel).0;
            t.emergency && t.mode == Realtime && t.queue == s.queue
    decreases |reqs|
  {
    if reqs != [] {
      StepAsWrittenTrapped(s, reqs[0].0, reqs[0].1, translatedLabel);
      var s1 := StepAsWritten(s, reqs[0].0, reqs[0].1, translatedLabel).0;
      EmergencyTrapsAsWritten(s1, reqs[1..], translatedLabel);
    }
  }

  /** The input that shows it: in take mode with 999 items queued, the
      holder's next caption forces the emergency with 1000 items, after
      which (as written) the room never returns to take mode. */
  lemma ThousandthCaptionTrapsAsWritten(s: RoomState, socket: SocketId, text: string, now: Clock,
                                        reqs: seq<(Request, Clock)>, translatedLabel: string)
    requires Inv(s) && s.mode == Take && |s.queue| == EmergencyThreshold - 1 && IsHolder(s.ring, socket)
    ensures var forced := SendText(s, socket, text, now).0;
            && forced.emergency && |forced.queue| == EmergencyThreshold
            && RunAsWritten(forced, reqs, translatedLabel).0.mode == Realtime
  {
    HolderSendsTake(s, socket, text, now);
    var forced := SendText(s, socket, text, now).0;
    EmergencyTrapsAsWritten(forced, reqs, translatedLabel);
  }

  /** With the widened guard, an emergency backlog of `n` items above the
      return threshold is worked off by `n - 800` calls, the last of which
      announces that take mode is available; `return_to_take_mode` then
      succeeds and clears the emergency. */
  lemma EmergencyDrains(s: RoomState)
    requires Inv(s) && s.emergency && |s.queue| > ReturnThreshold
    ensures var (t, events) := CallNextTimes(s, |s.queue| - ReturnThreshold);
            && t == s.(queue := s.queue[|s.queue| - ReturnThreshold..])
            && |t.queue| == ReturnThreshold
            && Called(events) == s.queue[..|s.queue| - ReturnThreshold]
            && events[|events| - 1] == TakeModeAvailable(ReturnThreshold)
            && ReturnToTakeMode(t).0 == t.(mode := Take, emergency := false)
  {
    var k := |s.queue| - ReturnThreshold;
    assert s.mode == Realtime;
    CallNextIsFifo(s, k);
    LastCallAnnounces(s, k);
    var t := CallNextTimes(s, k).0;
    assert |t.queue| == ReturnThreshold;
    assert ReturnToTakeMode(t).0 == t.(mode := Take, emergency := false);
  }

  lemma {:induction false} LastCallAnnounces(s: RoomState, k: nat)
    requires s.emergency && s.mode == Realtime && k > 0 && |s.queue| - k == ReturnThreshold
    ensures var events := CallNextTimes(s, k).1;
            |events| > 0 && events[|events| - 1] == TakeModeAvailable(ReturnThreshold)
    decreases k
  {
    var (s1, e1) := TakeCallNext(s);
    assert s1 == s.(queue := s.queue[1..]);
    if k > 1 {
      LastCallAnnounces(s1, k - 1);
      var (s2, e2) := CallNextTimes(s1, k - 1);
      assert CallNextTimes(s, k).1 == e1 + e2;
    } else {
      assert CallNextTimes(s, k).1 == e1 + [];
      assert CheckReturnAvailability(s1) == [TakeModeAvailable(ReturnThreshold)];
    }
  }
}
