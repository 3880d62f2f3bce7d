/** The turn ring: an insertion-ordered participant list and the index of the
    participant who currently holds the right to send ("送信権").  These are
    the specification functions of `rotateSender`, `getCurrentSender` and
    `adjustSenderIndex`, which all three server variants share, together with
    the list operations the `join` and `disconnect` handlers apply. */
module Turn {
  import opened Common

  /** A turn-taking sender: connection id, display name, join time (ms). */
  datatype Participant = Participant(id: SocketId, name: string, joinTime: int)

  /** `participants` and `currentSenderIndex` of a room (or of the globals). */
  datatype Ring = Ring(participants: seq<Participant>, index: nat)

  /** The ring invariant: an empty ring has index 0, a non-empty ring has an
      index that names one of its participants. */
  predicate IndexOk(r: Ring)
  {
    (|r.participants| == 0 && r.index == 0) || r.index < |r.participants|
  }

  /** `getCurrentSender`: no holder on an empty ring (index left as it is);
      otherwise an out-of-range index is first reset to 0 and the participant
      at the index is returned. */
  function CurrentSender(r: Ring): (res: (Ring, Option<Participant>))
    ensures res.0.participants == r.participants
    ensures res.1.None? <==> |r.participants| == 0
    ensures |r.participants| > 0 ==>
              res.0.index < |r.participants| && res.1 == Some(r.participants[res.0.index])
    ensures |r.participants| > 0 && r.index >= |r.participants| ==> res.0.index == 0
    ensures IndexOk(r) ==> res.0 == r && IndexOk(res.0)
  {
    if |r.participants| == 0 then (r, None)
    else
      var i := if r.index >= |r.participants| then 0 else r.index;
      (r.(index := i), Some(r.participants[i]))
  }

  /** The participant `getCurrentSender` would return. */
  function Holder(r: Ring): Option<Participant>
  {
    CurrentSender(r).1
  }

  /** `rotateSender`: on an empty ring the index is reset to 0 and there is no
      next sender; otherwise the index moves one step forward, wrapping from
      the last participant back to the first, and the new holder is returned. */
  function RotateSender(r: Ring): (res: (Ring, Option<Participant>))
    ensures res.0.participants == r.participants
    ensures IndexOk(res.0)
    ensures res.1.None? <==> |r.participants| == 0
    ensures |r.participants| > 0 ==> res.1 == Some(r.participants[res.0.index])
    ensures IndexOk(r) && |r.participants| > 0 ==>
              res.0.index == if r.index == |r.participants| - 1 then 0 else r.index + 1
  {
    if |r.participants| == 0 then (r.(index := 0), None)
    else
      var i := (r.index + 1) % |r.participants|;
      (r.(index := i), Some(r.participants[i]))
  }

  /** `adjustSenderIndex`: after participants leave, an index that no longer
      names a participant is reset to 0. */
  function AdjustSenderIndex(r: Ring): (res: Ring)
    ensures res.participants == r.participants
    ensures IndexOk(res)
    ensures r.index < |r.participants| ==> res == r
  {
    if |r.participants| == 0 then r.(index := 0)
    else if r.index >= |r.participants| then r.(index := 0)
    else r
  }

  /** True when some participant of `ps` has connection id `id`
      (`participants.find(p => p.id === socket.id)` finds one). */
  predicate HasSocket(ps: seq<Participant>, id: SocketId)
  {
    exists i :: 0 <= i < |ps| && ps[i].id == id
  }

  /** `participants.filter(p => p.id !== id)`. */
  function WithoutSocket(ps: seq<Participant>, id: SocketId): (r: seq<Participant>)
    ensures |r| <= |ps|
    ensures forall p :: p in r <==> p in ps && p.id != id
  {
    if ps == [] then []
    else (if ps[0].id == id then [] else [ps[0]]) + WithoutSocket(ps[1..], id)
  }

  /** `a` occurs in `b` with its elements in the same relative order. */
  ghost predicate IsSubsequence(a: seq<Participant>, b: seq<Participant>)
    decreases |b|
  {
    if a == [] then true
    else if b == [] then false
    else if a[0] == b[0] then IsSubsequence(a[1..], b[1..])
    else IsSubsequence(a, b[1..])
  }

  /** Number of entries of `ps` with connection id `id`. */
  function CountSocket(ps: seq<Participant>, id: SocketId): nat
  {
    if ps == [] then 0 else (if ps[0].id == id then 1 else 0) + CountSocket(ps[1..], id)
  }

  /** Removing a connection keeps every other participant, in the original
      relative order, drops exactly the entries with that id, and is the
      identity when the connection is not a participant. */
  lemma {:induction false} WithoutSocketKeepsOrder(ps: seq<Participant>, id: SocketId)
    ensures IsSubsequence(WithoutSocket(ps, id), ps)
    ensures |WithoutSocket(ps, id)| == |ps| - CountSocket(ps, id)
    ensures !HasSocket(ps, id) ==> WithoutSocket(ps, id) == ps
    ensures !HasSocket(WithoutSocket(ps, id), id)
  {
    WithoutSocketSubsequence(ps, id);
    WithoutSocketCount(ps, id);
    if !HasSocket(ps, id) {
      WithoutAbsentSocket(ps, id);
    }
  }

  lemma {:induction false} WithoutSocketSubsequence(ps: seq<Participant>, id: SocketId)
    ensures IsSubsequence(WithoutSocket(ps, id), ps)
  {
    if ps != [] {
      WithoutSocketSubsequence(ps[1..], id);
      var rest := WithoutSocket(ps[1..], id);
      if ps[0].id == id {
        assert WithoutSocket(ps, id) == rest;
        // ps[0] carries the removed id, so it cannot start `rest`.
        assert rest != [] ==> rest[0] in rest && rest[0] != ps[0];
      } else {
        assert WithoutSocket(ps, id) == [ps[0]] + rest;
        assert ([ps[0]] + rest)[1..] == rest;
      }
    }
  }

  lemma {:induction false} WithoutSocketCount(ps: seq<Participant>, id: SocketId)
    ensures |WithoutSocket(ps, id)| == |ps| - CountSocket(ps, id)
  {
    if ps != [] {
      WithoutSocketCount(ps[1..], id);
      var rest := WithoutSocket(ps[1..], id);
      if ps[0].id == id {
        assert WithoutSocket(ps, id) == rest;
      } else {
        assert WithoutSocket(ps, id) == [ps[0]] + rest;
      }
    }
  }

  lemma {:induction false} WithoutAbsentSocket(ps: seq<Participant>, id: SocketId)
    requires !HasSocket(ps, id)
    ensures WithoutSocket(ps, id) == ps
  {
    if ps != [] {
      assert ps[0].id != id;
      assert !HasSocket(ps[1..], id) by {
        forall i | 0 <= i < |ps[1..]| ensures ps[1..][i].id != id {
          assert ps[1..][i] == ps[i + 1];
        }
      }
      WithoutAbsentSocket(ps[1..], id);
      assert WithoutSocket(ps, id) == [ps[0]] + ps[1..];
    }
  }

  /** `k` successive `rotateSender` calls. */
  function RotateTimes(r: Ring, k: nat): Ring
    decreases k
  {
    if k == 0 then r else RotateTimes(RotateSender(r).0, k - 1)
  }

  /** Rotations compose: `a + b` rotations are `a` rotations followed by `b`. */
  lemma {:induction false} RotateTimesAdd(r: Ring, a: nat, b: nat)
    ensures RotateTimes(r, a + b) == RotateTimes(RotateTimes(r, a), b)
    decreases a
  {
    if a > 0 {
      RotateTimesAdd(RotateSender(r).0, a - 1, b);
    }
  }

  /** Before the end of the ring is reached, `k` rotations move the holder
      index exactly `k` places forward. */
  lemma {:induction false} RotateTimesForward(r: Ring, k: nat)
    requires IndexOk(r) && r.index + k < |r.participants|
    ensures RotateTimes(r, k) == r.(index := r.index + k)
    decreases k
  {
    if k > 0 {
      RotateTimesForward(RotateSender(r).0, k - 1);
    }
  }

  /** n rotations over an unchanged ring of n participants return the turn to
      the participant who held it. */
  lemma {:induction false} RotateFullCircle(r: Ring)
    requires IndexOk(r) && |r.participants| > 0
    ensures RotateTimes(r, |r.participants|) == r
    ensures Holder(RotateTimes(r, |r.participants|)) == Holder(r)
  {
    var n, i := |r.participants|, r.index;
    // First n - 1 - i steps reach the last participant, one more wraps to 0,
    // and i further steps come back to i.
    RotateTimesAdd(r, n - 1 - i, 1 + i);
    RotateTimesForward(r, n - 1 - i);
    var last := r.(index := n - 1);
    RotateTimesAdd(last, 1, i);
    var first := RotateSender(last).0;
    assert first == r.(index := 0);
    RotateTimesForward(first, i);
  }

  /** Rotation is periodic: the holder after `k + n` rotations is the holder
      after `k` rotations. */
  lemma RotatePeriodic(r: Ring, k: nat)
    requires IndexOk(r) && |r.participants| > 0
    ensures RotateTimes(r, k + |r.participants|) == RotateTimes(r, k)
  {
    RotateTimesAdd(r, |r.participants|, k);
    RotateFullCircle(r);
  }
}
