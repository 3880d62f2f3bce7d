/** The operator-room server: a table of rooms, each with the operators
    who joined it, a queue of prepared subtitles that operators pick by id,
    and at most one display connection.  The handlers look a room up by id
    on every call and update it in the table, so rooms are values here and
    the table is a map the server object reassigns. */
module OperatorRooms {
  import opened Common

  datatype Operator = Operator(socketId: SocketId, name: string, joinedAt: int)

  /** A queued subtitle; its id is the clock reading when it was queued,
      so two items may share one. */
  datatype Subtitle = Subtitle(id: int, text: string, operatorName: string, timestamp: int)

  datatype OpRoom = OpRoom(id: string, operators: seq<Operator>, queue: seq<Subtitle>, display: Option<SocketId>)

  /** One row of the room list pushed to every client. */
  datatype RoomSummary = RoomSummary(id: string, operatorCount: nat, hasDisplay: bool, queueLength: nat)

  /** What the handlers emit; a notice addressed to one socket names it. */
  datatype Notice =
    | RoomCreated(roomId: string)
    | RoomDeleted(to: SocketId, roomId: string)
    | RoomListUpdated(rooms: seq<RoomSummary>)
    | NoSuchRoom
    | AlreadyJoined
    | JoinedRoom(roomId: string, operatorName: string, operators: seq<Operator>)
    | OperatorJoined(roomId: string, operators: seq<Operator>)
    | DisplayConnected(roomId: string)
    | SubtitleShown(to: SocketId, text: string, operatorName: string, timestamp: int)
    | QueueUpdated(roomId: string, queue: seq<Subtitle>)
    | QueueItemNotFound
    | OperatorLeft(roomId: string, operators: seq<Operator>)

  /** The record `create-room` stores. */
  function EmptyRoom(id: string): (r: OpRoom)
    ensures r.id == id && r.operators == [] && r.queue == [] && r.display.None?
  {
    OpRoom(id, [], [], None)
  }

  // ---------------------------------------------------------------------
  // Searching and splicing

  /** `findIndex(op => op.socketId === socket)`: the first entry of the
      socket, or -1. */
  function FindOperator(ops: seq<Operator>, socket: SocketId): (i: int)
    ensures -1 <= i < |ops|
    ensures i == -1 <==> forall k :: 0 <= k < |ops| ==> ops[k].socketId != socket
    ensures i >= 0 ==> ops[i].socketId == socket && forall k :: 0 <= k < i ==> ops[k].socketId != socket
  {
    if ops == [] then -1
    else if ops[0].socketId == socket then 0
    else
      var j := FindOperator(ops[1..], socket);
      if j == -1 then -1 else j + 1
  }

  /** `findIndex(item => item.id === queueId)`: the first item with that
      id, or -1. */
  function FindItem(queue: seq<Subtitle>, queueId: int): (i: int)
    ensures -1 <= i < |queue|
    ensures i == -1 <==> forall k :: 0 <= k < |queue| ==> queue[k].id != queueId
    ensures i >= 0 ==> queue[i].id == queueId && forall k :: 0 <= k < i ==> queue[k].id != queueId
  {
    if queue == [] then -1
    else if queue[0].id == queueId then 0
    else
      var j := FindItem(queue[1..], queueId);
      if j == -1 then -1 else j + 1
  }

  /** `splice(i, 1)` at an index found by a search: index -1 leaves the
      sequence alone, any other drops that one element and shifts the rest
      down by one. */
  function Splice<T>(s: seq<T>, i: int): (r: seq<T>)
    requires -1 <= i < |s|
    ensures i == -1 ==> r == s
    ensures i >= 0 ==> |r| == |s| - 1
                       && (forall k :: 0 <= k < i ==> r[k] == s[k])
                       && (forall k :: i <= k < |r| ==> r[k] == s[k + 1])
  {
    if i < 0 then s else s[..i] + s[i + 1..]
  }

  /** Splicing out an element loses exactly that element. */
  lemma SpliceMultiset<T>(s: seq<T>, i: nat)
    requires i < |s|
    ensures multiset(Splice(s, i)) + multiset{s[i]} == multiset(s)
  {
    assert s == s[..i] + [s[i]] + s[i + 1..];
  }

  /** The entries a socket has in an operator list, in order. */
  function EntriesOf(ops: seq<Operator>, socket: SocketId): (r: seq<Operator>)
    ensures |r| <= |ops|
    ensures forall k :: 0 <= k < |r| ==> r[k].socketId == socket
  {
    if ops == [] then []
    else (if ops[0].socketId == socket then [ops[0]] else []) + EntriesOf(ops[1..], socket)
  }

  /** A socket has entries exactly when the search finds one. */
  lemma {:induction false} EntriesOfEmpty(ops: seq<Operator>, socket: SocketId)
    ensures EntriesOf(ops, socket) == [] <==> FindOperator(ops, socket) == -1
  {
    if ops != [] && ops[0].socketId != socket {
      EntriesOfEmpty(ops[1..], socket);
    }
  }

  lemma EntriesOfCons(h: Operator, rest: seq<Operator>, socket: SocketId)
    ensures EntriesOf([h] + rest, socket) == (if h.socketId == socket then [h] else []) + EntriesOf(rest, socket)
  {
    assert ([h] + rest)[1..] == rest;
  }

  /** Splicing past the front keeps the front and splices the tail. */
  lemma SpliceTail<T>(s: seq<T>, i: nat)
    requires 0 < i < |s|
    ensures Splice(s, i) == [s[0]] + Splice(s[1..], i - 1)
  {
    var t := s[1..];
    assert s[..i] == [s[0]] + t[..i - 1];
    assert s[i + 1..] == t[i..];
  }

  /** When the socket's first entry is not at the front, it is found one
      place earlier in the tail. */
  lemma FindOperatorTail(ops: seq<Operator>, socket: SocketId)
    requires FindOperator(ops, socket) > 0
    ensures ops[0].socketId != socket
    ensures FindOperator(ops[1..], socket) == FindOperator(ops, socket) - 1
  {
  }

  /** Removing a socket's first entry leaves every other socket's entries
      as they were. */
  lemma {:induction false} SpliceFirstEntryOthers(ops: seq<Operator>, socket: SocketId, other: SocketId)
    requires other != socket
    ensures EntriesOf(Splice(ops, FindOperator(ops, socket)), other) == EntriesOf(ops, other)
  {
    var i := FindOperator(ops, socket);
    if i > 0 {
      var t := ops[1..];
      FindOperatorTail(ops, socket);
      SpliceTail(ops, i);
      SpliceFirstEntryOthers(t, socket, other);
      EntriesOfCons(ops[0], Splice(t, i - 1), other);
      EntriesOfCons(ops[0], t, other);
      assert [ops[0]] + t == ops;
    } else if i == 0 {
      assert Splice(ops, 0) == ops[1..];
    }
  }

  /** Removing a socket's first entry takes exactly that entry from the
      front of its entries. */
  lemma {:induction false} SpliceFirstEntryOwn(ops: seq<Operator>, socket: SocketId)
    requires FindOperator(ops, socket) >= 0
    ensures var i := FindOperator(ops, socket);
            EntriesOf(ops, socket) == [ops[i]] + EntriesOf(Splice(ops, i), socket)
  {
    var i := FindOperator(ops, socket);
    if i > 0 {
      var t := ops[1..];
      FindOperatorTail(ops, socket);
      SpliceTail(ops, i);
      var rest := Splice(t, i - 1);
      SpliceFirstEntryOwn(t, socket);
      assert EntriesOf(t, socket) == [t[i - 1]] + EntriesOf(rest, socket);
      EntriesOfCons(ops[0], rest, socket);
      assert EntriesOf(Splice(ops, i), socket) == EntriesOf(rest, socket);
      EntriesOfCons(ops[0], t, socket);
      assert [ops[0]] + t == ops;
      assert EntriesOf(ops, socket) == EntriesOf(t, socket);
      assert t[i - 1] == ops[i];
    } else {
      assert Splice(ops, 0) == ops[1..];
      assert EntriesOf(ops, socket) == [ops[0]] + EntriesOf(ops[1..], socket);
    }
  }

  // ---------------------------------------------------------------------
  // Per-room effects

  /** What a disconnect does to one room: the socket's first operator
      entry goes, and the display slot is cleared if it held the socket. */
  function DropSocket(room: OpRoom, socket: SocketId): (r: OpRoom)
    ensures r.id == room.id && r.queue == room.queue
    ensures r.display == (if room.display == Some(socket) then None else room.display)
  {
    var i := FindOperator(room.operators, socket);
    OpRoom(room.id, Splice(room.operators, i), room.queue, if room.display == Some(socket) then None else room.display)
  }

  /** A disconnect takes exactly one entry of the socket out of a room's
      operator list, if it has one, and leaves every other socket's entries
      as they were, in order. */
  lemma DropSocketOperators(room: OpRoom, socket: SocketId)
    ensures var ops := room.operators;
            var r := DropSocket(room, socket).operators;
            var i := FindOperator(ops, socket);
            && (i == -1 ==> r == ops)
            && (i >= 0 ==> |r| == |ops| - 1 && multiset(r) + multiset{ops[i]} == multiset(ops))
            && (i >= 0 ==> EntriesOf(ops, socket) == [ops[i]] + EntriesOf(r, socket))
            && (forall other :: other != socket ==> EntriesOf(r, other) == EntriesOf(ops, other))
  {
    var ops := room.operators;
    var i := FindOperator(ops, socket);
    if i >= 0 {
      SpliceMultiset(ops, i);
      SpliceFirstEntryOwn(ops, socket);
    }
    forall other | other != socket ensures EntriesOf(Splice(ops, i), other) == EntriesOf(ops, other) {
      SpliceFirstEntryOthers(ops, socket, other);
    }
  }

  /** The notices `delete-room` sends before removing a room: one per
      operator entry, in list order, then one to the display if set. */
  function DeletionNotices(room: OpRoom): (ns: seq<Notice>)
    ensures |ns| == |room.operators| + (if room.display.Some? then 1 else 0)
    ensures forall k :: 0 <= k < |room.operators| ==> ns[k] == RoomDeleted(room.operators[k].socketId, room.id)
    ensures room.display.Some? ==> ns[|ns| - 1] == RoomDeleted(room.display.value, room.id)
  {
    OperatorDeletions(room.operators, room.id)
      + (if room.display.Some? then [RoomDeleted(room.display.value, room.id)] else [])
  }

  function OperatorDeletions(ops: seq<Operator>, roomId: string): (ns: seq<Notice>)
    ensures |ns| == |ops|
    ensures forall k :: 0 <= k < |ops| ==> ns[k] == RoomDeleted(ops[k].socketId, roomId)
  {
    if ops == [] then [] else [RoomDeleted(ops[0].socketId, roomId)] + OperatorDeletions(ops[1..], roomId)
  }

  /** The room-list row of one room. */
  function Summary(room: OpRoom): (row: RoomSummary)
    ensures row.id == room.id && row.operatorCount == |room.operators|
    ensures row.hasDisplay <==> room.display.Some?
    ensures row.queueLength == |room.queue|
  {
    RoomSummary(room.id, |room.operators|, room.display.Some?, |room.queue|)
  }

  function Summaries(ids: seq<string>, rooms: map<string, OpRoom>): (rows: seq<RoomSummary>)
    requires forall k :: 0 <= k < |ids| ==> ids[k] in rooms
    ensures |rows| == |ids|
    ensures forall k :: 0 <= k < |ids| ==> rows[k] == Summary(rooms[ids[k]])
  {
    if ids == [] then [] else [Summary(rooms[ids[0]])] + Summaries(ids[1..], rooms)
  }

  /** The `operator-left` notice a disconnect sends to one room: only if
      the socket was one of its operators, carrying the shortened list. */
  function LeftNotice(roomId: string, room: OpRoom, socket: SocketId): (ns: seq<Notice>)
    ensures ns == [] <==> EntriesOf(room.operators, socket) == []
    ensures ns != [] ==> ns == [OperatorLeft(roomId, DropSocket(room, socket).operators)]
  {
    EntriesOfEmpty(room.operators, socket);
    if FindOperator(room.operators, socket) >= 0
    then [OperatorLeft(roomId, DropSocket(room, socket).operators)]
    else []
  }

  /** The `operator-left` notices a disconnect sends, room by room in the
      order given. */
  function LeftNotices(ids: seq<string>, rooms: map<string, OpRoom>, socket: SocketId): (ns: seq<Notice>)
    requires forall k :: 0 <= k < |ids| ==> ids[k] in rooms
    ensures |ns| <= |ids|
  {
    if ids == [] then []
    else
      var last := ids[|ids| - 1];
      LeftNotices(ids[..|ids| - 1], rooms, socket) + LeftNotice(last, rooms[last], socket)
  }

  /** A socket that is no operator anywhere leaves without a notice. */
  lemma {:induction false} NoLeftNoticesForStranger(ids: seq<string>, rooms: map<string, OpRoom>, socket: SocketId)
    requires forall k :: 0 <= k < |ids| ==> ids[k] in rooms
    requires forall k :: 0 <= k < |ids| ==> EntriesOf(rooms[ids[k]].operators, socket) == []
    ensures LeftNotices(ids, rooms, socket) == []
    decreases |ids|
  {
    if ids != [] {
      NoLeftNoticesForStranger(ids[..|ids| - 1], rooms, socket);
    }
  }

  /** What `disconnect` does to the table, visiting the rooms in the order
      given: each room loses the socket (see `DropSocket`), and a room the
      socket was an operator of is sent the shortened list. */
  function DisconnectAll(ids: seq<string>, rooms: map<string, OpRoom>, socket: SocketId): (res: (map<string, OpRoom>, seq<Notice>))
    requires forall k :: 0 <= k < |ids| ==> ids[k] in rooms
    ensures res.0.Keys == rooms.Keys
    decreases |ids|
  {
    if ids == [] then (rooms, [])
    else
      var (dropped, notices) := DisconnectAll(ids[..|ids| - 1], rooms, socket);
      var last := ids[|ids| - 1];
      (dropped[last := DropSocket(dropped[last], socket)], notices + LeftNotice(last, dropped[last], socket))
  }

  /** Visiting one more room applies `DropSocket` to it and appends its
      notice. */
  lemma DisconnectAllStep(ids: seq<string>, rooms: map<string, OpRoom>, socket: SocketId, i: nat)
    requires forall k :: 0 <= k < |ids| ==> ids[k] in rooms
    requires i < |ids|
    ensures var (dropped, notices) := DisconnectAll(ids[..i], rooms, socket);
            DisconnectAll(ids[..i + 1], rooms, socket)
            == (dropped[ids[i] := DropSocket(dropped[ids[i]], socket)],
                notices + LeftNotice(ids[i], dropped[ids[i]], socket))
  {
    assert ids[..i + 1][..i] == ids[..i];
  }

  /** Visiting every room once drops the socket from exactly the rooms
      visited and leaves the others alone. */
  lemma {:induction false} DisconnectAllRooms(ids: seq<string>, rooms: map<string, OpRoom>, socket: SocketId)
    requires Distinct(ids) && forall k :: 0 <= k < |ids| ==> ids[k] in rooms
    ensures forall k :: k in rooms ==>
              DisconnectAll(ids, rooms, socket).0[k] == if k in ids then DropSocket(rooms[k], socket) else rooms[k]
    decreases |ids|
  {
    if ids != [] {
      var init, last := ids[..|ids| - 1], ids[|ids| - 1];
      assert ids == init + [last];
      DistinctInit(ids);
      DisconnectAllRooms(init, rooms, socket);
      var dropped := DisconnectAll(init, rooms, socket).0;
      assert dropped[last] == rooms[last];
      assert DisconnectAll(ids, rooms, socket).0 == dropped[last := DropSocket(rooms[last], socket)];
      forall k | k in rooms
        ensures DisconnectAll(ids, rooms, socket).0[k] == if k in ids then DropSocket(rooms[k], socket) else rooms[k]
      {
        assert k in ids <==> k in init || k == last;
      }
    }
  }

  /** ... and sends one notice per room the socket was an operator of. */
  lemma {:induction false} DisconnectAllNotices(ids: seq<string>, rooms: map<string, OpRoom>, socket: SocketId)
    requires Distinct(ids) && forall k :: 0 <= k < |ids| ==> ids[k] in rooms
    ensures DisconnectAll(ids, rooms, socket).1 == LeftNotices(ids, rooms, socket)
    decreases |ids|
  {
    if ids != [] {
      var init, last := ids[..|ids| - 1], ids[|ids| - 1];
      DistinctInit(ids);
      DisconnectAllNotices(init, rooms, socket);
      DisconnectAllRooms(init, rooms, socket);
    }
  }

  // ---------------------------------------------------------------------
  // The server

  class Server {
    var rooms: map<string, OpRoom>
    /** The keys of `rooms` in insertion order. */
    var order: seq<string>

    ghost predicate Valid()
      reads this
    {
      && Distinct(order)
      && (forall k :: k in rooms <==> k in order)
      && (forall k :: k in rooms ==> rooms[k].id == k)
    }

    constructor()
      ensures Valid() && rooms == map[] && order == []
    {
      rooms := map[];
      order := [];
    }

    /** `updateRoomList`: one row per room, in table order. */
    function RoomList(): (rows: seq<RoomSummary>)
      requires Valid()
      reads this
      ensures |rows| == |order|
      ensures forall k :: 0 <= k < |order| ==> rows[k] == Summary(rooms[order[k]]) && rows[k].id == order[k]
    {
      Summaries(order, rooms)
    }

    /** `create-room`: a room is created only under a new id; an existing
        room is left as it is.  Either way the creator is answered and the
        room list is pushed. */
    method CreateRoom(roomId: string) returns (notices: seq<Notice>)
      requires Valid()
      modifies this
      ensures Valid()
      ensures roomId in old(rooms) ==> rooms == old(rooms) && order == old(order)
      ensures roomId !in old(rooms) ==> rooms == old(rooms)[roomId := EmptyRoom(roomId)] && order == old(order) + [roomId]
      ensures notices == [RoomCreated(roomId), RoomListUpdated(RoomList())]
    {
      if roomId !in rooms {
        rooms := rooms[roomId := EmptyRoom(roomId)];
        order := order + [roomId];
      }
      notices := [RoomCreated(roomId), RoomListUpdated(RoomList())];
    }

    /** `delete-room`: every operator and then the display are told, the
        room is removed and the list pushed; a missing room is ignored. */
    method DeleteRoom(roomId: string) returns (notices: seq<Notice>)
      requires Valid()
      modifies this
      ensures Valid()
      ensures roomId !in old(rooms) ==> notices == [] && rooms == old(rooms) && order == old(order)
      ensures roomId in old(rooms) ==>
                && rooms == old(rooms) - {roomId}
                && (forall k :: k in order <==> k in old(order) && k != roomId)
                && (exists j :: 0 <= j < |old(order)| && old(order)[j] == roomId
                                && order == old(order)[..j] + old(order)[j + 1..])
                && notices == DeletionNotices(old(rooms)[roomId]) + [RoomListUpdated(RoomList())]
    {
      if roomId !in rooms {
        return [];
      }
      var room := rooms[roomId];
      notices := DeletionNotices(room);
      var i :| 0 <= i < |order| && order[i] == roomId;
      RemoveDistinct(order, i);
      order := order[..i] + order[i + 1..];
      rooms := rooms - {roomId};
      notices := notices + [RoomListUpdated(RoomList())];
    }

    /** `join-room`: a missing room and a socket already among the room's
        operators are refused; otherwise the operator goes to the end of
        the list and is announced to the joiner and to the room. */
    method JoinRoom(roomId: string, socket: SocketId, operatorName: string, now: int) returns (notices: seq<Notice>)
      requires Valid()
      modifies this
      ensures Valid() && order == old(order)
      ensures roomId !in old(rooms) ==> notices == [NoSuchRoom] && rooms == old(rooms)
      ensures roomId in old(rooms) && FindOperator(old(rooms)[roomId].operators, socket) >= 0 ==>
                notices == [AlreadyJoined] && rooms == old(rooms)
      ensures roomId in old(rooms) && FindOperator(old(rooms)[roomId].operators, socket) == -1 ==>
                && rooms == old(rooms)[roomId := old(rooms)[roomId].(operators := old(rooms)[roomId].operators + [Operator(socket, operatorName, now)])]
                && notices == [JoinedRoom(roomId, operatorName, rooms[roomId].operators), OperatorJoined(roomId, rooms[roomId].operators)]
    {
      if roomId !in rooms {
        return [NoSuchRoom];
      }
      var room := rooms[roomId];
      if FindOperator(room.operators, socket) != -1 {
        return [AlreadyJoined];
      }
      room := room.(operators := room.operators + [Operator(socket, operatorName, now)]);
      rooms := rooms[roomId := room];
      notices := [JoinedRoom(roomId, operatorName, room.operators), OperatorJoined(roomId, room.operators)];
    }

    /** `join-display`: the socket becomes the room's display, replacing
        any earlier one. */
    method JoinDisplay(roomId: string, socket: SocketId) returns (notices: seq<Notice>)
      requires Valid()
      modifies this
      ensures Valid() && order == old(order)
      ensures roomId !in old(rooms) ==> notices == [NoSuchRoom] && rooms == old(rooms)
      ensures roomId in old(rooms) ==>
                rooms == old(rooms)[roomId := old(rooms)[roomId].(display := Some(socket))]
                && notices == [DisplayConnected(roomId)]
    {
      if roomId !in rooms {
        return [NoSuchRoom];
      }
      rooms := rooms[roomId := rooms[roomId].(display := Some(socket))];
      notices := [DisplayConnected(roomId)];
    }

    /** `send-subtitle`: shown on the room's display if it has one; the
        table is not touched. */
    method SendSubtitle(roomId: string, text: string, operatorName: string, now: int) returns (notices: seq<Notice>)
      ensures roomId !in rooms ==> notices == [NoSuchRoom]
      ensures roomId in rooms && rooms[roomId].display.None? ==> notices == []
      ensures roomId in rooms && rooms[roomId].display.Some? ==>
                notices == [SubtitleShown(rooms[roomId].display.value, text, operatorName, now)]
    {
      if roomId !in rooms {
        return [NoSuchRoom];
      }
      var room := rooms[roomId];
      notices := [];
      if room.display.Some? {
        notices := [SubtitleShown(room.display.value, text, operatorName, now)];
      }
    }

    /** `add-to-queue`: one item, stamped with the clock as its id, goes
        to the end of the room's queue. */
    method AddToQueue(roomId: string, text: string, operatorName: string, now: int) returns (notices: seq<Notice>)
      requires Valid()
      modifies this
      ensures Valid() && order == old(order)
      ensures roomId !in old(rooms) ==> notices == [NoSuchRoom] && rooms == old(rooms)
      ensures roomId in old(rooms) ==>
                && rooms == old(rooms)[roomId := old(rooms)[roomId].(queue := old(rooms)[roomId].queue + [Subtitle(now, text, operatorName, now)])]
                && notices == [QueueUpdated(roomId, rooms[roomId].queue)]
    {
      if roomId !in rooms {
        return [NoSuchRoom];
      }
      var room := rooms[roomId];
      room := room.(queue := room.queue + [Subtitle(now, text, operatorName, now)]);
      rooms := rooms[roomId := room];
      notices := [QueueUpdated(roomId, room.queue)];
    }

    /** `send-from-queue`: the first item with the id is shown on the
        display (if any) and taken out of the queue; an unknown id is an
        error and changes nothing. */
    method SendFromQueue(roomId: string, queueId: int, now: int) returns (notices: seq<Notice>)
      requires Valid()
      modifies this
      ensures Valid() && order == old(order)
      ensures roomId !in old(rooms) ==> notices == [NoSuchRoom] && rooms == old(rooms)
      ensures roomId in old(rooms) && FindItem(old(rooms)[roomId].queue, queueId) == -1 ==>
                notices == [QueueItemNotFound] && rooms == old(rooms)
      ensures roomId in old(rooms) && FindItem(old(rooms)[roomId].queue, queueId) >= 0 ==>
                var room := old(rooms)[roomId];
                var item := room.queue[FindItem(room.queue, queueId)];
                && rooms == old(rooms)[roomId := room.(queue := Splice(room.queue, FindItem(room.queue, queueId)))]
                && notices == (if room.display.Some? then [SubtitleShown(room.display.value, item.text, item.operatorName, now)] else [])
                              + [QueueUpdated(roomId, rooms[roomId].queue)]
    {
      if roomId !in rooms {
        return [NoSuchRoom];
      }
      var room := rooms[roomId];
      var queueIndex := FindItem(room.queue, queueId);
      if queueIndex == -1 {
        return [QueueItemNotFound];
      }
      var queueItem := room.queue[queueIndex];
      notices := [];
      if room.display.Some? {
        notices := [SubtitleShown(room.display.value, queueItem.text, queueItem.operatorName, now)];
      }
      room := room.(queue := Splice(room.queue, queueIndex));
      rooms := rooms[roomId := room];
      notices := notices + [QueueUpdated(roomId, room.queue)];
    }

    /** `remove-from-queue`: as `send-from-queue` without the display,
        except that an unknown id is ignored. */
    method RemoveFromQueue(roomId: string, queueId: int) returns (notices: seq<Notice>)
      requires Valid()
      modifies this
      ensures Valid() && order == old(order)
      ensures roomId !in old(rooms) ==> notices == [NoSuchRoom] && rooms == old(rooms)
      ensures roomId in old(rooms) && FindItem(old(rooms)[roomId].queue, queueId) == -1 ==>
                notices == [] && rooms == old(rooms)
      ensures roomId in old(rooms) && FindItem(old(rooms)[roomId].queue, queueId) >= 0 ==>
                var room := old(rooms)[roomId];
                && rooms == old(rooms)[roomId := room.(queue := Splice(room.queue, FindItem(room.queue, queueId)))]
                && notices == [QueueUpdated(roomId, rooms[roomId].queue)]
    {
      if roomId !in rooms {
        return [NoSuchRoom];
      }
      var room := rooms[roomId];
      var queueIndex := FindItem(room.queue, queueId);
      if queueIndex == -1 {
        return [];
      }
      room := room.(queue := Splice(room.queue, queueIndex));
      rooms := rooms[roomId := room];
      notices := [QueueUpdated(roomId, room.queue)];
    }

    /** The `rooms.forEach` callback of `disconnect`, for one room. */
    static method DisconnectFrom(roomId: string, room: OpRoom, socket: SocketId) returns (r: OpRoom, left: seq<Notice>)
      ensures r == DropSocket(room, socket)
      ensures left == LeftNotice(roomId, room, socket)
    {
      r := room;
      left := [];
      var operatorIndex := FindOperator(r.operators, socket);
      if operatorIndex != -1 {
        r := r.(operators := Splice(r.operators, operatorIndex));
        left := [OperatorLeft(roomId, r.operators)];
      }
      if r.display == Some(socket) {
        r := r.(display := None);
      }
    }

    /** The `rooms.forEach` loop of `disconnect`, over the rooms in table
        order. */
    static method DisconnectRooms(ids: seq<string>, table: map<string, OpRoom>, socket: SocketId)
      returns (dropped: map<string, OpRoom>, notices: seq<Notice>)
      requires forall k :: 0 <= k < |ids| ==> ids[k] in table
      ensures (dropped, notices) == DisconnectAll(ids, table, socket)
    {
      dropped := table;
      notices := [];
      for i := 0 to |ids|
        invariant (dropped, notices) == DisconnectAll(ids[..i], table, socket)
      {
        var roomId := ids[i];
        var room, left := DisconnectFrom(roomId, dropped[roomId], socket);
        DisconnectAllStep(ids, table, socket, i);
        notices := notices + left;
        dropped := dropped[roomId := room];
      }
      assert ids[..|ids|] == ids;
    }

    /** `disconnect`: every room, in table order, loses the socket's first
        operator entry (announced to the room) and its display slot if the
        socket held it; nothing else changes. */
    method Disconnect(socket: SocketId) returns (notices: seq<Notice>)
      requires Valid()
      modifies this
      ensures Valid() && order == old(order) && rooms.Keys == old(rooms).Keys
      ensures forall k :: k in rooms ==> rooms[k] == DropSocket(old(rooms)[k], socket)
      ensures notices == LeftNotices(order, old(rooms), socket)
    {
      assert forall k :: 0 <= k < |order| ==> order[k] in rooms;
      DisconnectAllRooms(order, rooms, socket);
      DisconnectAllNotices(order, rooms, socket);
      rooms, notices := DisconnectRooms(order, rooms, socket);
    }
  }
}
