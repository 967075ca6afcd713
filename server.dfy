/** The HTTP and socket server: the `join` event, `POST /api/members`,
    `GET /api/members` and `POST /api/messages`, over the shared database and
    the socket server's room table. Every handler runs to completion before
    the next one starts. */
module Server {
  import opened Values
  import opened Records
  import opened Store

  /** A socket connection's id. */
  type ConnId = string

  /** The socket server's rooms: room name to the connections that joined it. */
  type Rooms = map<Value, set<ConnId>>

  const Created := 201
  const BadRequest := 400
  const Conflict := 409

  /** One `io.to(room).emit(name, message)`: the connections that were in
      the room at that moment receive the message. */
  datatype Emit = Emit(room: Value, name: string, recipients: set<ConnId>, message: Message)

  /** The connections in `room`; a room nobody joined is empty. */
  function InRoom(rooms: Rooms, room: Value): set<ConnId>
  {
    if room in rooms then rooms[room] else {}
  }

  /** The room table after `conn` joins `room`. */
  function Joined(rooms: Rooms, room: Value, conn: ConnId): (r: Rooms)
    ensures InRoom(r, room) == InRoom(rooms, room) + {conn}
    ensures forall k :: k != room ==> InRoom(r, k) == InRoom(rooms, k)
  {
    rooms[room := InRoom(rooms, room) + {conn}]
  }

  /** Joining is set insertion: a second identical join changes nothing. */
  lemma JoinIdempotent(rooms: Rooms, room: Value, conn: ConnId)
    ensures Joined(Joined(rooms, room, conn), room, conn) == Joined(rooms, room, conn)
  {
  }

  /** The messages connection `conn` has received, in emission order. */
  function Received(log: seq<Emit>, conn: ConnId): (r: seq<Message>)
    ensures |r| <= |log|
  {
    if log == [] then []
    else
      var last := log[|log| - 1];
      Received(log[..|log| - 1], conn) + (if conn in last.recipients then [last.message] else [])
  }

  /** One more emission reaches exactly its recipients. */
  lemma ReceivedAppend(log: seq<Emit>, e: Emit, conn: ConnId)
    ensures Received(log + [e], conn) == Received(log, conn) + (if conn in e.recipients then [e.message] else [])
  {
  }

  /** A connection that is the recipient of no emission has received nothing. */
  lemma {:induction false} ReceivedNothing(log: seq<Emit>, conn: ConnId)
    requires forall i :: 0 <= i < |log| ==> conn !in log[i].recipients
    ensures Received(log, conn) == []
  {
    if log != [] {
      ReceivedNothing(log[..|log| - 1], conn);
    }
  }

  /** The message `POST /api/messages` stores: the body with `timestamp`
      set to the current time and `status` set to `'sent'`, whatever the
      client sent in them; every other field as sent. */
  function Stamped(body: Message, now: int): (r: Message)
    ensures r.timestamp == Num(now) && r.status == Str("sent")
    ensures r.(timestamp := body.timestamp, status := body.status) == body
    ensures WellFormed(r) <==> WellFormed(body)
  {
    body.(timestamp := Num(now), status := Str("sent"))
  }

  /** A body that brings its own `_id` is as acceptable as one without, and
      the stored message keeps that `_id`. */
  lemma SuppliedIdKept(body: Message, id: Value, now: int)
    ensures WellFormed(body.(rest := body.rest["_id" := id])) <==> WellFormed(body.(rest := body.rest - {"_id"}))
    ensures Stamped(body.(rest := body.rest["_id" := id]), now).rest["_id"] == id
  {
  }

  class ChatServer {
    const db: Db
    var rooms: Rooms
    /** Every `new_message` emission so far, oldest first. */
    var emitted: seq<Emit>

    /** Every emission went to connections that had joined its room. Rooms
        only grow, so this keeps holding. */
    ghost predicate Valid()
      reads this
    {
      forall i, c :: 0 <= i < |emitted| && c in emitted[i].recipients ==> c in InRoom(rooms, emitted[i].room)
    }

    /** A server over an initialised database, with no connection yet. */
    constructor (db: Db)
      ensures this.db == db && rooms == map[] && emitted == []
      ensures Valid()
    {
      this.db := db;
      rooms := map[];
      emitted := [];
    }

    /** `socket.on('join', wa_id => socket.join(wa_id))`. */
    method Join(conn: ConnId, waId: Value)
      requires Valid()
      modifies this
      ensures Valid()
      ensures rooms == Joined(old(rooms), waId, conn)
      ensures emitted == old(emitted)
    {
      rooms := Joined(rooms, waId, conn);
    }

    /** `POST /api/members` with body fields `wa_id` and `name`. */
    method AddMember(waId: Value, name: Value) returns (code: int, member: Option<Member>)
      modifies db
      ensures db.messages == old(db.messages)
      ensures !(Truthy(waId) && Truthy(name)) ==>
        code == BadRequest && member == None && db.members == old(db.members)
      ensures Truthy(waId) && Truthy(name) && HasMember(old(db.members), waId) ==>
        code == Conflict && member == None && db.members == old(db.members)
      ensures Truthy(waId) && Truthy(name) && !HasMember(old(db.members), waId) ==>
        code == Created && member == Some(Member(waId, name)) &&
        db.members == old(db.members) + [Member(waId, name)]
      ensures MembersDistinct(old(db.members)) ==> MembersDistinct(db.members)
    {
      if !Truthy(waId) || !Truthy(name) {
        return BadRequest, None;
      }
      var existing := db.FindMember(waId);
      if existing.Some? {
        return Conflict, None;
      }
      var m := Member(waId, name);
      db.InsertMember(m);
      return Created, Some(m);
    }

    /** `GET /api/members`: every member, in stored order. */
    method GetMembers() returns (r: seq<Member>)
      ensures r == db.members
    {
      r := db.members;
    }

    /** `POST /api/messages`: validate, stamp, insert, then emit
        `new_message` to the room named by the message's `wa_id`. */
    method PostMessage(body: Message, now: int) returns (code: int, stored: Option<Message>)
      requires Valid() && WellFormed(body)
      modifies this, db
      ensures Valid()
      ensures rooms == old(rooms) && db.members == old(db.members)
      ensures stored.Some? ==> WellFormed(stored.value)
      ensures !(Truthy(body.waId) && Truthy(body.text)) ==>
        code == BadRequest && stored == None &&
        db.messages == old(db.messages) && emitted == old(emitted)
      ensures Truthy(body.waId) && Truthy(body.text) ==>
        code == Created && stored == Some(Stamped(body, now)) &&
        db.messages == old(db.messages) + [Stamped(body, now)] &&
        emitted == old(emitted) + [Emit(body.waId, "new_message", InRoom(rooms, body.waId), Stamped(body, now))]
      ensures forall c :: (Received(emitted, c) ==
        Received(old(emitted), c) +
        (if stored.Some? && c in InRoom(rooms, body.waId) then [Stamped(body, now)] else []))
    {
      if !Truthy(body.waId) || !Truthy(body.text) {
        return BadRequest, None;
      }
      var message := Stamped(body, now);
      db.InsertMessage(message);
      var e := Emit(message.waId, "new_message", InRoom(rooms, message.waId), message);
      forall c {
        ReceivedAppend(emitted, e, c);
      }
      emitted := emitted + [e];
      return Created, Some(message);
    }

    /** A connection that joined no room has received nothing. */
    lemma NeverJoinedReceivesNothing(conn: ConnId)
      requires Valid()
      requires forall room :: conn !in InRoom(rooms, room)
      ensures Received(emitted, conn) == []
    {
      ReceivedNothing(emitted, conn);
    }
  }
}
