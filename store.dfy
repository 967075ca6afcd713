/** The `whatsapp` database: the `processed_messages` and `members`
    collections, shared by the HTTP server and the payload script. Each
    operation is one collection call, atomic. */
module Store {
  import opened Values
  import opened Records

  class Db {
    /** `processed_messages`, in natural (insertion) order. */
    var messages: seq<Message>
    /** `members`, in natural (insertion) order. */
    var members: seq<Member>

    /** A database already connected and holding the given documents. */
    constructor (messages: seq<Message>, members: seq<Member>)
      ensures this.messages == messages && this.members == members
    {
      this.messages := messages;
      this.members := members;
    }

    /** `findOne({id})` on the messages. */
    method FindMessage(id: Value) returns (found: Option<Message>)
      ensures found.None? <==> !HasId(messages, id)
      ensures found.Some? ==> found.value == messages[FirstIndexOf(messages, id).value]
    {
      match FirstIndexOf(messages, id)
      case None => found := None;
      case Some(k) => found := Some(messages[k]);
    }

    /** `insertOne(m)` on the messages. */
    method InsertMessage(m: Message)
      modifies this
      ensures messages == old(messages) + [m]
      ensures members == old(members)
    {
      messages := messages + [m];
    }

    /** `updateOne({id}, {$set: {status, status_timestamp: at}})`; `matched`
        is the result's `matchedCount`. */
    method UpdateStatus(id: Value, status: Value, at: Value) returns (matched: bool)
      modifies this
      ensures matched <==> HasId(old(messages), id)
      ensures messages == SetStatus(old(messages), id, status, at)
      ensures members == old(members)
    {
      matched := FirstIndexOf(messages, id).Some?;
      messages := SetStatus(messages, id, status, at);
    }

    /** `findOne({wa_id})` on the members. */
    method FindMember(waId: Value) returns (found: Option<Member>)
      ensures found.None? <==> !HasMember(members, waId)
      ensures found.Some? ==> found.value.waId == waId
      ensures found.Some? ==>
        exists k :: 0 <= k < |members| && members[k] == found.value && forall j :: 0 <= j < k ==> members[j].waId != waId
    {
      FirstMemberIsFirst(members, waId);
      found := FirstMember(members, waId);
    }

    /** `insertOne(m)` on the members. */
    method InsertMember(m: Member)
      modifies this
      ensures members == old(members) + [m]
      ensures messages == old(messages)
    {
      members := members + [m];
    }
  }
}
