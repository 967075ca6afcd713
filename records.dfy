/** The documents of the two collections, `processed_messages` and
    `members`, and the lookups and updates the database performs on them. */
module Records {
  import opened Values

  /** A document of the `processed_messages` collection. The conversation key
      is `waId` (the field `wa_id`). `rest` holds every other field the
      producer sent (`from`, `sender`, `from_me`, ...), kept verbatim. */
  datatype Message = Message(
    id: Value,
    waId: Value,
    text: Value,
    timestamp: Value,
    status: Value,
    statusTimestamp: Value,
    rest: map<string, Value>)

  /** The message fields that have a field of their own in `Message`. An
      `_id`, supplied by the producer or assigned by the database, is kept
      in `rest` like any other field. */
  const NamedFields: set<string> := {"id", "wa_id", "text", "timestamp", "status", "status_timestamp"}

  /** A JSON object has each key once: `rest` repeats none of the named
      fields. */
  predicate WellFormed(m: Message)
  {
    forall k :: k in m.rest ==> k !in NamedFields
  }

  /** A document of the `members` collection: exactly `{wa_id, name}`. */
  datatype Member = Member(waId: Value, name: Value)

  /** One entry of a `statuses` payload: a delivery or read receipt. */
  datatype Receipt = Receipt(id: Value, status: Value, timestamp: Value)

  /** Whether some stored message matches the filter `{id: id}`. A filter on
      a missing id matches the documents that have no id, which equality on
      `Null` captures. */
  predicate HasId(s: seq<Message>, id: Value)
  {
    exists k :: 0 <= k < |s| && s[k].id == id
  }

  /** The position of the first document matching `{id: id}` in the
      collection's natural order: the one `findOne` and `updateOne` pick. */
  function FirstIndexOf(s: seq<Message>, id: Value): (r: Option<nat>)
    ensures r.None? <==> !HasId(s, id)
    ensures r.Some? ==> r.value < |s| && s[r.value].id == id
    ensures r.Some? ==> forall k :: 0 <= k < r.value ==> s[k].id != id
  {
    if s == [] then None
    else if s[0].id == id then Some(0)
    else match FirstIndexOf(s[1..], id)
      case None => None
      case Some(k) => Some(k + 1)
  }

  /** A message with its delivery state (`status`, `status_timestamp`)
      cleared: everything a status receipt cannot change. */
  function Skeleton(m: Message): Message
  {
    m.(status := Null, statusTimestamp := Null)
  }

  /** `updateOne({id}, {$set: {status, status_timestamp}})`: sets the two
      delivery fields of the first message with that id, and nothing else. */
  function SetStatus(s: seq<Message>, id: Value, status: Value, at: Value): (r: seq<Message>)
    ensures |r| == |s|
    ensures forall i :: 0 <= i < |s| ==> Skeleton(r[i]) == Skeleton(s[i])
    ensures !HasId(s, id) ==> r == s
    ensures HasId(s, id) ==>
      var k := FirstIndexOf(s, id).value;
      r[k].status == status && r[k].statusTimestamp == at &&
      forall i :: 0 <= i < |s| && i != k ==> r[i] == s[i]
  {
    match FirstIndexOf(s, id)
    case None => s
    case Some(k) => s[k := s[k].(status := status, statusTimestamp := at)]
  }

  /** Whether some member matches the filter `{wa_id: waId}`. */
  predicate HasMember(ms: seq<Member>, waId: Value)
  {
    exists k :: 0 <= k < |ms| && ms[k].waId == waId
  }

  /** The first member matching `{wa_id: waId}`: what `findOne` returns
      (`FirstMemberIsFirst` proves it is the first). */
  function FirstMember(ms: seq<Member>, waId: Value): (r: Option<Member>)
    ensures r.Some? ==> r.value in ms && r.value.waId == waId
  {
    if ms == [] then None
    else if ms[0].waId == waId then Some(ms[0])
    else FirstMember(ms[1..], waId)
  }

  /** `FirstMember` finds nothing exactly when no member matches, and
      otherwise the member at the first matching position. */
  lemma {:induction false} FirstMemberIsFirst(ms: seq<Member>, waId: Value)
    ensures FirstMember(ms, waId).None? <==> !HasMember(ms, waId)
    ensures FirstMember(ms, waId).Some? ==>
      exists k :: 0 <= k < |ms| && ms[k] == FirstMember(ms, waId).value && forall j :: 0 <= j < k ==> ms[j].waId != waId
  {
    if ms == [] {
    } else if ms[0].waId == waId {
      assert ms[0] == FirstMember(ms, waId).value;
    } else {
      FirstMemberIsFirst(ms[1..], waId);
      HasMemberTail(ms, waId);
      var r := FirstMember(ms[1..], waId);
      if r.Some? {
        var k :| 0 <= k < |ms[1..]| && ms[1..][k] == r.value && forall j :: 0 <= j < k ==> ms[1..][j].waId != waId;
        assert ms[k + 1] == r.value;
        forall j | 0 <= j < k + 1
          ensures ms[j].waId != waId
        {
          if j > 0 {
            assert ms[j] == ms[1..][j - 1];
          }
        }
      }
    }
  }

  /** A member other than the head lies in the tail. */
  lemma HasMemberTail(ms: seq<Member>, waId: Value)
    requires ms != [] && ms[0].waId != waId
    ensures HasMember(ms, waId) <==> HasMember(ms[1..], waId)
  {
    if HasMember(ms, waId) {
      var k :| 0 <= k < |ms| && ms[k].waId == waId;
      assert ms[1..][k - 1] == ms[k];
    }
    if HasMember(ms[1..], waId) {
      var k :| 0 <= k < |ms[1..]| && ms[1..][k].waId == waId;
      assert ms[k + 1] == ms[1..][k];
    }
  }

  /** No two members share a `wa_id`. */
  predicate MembersDistinct(ms: seq<Member>)
  {
    forall i, j :: 0 <= i < j < |ms| ==> ms[i].waId != ms[j].waId
  }
}
