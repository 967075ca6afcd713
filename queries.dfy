/** The read-only HTTP handlers: `GET /api/messages/:wa_id` (a filter and a
    sort on `timestamp`) and `GET /api/conversations` (a `$group` on `wa_id`
    followed by a `$sort` on the group key). */
module Queries {
  import opened Values
  import opened Records

  /** The stored messages whose `wa_id` equals `key`, in store order: the
      filter `{wa_id: key}`, and the `$push` of one `$group` bucket. */
  function Select(s: seq<Message>, key: Value): (r: seq<Message>)
    ensures forall i :: 0 <= i < |r| ==> r[i].waId == key
  {
    if s == [] then []
    else if s[0].waId == key then [s[0]] + Select(s[1..], key)
    else Select(s[1..], key)
  }

  /** Selecting keeps every message with the key, as many times as it is
      stored, and no other. */
  lemma {:induction false} SelectCount(s: seq<Message>, key: Value)
    ensures forall m :: multiset(Select(s, key))[m] == if m.waId == key then multiset(s)[m] else 0
  {
    if s != [] {
      assert s == [s[0]] + s[1..];
      SelectCount(s[1..], key);
    }
  }

  /** Selecting keeps store order: a later insert lands after the earlier
      messages of its conversation. */
  lemma {:induction false} SelectAppend(a: seq<Message>, b: seq<Message>, key: Value)
    ensures Select(a + b, key) == Select(a, key) + Select(b, key)
  {
    if a == [] {
      assert a + b == b;
    } else {
      assert (a + b)[0] == a[0] && (a + b)[1..] == a[1..] + b;
      SelectAppend(a[1..], b, key);
      if a[0].waId == key {
        calc {
          Select(a + b, key);
          [a[0]] + Select(a[1..] + b, key);
          [a[0]] + (Select(a[1..], key) + Select(b, key));
          ([a[0]] + Select(a[1..], key)) + Select(b, key);
        }
      }
    }
  }

  predicate SortedByTime(s: seq<Message>)
  {
    forall i, j :: 0 <= i < j < |s| ==> LessEq(s[i].timestamp, s[j].timestamp)
  }

  /** Places `m` before the first message that is not earlier than it. */
  function InsertByTime(m: Message, s: seq<Message>): (r: seq<Message>)
    requires SortedByTime(s)
    ensures SortedByTime(r)
    ensures multiset(r) == multiset(s) + multiset{m}
  {
    if s == [] then [m]
    else if LessEq(m.timestamp, s[0].timestamp) then
      InsertFrontSorted(m, s);
      [m] + s
    else
      var t := InsertByTime(m, s[1..]);
      LessTotal(m.timestamp, s[0].timestamp);
      assert s == [s[0]] + s[1..];
      ConsSorted(s[0], t, s[1..], m);
      [s[0]] + t
  }

  lemma InsertFrontSorted(m: Message, s: seq<Message>)
    requires SortedByTime(s) && s != [] && LessEq(m.timestamp, s[0].timestamp)
    ensures SortedByTime([m] + s)
  {
    forall j | 0 < j < |s| + 1
      ensures LessEq(m.timestamp, ([m] + s)[j].timestamp)
    {
      LessEqTransitive(m.timestamp, s[0].timestamp, s[j - 1].timestamp);
    }
  }

  lemma ConsSorted(h: Message, t: seq<Message>, rest: seq<Message>, m: Message)
    requires SortedByTime(t) && SortedByTime([h] + rest)
    requires multiset(t) == multiset(rest) + multiset{m}
    requires LessEq(h.timestamp, m.timestamp)
    ensures SortedByTime([h] + t)
  {
    assert ([h] + rest)[0] == h;
    forall j | 0 <= j < |t|
      ensures LessEq(h.timestamp, t[j].timestamp)
    {
      assert t[j] in multiset(t);
      if t[j] != m {
        assert t[j] in multiset(rest);
        var k :| 0 <= k < |rest| && rest[k] == t[j];
        assert ([h] + rest)[k + 1] == t[j];
      }
    }
  }

  /** Insertion sort on `timestamp`, stable. */
  function SortByTime(s: seq<Message>): (r: seq<Message>)
    ensures SortedByTime(r)
    ensures multiset(r) == multiset(s)
  {
    if s == [] then []
    else
      assert s == [s[0]] + s[1..];
      InsertByTime(s[0], SortByTime(s[1..]))
  }

  /** `GET /api/messages/:wa_id`: `find({wa_id}).sort({timestamp: 1})`. The
      path parameter is always a string. */
  function MessagesFor(s: seq<Message>, waId: string): (r: seq<Message>)
    ensures SortedByTime(r)
    ensures forall m :: multiset(r)[m] == if m.waId == Str(waId) then multiset(s)[m] else 0
    ensures r == [] <==> forall i :: 0 <= i < |s| ==> s[i].waId != Str(waId)
  {
    SelectCount(s, Str(waId));
    var r := SortByTime(Select(s, Str(waId)));
    if r == [] then
      forall i | 0 <= i < |s|
        ensures s[i].waId != Str(waId)
      {
        assert multiset(r)[s[i]] == 0;
      }
      r
    else
      assert r[0] in multiset(r);
      r
  }

  /** One element of the `GET /api/conversations` answer: `{_id, messages}`. */
  datatype Conversation = Conversation(id: Value, messages: seq<Message>)

  predicate StrictlyAscending(ks: seq<Value>)
  {
    forall i, j :: 0 <= i < j < |ks| ==> Less(ks[i], ks[j])
  }

  /** Adds `k` to an ascending list of distinct keys. */
  function InsertKey(k: Value, ks: seq<Value>): (r: seq<Value>)
    requires StrictlyAscending(ks)
    ensures StrictlyAscending(r)
    ensures forall x :: x in r <==> x == k || x in ks
  {
    if ks == [] then [k]
    else if k == ks[0] then ks
    else if Less(k, ks[0]) then
      KeyFrontAscending(k, ks);
      [k] + ks
    else
      LessTotal(k, ks[0]);
      var t := InsertKey(k, ks[1..]);
      assert ks == [ks[0]] + ks[1..];
      KeyConsAscending(ks[0], t, ks[1..], k);
      [ks[0]] + t
  }

  lemma KeyFrontAscending(k: Value, ks: seq<Value>)
    requires StrictlyAscending(ks) && ks != [] && Less(k, ks[0])
    ensures StrictlyAscending([k] + ks)
  {
    forall j | 0 < j < |ks|
      ensures Less(k, ks[j])
    {
      LessTransitive(k, ks[0], ks[j]);
    }
  }

  lemma KeyConsAscending(h: Value, t: seq<Value>, rest: seq<Value>, k: Value)
    requires StrictlyAscending(t) && StrictlyAscending([h] + rest)
    requires forall x :: x in t <==> x == k || x in rest
    requires Less(h, k)
    ensures StrictlyAscending([h] + t)
  {
    assert ([h] + rest)[0] == h;
    forall j | 0 <= j < |t|
      ensures Less(h, t[j])
    {
      assert t[j] in t;
      if t[j] != k {
        var i :| 0 <= i < |rest| && rest[i] == t[j];
        assert ([h] + rest)[i + 1] == t[j];
      }
    }
  }

  /** The distinct `wa_id`s present in the store. */
  function WaIds(s: seq<Message>): set<Value>
  {
    set i | 0 <= i < |s| :: s[i].waId
  }

  /** The distinct `wa_id`s of the store, ascending: the `_id`s that
      `$group` then `$sort: {_id: 1}` produce. */
  function GroupKeys(s: seq<Message>): (r: seq<Value>)
    ensures StrictlyAscending(r)
    ensures forall k :: k in r <==> k in WaIds(s)
  {
    if s == [] then []
    else
      var t := GroupKeys(s[1..]);
      assert WaIds(s) == WaIds(s[1..]) + {s[0].waId} by {
        forall k | k in WaIds(s)
          ensures k in WaIds(s[1..]) + {s[0].waId}
        {
          var i :| 0 <= i < |s| && s[i].waId == k;
          if i > 0 {
            assert s[1..][i - 1] == s[i];
          }
        }
        forall k | k in WaIds(s[1..])
          ensures k in WaIds(s)
        {
          var i :| 0 <= i < |s[1..]| && s[1..][i].waId == k;
          assert s[i + 1] == s[1..][i];
        }
      }
      InsertKey(s[0].waId, t)
  }

  /** `GET /api/conversations`. */
  function Conversations(s: seq<Message>): (r: seq<Conversation>)
    ensures forall i, j :: 0 <= i < j < |r| ==> Less(r[i].id, r[j].id)
    ensures forall i :: 0 <= i < |r| ==> r[i].id in WaIds(s)
    ensures forall k :: k in WaIds(s) ==> exists i :: 0 <= i < |r| && r[i].id == k
    ensures forall i, n :: 0 <= i < |r| && 0 <= n < |r[i].messages| ==> r[i].messages[n].waId == r[i].id
  {
    var ks := GroupKeys(s);
    var r := seq(|ks|, i requires 0 <= i < |ks| => Conversation(ks[i], Select(s, ks[i])));
    assert forall k :: k in WaIds(s) ==> exists i :: 0 <= i < |r| && r[i].id == k by {
      forall k | k in WaIds(s)
        ensures exists i :: 0 <= i < |r| && r[i].id == k
      {
        var i :| 0 <= i < |ks| && ks[i] == k;
        assert r[i].id == k;
      }
    }
    r
  }

  /** Each conversation holds exactly the stored messages with its key, as
      many times as they are stored. */
  lemma ConversationContents(s: seq<Message>, i: nat)
    requires i < |Conversations(s)|
    ensures var c := Conversations(s)[i];
      forall m :: multiset(c.messages)[m] == if m.waId == c.id then multiset(s)[m] else 0
  {
    SelectCount(s, Conversations(s)[i].id);
  }

  /** Every stored message lies in exactly one conversation, the one whose
      `_id` is its `wa_id`. */
  lemma EachMessageInOneConversation(s: seq<Message>, k: nat)
    requires k < |s|
    ensures var r := Conversations(s);
      exists i :: 0 <= i < |r| && r[i].id == s[k].waId && s[k] in r[i].messages &&
        forall j :: 0 <= j < |r| && s[k] in r[j].messages ==> j == i
  {
    var r := Conversations(s);
    assert s[k].waId in WaIds(s);
    var i :| 0 <= i < |r| && r[i].id == s[k].waId;
    ConversationContents(s, i);
    assert s[k] in multiset(s);
    assert s[k] in multiset(r[i].messages);
    LessIrreflexive(s[k].waId);
    forall j | 0 <= j < |r| && s[k] in r[j].messages
      ensures j == i
    {
      var n :| 0 <= n < |r[j].messages| && r[j].messages[n] == s[k];
      assert r[j].id == s[k].waId;
    }
  }

  /** No conversation is empty. */
  lemma ConversationsNonEmpty(s: seq<Message>, i: nat)
    requires i < |Conversations(s)|
    ensures Conversations(s)[i].messages != []
  {
    var r := Conversations(s);
    assert r[i].id in WaIds(s);
    var k :| 0 <= k < |s| && s[k].waId == r[i].id;
    ConversationContents(s, i);
    assert s[k] in multiset(s);
    assert s[k] in multiset(r[i].messages);
  }
}
