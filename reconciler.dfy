/** The payload script: it reads every `.json` file of the payloads
    directory and applies it to `processed_messages`. A `messages` payload
    inserts each message whose id is not stored yet; a `statuses` payload
    sets the delivery state of the first message with each receipt's id; any
    other payload is reported and skipped. One error handler wraps the whole
    loop, so a file that cannot be read, does not parse, or parses to `null`
    ends the run. */
module Reconciler {
  import opened Values
  import opened Records
  import opened Store

  /** A parsed payload file: its `messages` and `statuses` arrays, `None`
      when the field is absent or null (an array, even an empty one, is
      truthy). */
  datatype Payload = Payload(messages: Option<seq<Message>>, statuses: Option<seq<Receipt>>)

  /** A directory entry: its name and its payload, or `None` when reading
      it throws: the file cannot be read, is not JSON, or is the JSON `null`
      (whose `.messages` throws). Any other JSON value is a payload; one
      that is not an object has neither array. */
  datatype FileEntry = FileEntry(name: string, content: Option<Payload>)

  /** What the script reports for each record, each unknown file, and the
      error that ends a run. */
  datatype Outcome =
    | Inserted(id: Value)
    | AlreadyExists(id: Value)
    | Updated(id: Value)
    | NotFound(id: Value)
    | UnknownPayload(file: string)
    | Aborted(file: string)

  /** Which branch a payload takes: `messages` is tested first. */
  datatype Kind = MessagesKind(batch: seq<Message>) | StatusesKind(receipts: seq<Receipt>) | UnknownKind

  /** Every message record of the payload is a well-formed object. */
  predicate PayloadWellFormed(p: Payload)
  {
    p.messages.Some? ==> forall i :: 0 <= i < |p.messages.value| ==> WellFormed(p.messages.value[i])
  }

  function KindOf(p: Payload): Kind
  {
    if p.messages.Some? then MessagesKind(p.messages.value)
    else if p.statuses.Some? then StatusesKind(p.statuses.value)
    else UnknownKind
  }

  /** `name.endsWith('.json')`. */
  predicate IsJson(name: string)
  {
    |name| >= 5 && name[|name| - 5..] == ".json"
  }

  /** The names kept are exactly those made of some stem followed by
      `.json`. */
  lemma IsJsonSuffix(name: string)
    ensures IsJson(name) <==> exists stem: string :: name == stem + ".json"
  {
    if IsJson(name) {
      assert name == name[..|name| - 5] + ".json";
    }
    if exists stem: string :: name == stem + ".json" {
      var stem: string :| name == stem + ".json";
      assert name[|name| - 5..] == ".json";
    }
  }

  /** The directory listing filtered to `.json` names. */
  function JsonFiles(files: seq<FileEntry>): (r: seq<FileEntry>)
    ensures forall f :: f in r <==> f in files && IsJson(f.name)
  {
    if files == [] then []
    else (if IsJson(files[0].name) then [files[0]] else []) + JsonFiles(files[1..])
  }

  /** Filtering keeps the listing's order. */
  lemma {:induction false} JsonFilesAppend(a: seq<FileEntry>, b: seq<FileEntry>)
    ensures JsonFiles(a + b) == JsonFiles(a) + JsonFiles(b)
  {
    if a == [] {
      assert a + b == b;
    } else {
      assert (a + b)[0] == a[0] && (a + b)[1..] == a[1..] + b;
      JsonFilesAppend(a[1..], b);
    }
  }

  // ---------------------------------------------------------------------
  // A `messages` payload

  /** The store after inserting, in order, each message whose id is not
      stored yet; later checks see earlier inserts. */
  function InsertAbsent(s: seq<Message>, batch: seq<Message>): seq<Message>
    decreases |batch|
  {
    if batch == [] then s
    else InsertAbsent(if HasId(s, batch[0].id) then s else s + [batch[0]], batch[1..])
  }

  /** The outcome reported for each message of the batch. */
  function InsertLog(s: seq<Message>, batch: seq<Message>): seq<Outcome>
    decreases |batch|
  {
    if batch == [] then []
    else if HasId(s, batch[0].id) then [AlreadyExists(batch[0].id)] + InsertLog(s, batch[1..])
    else [Inserted(batch[0].id)] + InsertLog(s + [batch[0]], batch[1..])
  }

  /** Inserting never changes or removes a stored message; what it appends
      comes from the batch, carries an id the store did not have, and no id
      is appended twice. */
  lemma {:induction false} InsertAbsentShape(s: seq<Message>, batch: seq<Message>)
    ensures var r := InsertAbsent(s, batch);
      |s| <= |r| && r[..|s|] == s &&
      (forall i :: |s| <= i < |r| ==> r[i] in batch && !HasId(s, r[i].id)) &&
      (forall i, j :: |s| <= i < j < |r| ==> r[i].id != r[j].id)
    decreases |batch|
  {
    if batch != [] {
      var b := batch[0];
      var s' := if HasId(s, b.id) then s else s + [b];
      var r := InsertAbsent(s, batch);
      InsertAbsentShape(s', batch[1..]);
      assert r == InsertAbsent(s', batch[1..]);
      assert r[..|s|] == s by {
        assert r[..|s'|][..|s|] == s'[..|s|];
      }
      assert forall x :: x in batch[1..] ==> x in batch;
      if s' != s {
        assert r[|s|] == s'[|s|] == b;
        forall i | |s| < i < |r|
          ensures r[i].id != b.id && !HasId(s, r[i].id)
        {
          HasIdAppend(s, b, r[i].id);
        }
      }
    }
  }

  /** Appending one message adds exactly its id. */
  lemma HasIdAppend(s: seq<Message>, b: Message, id: Value)
    ensures HasId(s + [b], id) <==> HasId(s, id) || b.id == id
  {
    if HasId(s, id) {
      var k :| 0 <= k < |s| && s[k].id == id;
      assert (s + [b])[k] == s[k];
    }
    assert (s + [b])[|s|] == b;
  }

  /** The k-th message of a payload is the first of the payload to carry
      an id the store lacks. */
  predicate FirstFresh(s: seq<Message>, batch: seq<Message>, k: nat)
    requires k < |batch|
  {
    !HasId(s, batch[k].id) && forall j :: 0 <= j < k ==> batch[j].id != batch[k].id
  }

  /** The messages of `batch` whose mark is set, in payload order. */
  function Pick(batch: seq<Message>, marks: seq<bool>): seq<Message>
    requires |marks| == |batch|
  {
    if batch == [] then []
    else (if marks[0] then [batch[0]] else []) + Pick(batch[1..], marks[1..])
  }

  /** Which messages of a payload are the first to carry a new id. */
  function FreshMarks(s: seq<Message>, batch: seq<Message>): (r: seq<bool>)
    ensures |r| == |batch|
  {
    seq(|batch|, k requires 0 <= k < |batch| => FirstFresh(s, batch, k))
  }

  /** Whether a later message carries a new id is unaffected by the first
      message once the store has taken it in. */
  lemma FreshShift(s: seq<Message>, batch: seq<Message>, k: nat)
    requires 0 < k < |batch|
    ensures FirstFresh(Admit(s, batch[0]), batch[1..], k - 1) <==> FirstFresh(s, batch, k)
  {
    var b, id := batch[0], batch[k].id;
    assert batch[1..][k - 1] == batch[k];
    HasIdAppend(s, b, id);
    assert forall j :: 0 <= j < k - 1 ==> batch[1..][j] == batch[j + 1];
  }

  /** The marks of the rest of a payload, once the store has taken in its
      first message, are the remaining marks of the whole payload. */
  lemma FreshMarksShift(s: seq<Message>, batch: seq<Message>)
    requires batch != []
    ensures FreshMarks(Admit(s, batch[0]), batch[1..]) == FreshMarks(s, batch)[1..]
    ensures FreshMarks(s, batch)[0] == !HasId(s, batch[0].id)
  {
    var m, m1 := FreshMarks(s, batch), FreshMarks(Admit(s, batch[0]), batch[1..]);
    forall k | 0 <= k < |m1|
      ensures m1[k] == m[1..][k]
    {
      FreshShift(s, batch, k + 1);
    }
  }

  /** A messages payload appends to the store exactly the first message
      carrying each id the store lacked, in payload order: a later message
      with an id already stored or already appended is skipped. */
  lemma {:induction false} InsertAbsentAppends(s: seq<Message>, batch: seq<Message>)
    ensures InsertAbsent(s, batch) == s + Pick(batch, FreshMarks(s, batch))
    decreases |batch|
  {
    if batch == [] {
      assert s + [] == s;
    } else {
      var b := batch[0];
      var s1 := Admit(s, b);
      var m := FreshMarks(s, batch);
      InsertAbsentAppends(s1, batch[1..]);
      FreshMarksShift(s, batch);
      var rest := Pick(batch[1..], m[1..]);
      assert InsertAbsent(s, batch) == s1 + rest;
      if m[0] {
        assert Pick(batch, m) == [b] + rest;
        assert s1 + rest == s + ([b] + rest);
      } else {
        assert Pick(batch, m) == [] + rest == rest;
      }
    }
  }

  /** When two messages of a payload share an id the store lacks, the first
      is stored and the second skipped. */
  lemma FirstDuplicateWins(m1: Message, m2: Message)
    requires m1.id == m2.id
    ensures InsertAbsent([], [m1, m2]) == [m1]
  {
    assert !HasId([], m1.id);
    assert [] + [m1] == [m1];
    assert [m1, m2][0] == m1 && [m1, m2][1..] == [m2];
    assert InsertAbsent([], [m1, m2]) == InsertAbsent([m1], [m2]);
    assert [m1][0].id == m2.id;
    assert HasId([m1], m2.id);
    assert InsertAbsent([m1], [m2]) == InsertAbsent([m1], []);
  }

  /** After a messages payload, an id is stored exactly when it was stored
      before or occurs in the payload. */
  lemma {:induction false} InsertAbsentHasId(s: seq<Message>, batch: seq<Message>, id: Value)
    ensures HasId(InsertAbsent(s, batch), id) <==>
      HasId(s, id) || exists j :: 0 <= j < |batch| && batch[j].id == id
    decreases |batch|
  {
    if batch != [] {
      var b := batch[0];
      var s' := if HasId(s, b.id) then s else s + [b];
      InsertAbsentHasId(s', batch[1..], id);
      HasIdAppend(s, b, id);
      assert (exists j :: 0 <= j < |batch| && batch[j].id == id) <==>
        b.id == id || exists j :: 0 <= j < |batch[1..]| && batch[1..][j].id == id by {
        if exists j :: 0 <= j < |batch| && batch[j].id == id {
          var j :| 0 <= j < |batch| && batch[j].id == id;
          if j > 0 {
            assert batch[1..][j - 1] == batch[j];
          }
        }
        if exists j :: 0 <= j < |batch[1..]| && batch[1..][j].id == id {
          var j :| 0 <= j < |batch[1..]| && batch[1..][j].id == id;
          assert batch[j + 1] == batch[1..][j];
        }
      }
    }
  }

  /** A payload whose ids are all stored changes nothing. */
  lemma {:induction false} InsertAllPresent(t: seq<Message>, batch: seq<Message>)
    requires forall j :: 0 <= j < |batch| ==> HasId(t, batch[j].id)
    ensures InsertAbsent(t, batch) == t
    decreases |batch|
  {
    if batch != [] {
      assert HasId(t, batch[0].id);
      assert forall j :: 0 <= j < |batch[1..]| ==> batch[1..][j] == batch[j + 1];
      InsertAllPresent(t, batch[1..]);
    }
  }

  /** Applying the same messages payload a second time leaves the store as
      the first application left it. */
  lemma InsertAbsentIdempotent(s: seq<Message>, batch: seq<Message>)
    ensures InsertAbsent(InsertAbsent(s, batch), batch) == InsertAbsent(s, batch)
  {
    var t := InsertAbsent(s, batch);
    forall j | 0 <= j < |batch|
      ensures HasId(t, batch[j].id)
    {
      InsertAbsentHasId(s, batch, batch[j].id);
    }
    InsertAllPresent(t, batch);
  }

  /** The k-th message of a payload is reported inserted exactly when its id
      was neither stored before nor carried by an earlier message of the
      payload; otherwise it is reported as already present. */
  lemma {:induction false} InsertLogAt(s: seq<Message>, batch: seq<Message>, k: nat)
    requires k < |batch|
    ensures |InsertLog(s, batch)| == |batch|
    ensures InsertLog(s, batch)[k] ==
      if !HasId(s, batch[k].id) && forall j :: 0 <= j < k ==> batch[j].id != batch[k].id
      then Inserted(batch[k].id) else AlreadyExists(batch[k].id)
    decreases |batch|
  {
    var b := batch[0];
    var s' := if HasId(s, b.id) then s else s + [b];
    var o := if HasId(s, b.id) then AlreadyExists(b.id) else Inserted(b.id);
    assert InsertLog(s, batch) == [o] + InsertLog(s', batch[1..]);
    if k == 0 {
      InsertLogLength(s', batch[1..]);
    } else {
      InsertLogAt(s', batch[1..], k - 1);
      var id := batch[k].id;
      assert InsertLog(s, batch)[k] == InsertLog(s', batch[1..])[k - 1];
      assert batch[1..][k - 1] == batch[k];
      HasIdAppend(s, b, id);
      assert (forall j :: 0 <= j < k ==> batch[j].id != id) <==>
        b.id != id && forall j :: 0 <= j < k - 1 ==> batch[1..][j].id != id by {
        assert forall j :: 0 <= j < k - 1 ==> batch[1..][j] == batch[j + 1];
      }
    }
  }

  lemma {:induction false} InsertLogLength(s: seq<Message>, batch: seq<Message>)
    ensures |InsertLog(s, batch)| == |batch|
    decreases |batch|
  {
    if batch != [] {
      InsertLogLength(if HasId(s, batch[0].id) then s else s + [batch[0]], batch[1..]);
    }
  }

  // ---------------------------------------------------------------------
  // A `statuses` payload

  /** The store after each receipt, in order, sets the delivery state of
      the first message with its id. */
  function ApplyReceipts(s: seq<Message>, rs: seq<Receipt>): seq<Message>
    decreases |rs|
  {
    if rs == [] then s
    else ApplyReceipts(SetStatus(s, rs[0].id, rs[0].status, rs[0].timestamp), rs[1..])
  }

  /** The outcome reported for one receipt: whether `updateOne` matched. */
  function ReceiptOutcome(s: seq<Message>, r: Receipt): Outcome
  {
    if HasId(s, r.id) then Updated(r.id) else NotFound(r.id)
  }

  /** The outcome reported for each receipt. */
  function ReceiptLog(s: seq<Message>, rs: seq<Receipt>): seq<Outcome>
    decreases |rs|
  {
    if rs == [] then []
    else [ReceiptOutcome(s, rs[0])] + ReceiptLog(SetStatus(s, rs[0].id, rs[0].status, rs[0].timestamp), rs[1..])
  }

  /** `t` is `s` with possibly other delivery states: same length, and every
      message equal but for `status` and `status_timestamp`. */
  predicate SameSkeleton(s: seq<Message>, t: seq<Message>)
  {
    |s| == |t| && forall i :: 0 <= i < |s| ==> Skeleton(t[i]) == Skeleton(s[i])
  }

  /** Receipts never add, remove or reorder messages, and change no field
      but the two delivery fields. */
  lemma {:induction false} ApplyReceiptsSkeleton(s: seq<Message>, rs: seq<Receipt>)
    ensures SameSkeleton(s, ApplyReceipts(s, rs))
    decreases |rs|
  {
    if rs != [] {
      var s1 := SetStatus(s, rs[0].id, rs[0].status, rs[0].timestamp);
      ApplyReceiptsSkeleton(s1, rs[1..]);
    }
  }

  lemma SkeletonKeepsIds(s: seq<Message>, t: seq<Message>, id: Value)
    requires SameSkeleton(s, t)
    ensures forall i :: 0 <= i < |s| ==> t[i].id == s[i].id
    ensures HasId(t, id) <==> HasId(s, id)
  {
  }

  /** The last receipt for `id` in the payload, if any. */
  function LastFor(rs: seq<Receipt>, id: Value): (r: Option<Receipt>)
    ensures r.Some? ==> r.value in rs && r.value.id == id
    decreases |rs|
  {
    if rs == [] then None
    else
      var later := LastFor(rs[1..], id);
      if later.Some? then later
      else if rs[0].id == id then Some(rs[0])
      else None
  }

  /** Whether message `i` is the first one carrying its id. */
  predicate IsFirst(s: seq<Message>, i: nat)
    requires i < |s|
  {
    forall k :: 0 <= k < i ==> s[k].id != s[i].id
  }

  /** The message at `i` after a statuses payload: if it is the first
      message with its id and some receipt names that id, it carries the
      delivery state of the last such receipt; otherwise it is unchanged. */
  function AfterReceipts(s: seq<Message>, rs: seq<Receipt>, i: nat): Message
    requires i < |s|
  {
    var last := LastFor(rs, s[i].id);
    if IsFirst(s, i) && last.Some?
    then s[i].(status := last.value.status, statusTimestamp := last.value.timestamp)
    else s[i]
  }

  lemma FirstIndexIsFirst(s: seq<Message>, i: nat)
    requires i < |s| && IsFirst(s, i)
    ensures FirstIndexOf(s, s[i].id) == Some(i)
  {
  }

  /** Characterises a statuses payload message by message. */
  lemma {:induction false} ApplyReceiptsAt(s: seq<Message>, rs: seq<Receipt>, i: nat)
    requires i < |s|
    ensures |ApplyReceipts(s, rs)| == |s|
    ensures ApplyReceipts(s, rs)[i] == AfterReceipts(s, rs, i)
    decreases |rs|
  {
    ApplyReceiptsSkeleton(s, rs);
    if rs != [] {
      var r0 := rs[0];
      var s1 := SetStatus(s, r0.id, r0.status, r0.timestamp);
      ApplyReceiptsAt(s1, rs[1..], i);
      SkeletonKeepsIds(s, s1, r0.id);
      assert IsFirst(s1, i) == IsFirst(s, i);
      var id := s[i].id;
      if IsFirst(s, i) {
        FirstIndexIsFirst(s, i);
      }
      // Only the first message with r0's id changes in s1.
      assert s1[i] != s[i] ==> IsFirst(s, i) && r0.id == id;
      if IsFirst(s, i) && r0.id == id {
        assert s1[i] == s[i].(status := r0.status, statusTimestamp := r0.timestamp);
      }
      assert Skeleton(s1[i]) == Skeleton(s[i]);
    }
  }

  /** Applying the same statuses payload twice gives the store that one
      application gives. */
  lemma ApplyReceiptsIdempotent(s: seq<Message>, rs: seq<Receipt>)
    ensures ApplyReceipts(ApplyReceipts(s, rs), rs) == ApplyReceipts(s, rs)
  {
    var t := ApplyReceipts(s, rs);
    ApplyReceiptsSkeleton(s, rs);
    ApplyReceiptsSkeleton(t, rs);
    SkeletonKeepsIds(s, t, Null);
    forall i | 0 <= i < |t|
      ensures ApplyReceipts(t, rs)[i] == t[i]
    {
      ApplyReceiptsAt(s, rs, i);
      ApplyReceiptsAt(t, rs, i);
      assert IsFirst(t, i) == IsFirst(s, i);
    }
  }

  /** Each receipt is reported as updated exactly when a message with its id
      is stored, which no receipt changes. */
  lemma {:induction false} ReceiptLogAt(s: seq<Message>, rs: seq<Receipt>, k: nat)
    requires k < |rs|
    ensures |ReceiptLog(s, rs)| == |rs|
    ensures ReceiptLog(s, rs)[k] == if HasId(s, rs[k].id) then Updated(rs[k].id) else NotFound(rs[k].id)
    decreases |rs|
  {
    var s1 := SetStatus(s, rs[0].id, rs[0].status, rs[0].timestamp);
    if k == 0 {
      ReceiptLogLength(s1, rs[1..]);
    } else {
      ReceiptLogAt(s1, rs[1..], k - 1);
      assert rs[1..][k - 1] == rs[k];
      SkeletonKeepsIds(s, s1, rs[k].id);
    }
  }

  lemma {:induction false} ReceiptLogLength(s: seq<Message>, rs: seq<Receipt>)
    ensures |ReceiptLog(s, rs)| == |rs|
    decreases |rs|
  {
    if rs != [] {
      ReceiptLogLength(SetStatus(s, rs[0].id, rs[0].status, rs[0].timestamp), rs[1..]);
    }
  }

  // ---------------------------------------------------------------------
  // One file, and the whole run

  function ApplyPayload(s: seq<Message>, p: Payload): seq<Message>
  {
    match KindOf(p)
    case MessagesKind(batch) => InsertAbsent(s, batch)
    case StatusesKind(rs) => ApplyReceipts(s, rs)
    case UnknownKind => s
  }

  function PayloadLog(s: seq<Message>, name: string, p: Payload): seq<Outcome>
  {
    match KindOf(p)
    case MessagesKind(batch) => InsertLog(s, batch)
    case StatusesKind(rs) => ReceiptLog(s, rs)
    case UnknownKind => [UnknownPayload(name)]
  }

  /** The store after the run over the `.json` files `fs`, in order; the
      first file that cannot be read or parsed ends the run. */
  function ApplyFiles(s: seq<Message>, fs: seq<FileEntry>): seq<Message>
    decreases |fs|
  {
    if fs == [] then s
    else match fs[0].content
      case None => s
      case Some(p) => ApplyFiles(ApplyPayload(s, p), fs[1..])
  }

  function FilesLog(s: seq<Message>, fs: seq<FileEntry>): seq<Outcome>
    decreases |fs|
  {
    if fs == [] then []
    else match fs[0].content
      case None => [Aborted(fs[0].name)]
      case Some(p) => PayloadLog(s, fs[0].name, p) + FilesLog(ApplyPayload(s, p), fs[1..])
  }

  /** A payload with a `messages` array is a messages payload, whatever
      else it holds; a payload with neither array changes nothing and is
      reported unknown. */
  lemma PayloadBranches(s: seq<Message>, name: string, p: Payload)
    ensures p.messages.Some? ==>
      ApplyPayload(s, p) == InsertAbsent(s, p.messages.value) &&
      PayloadLog(s, name, p) == InsertLog(s, p.messages.value)
    ensures p.messages.None? && p.statuses.Some? ==>
      ApplyPayload(s, p) == ApplyReceipts(s, p.statuses.value) &&
      PayloadLog(s, name, p) == ReceiptLog(s, p.statuses.value)
    ensures p.messages.None? && p.statuses.None? ==>
      ApplyPayload(s, p) == s && PayloadLog(s, name, p) == [UnknownPayload(name)]
  {
  }

  /** `t` extends `s`: the messages of `s` are still there, in place, with at
      most their delivery state changed. */
  predicate Extends(s: seq<Message>, t: seq<Message>)
  {
    |s| <= |t| && forall i :: 0 <= i < |s| ==> Skeleton(t[i]) == Skeleton(s[i])
  }

  /** No file of a run deletes a message or changes anything but its
      delivery state. */
  lemma {:induction false} ApplyFilesExtends(s: seq<Message>, fs: seq<FileEntry>)
    ensures Extends(s, ApplyFiles(s, fs))
    decreases |fs|
  {
    if fs != [] && fs[0].content.Some? {
      var p := fs[0].content.value;
      var s1 := ApplyPayload(s, p);
      ApplyFilesExtends(s1, fs[1..]);
      match KindOf(p) {
        case MessagesKind(batch) =>
          InsertAbsentShape(s, batch);
          assert forall i :: 0 <= i < |s| ==> s1[i] == s1[..|s|][i];
        case StatusesKind(rs) =>
          ApplyReceiptsSkeleton(s, rs);
        case UnknownKind =>
      }
      assert Extends(s, s1);
      var t := ApplyFiles(s1, fs[1..]);
      forall i | 0 <= i < |s|
        ensures Skeleton(t[i]) == Skeleton(s[i])
      {
        assert Skeleton(t[i]) == Skeleton(s1[i]);
      }
    }
  }

  predicate AllParsed(fs: seq<FileEntry>)
  {
    forall i :: 0 <= i < |fs| ==> fs[i].content.Some?
  }

  /** A listing that starts with a parsed file, followed by more files. */
  lemma FilesCons(s: seq<Message>, a: seq<FileEntry>, b: seq<FileEntry>)
    requires a != [] && a[0].content.Some?
    ensures ApplyFiles(s, a + b) == ApplyFiles(ApplyPayload(s, a[0].content.value), a[1..] + b)
    ensures FilesLog(s, a + b) ==
      PayloadLog(s, a[0].name, a[0].content.value) + FilesLog(ApplyPayload(s, a[0].content.value), a[1..] + b)
  {
    assert (a + b)[0] == a[0] && (a + b)[1..] == a[1..] + b;
  }

  /** Files are applied one after the other, in the order listed. */
  lemma {:induction false} ApplyFilesAppend(s: seq<Message>, a: seq<FileEntry>, b: seq<FileEntry>)
    requires AllParsed(a)
    ensures ApplyFiles(s, a + b) == ApplyFiles(ApplyFiles(s, a), b)
    decreases |a|
  {
    if a == [] {
      assert a + b == b;
    } else {
      FilesCons(s, a, b);
      ApplyFilesAppend(ApplyPayload(s, a[0].content.value), a[1..], b);
    }
  }

  /** The reports of a run are those of its files, concatenated in the
      order listed. */
  lemma {:induction false} FilesLogAppend(s: seq<Message>, a: seq<FileEntry>, b: seq<FileEntry>)
    requires AllParsed(a)
    ensures FilesLog(s, a + b) == FilesLog(s, a) + FilesLog(ApplyFiles(s, a), b)
    decreases |a|
  {
    if a == [] {
      assert a + b == b;
    } else {
      var p := a[0].content.value;
      var s1 := ApplyPayload(s, p);
      var x := PayloadLog(s, a[0].name, p);
      FilesCons(s, a, b);
      FilesLogAppend(s1, a[1..], b);
      calc {
        FilesLog(s, a + b);
        x + FilesLog(s1, a[1..] + b);
        x + (FilesLog(s1, a[1..]) + FilesLog(ApplyFiles(s1, a[1..]), b));
        (x + FilesLog(s1, a[1..])) + FilesLog(ApplyFiles(s1, a[1..]), b);
        FilesLog(s, a) + FilesLog(ApplyFiles(s, a), b);
      }
    }
  }

  /** A file that cannot be read or parsed ends the run: nothing listed
      after it is applied, and the error is the last thing reported. */
  lemma AbortSkipsRest(s: seq<Message>, a: seq<FileEntry>, bad: FileEntry, rest: seq<FileEntry>)
    requires AllParsed(a) && bad.content.None?
    ensures ApplyFiles(s, a + [bad] + rest) == ApplyFiles(s, a)
    ensures FilesLog(s, a + [bad] + rest) == FilesLog(s, a) + [Aborted(bad.name)]
  {
    assert a + [bad] + rest == a + ([bad] + rest);
    ApplyFilesAppend(s, a, [bad] + rest);
    FilesLogAppend(s, a, [bad] + rest);
  }

  /** Re-running the whole batch is not idempotent: a receipt that comes
      before the message it names finds nothing the first time and updates
      the message the second time. */
  lemma RerunCanChangeStore()
    ensures
      var m := Message(Str("x"), Str("alice"), Str("hi"), Str("1"), Null, Null, map[]);
      var fs := [FileEntry("a.json", Some(Payload(None, Some([Receipt(Str("x"), Str("read"), Str("2"))])))),
                 FileEntry("b.json", Some(Payload(Some([m]), None)))];
      ApplyFiles([], fs) == [m] &&
      ApplyFiles(ApplyFiles([], fs), fs) == [m.(status := Str("read"), statusTimestamp := Str("2"))]
  {
    var m := Message(Str("x"), Str("alice"), Str("hi"), Str("1"), Null, Null, map[]);
    var r := Receipt(Str("x"), Str("read"), Str("2"));
    var fs := [FileEntry("a.json", Some(Payload(None, Some([r])))),
               FileEntry("b.json", Some(Payload(Some([m]), None)))];
    var m' := m.(status := r.status, statusTimestamp := r.timestamp);
    // First run: the receipt finds nothing, then the message is inserted.
    assert !HasId([], r.id);
    assert ApplyReceipts([], [r]) == ApplyReceipts([], []) == [];
    assert InsertAbsent([], [m]) == InsertAbsent([m], []) == [m];
    assert ApplyFiles([], fs) == ApplyFiles([], fs[1..]) == ApplyFiles([m], []) == [m];
    // Second run: the receipt now finds the message; the insert is skipped.
    assert [m][0].id == r.id;
    assert FirstIndexOf([m], r.id) == Some(0);
    assert ApplyReceipts([m], [r]) == ApplyReceipts([m'], []) == [m'];
    assert [m'][0].id == m.id;
    assert InsertAbsent([m'], [m]) == InsertAbsent([m'], []) == [m'];
    assert ApplyFiles([m], fs) == ApplyFiles([m'], fs[1..]) == ApplyFiles([m'], []) == [m'];
  }

  // ---------------------------------------------------------------------
  // The script's loops

  /** The store after one message of a batch: unchanged when its id is
      already stored, the message appended otherwise. */
  function Admit(s: seq<Message>, m: Message): seq<Message>
  {
    if HasId(s, m.id) then s else s + [m]
  }

  /** The outcome reported for one message of a batch. */
  function AdmitOutcome(s: seq<Message>, m: Message): Outcome
  {
    if HasId(s, m.id) then AlreadyExists(m.id) else Inserted(m.id)
  }

  /** The message at `i`, then the rest of the payload. */
  lemma InsertStep(s: seq<Message>, batch: seq<Message>, i: nat, log: seq<Outcome>)
    requires i < |batch|
    ensures InsertAbsent(s, batch[i..]) == InsertAbsent(Admit(s, batch[i]), batch[i + 1..])
    ensures log + InsertLog(s, batch[i..]) ==
      (log + [AdmitOutcome(s, batch[i])]) + InsertLog(Admit(s, batch[i]), batch[i + 1..])
  {
    assert batch[i..][0] == batch[i] && batch[i..][1..] == batch[i + 1..];
  }

  /** The receipt at `i`, then the rest of the payload. */
  lemma ReceiptStep(s: seq<Message>, rs: seq<Receipt>, i: nat, log: seq<Outcome>)
    requires i < |rs|
    ensures ApplyReceipts(s, rs[i..]) ==
      ApplyReceipts(SetStatus(s, rs[i].id, rs[i].status, rs[i].timestamp), rs[i + 1..])
    ensures log + ReceiptLog(s, rs[i..]) ==
      (log + [ReceiptOutcome(s, rs[i])]) +
      ReceiptLog(SetStatus(s, rs[i].id, rs[i].status, rs[i].timestamp), rs[i + 1..])
  {
    var r := rs[i];
    var s1 := SetStatus(s, r.id, r.status, r.timestamp);
    assert rs[i..][0] == r && rs[i..][1..] == rs[i + 1..];
    calc {
      log + ReceiptLog(s, rs[i..]);
      log + ([ReceiptOutcome(s, r)] + ReceiptLog(s1, rs[i + 1..]));
      (log + [ReceiptOutcome(s, r)]) + ReceiptLog(s1, rs[i + 1..]);
    }
  }

  /** One message of a `messages` payload: `findOne({id})`, then
      `insertOne` when nothing matched. */
  method ProcessMessage(db: Db, msg: Message) returns (out: Outcome)
    requires WellFormed(msg)
    modifies db
    ensures db.messages == Admit(old(db.messages), msg)
    ensures out == AdmitOutcome(old(db.messages), msg)
    ensures db.members == old(db.members)
  {
    var existing := db.FindMessage(msg.id);
    if existing.None? {
      db.InsertMessage(msg);
      out := Inserted(msg.id);
    } else {
      out := AlreadyExists(msg.id);
    }
  }

  /** The inner loop over a `messages` payload. */
  method ProcessMessages(db: Db, batch: seq<Message>) returns (log: seq<Outcome>)
    requires forall i :: 0 <= i < |batch| ==> WellFormed(batch[i])
    modifies db
    ensures db.messages == InsertAbsent(old(db.messages), batch)
    ensures log == InsertLog(old(db.messages), batch)
    ensures db.members == old(db.members)
  {
    ghost var target, targetLog := InsertAbsent(db.messages, batch), InsertLog(db.messages, batch);
    log := [];
    var i := 0;
    while i < |batch|
      invariant 0 <= i <= |batch|
      invariant InsertAbsent(db.messages, batch[i..]) == target
      invariant log + InsertLog(db.messages, batch[i..]) == targetLog
      invariant db.members == old(db.members)
    {
      InsertStep(db.messages, batch, i, log);
      var out := ProcessMessage(db, batch[i]);
      log := log + [out];
      i := i + 1;
    }
  }

  /** The inner loop over a `statuses` payload. */
  method ProcessStatuses(db: Db, rs: seq<Receipt>) returns (log: seq<Outcome>)
    modifies db
    ensures db.messages == ApplyReceipts(old(db.messages), rs)
    ensures log == ReceiptLog(old(db.messages), rs)
    ensures db.members == old(db.members)
  {
    ghost var target, targetLog := ApplyReceipts(db.messages, rs), ReceiptLog(db.messages, rs);
    log := [];
    var i := 0;
    while i < |rs|
      invariant 0 <= i <= |rs|
      invariant ApplyReceipts(db.messages, rs[i..]) == target
      invariant log + ReceiptLog(db.messages, rs[i..]) == targetLog
      invariant db.members == old(db.members)
    {
      ReceiptStep(db.messages, rs, i, log);
      var r := rs[i];
      var matched := db.UpdateStatus(r.id, r.status, r.timestamp);
      if matched {
        log := log + [Updated(r.id)];
      } else {
        log := log + [NotFound(r.id)];
      }
      i := i + 1;
    }
  }

  /** The body of the loop over files, once the file is parsed: the
      `messages` test comes first, then `statuses`. */
  method ProcessPayload(db: Db, name: string, p: Payload) returns (log: seq<Outcome>)
    requires PayloadWellFormed(p)
    modifies db
    ensures db.messages == ApplyPayload(old(db.messages), p)
    ensures log == PayloadLog(old(db.messages), name, p)
    ensures db.members == old(db.members)
  {
    if p.messages.Some? {
      log := ProcessMessages(db, p.messages.value);
    } else if p.statuses.Some? {
      log := ProcessStatuses(db, p.statuses.value);
    } else {
      log := [UnknownPayload(name)];
    }
  }

  /** A parsed file at `i`, then the rest of the listing. */
  lemma FileAt(s: seq<Message>, fs: seq<FileEntry>, i: nat, p: Payload, log: seq<Outcome>)
    requires i < |fs| && fs[i].content == Some(p)
    ensures ApplyFiles(s, fs[i..]) == ApplyFiles(ApplyPayload(s, p), fs[i + 1..])
    ensures log + FilesLog(s, fs[i..]) ==
      (log + PayloadLog(s, fs[i].name, p)) + FilesLog(ApplyPayload(s, p), fs[i + 1..])
  {
    assert fs[i..][0] == fs[i] && fs[i..][1..] == fs[i + 1..];
  }

  /** A file at `i` that cannot be parsed ends the run there. */
  lemma AbortAt(s: seq<Message>, fs: seq<FileEntry>, i: nat, log: seq<Outcome>)
    requires i < |fs| && fs[i].content.None?
    ensures ApplyFiles(s, fs[i..]) == s
    ensures log + FilesLog(s, fs[i..]) == log + [Aborted(fs[i].name)]
  {
    assert fs[i..][0] == fs[i];
  }

  /** `main`: the loop over the directory listing. */
  method ProcessFiles(db: Db, files: seq<FileEntry>) returns (log: seq<Outcome>)
    requires forall f :: f in files && f.content.Some? ==> PayloadWellFormed(f.content.value)
    modifies db
    ensures db.messages == ApplyFiles(old(db.messages), JsonFiles(files))
    ensures log == FilesLog(old(db.messages), JsonFiles(files))
    ensures db.members == old(db.members)
  {
    var fs := JsonFiles(files);
    ghost var target, targetLog := ApplyFiles(db.messages, fs), FilesLog(db.messages, fs);
    log := [];
    var i := 0;
    while i < |fs|
      invariant 0 <= i <= |fs|
      invariant ApplyFiles(db.messages, fs[i..]) == target
      invariant log + FilesLog(db.messages, fs[i..]) == targetLog
      invariant db.members == old(db.members)
    {
      var f := fs[i];
      if f.content.None? {
        AbortAt(db.messages, fs, i, log);
        log := log + [Aborted(f.name)];
        return;
      }
      assert f in fs;
      FileAt(db.messages, fs, i, f.content.value, log);
      var out := ProcessPayload(db, f.name, f.content.value);
      log := log + out;
      i := i + 1;
    }
  }
}
