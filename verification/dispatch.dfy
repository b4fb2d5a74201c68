/** The scheduled-message dispatcher (pasta_do_git/server/src/services/scheduler.ts): once a
    minute, the due `pending` records are read in ascending `scheduled_for` order and sent one at a
    time; each ends `sent` or `failed`, and a delivered recurring record gets a successor. The
    transport, the filesystem and the clock are fields of `Env`. */
module Dispatch {
  import opened Wrappers
  import opened Text
  import opened Calendar
  import opened Seqs
  import opened Records
  import opened Paths
  import opened Sessions
  import opened Recurrence

  const JidSuffix: string := "@s.whatsapp.net"

  /** The recipient as a chat id: kept when it already contains '@', otherwise its digits with
      the user suffix. */
  function NormaliseJid(phone: string): (r: string)
    ensures '@' in r
    ensures '@' in phone ==> r == phone
    ensures '@' !in phone ==> EndsWith(r, JidSuffix) && r[..|r| - |JidSuffix|] == DigitsOnly(phone)
  {
    if '@' in phone then phone
    else
      var r := DigitsOnly(phone) + JidSuffix;
      assert r[|r| - |JidSuffix|] == '@';
      r
  }

  /** Normalising twice is normalising once. */
  lemma NormaliseJidIdempotent(phone: string)
    ensures NormaliseJid(NormaliseJid(phone)) == NormaliseJid(phone)
  {
  }

  /** A phone written with separators and one written as bare digits reach the same chat. */
  lemma NormaliseJidIgnoresSeparators(phone: string)
    requires '@' !in phone
    ensures NormaliseJid(phone) == NormaliseJid(DigitsOnly(phone))
  {
    DigitsOnlyFromInput(phone);
    DigitsOnlyOfDigits(DigitsOnly(phone));
  }

  const OctetStream: string := "application/octet-stream"

  /** The mimetype chosen for a lower-cased extension, as the dispatcher's if-chain picks it. */
  function MimeFor(ext: string): (r: string)
    ensures r != ""
  {
    if ext == ".pdf" then "application/pdf"
    else if ext == ".jpg" || ext == ".jpeg" then "image/jpeg"
    else if ext == ".png" then "image/png"
    else if ext == ".doc" then "application/msword"
    else if ext == ".docx" then "application/vnd.openxmlformats-officedocument.wordprocessingml.document"
    else if ext == ".xls" then "application/vnd.ms-excel"
    else if ext == ".xlsx" then "application/vnd.openxmlformats-officedocument.spreadsheetml.sheet"
    else OctetStream
  }

  /** The extension table as data. */
  const MimeTable: map<string, string> := map[
    ".pdf" := "application/pdf",
    ".jpg" := "image/jpeg",
    ".jpeg" := "image/jpeg",
    ".png" := "image/png",
    ".doc" := "application/msword",
    ".docx" := "application/vnd.openxmlformats-officedocument.wordprocessingml.document",
    ".xls" := "application/vnd.ms-excel",
    ".xlsx" := "application/vnd.openxmlformats-officedocument.spreadsheetml.sheet"]

  /** The if-chain is the table, with everything outside it sent as a generic binary. */
  lemma MimeForIsTable(ext: string)
    ensures ext in MimeTable ==> MimeFor(ext) == MimeTable[ext]
    ensures ext !in MimeTable ==> MimeFor(ext) == OctetStream
  {
  }

  /** What the dispatcher hands to the socket. */
  datatype Outbound =
    | TextMessage(jid: string, text: string)
    | DocumentMessage(jid: string, mimetype: string, fileName: string, caption: string)

  /** How `sendMessage` ends: it resolves, or it throws (an `Error` with its message, or something
      else, which has none). */
  datatype SendResult = Accepted | Thrown(message: Option<string>)

  /** How one attempt ends: delivered, or not, with the text stored as `error_message`. */
  datatype Attempted = Delivered | Undelivered(reason: string)

  /** The world one tick runs in: the connection table, which attachment paths exist, what the
      socket does with each message, and the clock used for `sent_at`. */
  datatype Env = Env(mgr: Manager, fileExists: string -> bool, send: Outbound -> SendResult, clock: DateTime)

  const MissingAttachment: string := "Arquivo anexo não encontrado"

  function NotConnected(botId: BotId): string {
    "Bot " + botId + " not connected"
  }

  /** The message to send for a record, or the error that stops it before sending. */
  function Compose(m: ScheduledMessage, env: Env): (r: Result<Outbound, string>)
    ensures m.botId !in env.mgr.conns ==> r == Failure(NotConnected(m.botId))
    ensures m.botId in env.mgr.conns && Truthy(m.attachmentUrl) && !env.fileExists(m.attachmentUrl.value) ==>
              r == Failure(MissingAttachment)
    ensures r.Success? <==> m.botId in env.mgr.conns && (Truthy(m.attachmentUrl) ==> env.fileExists(m.attachmentUrl.value))
    ensures r.Success? ==> r.value.jid == NormaliseJid(m.recipientPhone)
    ensures r.Success? && !Truthy(m.attachmentUrl) ==> r.value == TextMessage(r.value.jid, m.messageText)
    ensures r.Success? && Truthy(m.attachmentUrl) ==>
              && r.value.DocumentMessage?
              && r.value.caption == m.messageText
              && r.value.fileName == Basename(m.attachmentUrl.value)
              && r.value.mimetype == MimeFor(ToLower(Extname(m.attachmentUrl.value)))
  {
    if m.botId !in env.mgr.conns then Failure(NotConnected(m.botId))
    else
      var jid := NormaliseJid(m.recipientPhone);
      if Truthy(m.attachmentUrl) then
        var url := m.attachmentUrl.value;
        if !env.fileExists(url) then Failure(MissingAttachment)
        else Success(DocumentMessage(jid, MimeFor(ToLower(Extname(url))), Basename(url), m.messageText))
      else Success(TextMessage(jid, m.messageText))
  }

  /** `sendScheduledMessage` up to the status update: compose, then send. */
  function Attempt(m: ScheduledMessage, env: Env): (r: Attempted)
    ensures r.Delivered? <==> Compose(m, env).Success? && env.send(Compose(m, env).value) == Accepted
    ensures Compose(m, env).Failure? ==> r == Undelivered(Compose(m, env).error)
    ensures Compose(m, env).Success? && env.send(Compose(m, env).value).Thrown? ==>
              r == Undelivered(env.send(Compose(m, env).value).message.GetOr("Unknown error"))
  {
    match Compose(m, env)
    case Failure(e) => Undelivered(e)
    case Success(o) =>
      match env.send(o)
      case Accepted => Delivered
      case Thrown(msg) => Undelivered(msg.GetOr("Unknown error"))
  }

  /** A record without a connection fails with the bot's id in the message. */
  lemma NotConnectedFails(m: ScheduledMessage, env: Env)
    requires m.botId !in env.mgr.conns
    ensures Attempt(m, env) == Undelivered("Bot " + m.botId + " not connected")
  {
  }

  /** The status update that closes an attempt. */
  function Apply(r: ScheduledMessage, a: Attempted, at: DateTime): (s: ScheduledMessage)
    ensures a.Delivered? ==> s == r.(status := Sent, sentAt := Some(at))
    ensures a.Undelivered? ==> s == r.(status := Failed, errorMessage := Some(a.reason))
  {
    match a
    case Delivered => r.(status := Sent, sentAt := Some(at))
    case Undelivered(e) => r.(status := Failed, errorMessage := Some(e))
  }

  /** An attempted record ends as exactly one of `sent` with `sent_at` or `failed` with
      `error_message`, and keeps every other field. */
  lemma ApplyEndsSentOrFailed(r: ScheduledMessage, a: Attempted, at: DateTime)
    ensures var s := Apply(r, a, at);
            && (s.status == Sent <==> a.Delivered?)
            && (s.status == Failed <==> a.Undelivered?)
            && (s.status == Sent ==> s.sentAt == Some(at) && s.errorMessage == r.errorMessage)
            && (s.status == Failed ==> s.errorMessage.Some? && s.sentAt == r.sentAt)
            && s.id == r.id && s.botId == r.botId && s.scheduledFor == r.scheduledFor
            && s.recurrenceType == r.recurrenceType && s.messageText == r.messageText
  {
  }

  /** The record `createRecurringMessage` inserts: a copy of the original at the next date, pending,
      with the columns it does not list left at their defaults. */
  function NextRecord(m: ScheduledMessage, next: DateTime): ScheduledMessage {
    m.(scheduledFor := next, status := Pending, sentAt := None, errorMessage := None, updatedAt := None)
  }

  /** The successor a record gets after this attempt, if any: only after delivery, only for a type
      other than `once`, and only when the type is one the switch knows. */
  function Respawn(m: ScheduledMessage, env: Env): (r: Option<ScheduledMessage>)
    ensures r.Some? ==> Attempt(m, env).Delivered?
    ensures r.Some? ==> m.recurrenceType.Daily? || m.recurrenceType.Weekly? || m.recurrenceType.Monthly?
    ensures r.Some? ==>
              && r.value.status == Pending
              && r.value.botId == m.botId && r.value.recipientPhone == m.recipientPhone
              && r.value.recipientName == m.recipientName && r.value.messageText == m.messageText
              && r.value.attachmentUrl == m.attachmentUrl && r.value.recurrenceType == m.recurrenceType
              && r.value.recurrenceDay == m.recurrenceDay && r.value.recurrenceWeekday == m.recurrenceWeekday
              && r.value.scheduledFor == NextOccurrence(m.scheduledFor, m.recurrenceType, m.recurrenceDay).value
    ensures Attempt(m, env).Delivered? && (m.recurrenceType.Daily? || m.recurrenceType.Weekly? || m.recurrenceType.Monthly?) ==> r.Some?
  {
    if Attempt(m, env).Delivered? && !m.recurrenceType.Once? then
      match NextOccurrence(m.scheduledFor, m.recurrenceType, m.recurrenceDay)
      case None => None
      case Some(n) => Some(NextRecord(m, n))
    else None
  }

  /** What one attempt decides for a record: how it ends and the successor it gets, if any. */
  datatype Outcome = Outcome(attempt: Attempted, successor: Option<ScheduledMessage>)

  /** The outcome of every record in `env`. The table steps below take the outcomes as a parameter,
      so what they state holds whatever the socket and the file system do. */
  function Outcomes(env: Env): ScheduledMessage -> Outcome {
    (m: ScheduledMessage) => Outcome(Attempt(m, env), Respawn(m, env))
  }

  /** The successor of `m`, as the row inserted under id `id` (none or one). */
  function Successors(m: ScheduledMessage, outcome: ScheduledMessage -> Outcome, id: nat): (r: seq<ScheduledMessage>)
    ensures |r| <= 1
    ensures |r| == 1 <==> outcome(m).successor.Some?
    ensures |r| == 1 ==> r[0] == outcome(m).successor.value.(id := id)
  {
    match outcome(m).successor
    case None => []
    case Some(x) => [x.(id := id)]
  }

  /** `sendScheduledMessage(m)` on the table: the attempt's status update, stamped `at`, on the row
      with `m`'s id, then the successor, if any, appended under the next id. */
  function Process(t: Table, m: ScheduledMessage, outcome: ScheduledMessage -> Outcome, at: DateTime): (r: Table)
    ensures |r.rows| == |t.rows| + |Successors(m, outcome, t.nextId)|
    ensures r.nextId == t.nextId + |Successors(m, outcome, t.nextId)|
  {
    var s := Successors(m, outcome, t.nextId);
    Table(UpdateRow(t.rows, m.id, (row: ScheduledMessage) => Apply(row, outcome(m).attempt, at)) + s, t.nextId + |s|)
  }

  /** The status update followed by the store's insert of the successor, when there is one. */
  lemma ProcessIsUpdateThenInsert(t: Table, m: ScheduledMessage, outcome: ScheduledMessage -> Outcome, at: DateTime)
    ensures var updated := Table(UpdateRow(t.rows, m.id, (row: ScheduledMessage) => Apply(row, outcome(m).attempt, at)), t.nextId);
            && (outcome(m).successor.None? ==> Process(t, m, outcome, at) == updated)
            && (outcome(m).successor.Some? ==> Process(t, m, outcome, at) == InsertRow(updated, outcome(m).successor.value))
  {
  }

  /** One step updates exactly the row with the record's id and appends the record's successor. */
  lemma ProcessStep(t: Table, m: ScheduledMessage, outcome: ScheduledMessage -> Outcome, at: DateTime)
    ensures Process(t, m, outcome, at).rows[|t.rows|..] == Successors(m, outcome, t.nextId)
    ensures forall i :: 0 <= i < |t.rows| ==>
              Process(t, m, outcome, at).rows[i] == (if t.rows[i].id == m.id then Apply(t.rows[i], outcome(m).attempt, at) else t.rows[i])
  {
  }

  /** One step keeps a well-formed table well formed. */
  lemma ProcessWellFormed(t: Table, m: ScheduledMessage, outcome: ScheduledMessage -> Outcome, at: DateTime)
    requires WellFormed(t)
    ensures WellFormed(Process(t, m, outcome, at))
  {
    var a := outcome(m).attempt;
    var t1 := Table(UpdateRow(t.rows, m.id, (row: ScheduledMessage) => Apply(row, a, at)), t.nextId);
    assert forall i :: 0 <= i < |t1.rows| ==> t1.rows[i].id == t.rows[i].id;
    ProcessIsUpdateThenInsert(t, m, outcome, at);
  }

  /** The snapshot processed in order, one record at a time. */
  function ProcessAll(t: Table, snap: seq<ScheduledMessage>, outcome: ScheduledMessage -> Outcome, at: DateTime): (r: Table)
    ensures |r.rows| >= |t.rows|
    decreases |snap|
  {
    if snap == [] then t else ProcessAll(Process(t, snap[0], outcome, at), snap[1..], outcome, at)
  }

  /** The successors a snapshot produces, in order, numbered from `id`. */
  function Spawned(snap: seq<ScheduledMessage>, outcome: ScheduledMessage -> Outcome, id: nat): (r: seq<ScheduledMessage>)
    ensures |r| <= |snap|
    decreases |snap|
  {
    if snap == [] then []
    else
      var first := Successors(snap[0], outcome, id);
      first + Spawned(snap[1..], outcome, id + |first|)
  }

  /** Every successor an outcome names is pending. */
  ghost predicate SuccessorsPending(outcome: ScheduledMessage -> Outcome) {
    forall m :: outcome(m).successor.Some? ==> outcome(m).successor.value.status == Pending
  }

  /** The successors are pending and numbered consecutively from `id`. */
  lemma {:induction false} SpawnedArePendingAndNumbered(snap: seq<ScheduledMessage>, outcome: ScheduledMessage -> Outcome, id: nat)
    requires SuccessorsPending(outcome)
    ensures forall i :: 0 <= i < |Spawned(snap, outcome, id)| ==>
              Spawned(snap, outcome, id)[i].status == Pending && Spawned(snap, outcome, id)[i].id == id + i
    decreases |snap|
  {
    if snap != [] {
      var first := Successors(snap[0], outcome, id);
      var rest := Spawned(snap[1..], outcome, id + |first|);
      SpawnedArePendingAndNumbered(snap[1..], outcome, id + |first|);
      var r := Spawned(snap, outcome, id);
      assert r == first + rest;
      forall i | 0 <= i < |r|
        ensures r[i].status == Pending && r[i].id == id + i
      {
        if i < |first| {
          assert r[i] == outcome(snap[0]).successor.value.(id := id);
        } else {
          assert r[i] == rest[i - |first|];
        }
      }
    }
  }

  /** The outcomes of a real environment only ever name pending successors. */
  lemma OutcomesSuccessorsPending(env: Env)
    ensures SuccessorsPending(Outcomes(env))
  {
    forall m | Outcomes(env)(m).successor.Some?
      ensures Outcomes(env)(m).successor.value.status == Pending
    {
      assert Outcomes(env)(m).successor == Respawn(m, env);
    }
  }

  /** A record is due when it is pending and its time is not after `now`. */
  predicate IsDue(m: ScheduledMessage, now: DateTime) {
    m.status == Pending && NotAfter(m.scheduledFor, now)
  }

  function ScheduledKey(m: ScheduledMessage): int {
    Ordinal(m.scheduledFor)
  }

  /** The fetch: the due records, ascending by `scheduled_for`. */
  function SelectDue(rows: seq<ScheduledMessage>, now: DateTime): (r: seq<ScheduledMessage>)
    ensures SortedBy(r, ScheduledKey)
    ensures multiset(r) == multiset(Filter(rows, (m: ScheduledMessage) => IsDue(m, now)))
  {
    SortBy(Filter(rows, (m: ScheduledMessage) => IsDue(m, now)), ScheduledKey)
  }

  /** The snapshot holds exactly the due rows, each once. */
  lemma {:induction false} SelectDueExactly(t: Table, now: DateTime)
    requires WellFormed(t)
    ensures var snap := SelectDue(t.rows, now);
            && NoDuplicates(snap)
            && (forall k :: 0 <= k < |snap| ==> snap[k] in t.rows && IsDue(snap[k], now))
            && (forall i :: 0 <= i < |t.rows| ==> (t.rows[i] in snap <==> IsDue(t.rows[i], now)))
  {
    var due := (m: ScheduledMessage) => IsDue(m, now);
    var f := Filter(t.rows, due);
    var snap := SelectDue(t.rows, now);
    assert NoDuplicates(t.rows);
    FilterNoDuplicates(t.rows, due);
    PermutationNoDuplicates(f, snap);
    forall k | 0 <= k < |snap|
      ensures snap[k] in t.rows && IsDue(snap[k], now)
    {
      assert snap[k] in multiset(f);
      var j :| 0 <= j < |f| && f[j] == snap[k];
    }
    forall i | 0 <= i < |t.rows|
      ensures t.rows[i] in snap <==> IsDue(t.rows[i], now)
    {
      if IsDue(t.rows[i], now) {
        assert t.rows[i] in f;
        assert t.rows[i] in multiset(snap);
      }
    }
  }

  /** The preconditions of processing a snapshot: its records are distinct rows of a well-formed table. */
  predicate SnapshotOf(t: Table, snap: seq<ScheduledMessage>) {
    && WellFormed(t)
    && (forall k :: 0 <= k < |snap| ==> snap[k] in t.rows)
    && NoDuplicates(snap)
  }

  /** Processing any snapshot keeps a well-formed table well formed. */
  lemma {:induction false} ProcessAllWellFormed(t: Table, snap: seq<ScheduledMessage>, outcome: ScheduledMessage -> Outcome, at: DateTime)
    requires WellFormed(t)
    ensures WellFormed(ProcessAll(t, snap, outcome, at))
    decreases |snap|
  {
    if snap != [] {
      ProcessWellFormed(t, snap[0], outcome, at);
      ProcessAllWellFormed(Process(t, snap[0], outcome, at), snap[1..], outcome, at);
    }
  }

  /** Processing a snapshot adds exactly one row, under the next id, per successor. */
  lemma {:induction false} ProcessAllGrowth(t: Table, snap: seq<ScheduledMessage>, outcome: ScheduledMessage -> Outcome, at: DateTime)
    ensures var r := ProcessAll(t, snap, outcome, at);
            var s := Spawned(snap, outcome, t.nextId);
            |r.rows| == |t.rows| + |s| && r.nextId == t.nextId + |s|
    decreases |snap|
  {
    if snap != [] {
      var t1 := Process(t, snap[0], outcome, at);
      ProcessAllGrowth(t1, snap[1..], outcome, at);
      SpawnedFirst(snap, outcome, t.nextId);
      assert ProcessAll(t, snap, outcome, at) == ProcessAll(t1, snap[1..], outcome, at);
    }
  }

  /** The update one record's own attempt makes to it. */
  function Updated(m: ScheduledMessage, outcome: ScheduledMessage -> Outcome, at: DateTime): ScheduledMessage {
    Apply(m, outcome(m).attempt, at)
  }

  /** Processing a snapshot of distinct rows of a well-formed table: every row of the table that is
      in the snapshot gets the status update of its own attempt, and every other row stays as it was. */
  lemma {:induction false} ProcessAllRows(t: Table, snap: seq<ScheduledMessage>, outcome: ScheduledMessage -> Outcome, at: DateTime)
    requires SnapshotOf(t, snap)
    ensures var r := ProcessAll(t, snap, outcome, at);
            forall i :: 0 <= i < |t.rows| ==>
              r.rows[i] == (if t.rows[i] in snap then Updated(t.rows[i], outcome, at) else t.rows[i])
    decreases |snap|
  {
    if snap != [] {
      var t1 := Process(t, snap[0], outcome, at);
      RestSnapshot(t, snap, outcome, at);
      ProcessAllRows(t1, snap[1..], outcome, at);
      var r := ProcessAll(t1, snap[1..], outcome, at);
      forall i | 0 <= i < |t.rows|
        ensures r.rows[i] == (if t.rows[i] in snap then Updated(t.rows[i], outcome, at) else t.rows[i])
      {
        RowAfterStep(t, snap, outcome, at, r.rows[i], i);
      }
    }
  }

  /** How one existing row fares across the first step and the rest of a snapshot. */
  lemma RowAfterStep(t: Table, snap: seq<ScheduledMessage>, outcome: ScheduledMessage -> Outcome, at: DateTime,
                     x: ScheduledMessage, i: nat)
    requires SnapshotOf(t, snap) && snap != [] && i < |t.rows|
    requires var t1 := Process(t, snap[0], outcome, at);
             i < |t1.rows| &&
             x == (if t1.rows[i] in snap[1..] then Updated(t1.rows[i], outcome, at) else t1.rows[i])
    ensures x == (if t.rows[i] in snap then Updated(t.rows[i], outcome, at) else t.rows[i])
  {
    var m := snap[0];
    ProcessStep(t, m, outcome, at);
    var j0 :| 0 <= j0 < |t.rows| && t.rows[j0] == m;
    if t.rows[i] == m {
      NotInRest(t, snap, Updated(m, outcome, at));
    } else {
      assert t.rows[i].id != m.id;
      assert t.rows[i] in snap <==> t.rows[i] in snap[1..];
    }
  }

  /** Every record of the snapshot has an id below `bound`. */
  predicate IdsBelow(snap: seq<ScheduledMessage>, bound: nat) {
    forall k :: 0 <= k < |snap| ==> snap[k].id < bound
  }

  /** A row whose id no record of the snapshot has keeps its place and value. */
  lemma {:induction false} UntouchedRow(t: Table, snap: seq<ScheduledMessage>, outcome: ScheduledMessage -> Outcome, at: DateTime, i: nat)
    requires i < |t.rows|
    requires forall k :: 0 <= k < |snap| ==> snap[k].id != t.rows[i].id
    ensures var r := ProcessAll(t, snap, outcome, at);
            i < |r.rows| && r.rows[i] == t.rows[i]
    decreases |snap|
  {
    if snap != [] {
      var t1 := Process(t, snap[0], outcome, at);
      ProcessStep(t, snap[0], outcome, at);
      assert t1.rows[i] == t.rows[i];
      UntouchedRow(t1, snap[1..], outcome, at, i);
    }
  }

  /** The rows after the existing ones are the snapshot's successors, in snapshot order. */
  lemma {:induction false} ProcessAllAppends(t: Table, snap: seq<ScheduledMessage>, outcome: ScheduledMessage -> Outcome, at: DateTime)
    requires IdsBelow(snap, t.nextId)
    ensures var r := ProcessAll(t, snap, outcome, at);
            |r.rows| >= |t.rows| && r.rows[|t.rows|..] == Spawned(snap, outcome, t.nextId)
    decreases |snap|
  {
    if snap != [] {
      var t1 := Process(t, snap[0], outcome, at);
      var r := ProcessAll(t1, snap[1..], outcome, at);
      var first := Successors(snap[0], outcome, t.nextId);
      assert IdsBelow(snap[1..], t1.nextId);
      ProcessAllAppends(t1, snap[1..], outcome, at);
      FirstSuccessorsKept(t, snap, outcome, at);
      var later := Spawned(snap[1..], outcome, t1.nextId);
      SpawnedFirst(snap, outcome, t.nextId);
      SliceSplit(r.rows, |t.rows|, |t1.rows|);
      assert ProcessAll(t, snap, outcome, at) == r;
      calc {
        r.rows[|t.rows|..];
        r.rows[|t.rows|..|t1.rows|] + r.rows[|t1.rows|..];
        { assert r.rows[|t.rows|..|t1.rows|] == first; assert r.rows[|t1.rows|..] == later; }
        first + later;
      }
    }
  }

  lemma SpawnedFirst(snap: seq<ScheduledMessage>, outcome: ScheduledMessage -> Outcome, id: nat)
    requires snap != []
    ensures var first := Successors(snap[0], outcome, id);
            Spawned(snap, outcome, id) == first + Spawned(snap[1..], outcome, id + |first|)
  {
  }

  lemma SliceSplit<T>(s: seq<T>, a: nat, b: nat)
    requires a <= b <= |s|
    ensures s[a..] == s[a..b] + s[b..]
  {
  }

  /** The successors of the first record keep their place and value through the rest of the snapshot. */
  lemma FirstSuccessorsKept(t: Table, snap: seq<ScheduledMessage>, outcome: ScheduledMessage -> Outcome, at: DateTime)
    requires IdsBelow(snap, t.nextId) && snap != []
    ensures var t1 := Process(t, snap[0], outcome, at);
            var r := ProcessAll(t1, snap[1..], outcome, at);
            |r.rows| >= |t1.rows| && r.rows[|t.rows|..|t1.rows|] == Successors(snap[0], outcome, t.nextId)
  {
    var t1 := Process(t, snap[0], outcome, at);
    var r := ProcessAll(t1, snap[1..], outcome, at);
    ProcessStep(t, snap[0], outcome, at);
    forall i | |t.rows| <= i < |t1.rows|
      ensures r.rows[i] == t1.rows[i]
    {
      assert t1.rows[i] == Successors(snap[0], outcome, t.nextId)[i - |t.rows|];
      UntouchedRow(t1, snap[1..], outcome, at, i);
    }
  }

  /** After the first record of a duplicate-free snapshot of table rows, no remaining record has
      its id or any id at or above the table's next id. */
  lemma NotInRest(t: Table, snap: seq<ScheduledMessage>, x: ScheduledMessage)
    requires WellFormed(t) && snap != []
    requires forall k :: 0 <= k < |snap| ==> snap[k] in t.rows
    requires NoDuplicates(snap)
    requires x.id == snap[0].id || x.id >= t.nextId
    ensures x !in snap[1..]
  {
    var j0 :| 0 <= j0 < |t.rows| && t.rows[j0] == snap[0];
    forall k | 0 <= k < |snap| - 1
      ensures snap[1..][k] != x
    {
      var jk :| 0 <= jk < |t.rows| && t.rows[jk] == snap[k + 1];
      assert snap[k + 1] != snap[0];
      assert jk != j0;
    }
  }

  /** After the first step, the rest of a snapshot is a snapshot of the new table. */
  lemma RestSnapshot(t: Table, snap: seq<ScheduledMessage>, outcome: ScheduledMessage -> Outcome, at: DateTime)
    requires SnapshotOf(t, snap) && snap != []
    ensures SnapshotOf(Process(t, snap[0], outcome, at), snap[1..])
  {
    var t1 := Process(t, snap[0], outcome, at);
    ProcessStep(t, snap[0], outcome, at);
    ProcessWellFormed(t, snap[0], outcome, at);
    var j0 :| 0 <= j0 < |t.rows| && t.rows[j0] == snap[0];
    forall k | 0 <= k < |snap| - 1
      ensures snap[1..][k] in t1.rows
    {
      var x := snap[k + 1];
      var jx :| 0 <= jx < |t.rows| && t.rows[jx] == x;
      assert x != snap[0];
      assert jx != j0;
      assert t1.rows[jx] == x;
    }
  }

  /** One scheduler tick at `env.clock`. A failed fetch or an empty snapshot changes nothing. */
  function Tick(t: Table, fetchOk: bool, env: Env): (r: Table)
    ensures !fetchOk ==> r == t
  {
    if !fetchOk then t
    else
      var snap := SelectDue(t.rows, env.clock);
      if snap == [] then t else ProcessAll(t, snap, Outcomes(env), env.clock)
  }

  /** A tick keeps a well-formed table well formed. */
  lemma TickWellFormed(t: Table, fetchOk: bool, env: Env)
    requires WellFormed(t)
    ensures WellFormed(Tick(t, fetchOk, env))
  {
    if fetchOk {
      ProcessAllWellFormed(t, SelectDue(t.rows, env.clock), Outcomes(env), env.clock);
    }
  }

  /** What a tick does to the rows already there: each due record gets its own attempt's status
      update, every other record is untouched. */
  lemma TickUpdatesDueRows(t: Table, fetchOk: bool, env: Env)
    requires WellFormed(t)
    requires fetchOk
    ensures |Tick(t, fetchOk, env).rows| >= |t.rows|
    ensures forall i :: 0 <= i < |t.rows| ==>
              Tick(t, fetchOk, env).rows[i] ==
                (if IsDue(t.rows[i], env.clock) then Apply(t.rows[i], Attempt(t.rows[i], env), env.clock) else t.rows[i])
  {
    var snap := SelectDue(t.rows, env.clock);
    SelectDueExactly(t, env.clock);
    if snap != [] {
      ProcessAllRows(t, snap, Outcomes(env), env.clock);
    }
  }

  /** What a tick appends: the successors of the delivered recurring records, in ascending
      `scheduled_for` order, pending and under fresh consecutive ids. */
  lemma TickAppendsSuccessors(t: Table, fetchOk: bool, env: Env)
    requires WellFormed(t)
    requires fetchOk
    ensures |Tick(t, fetchOk, env).rows| == |t.rows| + |Spawned(SelectDue(t.rows, env.clock), Outcomes(env), t.nextId)|
    ensures Tick(t, fetchOk, env).rows[|t.rows|..] == Spawned(SelectDue(t.rows, env.clock), Outcomes(env), t.nextId)
    ensures forall i :: 0 <= i < |Spawned(SelectDue(t.rows, env.clock), Outcomes(env), t.nextId)| ==>
              && Spawned(SelectDue(t.rows, env.clock), Outcomes(env), t.nextId)[i].status == Pending
              && Spawned(SelectDue(t.rows, env.clock), Outcomes(env), t.nextId)[i].id == t.nextId + i
  {
    var snap := SelectDue(t.rows, env.clock);
    OutcomesSuccessorsPending(env);
    SpawnedArePendingAndNumbered(snap, Outcomes(env), t.nextId);
    if snap != [] {
      SelectDueExactly(t, env.clock);
      ProcessAllGrowth(t, snap, Outcomes(env), env.clock);
      forall k | 0 <= k < |snap|
        ensures snap[k].id < t.nextId
      {
        var j :| 0 <= j < |t.rows| && t.rows[j] == snap[k];
      }
      ProcessAllAppends(t, snap, Outcomes(env), env.clock);
    }
  }

  /** A record that is not pending, or is scheduled after now, is never touched by a tick. */
  lemma NotDueUntouched(t: Table, fetchOk: bool, env: Env, i: nat)
    requires WellFormed(t)
    requires i < |t.rows| && !IsDue(t.rows[i], env.clock)
    ensures Tick(t, fetchOk, env).rows[i] == t.rows[i]
  {
    if fetchOk {
      TickUpdatesDueRows(t, fetchOk, env);
    }
  }
}
