/** The scheduling routes (server/src/routes/scheduling.ts) over the in-memory
    `scheduled_messages` and `message_templates` tables. Request bodies arrive already decoded:
    a field the client left out (or sent as null or "") is `None` or falsy, as JavaScript sees it.
    `storeOk` says whether the store answers; when it does not, the handler's catch answers 500. */
module SchedulingRoutes {
  import opened Wrappers
  import opened Text
  import opened Calendar
  import opened Seqs
  import opened Records
  import opened Http
  import opened Dispatch

  const MissingFields: string := "Missing required fields"
  const NotEditable: string := "Cannot edit non-pending messages"

  /** How a status is written in the `status` column and in a `?status=` query. */
  function StatusName(s: MessageStatus): string {
    match s
    case Pending => "pending"
    case Sent => "sent"
    case Failed => "failed"
    case Cancelled => "cancelled"
  }

  /** Different statuses are written differently, so a status filter picks one status. */
  lemma StatusNameInjective(a: MessageStatus, b: MessageStatus)
    ensures StatusName(a) == StatusName(b) <==> a == b
  {
  }

  // ---------------------------------------------------------------- GET /messages

  /** A record passes the list filters: the bot filter and the status filter each apply only
      when the query gives a non-empty value. */
  predicate Listed(m: ScheduledMessage, botId: Option<string>, status: Option<string>) {
    && (Truthy(botId) ==> m.botId == botId.value)
    && (Truthy(status) ==> StatusName(m.status) == status.value)
  }

  /** `GET /messages?botId&status`: the matching records, ascending by `scheduled_for`. */
  function ListMessages(t: Table, botId: Option<string>, status: Option<string>, storeOk: bool)
    : (r: Response<seq<ScheduledMessage>>)
    ensures !storeOk ==> r == Error(500, "Failed to fetch scheduled messages")
    ensures storeOk ==> r.Json? && r.code == 200
    ensures storeOk ==> SortedBy(r.data, ScheduledKey)
    ensures storeOk ==> forall i :: 0 <= i < |r.data| ==> r.data[i] in t.rows && Listed(r.data[i], botId, status)
  {
    if !storeOk then Error(500, "Failed to fetch scheduled messages")
    else
      var f := Filter(t.rows, (m: ScheduledMessage) => Listed(m, botId, status));
      var r := SortBy(f, ScheduledKey);
      assert forall i :: 0 <= i < |r| ==> r[i] in multiset(f);
      Json(200, r)
  }

  /** On a well-formed table the list holds every matching record exactly once. */
  lemma ListIsExactlyTheMatches(t: Table, botId: Option<string>, status: Option<string>)
    requires WellFormed(t)
    ensures NoDuplicates(ListMessages(t, botId, status, true).data)
    ensures forall m :: m in ListMessages(t, botId, status, true).data <==> m in t.rows && Listed(m, botId, status)
  {
    assert NoDuplicates(t.rows);
    SelectionExactly(t.rows, (m: ScheduledMessage) => Listed(m, botId, status), ScheduledKey);
  }

  /** Without filters the list is the whole table, each record once. */
  lemma UnfilteredListIsEverything(t: Table)
    requires WellFormed(t)
    ensures forall m :: m in ListMessages(t, None, Some(""), true).data <==> m in t.rows
  {
    ListIsExactlyTheMatches(t, None, Some(""));
  }

  // ---------------------------------------------------------------- POST /messages

  /** The fields `POST /messages` reads from its body. `status` is there only to show that it is
      not read: the handler destructures the fields it uses and writes `pending` itself. */
  datatype NewMessage = NewMessage(
    botId: Option<string>,
    recipientPhone: Option<string>,
    recipientName: Option<string>,
    messageText: Option<string>,
    attachmentUrl: Option<string>,
    scheduledFor: Option<DateTime>,
    recurrenceType: Option<string>,
    recurrenceDay: Option<int>,
    recurrenceWeekday: Option<int>,
    status: Option<string>)

  /** The four fields the handler insists on. */
  predicate HasRequired(b: NewMessage) {
    Truthy(b.botId) && Truthy(b.recipientPhone) && Truthy(b.messageText) && b.scheduledFor.Some?
  }

  /** `recurrence_type || 'once'`. */
  function RecurrenceOf(b: NewMessage): (r: RecurrenceType)
    ensures r == Once <==> b.recurrenceType.None? || b.recurrenceType.value == "" || b.recurrenceType.value == "once"
    ensures r != Once ==> b.recurrenceType.Some? && RecurrenceName(r) == b.recurrenceType.value
  {
    if Truthy(b.recurrenceType) then ParseRecurrence(b.recurrenceType.value) else Once
  }

  /** The row the handler inserts, before the store gives it its id. */
  function NewRow(b: NewMessage): ScheduledMessage
    requires HasRequired(b)
  {
    ScheduledMessage(0, b.botId.value, b.recipientPhone.value, b.recipientName, b.messageText.value,
                     b.attachmentUrl, b.scheduledFor.value, RecurrenceOf(b), b.recurrenceDay,
                     b.recurrenceWeekday, Pending, None, None, None)
  }

  /** `POST /messages`: 400 when a required field is missing, otherwise the insert (201 with the
      stored row). The stored row is pending whatever the body says, and its recurrence type
      defaults to `once`. */
  function CreateMessage(t: Table, b: NewMessage, storeOk: bool): (r: (Table, Response<ScheduledMessage>))
    ensures !HasRequired(b) ==> r == (t, Error(400, MissingFields))
    ensures HasRequired(b) && !storeOk ==> r == (t, Error(500, "Failed to create scheduled message"))
    ensures HasRequired(b) && storeOk ==>
              && r.1.Json? && r.1.code == 201
              && r.0.rows == t.rows + [r.1.data] && r.0.nextId == t.nextId + 1
              && r.1.data.id == t.nextId
              && r.1.data.status == Pending
              && r.1.data.botId == b.botId.value && r.1.data.recipientPhone == b.recipientPhone.value
              && r.1.data.messageText == b.messageText.value && r.1.data.scheduledFor == b.scheduledFor.value
              && r.1.data.recipientName == b.recipientName && r.1.data.attachmentUrl == b.attachmentUrl
              && r.1.data.recurrenceType == RecurrenceOf(b)
              && r.1.data.recurrenceDay == b.recurrenceDay && r.1.data.recurrenceWeekday == b.recurrenceWeekday
              && r.1.data.sentAt.None? && r.1.data.errorMessage.None?
    ensures WellFormed(t) ==> WellFormed(r.0)
  {
    if !HasRequired(b) then (t, Error(400, MissingFields))
    else if !storeOk then (t, Error(500, "Failed to create scheduled message"))
    else
      var t1 := InsertRow(t, NewRow(b));
      (t1, Json(201, t1.rows[|t.rows|]))
  }

  /** A `status` in the body makes no difference. */
  lemma CreateIgnoresBodyStatus(t: Table, b: NewMessage, s: Option<string>, storeOk: bool)
    ensures CreateMessage(t, b.(status := s), storeOk) == CreateMessage(t, b, storeOk)
  {
  }

  /** A created record is listed among its bot's pending records, and the scheduler finds it due
      from its `scheduled_for` on. */
  lemma CreatedIsListedAndDue(t: Table, b: NewMessage, now: DateTime)
    requires WellFormed(t) && HasRequired(b)
    requires NotAfter(b.scheduledFor.value, now)
    ensures var r := CreateMessage(t, b, true);
            && r.1.data in ListMessages(r.0, b.botId, Some("pending"), true).data
            && IsDue(r.1.data, now)
  {
    var r := CreateMessage(t, b, true);
    assert r.1.data == r.0.rows[|t.rows|];
    ListIsExactlyTheMatches(r.0, b.botId, Some("pending"));
  }

  // ---------------------------------------------------------------- PUT /messages/:id

  /** The fields a `PUT /messages/:id` body may carry; `...updates` copies each one given. */
  datatype MessagePatch = MessagePatch(
    botId: Option<BotId>,
    recipientPhone: Option<string>,
    recipientName: Option<Option<string>>,
    messageText: Option<string>,
    attachmentUrl: Option<Option<string>>,
    scheduledFor: Option<DateTime>,
    recurrenceType: Option<RecurrenceType>,
    recurrenceDay: Option<Option<int>>,
    recurrenceWeekday: Option<Option<int>>,
    status: Option<MessageStatus>,
    sentAt: Option<Option<DateTime>>,
    errorMessage: Option<Option<string>>)

  /** `{ ...updates, updated_at: now }` applied to one row. */
  function Merge(m: ScheduledMessage, p: MessagePatch, now: DateTime): ScheduledMessage {
    m.(botId := p.botId.GetOr(m.botId),
       recipientPhone := p.recipientPhone.GetOr(m.recipientPhone),
       recipientName := p.recipientName.GetOr(m.recipientName),
       messageText := p.messageText.GetOr(m.messageText),
       attachmentUrl := p.attachmentUrl.GetOr(m.attachmentUrl),
       scheduledFor := p.scheduledFor.GetOr(m.scheduledFor),
       recurrenceType := p.recurrenceType.GetOr(m.recurrenceType),
       recurrenceDay := p.recurrenceDay.GetOr(m.recurrenceDay),
       recurrenceWeekday := p.recurrenceWeekday.GetOr(m.recurrenceWeekday),
       status := p.status.GetOr(m.status),
       sentAt := p.sentAt.GetOr(m.sentAt),
       errorMessage := p.errorMessage.GetOr(m.errorMessage),
       updatedAt := Some(now))
  }

  /** Merging keeps the id, takes every field the patch gives (the bot, `sent_at` and
      `error_message` included: the body is copied as it comes), keeps every field it does not
      give, and stamps `updated_at`. */
  lemma MergeTakesPatch(m: ScheduledMessage, p: MessagePatch, now: DateTime)
    ensures var x := Merge(m, p, now);
            && x.id == m.id && x.updatedAt == Some(now)
            && (p.botId.Some? ==> x.botId == p.botId.value) && (p.botId.None? ==> x.botId == m.botId)
            && (p.recipientPhone.Some? ==> x.recipientPhone == p.recipientPhone.value)
            && (p.recipientPhone.None? ==> x.recipientPhone == m.recipientPhone)
            && (p.recipientName.Some? ==> x.recipientName == p.recipientName.value)
            && (p.recipientName.None? ==> x.recipientName == m.recipientName)
            && (p.messageText.Some? ==> x.messageText == p.messageText.value)
            && (p.messageText.None? ==> x.messageText == m.messageText)
            && (p.attachmentUrl.Some? ==> x.attachmentUrl == p.attachmentUrl.value)
            && (p.attachmentUrl.None? ==> x.attachmentUrl == m.attachmentUrl)
            && (p.scheduledFor.Some? ==> x.scheduledFor == p.scheduledFor.value)
            && (p.scheduledFor.None? ==> x.scheduledFor == m.scheduledFor)
            && (p.recurrenceType.Some? ==> x.recurrenceType == p.recurrenceType.value)
            && (p.recurrenceType.None? ==> x.recurrenceType == m.recurrenceType)
            && (p.recurrenceDay.Some? ==> x.recurrenceDay == p.recurrenceDay.value)
            && (p.recurrenceDay.None? ==> x.recurrenceDay == m.recurrenceDay)
            && (p.recurrenceWeekday.Some? ==> x.recurrenceWeekday == p.recurrenceWeekday.value)
            && (p.recurrenceWeekday.None? ==> x.recurrenceWeekday == m.recurrenceWeekday)
            && (p.status.Some? ==> x.status == p.status.value) && (p.status.None? ==> x.status == m.status)
            && (p.sentAt.Some? ==> x.sentAt == p.sentAt.value) && (p.sentAt.None? ==> x.sentAt == m.sentAt)
            && (p.errorMessage.Some? ==> x.errorMessage == p.errorMessage.value)
            && (p.errorMessage.None? ==> x.errorMessage == m.errorMessage)
  {
  }

  /** An empty body only stamps `updated_at`, and merging the same body twice is merging it once. */
  lemma MergeEmptyAndTwice(m: ScheduledMessage, p: MessagePatch, now: DateTime)
    ensures Merge(m, MessagePatch(None, None, None, None, None, None, None, None, None, None, None, None), now)
            == m.(updatedAt := Some(now))
    ensures Merge(Merge(m, p, now), p, now) == Merge(m, p, now)
  {
  }

  /** A pending row with id `id` exists. */
  predicate EditableIn(t: Table, id: nat) {
    exists i :: 0 <= i < |t.rows| && t.rows[i].id == id && t.rows[i].status == Pending
  }

  /** `PUT /messages/:id`: the status lookup first (a missing row, a failed lookup and a
      non-pending row all answer 400 and change nothing), then the merge on the row with that id. */
  function EditMessage(t: Table, id: nat, p: MessagePatch, now: DateTime, storeOk: bool)
    : (r: (Table, Response<ScheduledMessage>))
    ensures r.1.Error? ==> r == (t, Error(400, NotEditable))
    ensures WellFormed(t) ==> (r.1.Json? <==> storeOk && EditableIn(t, id))
    ensures r.1.Json? ==>
              && r.1.code == 200
              && |r.0.rows| == |t.rows| && r.0.nextId == t.nextId
              && (forall i :: 0 <= i < |t.rows| ==>
                    r.0.rows[i] == (if t.rows[i].id == id then Merge(t.rows[i], p, now) else t.rows[i]))
              && r.1.data.id == id && r.1.data.updatedAt == Some(now)
    ensures WellFormed(t) ==> WellFormed(r.0)
  {
    var existing := if storeOk then FindRow(t.rows, id) else None;
    if existing.None? || existing.value.status != Pending then (t, Error(400, NotEditable))
    else
      var rows := UpdateRow(t.rows, id, (m: ScheduledMessage) => Merge(m, p, now));
      assert forall i :: 0 <= i < |rows| ==> rows[i].id == t.rows[i].id;
      (Table(rows, t.nextId), Json(200, Merge(existing.value, p, now)))
  }

  /** The edit answers with the row as it is now stored. */
  lemma EditAnswersStoredRow(t: Table, id: nat, p: MessagePatch, now: DateTime)
    requires WellFormed(t) && EditableIn(t, id)
    ensures var r := EditMessage(t, id, p, now, true);
            r.1.Json? && r.1.data in r.0.rows
  {
    var r := EditMessage(t, id, p, now, true);
    var i :| 0 <= i < |t.rows| && t.rows[i].id == id && t.rows[i].status == Pending;
    assert FindRow(t.rows, id).value == t.rows[i];
    assert r.0.rows[i] == r.1.data;
  }

  /** The edit may set the status itself: a pending record can be edited straight to `sent`
      without being sent, after which it can no longer be edited. */
  lemma EditCanSetStatus(t: Table, id: nat, p: MessagePatch, now: DateTime)
    requires WellFormed(t) && EditableIn(t, id)
    requires p.status == Some(Sent)
    ensures var r := EditMessage(t, id, p, now, true);
            && r.1.Json? && r.1.data.status == Sent
            && !EditableIn(r.0, id)
  {
    var r := EditMessage(t, id, p, now, true);
    forall i | 0 <= i < |r.0.rows| && r.0.rows[i].id == id
      ensures r.0.rows[i].status != Pending
    {
      assert t.rows[i].id == id;
    }
  }

  // ---------------------------------------------------------------- DELETE /messages/:id

  /** `DELETE /messages/:id`: the row with that id becomes `cancelled`, whatever its status was;
      a missing id is not an error. */
  function CancelMessage(t: Table, id: nat, storeOk: bool): (r: (Table, Response<ScheduledMessage>))
    ensures !storeOk ==> r == (t, Error(500, "Failed to cancel scheduled message"))
    ensures storeOk ==> r.1 == Ack(200, "Scheduled message cancelled")
    ensures storeOk ==> |r.0.rows| == |t.rows| && r.0.nextId == t.nextId
    ensures storeOk ==> forall i :: 0 <= i < |t.rows| ==>
              r.0.rows[i] == (if t.rows[i].id == id then t.rows[i].(status := Cancelled) else t.rows[i])
    ensures WellFormed(t) ==> WellFormed(r.0)
  {
    if !storeOk then (t, Error(500, "Failed to cancel scheduled message"))
    else
      var rows := UpdateRow(t.rows, id, (m: ScheduledMessage) => m.(status := Cancelled));
      assert forall i :: 0 <= i < |rows| ==> rows[i].id == t.rows[i].id;
      (Table(rows, t.nextId), Ack(200, "Scheduled message cancelled"))
  }

  /** Cancelling does not look at the status: a record already `sent` (or `failed`) becomes
      `cancelled`, so a record's status can move backwards from the scheduler's point of view. */
  lemma CancelIsUnconditional(t: Table, id: nat, i: nat)
    requires i < |t.rows| && t.rows[i].id == id && t.rows[i].status == Sent
    ensures CancelMessage(t, id, true).0.rows[i].status == Cancelled
  {
  }

  /** A cancelled record is never due, so no later tick sends it. */
  lemma CancelledIsNeverSent(t: Table, id: nat, i: nat, fetchOk: bool, env: Env)
    requires WellFormed(t) && i < |t.rows| && t.rows[i].id == id
    ensures var c := CancelMessage(t, id, true).0;
            && c.rows[i].status == Cancelled
            && Tick(c, fetchOk, env).rows[i] == c.rows[i]
  {
    var c := CancelMessage(t, id, true).0;
    NotDueUntouched(c, fetchOk, env, i);
  }

  /** A cancelled record cannot be edited back. */
  lemma CancelledIsNotEditable(t: Table, id: nat)
    requires WellFormed(t)
    ensures !EditableIn(CancelMessage(t, id, true).0, id)
  {
  }

  // ---------------------------------------------------------------- /templates

  datatype Template = Template(
    id: nat,
    botId: BotId,
    name: string,
    category: Option<string>,
    messageText: string,
    variables: Option<seq<string>>,
    createdAt: DateTime,
    updatedAt: Option<DateTime>)

  datatype TemplateTable = TemplateTable(rows: seq<Template>, nextId: nat)

  /** The fields `POST /templates` reads from its body. */
  datatype NewTemplate = NewTemplate(
    botId: Option<string>,
    name: Option<string>,
    category: Option<string>,
    messageText: Option<string>,
    variables: Option<seq<string>>)

  /** Newest first: `created_at` descending. */
  function NewestKey(x: Template): int {
    -Ordinal(x.createdAt)
  }

  /** The template passes the optional bot filter. */
  predicate TemplateListed(x: Template, botId: Option<string>) {
    Truthy(botId) ==> x.botId == botId.value
  }

  /** `GET /templates?botId`: the bot's templates (all, without a bot filter), newest first. */
  function ListTemplates(tt: TemplateTable, botId: Option<string>, storeOk: bool): (r: Response<seq<Template>>)
    ensures !storeOk ==> r == Error(500, "Failed to fetch templates")
    ensures storeOk ==> r.Json? && r.code == 200 && SortedBy(r.data, NewestKey)
  {
    if !storeOk then Error(500, "Failed to fetch templates")
    else Json(200, SortBy(Filter(tt.rows, (x: Template) => TemplateListed(x, botId)), NewestKey))
  }

  /** The template list holds exactly the templates that pass the filter, and a later entry was
      never created after an earlier one. */
  lemma TemplatesListedNewestFirst(tt: TemplateTable, botId: Option<string>)
    ensures var l := ListTemplates(tt, botId, true).data;
            && (forall x :: x in l <==> x in tt.rows && TemplateListed(x, botId))
            && (forall i, j :: 0 <= i < j < |l| ==> NotAfter(l[j].createdAt, l[i].createdAt))
  {
    var f := Filter(tt.rows, (x: Template) => TemplateListed(x, botId));
    var l := ListTemplates(tt, botId, true).data;
    forall x
      ensures x in l <==> x in tt.rows && TemplateListed(x, botId)
    {
      assert x in l <==> x in multiset(l);
      assert x in f <==> x in multiset(f);
      assert x in f ==> x in tt.rows && TemplateListed(x, botId) by {
        forall i | 0 <= i < |f| && f[i] == x
          ensures x in tt.rows && TemplateListed(x, botId)
        {
        }
      }
      assert x in tt.rows && TemplateListed(x, botId) ==> x in f by {
        forall i | 0 <= i < |tt.rows| && tt.rows[i] == x && TemplateListed(x, botId)
          ensures x in f
        {
        }
      }
    }
    forall i, j | 0 <= i < j < |l|
      ensures NotAfter(l[j].createdAt, l[i].createdAt)
    {
      assert NewestKey(l[i]) <= NewestKey(l[j]);
    }
  }

  /** `POST /templates`: 400 unless the bot, the name and the text are given, otherwise the insert
      under the next id, created `now`. */
  function CreateTemplate(tt: TemplateTable, b: NewTemplate, now: DateTime, storeOk: bool)
    : (r: (TemplateTable, Response<Template>))
    ensures !(Truthy(b.botId) && Truthy(b.name) && Truthy(b.messageText)) ==> r == (tt, Error(400, MissingFields))
    ensures Truthy(b.botId) && Truthy(b.name) && Truthy(b.messageText) && !storeOk ==>
              r == (tt, Error(500, "Failed to create template"))
    ensures r.1.Json? ==>
              && r.1.code == 201
              && r.0 == TemplateTable(tt.rows + [r.1.data], tt.nextId + 1)
              && r.1.data == Template(tt.nextId, b.botId.value, b.name.value, b.category, b.messageText.value,
                                      b.variables, now, None)
    ensures r.1.Json? <==> Truthy(b.botId) && Truthy(b.name) && Truthy(b.messageText) && storeOk
  {
    if !(Truthy(b.botId) && Truthy(b.name) && Truthy(b.messageText)) then (tt, Error(400, MissingFields))
    else if !storeOk then (tt, Error(500, "Failed to create template"))
    else
      var x := Template(tt.nextId, b.botId.value, b.name.value, b.category, b.messageText.value, b.variables, now, None);
      (TemplateTable(tt.rows + [x], tt.nextId + 1), Json(201, x))
  }

  /** A created template is in its bot's list. */
  lemma CreatedTemplateIsListed(tt: TemplateTable, b: NewTemplate, now: DateTime)
    requires Truthy(b.botId) && Truthy(b.name) && Truthy(b.messageText)
    ensures var r := CreateTemplate(tt, b, now, true);
            r.1.data in ListTemplates(r.0, b.botId, true).data
  {
    var r := CreateTemplate(tt, b, now, true);
    assert r.0.rows[|tt.rows|] == r.1.data;
    TemplatesListedNewestFirst(r.0, b.botId);
  }

  /** The fields a `PUT /templates/:id` body may carry; `...updates` copies each one given. */
  datatype TemplatePatch = TemplatePatch(
    botId: Option<BotId>,
    name: Option<string>,
    category: Option<Option<string>>,
    messageText: Option<string>,
    variables: Option<Option<seq<string>>>,
    createdAt: Option<DateTime>)

  function MergeTemplate(x: Template, p: TemplatePatch, now: DateTime): Template {
    x.(botId := p.botId.GetOr(x.botId), name := p.name.GetOr(x.name), category := p.category.GetOr(x.category),
       messageText := p.messageText.GetOr(x.messageText), variables := p.variables.GetOr(x.variables),
       createdAt := p.createdAt.GetOr(x.createdAt), updatedAt := Some(now))
  }

  /** Merging keeps the id, takes every field the body gives (the bot and `created_at` included),
      keeps every field it does not give, and stamps `updated_at`. */
  lemma MergeTemplateTakesPatch(x: Template, p: TemplatePatch, now: DateTime)
    ensures var y := MergeTemplate(x, p, now);
            && y.id == x.id && y.updatedAt == Some(now)
            && (p.botId.Some? ==> y.botId == p.botId.value) && (p.botId.None? ==> y.botId == x.botId)
            && (p.name.Some? ==> y.name == p.name.value) && (p.name.None? ==> y.name == x.name)
            && (p.category.Some? ==> y.category == p.category.value) && (p.category.None? ==> y.category == x.category)
            && (p.messageText.Some? ==> y.messageText == p.messageText.value)
            && (p.messageText.None? ==> y.messageText == x.messageText)
            && (p.variables.Some? ==> y.variables == p.variables.value) && (p.variables.None? ==> y.variables == x.variables)
            && (p.createdAt.Some? ==> y.createdAt == p.createdAt.value) && (p.createdAt.None? ==> y.createdAt == x.createdAt)
  {
  }

  /** `PUT /templates/:id`: the merge on the template with that id, with no status gate; the
      `.single()` after the update makes a missing id an error (500). */
  function EditTemplate(tt: TemplateTable, id: nat, p: TemplatePatch, now: DateTime, storeOk: bool)
    : (r: (TemplateTable, Response<Template>))
    ensures r.1.Json? <==> storeOk && exists i :: 0 <= i < |tt.rows| && tt.rows[i].id == id
    ensures r.1.Error? ==> r == (tt, Error(500, "Failed to update template"))
    ensures r.1.Json? ==>
              && |r.0.rows| == |tt.rows| && r.0.nextId == tt.nextId
              && (forall i :: 0 <= i < |tt.rows| ==>
                    r.0.rows[i] == (if tt.rows[i].id == id then MergeTemplate(tt.rows[i], p, now) else tt.rows[i]))
              && r.1.data.id == id && r.1.data.updatedAt == Some(now)
    ensures r.1.Json? ==> IndexOfId(tt.rows, id).Some? && r.1.data == r.0.rows[IndexOfId(tt.rows, id).value]
  {
    var i := IndexOfId(tt.rows, id);
    if !storeOk || i.None? then (tt, Error(500, "Failed to update template"))
    else
      var rows := seq(|tt.rows|, k requires 0 <= k < |tt.rows| =>
                        if tt.rows[k].id == id then MergeTemplate(tt.rows[k], p, now) else tt.rows[k]);
      (TemplateTable(rows, tt.nextId), Json(200, rows[i.value]))
  }

  /** The edit answers with the template as it is now stored, and moves it to the bot the body names. */
  lemma EditTemplateAnswersStoredRow(tt: TemplateTable, id: nat, p: TemplatePatch, now: DateTime)
    requires exists i :: 0 <= i < |tt.rows| && tt.rows[i].id == id
    ensures var r := EditTemplate(tt, id, p, now, true);
            && r.1.Json? && r.1.data in r.0.rows
            && (p.botId.Some? ==> r.1.data.botId == p.botId.value)
  {
    var r := EditTemplate(tt, id, p, now, true);
    var k := IndexOfId(tt.rows, id).value;
    assert r.0.rows[k] == r.1.data;
    MergeTemplateTakesPatch(tt.rows[k], p, now);
  }

  /** The position of the first template with id `id`. */
  function IndexOfId(rows: seq<Template>, id: nat): (r: Option<nat>)
    ensures r.None? <==> forall i :: 0 <= i < |rows| ==> rows[i].id != id
    ensures r.Some? ==> r.value < |rows| && rows[r.value].id == id
  {
    if rows == [] then None
    else if rows[0].id == id then Some(0)
    else match IndexOfId(rows[1..], id)
      case None => None
      case Some(k) => Some(k + 1)
  }

  /** `DELETE /templates/:id`: every template with that id is removed; the others stay, each as
      often as before and in their order (`DeleteTemplateSplits`). */
  function DeleteTemplate(tt: TemplateTable, id: nat, storeOk: bool): (r: (TemplateTable, Response<Template>))
    ensures !storeOk ==> r == (tt, Error(500, "Failed to delete template"))
    ensures storeOk ==> r.1 == Ack(200, "Template deleted") && r.0.nextId == tt.nextId
    ensures storeOk ==> forall i :: 0 <= i < |r.0.rows| ==> r.0.rows[i].id != id && r.0.rows[i] in tt.rows
    ensures storeOk ==> forall i :: 0 <= i < |tt.rows| && tt.rows[i].id != id ==> tt.rows[i] in r.0.rows
    ensures storeOk ==> forall x :: multiset(r.0.rows)[x] == if x.id != id then multiset(tt.rows)[x] else 0
  {
    if !storeOk then (tt, Error(500, "Failed to delete template"))
    else
      FilterCounts(tt.rows, (x: Template) => x.id != id);
      (TemplateTable(Filter(tt.rows, (x: Template) => x.id != id), tt.nextId), Ack(200, "Template deleted"))
  }

  /** Deleting from a table split in two is deleting from each part, the parts kept in order. */
  lemma DeleteTemplateSplits(a: seq<Template>, b: seq<Template>, n: nat, id: nat)
    ensures DeleteTemplate(TemplateTable(a + b, n), id, true).0.rows
            == DeleteTemplate(TemplateTable(a, n), id, true).0.rows + DeleteTemplate(TemplateTable(b, n), id, true).0.rows
  {
    FilterAppend(a, b, (x: Template) => x.id != id);
  }
}
