/** The rows the server keeps in its store: bot instances, bot configurations and scheduled
    messages, plus the in-memory `scheduled_messages` table the scheduler and the routes share. */
module Records {
  import opened Wrappers
  import opened Calendar

  /** A bot instance id (a uuid string in the store; also the session id of its transport). */
  type BotId = string

  datatype BotStatus = Online | Offline | Paused | Syncing

  datatype BotInstance = BotInstance(
    id: BotId,
    name: string,
    phoneNumber: Option<string>,
    status: BotStatus,
    batteryLevel: int,
    lastSync: Option<DateTime>,
    updatedAt: Option<DateTime>)

  datatype BotConfig = BotConfig(
    botId: BotId,
    welcomeMessage: Option<string>,
    fallbackMessage: string,
    inactivityTimerMinutes: int,
    autoReplyEnabled: bool,
    geminiEnabled: bool,
    ignoreGroups: bool,
    systemInstruction: Option<string>,
    updatedAt: Option<DateTime>)

  datatype MessageStatus = Pending | Sent | Failed | Cancelled

  /** `recurrence_type`; the column is free text on the way in, so a value outside the four
      known ones is kept as `Unrecognised`. */
  datatype RecurrenceType = Once | Daily | Weekly | Monthly | Unrecognised(name: string)

  /** How a `recurrence_type` string from a request is stored. */
  function ParseRecurrence(s: string): (r: RecurrenceType)
    ensures r == Once <==> s == "once"
    ensures r == Daily <==> s == "daily"
    ensures r == Weekly <==> s == "weekly"
    ensures r == Monthly <==> s == "monthly"
    ensures r.Unrecognised? <==> s != "once" && s != "daily" && s != "weekly" && s != "monthly"
    ensures r.Unrecognised? ==> r.name == s
  {
    if s == "once" then Once
    else if s == "daily" then Daily
    else if s == "weekly" then Weekly
    else if s == "monthly" then Monthly
    else Unrecognised(s)
  }

  /** The text a recurrence type is stored and shown as. */
  function RecurrenceName(t: RecurrenceType): string {
    match t
    case Once => "once"
    case Daily => "daily"
    case Weekly => "weekly"
    case Monthly => "monthly"
    case Unrecognised(name) => name
  }

  /** Reading a `recurrence_type` string loses nothing: its name is the string itself. Conversely
      every known type, and every unrecognised one whose name is not a known one, reads back as itself. */
  lemma RecurrenceRoundTrip(s: string, t: RecurrenceType)
    ensures RecurrenceName(ParseRecurrence(s)) == s
    ensures !t.Unrecognised? ==> ParseRecurrence(RecurrenceName(t)) == t
    ensures t.Unrecognised? && ParseRecurrence(t.name).Unrecognised? ==> ParseRecurrence(RecurrenceName(t)) == t
  {
  }

  datatype ScheduledMessage = ScheduledMessage(
    id: nat,
    botId: BotId,
    recipientPhone: string,
    recipientName: Option<string>,
    messageText: string,
    attachmentUrl: Option<string>,
    scheduledFor: DateTime,
    recurrenceType: RecurrenceType,
    recurrenceDay: Option<int>,
    recurrenceWeekday: Option<int>,
    status: MessageStatus,
    sentAt: Option<DateTime>,
    errorMessage: Option<string>,
    updatedAt: Option<DateTime>)

  /** The `scheduled_messages` table: its rows in insertion order and the next id the store hands out. */
  datatype Table = Table(rows: seq<ScheduledMessage>, nextId: nat)

  /** Every row has its own id, and every id is below the next one to be handed out. */
  predicate WellFormed(t: Table) {
    && (forall i :: 0 <= i < |t.rows| ==> t.rows[i].id < t.nextId)
    && (forall i, j :: 0 <= i < |t.rows| && 0 <= j < |t.rows| && t.rows[i].id == t.rows[j].id ==> i == j)
  }

  /** `.update(f).eq('id', id)`: `f` applied to the row with that id (if any); no other row changes. */
  function UpdateRow(rows: seq<ScheduledMessage>, id: nat, f: ScheduledMessage -> ScheduledMessage)
    : (r: seq<ScheduledMessage>)
    ensures |r| == |rows|
    ensures forall i :: 0 <= i < |rows| ==> r[i] == (if rows[i].id == id then f(rows[i]) else rows[i])
  {
    seq(|rows|, i requires 0 <= i < |rows| => if rows[i].id == id then f(rows[i]) else rows[i])
  }

  /** The row with id `id`, if there is one. */
  function FindRow(rows: seq<ScheduledMessage>, id: nat): (r: Option<ScheduledMessage>)
    ensures r.Some? ==> r.value in rows && r.value.id == id
    ensures r.None? ==> forall i :: 0 <= i < |rows| ==> rows[i].id != id
  {
    if rows == [] then None
    else if rows[0].id == id then Some(rows[0])
    else FindRow(rows[1..], id)
  }

  /** After an update of the row with id `id` by an `f` that keeps ids, the lookup by that id finds
      `f` of the row it found before, and a lookup by any other id finds what it found before. */
  lemma {:induction false} UpdateRowThenFind(rows: seq<ScheduledMessage>, id: nat, k: nat, f: ScheduledMessage -> ScheduledMessage)
    requires forall m :: f(m).id == m.id
    ensures k == id && FindRow(rows, k).Some? ==> FindRow(UpdateRow(rows, id, f), k) == Some(f(FindRow(rows, k).value))
    ensures k == id && FindRow(rows, k).None? ==> FindRow(UpdateRow(rows, id, f), k) == None
    ensures k != id ==> FindRow(UpdateRow(rows, id, f), k) == FindRow(rows, k)
  {
    if rows != [] {
      var u := UpdateRow(rows, id, f);
      assert u[1..] == UpdateRow(rows[1..], id, f);
      UpdateRowThenFind(rows[1..], id, k, f);
    }
  }

  /** An update by an `f` that keeps ids keeps the table well formed. */
  lemma UpdateRowWellFormed(t: Table, id: nat, f: ScheduledMessage -> ScheduledMessage)
    requires WellFormed(t) && forall m :: f(m).id == m.id
    ensures WellFormed(Table(UpdateRow(t.rows, id, f), t.nextId))
  {
    var u := UpdateRow(t.rows, id, f);
    assert forall i :: 0 <= i < |u| ==> u[i].id == t.rows[i].id;
  }

  /** `.insert(row)`: appended under the next id. */
  function InsertRow(t: Table, row: ScheduledMessage): (r: Table)
    ensures r.rows == t.rows + [row.(id := t.nextId)] && r.nextId == t.nextId + 1
    ensures WellFormed(t) ==> WellFormed(r)
  {
    Table(t.rows + [row.(id := t.nextId)], t.nextId + 1)
  }
}
