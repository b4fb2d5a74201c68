/** The bot-instance and bot-config half of the store service (server/src/database/supabase.ts),
    over in-memory tables. `up` says whether the store answers at all; when it does not, every
    call reports a store error. A `.single()` read that finds no row is itself an error
    (`NoRows`, PostgREST's PGRST116), which is what the callers below rely on. */
module BotStore {
  import opened Wrappers
  import opened Calendar
  import opened Records

  datatype DbError = NoRows | StoreError

  datatype BotDb = BotDb(bots: map<BotId, BotInstance>, configs: map<BotId, BotConfig>, up: bool)

  /** `getBotById(id)`: the row, or the error `.single()` reports (which the method rethrows). */
  function GetBotById(db: BotDb, id: BotId): (r: Result<BotInstance, DbError>)
    ensures r.Success? <==> db.up && id in db.bots
    ensures r.Success? ==> r.value == db.bots[id]
    ensures db.up && id !in db.bots ==> r == Failure(NoRows)
  {
    if !db.up then Failure(StoreError)
    else if id !in db.bots then Failure(NoRows)
    else Success(db.bots[id])
  }

  /** `getBotConfig(id)`: a missing config is `null`, any other error is thrown. */
  function GetBotConfig(db: BotDb, id: BotId): (r: Result<Option<BotConfig>, DbError>)
    ensures r.Failure? <==> !db.up
    ensures r.Failure? ==> r.error != NoRows
    ensures r.Success? ==> (r.value.Some? <==> id in db.configs)
    ensures r.Success? && r.value.Some? ==> r.value.value == db.configs[id]
  {
    if !db.up then Failure(StoreError)
    else if id !in db.configs then Success(None)
    else Success(Some(db.configs[id]))
  }

  /** `getBotWithConfig(id)`: the bot and its optional config. A missing bot already fails inside
      `getBotById`, so the method's own 'Bot not found' branch is never the one that throws. */
  function GetBotWithConfig(db: BotDb, id: BotId): (r: Result<(BotInstance, Option<BotConfig>), DbError>)
    ensures r.Success? <==> db.up && id in db.bots
    ensures r.Success? ==> r.value.0 == db.bots[id]
    ensures r.Success? ==> (r.value.1.Some? <==> id in db.configs)
    ensures r.Success? && r.value.1.Some? ==> r.value.1.value == db.configs[id]
  {
    match GetBotById(db, id)
    case Failure(e) => Failure(e)
    case Success(bot) =>
      if id in db.configs then Success((bot, Some(db.configs[id]))) else Success((bot, None))
  }

  /** The fields a caller of `updateBot` may pass. */
  datatype BotPatch = BotPatch(
    status: Option<BotStatus>,
    phoneNumber: Option<Option<string>>,
    lastSync: Option<Option<DateTime>>)

  function StatusPatch(s: BotStatus): BotPatch {
    BotPatch(Some(s), None, None)
  }

  /** `{ ...updates, updated_at: now }` applied to one bot row. */
  function PatchBot(b: BotInstance, p: BotPatch, now: DateTime): BotInstance {
    b.(status := p.status.GetOr(b.status),
       phoneNumber := p.phoneNumber.GetOr(b.phoneNumber),
       lastSync := p.lastSync.GetOr(b.lastSync),
       updatedAt := Some(now))
  }

  /** `updateBot(id, updates)`: the given fields plus a fresh `updated_at`; every other field and
      every other row stays. Updating a missing bot fails (the `.single()` after the update). */
  function UpdateBot(db: BotDb, id: BotId, p: BotPatch, now: DateTime): (r: Result<BotDb, DbError>)
    ensures r.Success? <==> db.up && id in db.bots
    ensures r.Success? ==> id in r.value.bots && r.value.bots.Keys == db.bots.Keys
    ensures r.Success? ==> r.value.configs == db.configs && r.value.up
    ensures r.Success? ==> forall k :: k in db.bots && k != id ==> r.value.bots[k] == db.bots[k]
    ensures r.Success? ==>
              var b := r.value.bots[id];
              var old_ := db.bots[id];
              && b.updatedAt == Some(now)
              && b.id == old_.id && b.name == old_.name && b.batteryLevel == old_.batteryLevel
              && (p.status.Some? ==> b.status == p.status.value)
              && (p.status.None? ==> b.status == old_.status)
              && (p.phoneNumber.Some? ==> b.phoneNumber == p.phoneNumber.value)
              && (p.phoneNumber.None? ==> b.phoneNumber == old_.phoneNumber)
              && (p.lastSync.Some? ==> b.lastSync == p.lastSync.value)
              && (p.lastSync.None? ==> b.lastSync == old_.lastSync)
  {
    if !db.up then Failure(StoreError)
    else if id !in db.bots then Failure(NoRows)
    else Success(db.(bots := db.bots[id := PatchBot(db.bots[id], p, now)]))
  }

  /** The fields a caller of `updateBotConfig` may pass. */
  datatype ConfigPatch = ConfigPatch(
    welcomeMessage: Option<Option<string>>,
    fallbackMessage: Option<string>,
    inactivityTimerMinutes: Option<int>,
    autoReplyEnabled: Option<bool>,
    geminiEnabled: Option<bool>,
    ignoreGroups: Option<bool>,
    systemInstruction: Option<Option<string>>)

  function PatchConfig(c: BotConfig, p: ConfigPatch, now: DateTime): BotConfig {
    c.(welcomeMessage := p.welcomeMessage.GetOr(c.welcomeMessage),
       fallbackMessage := p.fallbackMessage.GetOr(c.fallbackMessage),
       inactivityTimerMinutes := p.inactivityTimerMinutes.GetOr(c.inactivityTimerMinutes),
       autoReplyEnabled := p.autoReplyEnabled.GetOr(c.autoReplyEnabled),
       geminiEnabled := p.geminiEnabled.GetOr(c.geminiEnabled),
       ignoreGroups := p.ignoreGroups.GetOr(c.ignoreGroups),
       systemInstruction := p.systemInstruction.GetOr(c.systemInstruction),
       updatedAt := Some(now))
  }

  /** `updateBotConfig(botId, updates)`: the given fields plus a fresh `updated_at`. */
  function UpdateBotConfig(db: BotDb, id: BotId, p: ConfigPatch, now: DateTime): (r: Result<BotDb, DbError>)
    ensures r.Success? <==> db.up && id in db.configs
    ensures r.Success? ==> r.value.bots == db.bots && r.value.configs.Keys == db.configs.Keys
    ensures r.Success? ==> forall k :: k in db.configs && k != id ==> r.value.configs[k] == db.configs[k]
    ensures r.Success? ==>
              var c := r.value.configs[id];
              var old_ := db.configs[id];
              && c.updatedAt == Some(now) && c.botId == old_.botId
              && (p.autoReplyEnabled.Some? ==> c.autoReplyEnabled == p.autoReplyEnabled.value)
              && (p.autoReplyEnabled.None? ==> c.autoReplyEnabled == old_.autoReplyEnabled)
              && (p.fallbackMessage.Some? ==> c.fallbackMessage == p.fallbackMessage.value)
              && (p.fallbackMessage.None? ==> c.fallbackMessage == old_.fallbackMessage)
              && (p.welcomeMessage.Some? ==> c.welcomeMessage == p.welcomeMessage.value)
              && (p.welcomeMessage.None? ==> c.welcomeMessage == old_.welcomeMessage)
              && (p.inactivityTimerMinutes.Some? ==> c.inactivityTimerMinutes == p.inactivityTimerMinutes.value)
              && (p.inactivityTimerMinutes.None? ==> c.inactivityTimerMinutes == old_.inactivityTimerMinutes)
              && (p.geminiEnabled.Some? ==> c.geminiEnabled == p.geminiEnabled.value)
              && (p.geminiEnabled.None? ==> c.geminiEnabled == old_.geminiEnabled)
              && (p.ignoreGroups.Some? ==> c.ignoreGroups == p.ignoreGroups.value)
              && (p.ignoreGroups.None? ==> c.ignoreGroups == old_.ignoreGroups)
              && (p.systemInstruction.Some? ==> c.systemInstruction == p.systemInstruction.value)
              && (p.systemInstruction.None? ==> c.systemInstruction == old_.systemInstruction)
  {
    if !db.up then Failure(StoreError)
    else if id !in db.configs then Failure(NoRows)
    else Success(db.(configs := db.configs[id := PatchConfig(db.configs[id], p, now)]))
  }

  /** A config update is seen by the next read: `getBotConfig` returns the stored config with
      exactly the patched fields replaced and a fresh `updated_at`. An update that patches
      nothing only stamps the time. */
  lemma ConfigUpdateIsRead(db: BotDb, id: BotId, p: ConfigPatch, now: DateTime)
    requires db.up && id in db.configs
    ensures UpdateBotConfig(db, id, p, now).Success?
    ensures var after := UpdateBotConfig(db, id, p, now).value;
            GetBotConfig(after, id) == Success(Some(PatchConfig(db.configs[id], p, now)))
    ensures p == ConfigPatch(None, None, None, None, None, None, None) ==>
              var after := UpdateBotConfig(db, id, p, now).value;
              GetBotConfig(after, id) == Success(Some(db.configs[id].(updatedAt := Some(now))))
  {
  }

  /** Patching the same fields twice at the same time is patching them once. */
  lemma ConfigUpdateIdempotent(db: BotDb, id: BotId, p: ConfigPatch, now: DateTime)
    requires db.up && id in db.configs
    ensures var once := UpdateBotConfig(db, id, p, now);
            once.Success? && UpdateBotConfig(once.value, id, p, now) == once
  {
    var c := PatchConfig(db.configs[id], p, now);
    assert PatchConfig(c, p, now) == c;
    var once := db.(configs := db.configs[id := c]);
    assert once.configs[id := PatchConfig(c, p, now)] == once.configs;
  }

  /** `createBot(bot)`: insert; an id already in use is an insert error. */
  function CreateBot(db: BotDb, b: BotInstance): (r: Result<BotDb, DbError>)
    ensures r.Success? <==> db.up && b.id !in db.bots
    ensures r.Success? ==> r.value.bots == db.bots[b.id := b] && r.value.configs == db.configs
  {
    if !db.up || b.id in db.bots then Failure(StoreError)
    else Success(db.(bots := db.bots[b.id := b]))
  }

  /** `createBotConfig(config)`: insert; a bot that already has a config is an insert error. */
  function CreateBotConfig(db: BotDb, c: BotConfig): (r: Result<BotDb, DbError>)
    ensures r.Success? <==> db.up && c.botId !in db.configs
    ensures r.Success? ==> r.value.configs == db.configs[c.botId := c] && r.value.bots == db.bots
  {
    if !db.up || c.botId in db.configs then Failure(StoreError)
    else Success(db.(configs := db.configs[c.botId := c]))
  }

  /** `deleteBot(id)`: deleting a missing row is not an error; the bot's config goes with it
      (the schema's cascade). */
  function DeleteBot(db: BotDb, id: BotId): (r: Result<BotDb, DbError>)
    ensures r.Success? <==> db.up
    ensures r.Success? ==> r.value.bots == db.bots - {id} && r.value.configs == db.configs - {id}
  {
    if !db.up then Failure(StoreError)
    else Success(db.(bots := db.bots - {id}, configs := db.configs - {id}))
  }
}
