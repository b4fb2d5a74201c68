/** The bot routes (server/src/routes/bots.ts): listing, creating, reading, deleting, resetting and
    pausing bots. A handler touches two things, the store and the connection manager; the
    handlers await each step in turn, so an error thrown half-way leaves the earlier steps done.
    Ids the store generates and the outcomes of socket setup and logout are parameters. */
module BotRoutes {
  import opened Wrappers
  import opened Text
  import opened Calendar
  import opened Records
  import opened BotStore
  import opened Sessions
  import opened Http

  /** The store and the connection manager together. */
  datatype Server = Server(db: BotDb, mgr: Manager)

  /** `{ ...bot, config }`. */
  datatype BotView = BotView(bot: BotInstance, config: Option<BotConfig>)

  /** What a handler leaves: the new state, the socket effects it caused, and its response. */
  datatype Answered<T> = Answered(server: Server, effects: seq<Effect>, response: Response<T>)

  const DefaultFallbackText: string := "Desculpe, não entendi. Um humano irá atendê-lo em breve."
  const DefaultInactivityMinutes: int := 30

  /** The view of one stored bot. */
  function ViewOf(db: BotDb, id: BotId): BotView
    requires id in db.bots
  {
    BotView(db.bots[id], if id in db.configs then Some(db.configs[id]) else None)
  }

  /** `GET /api/bots`: every bot with its config (`null` when it has none), keyed by id. */
  function ListBots(s: Server): (r: Answered<map<BotId, BotView>>)
    ensures r.server == s && r.effects == []
    ensures !s.db.up ==> r.response == Raised(500)
    ensures s.db.up ==> r.response.Json? && r.response.code == 200
    ensures s.db.up ==> r.response.data.Keys == s.db.bots.Keys
    ensures s.db.up ==> forall id :: id in s.db.bots ==>
              && r.response.data[id].bot == s.db.bots[id]
              && (r.response.data[id].config.Some? <==> id in s.db.configs)
  {
    if !s.db.up then Answered(s, [], Raised(500))
    else Answered(s, [], Json(200, map id | id in s.db.bots :: ViewOf(s.db, id)))
  }

  /** The list shows each bot as the single-bot read does. */
  lemma ListAgreesWithGet(s: Server, id: BotId)
    requires s.db.up && id in s.db.bots
    ensures ListBots(s).response.data[id] == GetBot(s, id).response.data
  {
  }

  /** The configuration `POST /api/bots` writes for a new bot. The schema's default for
      `ignore_groups` is not in the source, so it is a parameter. */
  function DefaultConfig(id: BotId, ignoreGroups: bool): (c: BotConfig)
    ensures c.botId == id && c.autoReplyEnabled && !c.geminiEnabled
    ensures c.welcomeMessage.None? && c.systemInstruction.None?
    ensures c.fallbackMessage == DefaultFallbackText && c.inactivityTimerMinutes == DefaultInactivityMinutes
  {
    BotConfig(id, None, DefaultFallbackText, DefaultInactivityMinutes, true, false, ignoreGroups, None, None)
  }

  /** The bot row `POST /api/bots` writes: offline, battery 0. */
  function NewBot(id: BotId, name: string): (b: BotInstance)
    ensures b.id == id && b.name == name && b.status == BotStatus.Offline && b.batteryLevel == 0
  {
    BotInstance(id, name, None, BotStatus.Offline, 0, None, None)
  }

  /** `POST /api/bots`: 400 without a name; otherwise the bot row, then its default config, then
      a connection, each only when the one before succeeded. Any failure answers 500 and keeps
      what was already written. `newId` is the id the store generates. */
  function CreateBot_(s: Server, name: Option<string>, newId: BotId, ignoreGroups: bool, setupOk: bool)
    : (r: Answered<BotView>)
    ensures !Truthy(name) ==> r == Answered(s, [], Error(400, "Name is required"))
    ensures r.effects == []
    ensures r.response.Json? <==>
              Truthy(name) && s.db.up && newId !in s.db.bots && newId !in s.db.configs
              && (newId in s.mgr.conns || setupOk)
    ensures r.response.Json? ==>
              && r.response.code == 201
              && r.response.data == BotView(NewBot(newId, name.value), Some(DefaultConfig(newId, ignoreGroups)))
              && r.server.db.bots == s.db.bots[newId := NewBot(newId, name.value)]
              && r.server.db.configs == s.db.configs[newId := DefaultConfig(newId, ignoreGroups)]
              && newId in r.server.mgr.conns
    ensures Truthy(name) && !r.response.Json? ==> r.response == Raised(500)
  {
    if !Truthy(name) then Answered(s, [], Error(400, "Name is required"))
    else
      var bot := NewBot(newId, name.value);
      match CreateBot(s.db, bot)
      case Failure(_) => Answered(s, [], Raised(500))
      case Success(db1) =>
        var config := DefaultConfig(newId, ignoreGroups);
        match CreateBotConfig(db1, config)
        case Failure(_) => Answered(Server(db1, s.mgr), [], Raised(500))
        case Success(db2) =>
          match Create(s.mgr, newId, setupOk)
          case Failure(_) => Answered(Server(db2, s.mgr), [], Raised(500))
          case Success(mgr) => Answered(Server(db2, mgr), [], Json(201, BotView(bot, Some(config))))
  }

  /** A failed socket setup still leaves the new bot and its config stored, with no connection:
      the client sees 500 but the bot exists. */
  lemma CreateKeepsRowsWhenSetupFails(s: Server, name: string, newId: BotId, ignoreGroups: bool)
    requires name != "" && s.db.up && newId !in s.db.bots && newId !in s.db.configs && newId !in s.mgr.conns
    ensures var r := CreateBot_(s, Some(name), newId, ignoreGroups, false);
            && r.response == Raised(500)
            && GetBot(r.server, newId).response == Json(200, BotView(NewBot(newId, name), Some(DefaultConfig(newId, ignoreGroups))))
            && newId !in r.server.mgr.conns
  {
  }

  /** A created bot reads back as created, and its connection starts CONNECTING without a QR. */
  lemma CreatedBotReadsBack(s: Server, name: string, newId: BotId, ignoreGroups: bool)
    requires name != "" && s.db.up && newId !in s.db.bots && newId !in s.db.configs && newId !in s.mgr.conns
    ensures var r := CreateBot_(s, Some(name), newId, ignoreGroups, true);
            && GetBot(r.server, newId).response == Json(200, r.response.data)
            && r.server.mgr.conns[newId] == Connection(s.mgr.nextSocket, None, Connecting)
  {
  }

  /** `GET /api/bots/:id`: the bot with its config; any failure, a missing bot included, is 404. */
  function GetBot(s: Server, id: BotId): (r: Answered<BotView>)
    ensures r.server == s && r.effects == []
    ensures r.response.Json? <==> s.db.up && id in s.db.bots
    ensures r.response.Json? ==> r.response == Json(200, ViewOf(s.db, id))
    ensures !r.response.Json? ==> r.response == Error(404, "Bot not found")
  {
    match GetBotWithConfig(s.db, id)
    case Failure(_) => Answered(s, [], Error(404, "Bot not found"))
    case Success(pair) => Answered(s, [], Json(200, BotView(pair.0, pair.1)))
  }

  /** `DELETE /api/bots/:id`: the connection is destroyed first, then the row and its config are
      deleted; 204 on success, 500 when the delete fails. */
  function DeleteBot_(s: Server, id: BotId, logoutOk: bool): (r: Answered<BotView>)
    ensures r.server.mgr == Destroy(s.mgr, id, logoutOk).mgr && r.effects == Destroy(s.mgr, id, logoutOk).effects
    ensures r.response == NoContent <==> s.db.up
    ensures s.db.up ==> r.server.db.bots == s.db.bots - {id} && r.server.db.configs == s.db.configs - {id}
    ensures !s.db.up ==> r.server.db == s.db && r.response == Raised(500)
  {
    var d := Destroy(s.mgr, id, logoutOk);
    match DeleteBot(s.db, id)
    case Failure(_) => Answered(Server(s.db, d.mgr), d.effects, Raised(500))
    case Success(db1) => Answered(Server(db1, d.mgr), d.effects, NoContent)
  }

  /** The connection is gone after a delete whether or not the store could delete the row, and
      whether or not the logout succeeded. */
  lemma DeleteAlwaysDisconnects(s: Server, id: BotId, logoutOk: bool)
    ensures id !in DeleteBot_(s, id, logoutOk).server.mgr.conns
    ensures GetBot(DeleteBot_(s, id, logoutOk).server, id).response == Error(404, "Bot not found")
            || !s.db.up
  {
  }

  /** `POST /api/bots/:id/reset-qr`: destroy the connection, then create a fresh one. */
  function ResetQr(s: Server, id: BotId, logoutOk: bool, setupOk: bool): (r: Answered<BotView>)
    ensures r.server.db == s.db
    ensures r.effects == Destroy(s.mgr, id, logoutOk).effects
    ensures r.response.Ack? <==> setupOk
    ensures setupOk ==> r.response == Ack(200, "Connection reset initiated")
    ensures !setupOk ==> r.response == Raised(500) && r.server.mgr == Destroy(s.mgr, id, logoutOk).mgr
  {
    var d := Destroy(s.mgr, id, logoutOk);
    match Create(d.mgr, id, setupOk)
    case Failure(_) => Answered(Server(s.db, d.mgr), d.effects, Raised(500))
    case Success(mgr) => Answered(Server(s.db, mgr), d.effects, Ack(200, "Connection reset initiated"))
  }

  /** After a reset the bot has a new socket, CONNECTING and without a QR, whatever state its
      previous connection was in; the previous socket was logged out and ended; no other bot's
      connection changes. */
  lemma ResetGivesFreshConnection(s: Server, id: BotId, logoutOk: bool)
    requires Inv(s.mgr)
    ensures var r := ResetQr(s, id, logoutOk, true);
            && r.server.mgr.conns[id] == Connection(s.mgr.nextSocket, None, Connecting)
            && (id in s.mgr.conns ==> r.server.mgr.conns[id].socket != s.mgr.conns[id].socket)
            && (forall other :: other != id && other in s.mgr.conns ==> r.server.mgr.conns[other] == s.mgr.conns[other])
            && Inv(r.server.mgr)
  {
  }

  /** The status a toggle writes: ONLINE is paused, everything else is set ONLINE. */
  function Toggled(st: BotStatus): (r: BotStatus)
    ensures r == BotStatus.Paused <==> st == BotStatus.Online
    ensures r == BotStatus.Online <==> st != BotStatus.Online
  {
    if st == BotStatus.Online then BotStatus.Paused else BotStatus.Online
  }

  /** `POST /api/bots/:id/toggle`: read the bot, write the toggled status, answer the re-read bot.
      The connection is left as it is in both directions. A missing bot makes `getBotById` throw,
      so it is answered 500, not 404. */
  function Toggle(s: Server, id: BotId, now: DateTime): (r: Answered<BotInstance>)
    ensures r.server.mgr == s.mgr && r.effects == []
    ensures r.server.db.configs == s.db.configs
    ensures r.response.Json? <==> s.db.up && id in s.db.bots
    ensures !r.response.Json? ==> r.server == s && r.response == Raised(500)
    ensures r.response.Json? ==>
              && r.response.code == 200
              && r.server.db.bots.Keys == s.db.bots.Keys
              && r.response.data == r.server.db.bots[id]
              && r.response.data.status == Toggled(s.db.bots[id].status)
              && r.response.data.updatedAt == Some(now)
              && (forall k :: k in s.db.bots && k != id ==> r.server.db.bots[k] == s.db.bots[k])
  {
    match GetBotById(s.db, id)
    case Failure(_) => Answered(s, [], Raised(500))
    case Success(bot) =>
      match UpdateBot(s.db, id, StatusPatch(Toggled(bot.status)), now)
      case Failure(_) => Answered(s, [], Raised(500))
      case Success(db1) =>
        match GetBotById(db1, id)
        case Failure(_) => Answered(Server(db1, s.mgr), [], Raised(500))
        case Success(b) => Answered(Server(db1, s.mgr), [], Json(200, b))
  }

  /** Toggling twice restores ONLINE and PAUSED; an OFFLINE or SYNCING bot is set ONLINE by the
      first toggle (without connecting) and PAUSED by the second. */
  lemma ToggleTwice(s: Server, id: BotId, t1: DateTime, t2: DateTime)
    requires s.db.up && id in s.db.bots
    ensures var r2 := Toggle(Toggle(s, id, t1).server, id, t2);
            && r2.response.Json?
            && (s.db.bots[id].status in {BotStatus.Online, BotStatus.Paused} ==> r2.response.data.status == s.db.bots[id].status)
            && (s.db.bots[id].status in {BotStatus.Offline, BotStatus.Syncing} ==> r2.response.data.status == BotStatus.Paused)
  {
  }
}
