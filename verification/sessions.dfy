/** The session connection manager (server/src/baileys/BaileysManager.ts): a table
    bot id -> live connection, driven by `createConnection`, the transport's `connection.update`
    events and `destroyConnection`. Every handler is a pure step returning the new table and the
    side effects it issues, in order. Each socket carries a number so that an event from an old
    socket can be told apart from one from the socket now in the table: the source's handlers
    mutate the connection object they closed over, which is visible in the table only while that
    object is still the table's entry. */
module Sessions {
  import opened Wrappers
  import opened Text
  import opened Records

  datatype ConnStatus = Connecting | Online | Offline

  /** A table entry: which socket, its last QR data URL, and its status. */
  datatype Connection = Connection(socket: nat, qr: Option<string>, status: ConnStatus)

  /** The connection table and the number the next socket gets. */
  datatype Manager = Manager(conns: map<BotId, Connection>, nextSocket: nat)

  /** What a handler does outside the table, in the order it does it. */
  datatype Effect =
    | EmitQr(botId: BotId, qr: string)                    // io.emit('qr-code', ...)
    | EmitStatus(botId: BotId, status: BotStatus)         // io.emit('bot-status-change', ...)
    | PersistOnline(botId: BotId, phone: Option<string>)  // updateBot(status ONLINE, phone_number, last_sync)
    | PersistOffline(botId: BotId)                        // updateBot(status OFFLINE)
    | ScheduleCreate(botId: BotId, delayMs: nat)          // setTimeout(createConnection, delay)
    | Logout(socket: nat, succeeded: bool)                // socket.logout(), its error swallowed
    | EndSocket(socket: nat)                              // socket.end(undefined)

  datatype Step = Step(mgr: Manager, effects: seq<Effect>)

  /** The transport's `connection` field of a `connection.update` event. */
  datatype ConnEvent = Opening | Open(userId: Option<string>) | Close(statusCode: Option<int>)

  /** A `connection.update` event: an optional raw QR string and an optional connection change. */
  datatype Update = Update(qr: Option<string>, connection: Option<ConnEvent>)

  /** The transport's `DisconnectReason.loggedOut` status code. */
  const LoggedOutCode: int := 401
  const ReconnectDelayMs: nat := 1000

  /** Socket numbers in the table are distinct and below `nextSocket`. */
  predicate Inv(m: Manager) {
    && (forall id :: id in m.conns ==> m.conns[id].socket < m.nextSocket)
    && (forall a, b :: a in m.conns && b in m.conns && m.conns[a].socket == m.conns[b].socket ==> a == b)
  }

  /** `getConnection(botId)`. */
  function Get(m: Manager, botId: BotId): (r: Option<Connection>)
    ensures r.Some? <==> botId in m.conns
    ensures r.Some? ==> r.value == m.conns[botId]
  {
    if botId in m.conns then Some(m.conns[botId]) else None
  }

  /** Socket setup (`useSupabaseAuthState`, version fetch, `makeWASocket`) threw. */
  datatype SetupFailure = SetupFailure

  /** `createConnection(botId)`: a no-op when the bot already has an entry; otherwise, when the
      transport setup succeeds, a fresh socket is entered as CONNECTING with no QR. */
  function Create(m: Manager, botId: BotId, setupOk: bool): (r: Result<Manager, SetupFailure>)
    ensures botId in m.conns ==> r == Success(m)
    ensures botId !in m.conns ==> (r.Success? <==> setupOk)
    ensures r.Success? ==> botId in r.value.conns
    ensures r.Success? && botId !in m.conns ==>
              && r.value.conns[botId] == Connection(m.nextSocket, None, Connecting)
              && r.value.nextSocket == m.nextSocket + 1
    ensures r.Success? ==> forall id :: id != botId ==> (id in r.value.conns <==> id in m.conns)
    ensures r.Success? ==> forall id :: id != botId && id in m.conns ==> r.value.conns[id] == m.conns[id]
    ensures r.Success? && Inv(m) ==> Inv(r.value)
  {
    if botId in m.conns then Success(m)
    else if !setupOk then Failure(SetupFailure)
    else Success(Manager(m.conns[botId := Connection(m.nextSocket, None, Connecting)], m.nextSocket + 1))
  }

  /** Apply `f` to the entry of `botId` when it is still the connection of `socket`. */
  function Touch(m: Manager, botId: BotId, socket: nat, f: Connection -> Connection): (r: Manager)
    ensures r.nextSocket == m.nextSocket
    ensures forall id :: id in r.conns <==> id in m.conns
    ensures forall id :: id != botId && id in m.conns ==> r.conns[id] == m.conns[id]
    ensures (forall c :: f(c).socket == c.socket) && Inv(m) ==> Inv(r)
  {
    if botId in m.conns && m.conns[botId].socket == socket
    then m.(conns := m.conns[botId := f(m.conns[botId])])
    else m
  }

  /** `socket.user?.id.split(':')[0] || null`. */
  function PhoneFromUser(userId: Option<string>): (r: Option<string>)
    ensures userId.None? ==> r.None?
    ensures userId.Some? ==> (r.None? <==> userId.value == "" || userId.value[0] == ':')
    ensures r.Some? ==> userId.Some? && r.value != "" && ':' !in r.value && StartsWith(userId.value, r.value)
    ensures r.Some? ==> |r.value| == |userId.value| || userId.value[|r.value|] == ':'
  {
    match userId
    case None => None
    case Some(u) => if BeforeFirst(u, ':') == "" then None else Some(BeforeFirst(u, ':'))
  }

  /** A WhatsApp user id `<phone>:<device>@<server>` gives the phone; an id without ':' is kept whole. */
  lemma PhoneOfDeviceId(phone: string, rest: string)
    requires phone != "" && ':' !in phone
    ensures PhoneFromUser(Some(phone + ":" + rest)) == Some(phone)
    ensures PhoneFromUser(Some(phone)) == Some(phone)
  {
    var u := phone + ":" + rest;
    assert u[|phone|] == ':';
    assert u[..|phone|] == phone;
  }

  /** The QR half of the handler: when the event carries a QR and it encodes to a data URL, the
      connection keeps the data URL and it is published; an encoding failure is logged only. */
  function OnQr(m: Manager, botId: BotId, socket: nat, qr: Option<string>, encode: string -> Option<string>): (r: Step)
    ensures Inv(m) ==> Inv(r.mgr)
    ensures r.mgr.nextSocket == m.nextSocket
    ensures forall id :: id != botId ==> (id in r.mgr.conns <==> id in m.conns)
    ensures forall id :: id != botId && id in m.conns ==> r.mgr.conns[id] == m.conns[id]
  {
    if Truthy(qr) && encode(qr.value).Some? then
      var url := encode(qr.value).value;
      Step(Touch(m, botId, socket, (c: Connection) => c.(qr := Some(url))), [EmitQr(botId, url)])
    else Step(m, [])
  }

  /** The connection half of the handler. A close removes whatever entry the bot has and either
      schedules one re-create or, for a logged-out close, persists OFFLINE. An open marks the
      connection ONLINE, clears its QR and persists ONLINE with the account's phone number.
      `persistOk` is whether the awaited row update succeeds: when it throws, the handler stops
      before publishing the status (the table change of an open precedes the await and stays). */
  function OnConnection(m: Manager, botId: BotId, socket: nat, ev: Option<ConnEvent>, persistOk: bool): (r: Step)
    ensures Inv(m) ==> Inv(r.mgr)
    ensures r.mgr.nextSocket == m.nextSocket
    ensures forall id :: id != botId ==> (id in r.mgr.conns <==> id in m.conns)
    ensures forall id :: id != botId && id in m.conns ==> r.mgr.conns[id] == m.conns[id]
  {
    match ev
    case Some(Close(code)) =>
      var m1 := m.(conns := m.conns - {botId});
      if code != Some(LoggedOutCode) then Step(m1, [ScheduleCreate(botId, ReconnectDelayMs)])
      else Step(m1, [PersistOffline(botId)] + (if persistOk then [EmitStatus(botId, BotStatus.Offline)] else []))
    case Some(Open(user)) =>
      Step(Touch(m, botId, socket, (c: Connection) => c.(status := ConnStatus.Online, qr := None)),
           [PersistOnline(botId, PhoneFromUser(user))] + (if persistOk then [EmitStatus(botId, BotStatus.Online)] else []))
    case _ => Step(m, [])
  }

  /** The `connection.update` handler of the socket `socket` of bot `botId`. */
  function OnUpdate(m: Manager, botId: BotId, socket: nat, u: Update, encode: string -> Option<string>, persistOk: bool): (r: Step)
    ensures Inv(m) ==> Inv(r.mgr)
    ensures r.mgr.nextSocket == m.nextSocket
    ensures forall id :: id != botId ==> (id in r.mgr.conns <==> id in m.conns)
    ensures forall id :: id != botId && id in m.conns ==> r.mgr.conns[id] == m.conns[id]
  {
    var s1 := OnQr(m, botId, socket, u.qr, encode);
    var s2 := OnConnection(s1.mgr, botId, socket, u.connection, persistOk);
    Step(s2.mgr, s1.effects + s2.effects)
  }

  /** A QR event stores the data URL on the current connection and publishes it; status is untouched. */
  lemma QrKeepsStatus(m: Manager, botId: BotId, qr: string, encode: string -> Option<string>, persistOk: bool)
    requires botId in m.conns && qr != "" && encode(qr).Some?
    ensures var r := OnUpdate(m, botId, m.conns[botId].socket, Update(Some(qr), None), encode, persistOk);
            && r.mgr.conns == m.conns[botId := m.conns[botId].(qr := encode(qr))]
            && r.mgr.conns[botId].status == m.conns[botId].status
            && r.effects == [EmitQr(botId, encode(qr).value)]
  {
  }

  /** An open event makes the current connection ONLINE with no QR, persists ONLINE with the
      phone number taken from the user id up to the first ':', and publishes the change only
      when that write succeeds; the table change happens either way. */
  lemma OpenGoesOnline(m: Manager, botId: BotId, user: Option<string>, encode: string -> Option<string>, persistOk: bool)
    requires botId in m.conns
    ensures var r := OnUpdate(m, botId, m.conns[botId].socket, Update(None, Some(Open(user))), encode, persistOk);
            && r.mgr.conns[botId] == m.conns[botId].(status := ConnStatus.Online, qr := None)
            && (persistOk ==> r.effects == [PersistOnline(botId, PhoneFromUser(user)), EmitStatus(botId, BotStatus.Online)])
            && (!persistOk ==> r.effects == [PersistOnline(botId, PhoneFromUser(user))])
  {
  }

  /** A close event always removes the bot's entry. Any reason except logged-out schedules exactly
      one re-create after 1000 ms; logged-out persists OFFLINE, with no re-create, and publishes
      it only when that write succeeds. */
  lemma CloseRemovesEntry(m: Manager, botId: BotId, socket: nat, code: Option<int>, encode: string -> Option<string>, persistOk: bool)
    ensures var r := OnUpdate(m, botId, socket, Update(None, Some(Close(code))), encode, persistOk);
            && botId !in r.mgr.conns
            && (code != Some(LoggedOutCode) ==> r.effects == [ScheduleCreate(botId, 1000)])
            && (code == Some(LoggedOutCode) && persistOk ==> r.effects == [PersistOffline(botId), EmitStatus(botId, BotStatus.Offline)])
            && (code == Some(LoggedOutCode) && !persistOk ==> r.effects == [PersistOffline(botId)])
  {
  }

  /** An event from a socket that is no longer the bot's connection leaves the entry as it is,
      except that a close removes it all the same: the handler deletes by bot id, not by socket. */
  lemma StaleSocketEvents(m: Manager, botId: BotId, socket: nat, u: Update, encode: string -> Option<string>, persistOk: bool)
    requires botId in m.conns && m.conns[botId].socket != socket
    ensures var r := OnUpdate(m, botId, socket, u, encode, persistOk);
            if u.connection.Some? && u.connection.value.Close? then botId !in r.mgr.conns
            else r.mgr.conns == m.conns
  {
  }

  /** `destroyConnection(botId)`: when there is an entry, logout is attempted (its failure is
      swallowed), the socket is ended and the entry removed; without an entry nothing happens. */
  function Destroy(m: Manager, botId: BotId, logoutOk: bool): (r: Step)
    ensures botId !in r.mgr.conns
    ensures r.mgr.conns == m.conns - {botId} && r.mgr.nextSocket == m.nextSocket
    ensures botId in m.conns ==> r.effects == [Logout(m.conns[botId].socket, logoutOk), EndSocket(m.conns[botId].socket)]
    ensures botId !in m.conns ==> r == Step(m, [])
    ensures Inv(m) ==> Inv(r.mgr)
  {
    if botId in m.conns then
      var s := m.conns[botId].socket;
      Step(m.(conns := m.conns - {botId}), [Logout(s, logoutOk), EndSocket(s)])
    else Step(m, [])
  }

  /** Whether logout succeeds or throws, destroy leaves the same table and ends the same socket. */
  lemma DestroyIgnoresLogoutOutcome(m: Manager, botId: BotId)
    ensures Destroy(m, botId, true).mgr == Destroy(m, botId, false).mgr
    ensures botId in m.conns ==> Destroy(m, botId, true).effects[1] == Destroy(m, botId, false).effects[1]
  {
  }
}
