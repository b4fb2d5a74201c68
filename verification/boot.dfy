/** The server entry point's own logic (server/src/index.ts): the `request-qr` socket event and
    the restore of connections when the server starts listening. */
module Boot {
  import opened Wrappers
  import opened Text
  import opened Seqs
  import opened Records
  import opened Sessions

  /** `request-qr` for `botId`: re-publish the QR the connection holds; when the bot has no
      connection, create one (a setup error is logged and swallowed); when it has one without a QR
      yet, do nothing. */
  function RequestQr(m: Manager, botId: BotId, setupOk: bool): (r: Step)
    ensures r.effects != [] <==> botId in m.conns && Truthy(m.conns[botId].qr)
    ensures r.effects != [] ==> r.effects == [EmitQr(botId, m.conns[botId].qr.value)] && r.mgr == m
    ensures botId in m.conns ==> r.mgr == m
    ensures botId !in m.conns ==> (botId in r.mgr.conns <==> setupOk)
    ensures botId !in m.conns && setupOk ==> r.mgr.conns == m.conns[botId := Connection(m.nextSocket, None, Connecting)]
    ensures Inv(m) ==> Inv(r.mgr)
  {
    var connection := Get(m, botId);
    if connection.Some? && Truthy(connection.value.qr) then Step(m, [EmitQr(botId, connection.value.qr.value)])
    else if connection.None? then
      match Create(m, botId, setupOk)
      case Success(m1) => Step(m1, [])
      case Failure(_) => Step(m, [])
    else Step(m, [])
  }

  /** A second request, once the first request's connection has been created, creates nothing more: the entry is there, still without
      a QR, so the request is ignored until the socket reports one. Once it has, the request
      re-publishes exactly what the socket's QR event published. */
  lemma RequestQrWaitsForQr(m: Manager, botId: BotId, qr: string, encode: string -> Option<string>, setupOk: bool)
    requires botId !in m.conns && qr != "" && encode(qr).Some? && encode(qr).value != ""
    ensures var first := RequestQr(m, botId, true);
            && RequestQr(first.mgr, botId, setupOk) == Step(first.mgr, [])
            && var socket := first.mgr.conns[botId].socket;
               var shown := OnUpdate(first.mgr, botId, socket, Update(Some(qr), None), encode, true);
               RequestQr(shown.mgr, botId, setupOk).effects == shown.effects
  {
    var first := RequestQr(m, botId, true);
    QrKeepsStatus(first.mgr, botId, qr, encode, true);
  }

  /** The bots whose connection is restored at start-up: those last stored ONLINE or PAUSED. */
  predicate Restorable(b: BotInstance) {
    b.status == BotStatus.Online || b.status == BotStatus.Paused
  }

  /** `bots` lists a restorable bot with id `id`. */
  ghost predicate ListedRestorable(bots: seq<BotInstance>, id: BotId) {
    exists b :: b in bots && Restorable(b) && b.id == id
  }

  /** The restorable bots picked out of `bots` carry exactly the ids `bots` lists as restorable. */
  lemma RestorableListed(bots: seq<BotInstance>, id: BotId)
    ensures (exists k :: 0 <= k < |Filter(bots, Restorable)| && Filter(bots, Restorable)[k].id == id) <==> ListedRestorable(bots, id)
  {
    var onlineBots := Filter(bots, Restorable);
    if k :| 0 <= k < |onlineBots| && onlineBots[k].id == id {
      assert onlineBots[k] in bots && Restorable(onlineBots[k]);
      assert ListedRestorable(bots, id);
    }
    if b :| b in bots && Restorable(b) && b.id == id {
      var j :| 0 <= j < |bots| && bots[j] == b;
      assert bots[j] in onlineBots;
      var k :| 0 <= k < |onlineBots| && onlineBots[k] == bots[j];
      assert onlineBots[k].id == id;
      assert exists k' :: 0 <= k' < |Filter(bots, Restorable)| && Filter(bots, Restorable)[k'].id == id;
      assert ListedRestorable(bots, id);
    }
  }

  /** The start-up restore: `bots` is what `getAllBots` returned (`fetchOk` false when it threw,
      which is logged and ends the restore). Each restorable bot in turn gets `createConnection`;
      `setup(id)` says whether its socket setup succeeds, and a failure is logged and the loop goes
      on with the next bot. */
  method Restore(m: Manager, bots: seq<BotInstance>, fetchOk: bool, setup: BotId -> bool) returns (r: Manager)
    ensures !fetchOk ==> r == m
    ensures fetchOk ==> forall id :: id in r.conns <==> id in m.conns || (ListedRestorable(bots, id) && setup(id))
    ensures forall id :: id in m.conns ==> id in r.conns && r.conns[id] == m.conns[id]
    ensures forall id :: id in r.conns && id !in m.conns ==> r.conns[id].qr.None? && r.conns[id].status == Connecting
    ensures Inv(m) ==> Inv(r)
  {
    r := m;
    if !fetchOk {
      return;
    }
    var onlineBots := Filter(bots, Restorable);
    var i := 0;
    while i < |onlineBots|
      invariant 0 <= i <= |onlineBots|
      invariant forall id :: id in r.conns <==> id in m.conns || exists k :: 0 <= k < i && onlineBots[k].id == id && setup(id)
      invariant forall id :: id in m.conns ==> id in r.conns && r.conns[id] == m.conns[id]
      invariant forall id :: id in r.conns && id !in m.conns ==> r.conns[id].qr.None? && r.conns[id].status == Connecting
      invariant Inv(m) ==> Inv(r)
    {
      var id := onlineBots[i].id;
      var created := Create(r, id, setup(id));
      if created.Success? {
        r := created.value;
      }
      i := i + 1;
    }
    forall id
      ensures (exists k :: 0 <= k < |onlineBots| && onlineBots[k].id == id && setup(id)) <==> ListedRestorable(bots, id) && setup(id)
    {
      RestorableListed(bots, id);
    }
  }
}
