/** The conversation-history half of the store service (server/src/database/supabase.ts):
    `addMessageHistory` and `getConversationHistory` over an in-memory `conversation_history`
    table. Timestamps here are epoch milliseconds, because the read window is computed by
    subtracting hours from the current instant. */
module History {
  import opened Seqs
  import opened Records

  datatype Role = User | Model

  datatype Turn = Turn(botId: BotId, remoteJid: string, role: Role, content: string, timestamp: int)

  /** The table and whether the store answers. */
  datatype HistoryStore = HistoryStore(turns: seq<Turn>, up: bool)

  /** The oldest instant a history read keeps, exclusive: `hours` hours before `now`. */
  function Cutoff(now: int, hours: int): int {
    now - hours * 3600000
  }

  /** `addMessageHistory`: one row stamped by the store at `now`; an insert error is only logged. */
  function AddMessageHistory(h: HistoryStore, botId: BotId, jid: string, role: Role, content: string, now: int)
    : (r: HistoryStore)
    ensures r.up == h.up
    ensures h.up ==> r.turns == h.turns + [Turn(botId, jid, role, content, now)]
    ensures !h.up ==> r == h
  {
    if h.up then h.(turns := h.turns + [Turn(botId, jid, role, content, now)]) else h
  }

  /** The rows the query's filters keep: this bot, this chat, strictly newer than the cutoff. */
  predicate InWindow(t: Turn, botId: BotId, jid: string, cutoff: int) {
    t.botId == botId && t.remoteJid == jid && t.timestamp > cutoff
  }

  function Qualifying(turns: seq<Turn>, botId: BotId, jid: string, cutoff: int): seq<Turn> {
    Filter(turns, (t: Turn) => InWindow(t, botId, jid, cutoff))
  }

  /** `.order('timestamp', { ascending: false })`. */
  function NewestFirst(turns: seq<Turn>): seq<Turn> {
    SortBy(turns, Age)
  }

  /** The sort key that puts the newest row first. */
  function Age(t: Turn): int {
    -t.timestamp
  }

  function Min(a: int, b: int): int {
    if a <= b then a else b
  }

  /** The newest `limit` rows of `q`, oldest first: `.order(desc).limit(limit)` then `reverse()`. */
  function Window(q: seq<Turn>, limit: nat): seq<Turn> {
    var d := NewestFirst(q);
    Reverse(d[..Min(limit, |d|)])
  }

  /** `getConversationHistory(botId, jid, limit, hours)` at instant `now`; a query error yields no rows. */
  function GetConversationHistory(h: HistoryStore, botId: BotId, jid: string, limit: nat, hours: int, now: int)
    : (r: seq<Turn>)
    ensures !h.up ==> r == []
    ensures |r| <= limit
  {
    if !h.up then []
    else Window(Qualifying(h.turns, botId, jid, Cutoff(now, hours)), limit)
  }

  /** The window splits the sorted rows into what it returns and what it leaves out. */
  lemma {:induction false} WindowSplit(q: seq<Turn>, limit: nat)
    ensures var d := NewestFirst(q);
            var k := Min(limit, |d|);
            && multiset(Window(q, limit)) == multiset(d[..k])
            && multiset(q) == multiset(d[..k]) + multiset(d[k..])
  {
    var d := NewestFirst(q);
    var k := Min(limit, |d|);
    ReverseMultiset(d[..k]);
    assert d == d[..k] + d[k..];
  }

  /** The window is in ascending timestamp order. */
  lemma {:induction false} WindowAscending(q: seq<Turn>, limit: nat)
    ensures var r := Window(q, limit);
            forall i, j :: 0 <= i < j < |r| ==> r[i].timestamp <= r[j].timestamp
  {
    var d := NewestFirst(q);
    var k := Min(limit, |d|);
    var r := Window(q, limit);
    forall i, j | 0 <= i < j < |r|
      ensures r[i].timestamp <= r[j].timestamp
    {
      assert r[i] == d[k - 1 - i] && r[j] == d[k - 1 - j];
    }
  }

  /** Every row of the window is a row of `q`. */
  lemma {:induction false} WindowFromQuery(q: seq<Turn>, limit: nat)
    ensures forall i :: 0 <= i < |Window(q, limit)| ==> Window(q, limit)[i] in q
  {
    var r := Window(q, limit);
    var d := NewestFirst(q);
    var k := Min(limit, |d|);
    WindowSplit(q, limit);
    forall i | 0 <= i < |r|
      ensures r[i] in q
    {
      assert r[i] in multiset(d[..k]);
      assert r[i] in multiset(q);
    }
  }

  /** A row the filters keep is in the window of its bot, chat and cutoff. */
  lemma {:induction false} QualifyingInWindow(turns: seq<Turn>, botId: BotId, jid: string, cutoff: int, x: Turn)
    requires x in Qualifying(turns, botId, jid, cutoff)
    ensures InWindow(x, botId, jid, cutoff)
  {
    var q := Qualifying(turns, botId, jid, cutoff);
    var a :| 0 <= a < |q| && q[a] == x;
  }

  /** Every row returned belongs to this bot and chat and is newer than `hours` before `now`, and
      the rows come oldest first. */
  lemma {:induction false} HistoryRowsQualify(h: HistoryStore, botId: BotId, jid: string, limit: nat, hours: int, now: int)
    ensures var r := GetConversationHistory(h, botId, jid, limit, hours, now);
            && (forall i :: 0 <= i < |r| ==> InWindow(r[i], botId, jid, Cutoff(now, hours)))
            && (forall i, j :: 0 <= i < j < |r| ==> r[i].timestamp <= r[j].timestamp)
  {
    if h.up {
      var cutoff := Cutoff(now, hours);
      var q := Qualifying(h.turns, botId, jid, cutoff);
      WindowQualifies(h.turns, botId, jid, cutoff, limit);
      WindowAscending(q, limit);
      assert GetConversationHistory(h, botId, jid, limit, hours, now) == Window(q, limit);
    }
  }

  /** Every row of the window of the qualifying rows is in the window of its bot, chat and cutoff. */
  lemma {:induction false} WindowQualifies(turns: seq<Turn>, botId: BotId, jid: string, cutoff: int, limit: nat)
    ensures var r := Window(Qualifying(turns, botId, jid, cutoff), limit);
            forall i :: 0 <= i < |r| ==> InWindow(r[i], botId, jid, cutoff)
  {
    var q := Qualifying(turns, botId, jid, cutoff);
    var r := Window(q, limit);
    WindowFromQuery(q, limit);
    forall i | 0 <= i < |r|
      ensures InWindow(r[i], botId, jid, cutoff)
    {
      QualifyingInWindow(turns, botId, jid, cutoff, r[i]);
    }
  }

  /** The qualifying rows `Window` does not return: the older end of the newest-first order. */
  function LeftOut(q: seq<Turn>, limit: nat): seq<Turn> {
    var d := NewestFirst(q);
    d[Min(limit, |d|)..]
  }

  /** The window holds as many rows as the limit allows, and they are the most recent ones: the
      qualifying rows are exactly the window plus the rows left out, and no row left out is newer
      than a row returned. */
  lemma {:induction false} WindowIsMostRecent(h: HistoryStore, botId: BotId, jid: string, limit: nat, hours: int, now: int)
    requires h.up
    ensures var q := Qualifying(h.turns, botId, jid, Cutoff(now, hours));
            var r := GetConversationHistory(h, botId, jid, limit, hours, now);
            var rest := LeftOut(q, limit);
            && |r| == Min(limit, |q|)
            && multiset(q) == multiset(r) + multiset(rest)
            && forall i, j :: 0 <= i < |rest| && 0 <= j < |r| ==> rest[i].timestamp <= r[j].timestamp
  {
    var q := Qualifying(h.turns, botId, jid, Cutoff(now, hours));
    WindowKeepsNewest(q, limit);
  }

  /** No row left out is newer than a row in the window. */
  lemma {:induction false} LeftOutIsOlder(q: seq<Turn>, limit: nat)
    ensures var r := Window(q, limit);
            var rest := LeftOut(q, limit);
            forall i, j :: 0 <= i < |rest| && 0 <= j < |r| ==> rest[i].timestamp <= r[j].timestamp
  {
    var d := NewestFirst(q);
    var k := Min(limit, |d|);
    var r := Window(q, limit);
    var rest := LeftOut(q, limit);
    assert r == Reverse(d[..k]);
    assert rest == d[k..];
    assert SortedBy(d, Age);
    forall i, j | 0 <= i < |rest| && 0 <= j < |r|
      ensures rest[i].timestamp <= r[j].timestamp
    {
      assert rest[i] == d[k + i];
      assert r[j] == d[..k][k - 1 - j];
      assert Age(d[k - 1 - j]) <= Age(d[k + i]);
    }
  }

  /** `Window` and `LeftOut` partition the rows, and the window holds the newest ones. */
  lemma {:induction false} WindowKeepsNewest(q: seq<Turn>, limit: nat)
    ensures var r := Window(q, limit);
            var rest := LeftOut(q, limit);
            && |r| == Min(limit, |q|)
            && multiset(q) == multiset(r) + multiset(rest)
            && forall i, j :: 0 <= i < |rest| && 0 <= j < |r| ==> rest[i].timestamp <= r[j].timestamp
  {
    WindowSplit(q, limit);
    LeftOutIsOlder(q, limit);
  }

  /** When one row of `q` is strictly newer than all the others, it is the last row of any
      non-empty window. */
  lemma {:induction false} WindowEndsWithNewest(q: seq<Turn>, limit: nat, x: Turn)
    requires limit >= 1
    requires x in q
    requires forall i :: 0 <= i < |q| && q[i] != x ==> q[i].timestamp < x.timestamp
    ensures |Window(q, limit)| >= 1
    ensures Window(q, limit)[|Window(q, limit)| - 1] == x
  {
    var r := Window(q, limit);
    var rest := LeftOut(q, limit);
    WindowKeepsNewest(q, limit);
    WindowAscending(q, limit);
    WindowFromQuery(q, limit);
    var y := r[|r| - 1];
    assert x in multiset(r) + multiset(rest);
    assert x in r;
    var j :| 0 <= j < |r| && r[j] == x;
    assert x.timestamp <= y.timestamp;
    var a :| 0 <= a < |q| && q[a] == y;
  }

  /** A store that does not answer gives an empty history rather than an error. */
  lemma QueryErrorGivesNoHistory(h: HistoryStore, botId: BotId, jid: string, limit: nat, hours: int, now: int)
    requires !h.up
    ensures GetConversationHistory(h, botId, jid, limit, hours, now) == []
  {
  }
}
