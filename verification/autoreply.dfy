/** The incoming-message auto-responder (server/src/baileys/BaileysManager.ts, the
    `messages.upsert` handler and `handleIncomingMessage`). Only the first message of a batch is
    looked at; the reply is either a static text from the bot's configuration or the answer of the
    AI function, which sees the conversation so far. The AI service is a parameter: it stands for
    `generateResponse`, including the apology texts it returns when it has no key or fails. */
module AutoReply {
  import opened Wrappers
  import opened Text
  import opened Records
  import opened BotStore
  import opened Sessions
  import opened History

  /** The parts of a message body the handler reads. */
  datatype Content = Content(conversation: Option<string>, extendedText: Option<string>)

  /** One received message: its body (absent for e.g. protocol messages), whether this account sent
      it, and the chat it came from. */
  datatype Inbound = Inbound(content: Option<Content>, fromMe: bool, remoteJid: Option<string>)

  /** `sendMessage(jid, { text })` on the socket of the bot's current connection. */
  datatype Reply = Reply(socket: nat, jid: string, text: string)

  /** What handling a batch leaves: the history table and the reply sent, if any. */
  datatype Handled = Handled(history: HistoryStore, reply: Option<Reply>)

  const DefaultFallback: string := "Desculpe, não entendi."
  const DefaultSystemInstruction: string := "Você é um assistente útil."
  const Greeting: string := "oi"
  const GroupSuffix: string := "@g.us"
  const HistoryLimit: nat := 10
  const HistoryHours: int := 4

  /** `conversation || extendedTextMessage.text || ''`. */
  function MessageText(c: Content): (r: string)
    ensures Truthy(c.conversation) ==> r == c.conversation.value
    ensures !Truthy(c.conversation) && Truthy(c.extendedText) ==> r == c.extendedText.value
    ensures r == "" <==> !Truthy(c.conversation) && !Truthy(c.extendedText)
  {
    if Truthy(c.conversation) then c.conversation.value
    else if Truthy(c.extendedText) then c.extendedText.value
    else ""
  }

  /** The reply without AI: the welcome message when there is one and the lower-cased text contains
      "oi" anywhere, otherwise the fallback message (or the built-in one when it is empty). */
  function StaticReply(config: BotConfig, text: string): (r: string)
    ensures Truthy(config.welcomeMessage) && Contains(ToLower(text), Greeting) ==> r == config.welcomeMessage.value
    ensures !(Truthy(config.welcomeMessage) && Contains(ToLower(text), Greeting)) ==>
              r == (if config.fallbackMessage != "" then config.fallbackMessage else DefaultFallback)
    ensures r != ""
  {
    if Truthy(config.welcomeMessage) && Contains(ToLower(text), Greeting) then config.welcomeMessage.value
    else if config.fallbackMessage != "" then config.fallbackMessage
    else DefaultFallback
  }

  /** `system_instruction || 'Você é um assistente útil.'`. */
  function SystemContext(config: BotConfig): (r: string)
    ensures r != ""
    ensures Truthy(config.systemInstruction) ==> r == config.systemInstruction.value
  {
    if Truthy(config.systemInstruction) then config.systemInstruction.value else DefaultSystemInstruction
  }

  /** The AI path: store the user's text, read the recent history (which now includes it), ask the
      AI, store its answer as a `model` turn. Returns the new history and the answer. */
  function AiExchange(h: HistoryStore, botId: BotId, jid: string, text: string, config: BotConfig,
                      ai: (string, string, seq<Turn>) -> string, now: int, answeredAt: int)
    : (r: (HistoryStore, string))
    ensures h.up ==> r.0.turns == h.turns + [Turn(botId, jid, User, text, now), Turn(botId, jid, Model, r.1, answeredAt)]
    ensures !h.up ==> r.0 == h && r.1 == ai(text, SystemContext(config), [])
  {
    var h1 := AddMessageHistory(h, botId, jid, User, text, now);
    var past := GetConversationHistory(h1, botId, jid, HistoryLimit, HistoryHours, now);
    var answer := ai(text, SystemContext(config), past);
    (AddMessageHistory(h1, botId, jid, Model, answer, answeredAt), answer)
  }

  /** `handleIncomingMessage(botId, message)` for a message that has a body and is not from this
      account. Every early return and every thrown error (caught and logged) sends nothing. */
  function HandleIncoming(db: BotDb, mgr: Manager, h: HistoryStore, botId: BotId, c: Content, jid: Option<string>,
                          ai: (string, string, seq<Turn>) -> string, now: int, answeredAt: int)
    : (r: Handled)
    ensures r.reply.Some? ==> botId in mgr.conns && r.reply.value.socket == mgr.conns[botId].socket
    ensures r.reply.Some? ==> jid.Some? && r.reply.value.jid == jid.value
    ensures r.reply.None? ==> r.history == h
  {
    match GetBotWithConfig(db, botId)
    case Failure(_) => Handled(h, None)
    case Success(pair) =>
      var config := pair.1;
      if config.None? || !config.value.autoReplyEnabled then Handled(h, None)
      else if botId !in mgr.conns then Handled(h, None)
      else if !Truthy(jid) then Handled(h, None)
      else if EndsWith(jid.value, GroupSuffix) && config.value.ignoreGroups then Handled(h, None)
      else
        var text := MessageText(c);
        if text == "" then Handled(h, None)
        else if config.value.geminiEnabled then
          var ex := AiExchange(h, botId, jid.value, text, config.value, ai, now, answeredAt);
          Handled(ex.0, Some(Reply(mgr.conns[botId].socket, jid.value, ex.1)))
        else Handled(h, Some(Reply(mgr.conns[botId].socket, jid.value, StaticReply(config.value, text))))
  }

  /** The `messages.upsert` handler: the first message of the batch, when it has a body and this
      account did not send it. */
  function HandleUpsert(db: BotDb, mgr: Manager, h: HistoryStore, botId: BotId, batch: seq<Inbound>,
                        ai: (string, string, seq<Turn>) -> string, now: int, answeredAt: int)
    : (r: Handled)
    ensures r.reply.Some? ==> |batch| > 0 && batch[0].content.Some? && !batch[0].fromMe
    ensures r.reply.Some? ==> botId in mgr.conns && r.reply.value.socket == mgr.conns[botId].socket
    ensures r.reply.None? ==> r.history == h
  {
    if batch == [] then Handled(h, None)
    else
      var m := batch[0];
      if m.content.None? || m.fromMe then Handled(h, None)
      else HandleIncoming(db, mgr, h, botId, m.content.value, m.remoteJid, ai, now, answeredAt)
  }

  /** Every condition under which the handler answers, stated on its own: the first message has a
      body, is not from this account, the bot and its config are readable with auto-reply on, the bot
      has a connection, the chat id is non-empty and not an ignored group, and there is text. */
  predicate Answers(db: BotDb, mgr: Manager, botId: BotId, batch: seq<Inbound>) {
    && |batch| > 0
    && batch[0].content.Some?
    && !batch[0].fromMe
    && db.up && botId in db.bots && botId in db.configs
    && db.configs[botId].autoReplyEnabled
    && botId in mgr.conns
    && Truthy(batch[0].remoteJid)
    && !(EndsWith(batch[0].remoteJid.value, GroupSuffix) && db.configs[botId].ignoreGroups)
    && MessageText(batch[0].content.value) != ""
  }

  /** The handler sends a reply exactly when `Answers` holds; when it does, the reply goes to the
      message's chat on the bot's current socket, and the text is the static reply or the AI answer
      according to the configuration. */
  lemma ReplyIffAnswers(db: BotDb, mgr: Manager, h: HistoryStore, botId: BotId, batch: seq<Inbound>,
                        ai: (string, string, seq<Turn>) -> string, now: int, answeredAt: int)
    ensures var r := HandleUpsert(db, mgr, h, botId, batch, ai, now, answeredAt);
            && (r.reply.Some? <==> Answers(db, mgr, botId, batch))
            && (Answers(db, mgr, botId, batch) ==>
                  var config := db.configs[botId];
                  var text := MessageText(batch[0].content.value);
                  && r.reply.value.jid == batch[0].remoteJid.value
                  && (!config.geminiEnabled ==> r.reply.value.text == StaticReply(config, text) && r.history == h)
                  && (config.geminiEnabled ==> r.reply.value.text == AiExchange(h, botId, batch[0].remoteJid.value, text, config, ai, now, answeredAt).1))
  {
  }

  /** On the AI path the user's text is stored before the history is read, so the history handed to
      the AI ends with that very message (given that every earlier turn is older than `now`); the
      answer is then stored as a `model` turn after it. */
  lemma {:induction false} AiSeesCurrentMessageLast(h: HistoryStore, botId: BotId, jid: string, text: string,
                                                     config: BotConfig, now: int)
    requires h.up
    requires forall i :: 0 <= i < |h.turns| ==> h.turns[i].timestamp < now
    ensures var h1 := AddMessageHistory(h, botId, jid, User, text, now);
            var past := GetConversationHistory(h1, botId, jid, HistoryLimit, HistoryHours, now);
            && |past| >= 1
            && past[|past| - 1] == Turn(botId, jid, User, text, now)
  {
    var x := Turn(botId, jid, User, text, now);
    var h1 := AddMessageHistory(h, botId, jid, User, text, now);
    var cutoff := Cutoff(now, HistoryHours);
    var q := Qualifying(h1.turns, botId, jid, cutoff);
    assert h1.turns[|h1.turns| - 1] == x;
    assert x in q;
    forall i | 0 <= i < |q| && q[i] != x
      ensures q[i].timestamp < x.timestamp
    {
      var a :| 0 <= a < |h1.turns| && h1.turns[a] == q[i];
      assert a < |h.turns|;
      assert h.turns[a] == q[i];
    }
    WindowEndsWithNewest(q, HistoryLimit, x);
  }

  /** A group chat is not answered when the bot ignores groups, and nothing is stored. */
  lemma IgnoredGroupGetsNoReply(db: BotDb, mgr: Manager, h: HistoryStore, botId: BotId, c: Content, jid: string,
                                ai: (string, string, seq<Turn>) -> string, now: int, answeredAt: int)
    requires botId in db.configs && db.configs[botId].ignoreGroups
    requires EndsWith(jid, GroupSuffix)
    ensures HandleIncoming(db, mgr, h, botId, c, Some(jid), ai, now, answeredAt) == Handled(h, None)
  {
  }

  /** The greeting test is one substring anywhere in the lower-cased text: "Oi, tudo bem?" and
      "Boi" get the welcome message, "Olá" gets the fallback. */
  lemma GreetingIsAnySubstring(config: BotConfig)
    requires Truthy(config.welcomeMessage) && config.fallbackMessage != ""
    ensures StaticReply(config, "Oi, tudo bem?") == config.welcomeMessage.value
    ensures StaticReply(config, "Boi") == config.welcomeMessage.value
    ensures StaticReply(config, "Olá") == config.fallbackMessage
  {
    GreetingFound("Oi, tudo bem?", 0);
    GreetingFound("Boi", 1);
    NoGreetingInOla();
  }

  /** A text whose characters at `i` and `i + 1` lower-case to "oi" contains the greeting. */
  lemma GreetingFound(text: string, i: nat)
    requires i + 1 < |text| && LowerChar(text[i]) == 'o' && LowerChar(text[i + 1]) == 'i'
    ensures Contains(ToLower(text), Greeting)
  {
    var a := ToLower(text);
    assert a[i..i + 2] == Greeting by {
      assert a[i] == 'o' && a[i + 1] == 'i';
    }
    ContainsAt(a, Greeting, i);
  }

  lemma NoGreetingInOla()
    ensures !Contains(ToLower("Olá"), Greeting)
  {
    var c := ToLower("Olá");
    assert c[0] == 'o' && c[1] == 'l' && c[2] == 'á';
    NotContainsByPair(c, Greeting);
  }
}
