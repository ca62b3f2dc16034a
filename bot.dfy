/**
 * The bot's handlers (main.ts): the configuration read at start-up, the
 * chat allow-list gate, recording every admitted message into the
 * conversation memory with its forward deep link, the `/sp` and `/rp`
 * prompt commands and the `/s` command. The memory is one object whose
 * `chats` map the handlers update in place.
 */
module Bot {
  import opened Wrappers
  import opened JsStrings
  import opened Helpers
  import opened Reply
  import opened Selection

  /** The message a command replies to: its id and its text. */
  datatype Replied = Replied(messageId: int, text: Option<string>)

  /**
   * The parts of an inbound message the handlers read. `command` is the bot
   * command the platform marks at the start of the text, without the slash.
   */
  datatype Inbound = Inbound(
    messageId: int,
    chatId: int,
    from: User,
    text: Option<string>,
    caption: Option<string>,
    command: Option<string>,
    forwardDate: Option<int>,
    forwardFromChat: Option<int>,
    forwardFromMessageId: Option<int>,
    replyTo: Option<Replied>)

  // ----- configuration -----

  /** The configuration the handlers use; temperature and token limit are left out. */
  datatype Config = Config(token: string, openAIKey: string, model: string, defaultPrompt: string,
                           whitelist: seq<Option<int>>)

  /** `split(',').map(parseInt)`: one entry per comma-separated field, `None` for a field that is `NaN`. */
  function Whitelist(raw: string): (r: seq<Option<int>>)
    ensures |r| == Count(raw, ',') + 1
    ensures forall k :: 0 <= k < |r| ==> r[k] == ParseInt(Split(raw, ',')[k])
  {
    var fields := Split(raw, ',');
    seq(|fields|, k requires 0 <= k < |fields| => ParseInt(fields[k]))
  }

  /** The decimal texts of the ids. */
  function IdTexts(ids: seq<int>): (r: seq<string>)
    ensures |r| == |ids| && forall k :: 0 <= k < |ids| ==> r[k] == NumberToString(ids[k]) && ',' !in r[k]
  {
    seq(|ids|, k requires 0 <= k < |ids| => NumberToString(ids[k]))
  }

  /** Chat ids written the way an operator lists them: decimal, separated by commas. */
  function JoinIds(ids: seq<int>): string
  {
    Join(IdTexts(ids), ',')
  }

  /** The ids, each as a parsed entry. */
  function AsEntries(ids: seq<int>): (r: seq<Option<int>>)
    ensures |r| == |ids| && forall k :: 0 <= k < |ids| ==> r[k] == Some(ids[k])
  {
    seq(|ids|, k requires 0 <= k < |ids| => Some(ids[k]))
  }

  /** A comma-separated list of ids is read back as exactly those ids. */
  lemma WhitelistOfIds(ids: seq<int>)
    requires ids != []
    ensures Whitelist(JoinIds(ids)) == AsEntries(ids)
  {
    var texts := IdTexts(ids);
    SplitJoin(texts, ',');
    forall k | 0 <= k < |ids| ensures ParseInt(texts[k]) == Some(ids[k]) {
      ParseIntNumberToString(ids[k]);
    }
  }

  /** So a chat passes the list iff its id was listed. */
  lemma WhitelistAdmitsListed(ids: seq<int>)
    requires ids != []
    ensures forall c :: Some(c) in Whitelist(JoinIds(ids)) <==> c in ids
  {
    WhitelistOfIds(ids);
    var w := AsEntries(ids);
    forall c ensures Some(c) in w <==> c in ids {
      if c in ids {
        var k :| 0 <= k < |ids| && ids[k] == c;
        assert w[k] == Some(c);
      }
    }
  }

  /** A variable is set when it is present and not empty. */
  predicate IsSet(env: map<string, string>, key: string)
  {
    key in env && env[key] != ""
  }

  /**
   * The start-up configuration: the required variables are read in order and
   * the first one missing aborts with its error; the prompt is trimmed. The
   * whitelist has an empty default, which counts as none, so it is required too.
   */
  function Configure(env: map<string, string>): (r: Result<Config, string>)
    ensures !IsSet(env, "BOT_TOKEN") ==> r == Failure(MissingVariable("BOT_TOKEN"))
    ensures IsSet(env, "BOT_TOKEN") && !IsSet(env, "OPENAI_API_KEY") ==> r == Failure(MissingVariable("OPENAI_API_KEY"))
    ensures IsSet(env, "BOT_TOKEN") && IsSet(env, "OPENAI_API_KEY") && !IsSet(env, "OPENAI_MODEL") ==>
              r == Failure(MissingVariable("OPENAI_MODEL"))
    ensures (IsSet(env, "BOT_TOKEN") && IsSet(env, "OPENAI_API_KEY") && IsSet(env, "OPENAI_MODEL")
             && !IsSet(env, "OPENAI_PROMPT")) ==> r == Failure(MissingVariable("OPENAI_PROMPT"))
    ensures (IsSet(env, "BOT_TOKEN") && IsSet(env, "OPENAI_API_KEY") && IsSet(env, "OPENAI_MODEL")
             && IsSet(env, "OPENAI_PROMPT") && !IsSet(env, "BOT_WHITELIST")) ==> r == Failure(MissingVariable("BOT_WHITELIST"))
    ensures r.Success? <==> IsSet(env, "BOT_TOKEN") && IsSet(env, "OPENAI_API_KEY") && IsSet(env, "OPENAI_MODEL")
                            && IsSet(env, "OPENAI_PROMPT") && IsSet(env, "BOT_WHITELIST")
    ensures r.Success? ==> && r.value.token == env["BOT_TOKEN"]
                           && r.value.defaultPrompt == Trim(env["OPENAI_PROMPT"])
                           && r.value.whitelist == Whitelist(env["BOT_WHITELIST"])
  {
    match GetEnv(env, "BOT_TOKEN", None)
    case Failure(e) => Failure(e)
    case Success(token) =>
      match GetEnv(env, "OPENAI_API_KEY", None)
      case Failure(e) => Failure(e)
      case Success(key) =>
        match GetEnv(env, "OPENAI_MODEL", None)
        case Failure(e) => Failure(e)
        case Success(model) =>
          match GetEnv(env, "OPENAI_PROMPT", None)
          case Failure(e) => Failure(e)
          case Success(prompt) =>
            match GetEnv(env, "BOT_WHITELIST", Some(""))
            case Failure(e) => Failure(e)
            case Success(list) => Success(Config(token, key, model, Trim(prompt), Whitelist(list)))
  }

  // ----- the gate -----

  const NotAvailable: string := "This bot is not available in this chat"
  const ContactOwner: string := "If you want to use this bot in your chat, contact @sleroq"

  /** The gate's verdict: pass the message on, or refuse it with these replies. */
  datatype Gate = Pass | Refuse(replies: seq<string>)

  /** The exact text `/json` passes from any chat; anything else passes only from a listed chat. */
  function Admit(msg: Inbound, whitelist: seq<Option<int>>): (g: Gate)
    ensures msg.text == Some("/json") ==> g == Pass
    ensures g.Pass? <==> msg.text == Some("/json") || Some(msg.chatId) in whitelist
    ensures g.Refuse? ==> g.replies == [NotAvailable, ContactOwner]
  {
    if msg.text == Some("/json") then Pass
    else if Some(msg.chatId) !in whitelist then Refuse([NotAvailable, ContactOwner])
    else Pass
  }

  // ----- recording -----

  /** Channel ids carry this offset; the deep link drops it. */
  const ChannelOffset: int := 1000000000000
  const LinkPrefix: string := "https://t.me/c/"

  function Abs(x: int): nat
  {
    if x < 0 then -x else x
  }

  /**
   * The deep link to the original of a message forwarded from a chat with a
   * negative id; a missing origin message id prints as `undefined`.
   */
  function ForwardUrl(originChat: Option<int>, originMessage: Option<int>): (r: Option<string>)
    ensures r.Some? <==> originChat.Some? && originChat.value < 0
  {
    if originChat.Some? && originChat.value < 0 then
      var message := match originMessage case Some(k) => NumberToString(k) case None => "undefined";
      Some(LinkPrefix + NumberToString(Abs(originChat.value + ChannelOffset)) + "/" + message)
    else None
  }

  /** Reads a deep link back into its chat part and message id. */
  function ParseForwardUrl(url: string): Option<(int, int)>
  {
    if |url| >= |LinkPrefix| && url[..|LinkPrefix|] == LinkPrefix then
      var fields := Split(url[|LinkPrefix|..], '/');
      if |fields| == 2 then
        match (ParseInt(fields[0]), ParseInt(fields[1]))
        case (Some(c), Some(k)) => Some((c, k))
        case _ => None
      else None
    else None
  }

  /**
   * The deep link names the origin: its chat part is `|id + 10^12|` (so
   * `-100` followed by the channel number gives the channel number) and its
   * last part the origin message id.
   */
  lemma ForwardUrlNamesOrigin(chat: int, message: int)
    requires chat < 0
    ensures ForwardUrl(Some(chat), Some(message)).Some?
    ensures ParseForwardUrl(ForwardUrl(Some(chat), Some(message)).value) == Some((Abs(chat + ChannelOffset), message))
    ensures chat <= -ChannelOffset ==> Abs(chat + ChannelOffset) == -ChannelOffset - chat
  {
    var a := NumberToString(Abs(chat + ChannelOffset));
    var b := NumberToString(message);
    var url := LinkPrefix + a + "/" + b;
    assert url[..|LinkPrefix|] == LinkPrefix;
    assert url[|LinkPrefix|..] == a + ['/'] + b;
    SplitTwo(a, b, '/');
    ParseIntNumberToString(Abs(chat + ChannelOffset));
    ParseIntNumberToString(message);
  }

  /** Every deep link starts with `h` and holds no `]`, so `SourceKeepsTarget` applies to its link target. */
  lemma ForwardUrlFitsTarget(originChat: Option<int>, originMessage: Option<int>)
    requires ForwardUrl(originChat, originMessage).Some?
    ensures var u := ForwardUrl(originChat, originMessage).value;
            |u| >= 2 && u[0] == 'h' && ']' !in u
  {
    var a := NumberToString(Abs(originChat.value + ChannelOffset));
    var message := match originMessage case Some(k) => NumberToString(k) case None => "undefined";
    assert ']' !in LinkPrefix && ']' !in message;
    assert ForwardUrl(originChat, originMessage).value == LinkPrefix + a + "/" + message;
  }

  /** The supergroup id `-1001234567890` links as chat `1234567890`. */
  lemma ForwardUrlExample(message: int)
    ensures ParseForwardUrl(ForwardUrl(Some(-1001234567890), Some(message)).value) == Some((1234567890, message))
  {
    ForwardUrlNamesOrigin(-1001234567890, message);
  }

  /** What is stored for a message: its text or else its caption, the forward flag, the deep link and the sender. */
  function ToStored(msg: Inbound): StoredMessage
  {
    StoredMessage(
      if Truthy(msg.text) then msg.text else msg.caption,
      msg.forwardDate.Some?,
      ForwardUrl(msg.forwardFromChat, msg.forwardFromMessageId),
      msg.from)
  }

  /**
   * A recorded message can later be a source exactly when it was forwarded
   * and has a text or a caption; a forward without an origin chat has no link.
   */
  lemma StoredEligibility(msg: Inbound)
    ensures Eligible(ToStored(msg)) <==> msg.forwardDate.Some? && (Truthy(msg.text) || Truthy(msg.caption))
    ensures msg.forwardDate.Some? && msg.forwardFromChat.None? ==> ToStored(msg).forward && ToStored(msg).forwardUrl.None?
    ensures ToStored(msg).forwardUrl.Some? ==> msg.forwardFromChat.Some? && msg.forwardFromChat.value < 0
  {
  }

  /** The memory after recording `msg`: its chat created on first sight, then the entry for its id (re)written. */
  function Record(mem: Memory, msg: Inbound): (r: Memory)
    ensures r.Keys == mem.Keys + {msg.chatId}
    ensures forall c :: c in mem && c != msg.chatId ==> r[c] == mem[c]
    ensures r[msg.chatId].messages.Keys == (if msg.chatId in mem then mem[msg.chatId].messages.Keys else {}) + {msg.messageId}
    ensures r[msg.chatId].messages[msg.messageId] == ToStored(msg)
    ensures msg.chatId in mem ==> forall id :: id in mem[msg.chatId].messages && id != msg.messageId ==>
              r[msg.chatId].messages[id] == mem[msg.chatId].messages[id]
    ensures r[msg.chatId].prompt == (if msg.chatId in mem then mem[msg.chatId].prompt else None)
  {
    var chat := if msg.chatId in mem then mem[msg.chatId] else Chat(map[], None);
    mem[msg.chatId := chat.(messages := chat.messages[msg.messageId := ToStored(msg)])]
  }

  /** Recording the same message twice is the same as recording it once. */
  lemma RecordIdempotent(mem: Memory, msg: Inbound)
    ensures Record(Record(mem, msg), msg) == Record(mem, msg)
  {
    var once := Record(mem, msg);
    var twice := Record(once, msg);
    assert twice[msg.chatId].messages == once[msg.chatId].messages;
    assert twice[msg.chatId] == once[msg.chatId];
  }

  /** Messages with different ids, or in different chats, can be recorded in either order. */
  lemma RecordCommutes(mem: Memory, a: Inbound, b: Inbound)
    requires a.chatId != b.chatId || a.messageId != b.messageId
    ensures Record(Record(mem, a), b) == Record(Record(mem, b), a)
  {
    var ab := Record(Record(mem, a), b);
    var ba := Record(Record(mem, b), a);
    assert ab.Keys == ba.Keys;
    forall c | c in ab ensures ab[c] == ba[c] {
      if c == a.chatId || c == b.chatId {
        assert ab[c].messages == ba[c].messages;
      }
    }
  }

  /** `/start` and `/help` are answered before the recording handler runs, so they are not recorded. */
  predicate IsRecorded(msg: Inbound)
  {
    msg.command != Some("start") && msg.command != Some("help")
  }

  // ----- prompts and `/s` -----

  /** `prompt || defaultPrompt`: the chat's prompt override unless it is missing or empty. */
  function EffectivePrompt(prompt: Option<string>, defaultPrompt: string): (r: string)
    ensures Truthy(prompt) ==> r == prompt.value
    ensures !Truthy(prompt) ==> r == defaultPrompt
  {
    if Truthy(prompt) then prompt.value else defaultPrompt
  }

  const MustReply: string := "You must reply to a message to use this command"
  const MustHaveText: string := "The replied message must contain text"
  const PromptSet: string := "Prompt set"
  const PromptRemoved: string := "Prompt removed"
  const Silly: string := "No anwer for you, silly"
  const Dummy: string := "No anwer for you, dummy"

  /** How `/s` ends: a generated reply, an apology, or a `TypeError` that ends the handler. */
  datatype Outcome = Sent(text: string) | Apology(text: string) | Crashed

  /** A `/s` command without a usable reply target uses Mode A. */
  predicate UsesModeA(cmd: Inbound)
  {
    cmd.replyTo.None? || cmd.replyTo.value.messageId == 0
  }

  /** The reply for one Mode A source. */
  function SingleReply(m: StoredMessage, prompt: string, api: (string, string) -> ApiAnswer): string
    requires Truthy(m.text)
  {
    GetReply(Complete(api(m.text.value, prompt)), m.forwardUrl)
  }

  /** What `/s` answers in `chat`, given the completion service `api`. */
  function Summary(chat: Chat, cmd: Inbound, defaultPrompt: string, api: (string, string) -> ApiAnswer): Outcome
  {
    var prompt := EffectivePrompt(chat.prompt, defaultPrompt);
    if UsesModeA(cmd) then
      match ModeA(chat.messages, cmd.messageId)
      case Candidate(m) => Sent(SingleReply(m, prompt, api))
      case NoAnswerSilly => Apology(Silly)
      case NoAnswerDummy => Apology(Dummy)
      case Crash => Crashed
    else
      match cmd.text
      case None => Crashed
      case Some(t) =>
        var ids := ModeBIds(chat.messages, cmd.replyTo.value.messageId, Limit(t));
        Sent(Replies(PrepareSources(MessagesOf(chat.messages, ids)), prompt, api))
  }

  /** With no reply target, a forwarded text right before the command is what `/s` answers about. */
  lemma SummaryOfPrevious(chat: Chat, cmd: Inbound, defaultPrompt: string, api: (string, string) -> ApiAnswer)
    requires UsesModeA(cmd)
    requires cmd.messageId - 1 in chat.messages && Eligible(chat.messages[cmd.messageId - 1])
    ensures Summary(chat, cmd, defaultPrompt, api)
            == Sent(SingleReply(chat.messages[cmd.messageId - 1], EffectivePrompt(chat.prompt, defaultPrompt), api))
  {
    assert ScanFrom(chat.messages, cmd.messageId, 0) == Hit(0);
  }

  /** A reply `/s` sends never carries an unescaped underscore, whatever the completion service said. */
  lemma SummaryEscaped(chat: Chat, cmd: Inbound, defaultPrompt: string, api: (string, string) -> ApiAnswer)
    ensures var o := Summary(chat, cmd, defaultPrompt, api);
            o.Sent? ==> UnderscoresEscaped(o.text)
  {
    if !UsesModeA(cmd) && cmd.text.Some? {
      var ids := ModeBIds(chat.messages, cmd.replyTo.value.messageId, Limit(cmd.text.value));
      RepliesEscaped(PrepareSources(MessagesOf(chat.messages, ids)), EffectivePrompt(chat.prompt, defaultPrompt), api);
    }
  }

  /** The conversation memory the handlers share, keyed by chat id. */
  class ConversationMemory {
    var chats: Memory

    /** The memory as loaded at start-up. */
    constructor (loaded: Memory)
      ensures chats == loaded
    {
      chats := loaded;
    }

    /**
     * The gate followed by the recording handler: a refused message gets the
     * two replies and leaves the memory alone; an admitted one is recorded,
     * unless it is `/start` or `/help`. `saved` says whether `saveMemory`
     * succeeds; the memory is updated before it runs, and only a successful
     * save passes the message on to the handlers registered after
     * recording (`proceeds`): `/s`, `/sp` and `/rp`, plus `/json`, which is
     * not modelled.
     */
    method Receive(msg: Inbound, whitelist: seq<Option<int>>, saved: bool) returns (replies: seq<string>, proceeds: bool)
      modifies this
      ensures Admit(msg, whitelist).Refuse? ==> replies == [NotAvailable, ContactOwner] && chats == old(chats)
      ensures Admit(msg, whitelist).Pass? ==> replies == []
      ensures Admit(msg, whitelist).Pass? && IsRecorded(msg) ==> chats == Record(old(chats), msg) && msg.chatId in chats
      ensures Admit(msg, whitelist).Pass? && !IsRecorded(msg) ==> chats == old(chats)
      ensures proceeds <==> Admit(msg, whitelist).Pass? && IsRecorded(msg) && saved
    {
      proceeds := false;
      match Admit(msg, whitelist)
      case Refuse(r) =>
        replies := r;
      case Pass =>
        replies := [];
        if IsRecorded(msg) {
          if msg.chatId !in chats {
            chats := chats[msg.chatId := Chat(map[], None)];
          }
          var chat := chats[msg.chatId];
          chats := chats[msg.chatId := chat.(messages := chat.messages[msg.messageId := ToStored(msg)])];
          proceeds := saved;
        }
    }

    /** The prompt `/s` uses in chat `chatId`. */
    function Prompt(chatId: int, defaultPrompt: string): string
      reads this
      requires chatId in chats
    {
      EffectivePrompt(chats[chatId].prompt, defaultPrompt)
    }

    /**
     * `/sp`: without a replied-to message, or when it has no text, only an
     * explanation is sent; otherwise its text becomes the chat's prompt, and
     * "Prompt set" is sent only when `saveMemory` succeeds (`saved`).
     */
    method SetPrompt(chatId: int, replyTo: Option<Replied>, saved: bool) returns (answer: Option<string>)
      requires chatId in chats
      modifies this
      ensures replyTo.None? ==> answer == Some(MustReply) && chats == old(chats)
      ensures replyTo.Some? && !Truthy(replyTo.value.text) ==> answer == Some(MustHaveText) && chats == old(chats)
      ensures replyTo.Some? && Truthy(replyTo.value.text) ==>
                && answer == (if saved then Some(PromptSet) else None)
                && chats == old(chats)[chatId := old(chats)[chatId].(prompt := replyTo.value.text)]
                && forall d :: Prompt(chatId, d) == replyTo.value.text.value
    {
      if replyTo.None? {
        return Some(MustReply);
      }
      var prompt := replyTo.value.text;
      if !Truthy(prompt) {
        return Some(MustHaveText);
      }
      chats := chats[chatId := chats[chatId].(prompt := prompt)];
      answer := if saved then Some(PromptSet) else None;
    }

    /**
     * `/rp`: the chat's prompt is cleared, so the default applies again;
     * "Prompt removed" is sent only when `saveMemory` succeeds.
     */
    method RemovePrompt(chatId: int, saved: bool) returns (answer: Option<string>)
      requires chatId in chats
      modifies this
      ensures answer == (if saved then Some(PromptRemoved) else None)
      ensures chats == old(chats)[chatId := old(chats)[chatId].(prompt := None)]
      ensures forall d :: Prompt(chatId, d) == d
    {
      chats := chats[chatId := chats[chatId].(prompt := None)];
      answer := if saved then Some(PromptRemoved) else None;
    }

    /** `/s`: Mode A or Mode B, then the replies for the chosen sources. */
    method Summarize(cmd: Inbound, defaultPrompt: string, api: (string, string) -> ApiAnswer) returns (outcome: Outcome)
      requires cmd.chatId in chats
      ensures outcome == Summary(chats[cmd.chatId], cmd, defaultPrompt, api)
    {
      var chat := chats[cmd.chatId];
      var prompt := EffectivePrompt(chat.prompt, defaultPrompt);
      if UsesModeA(cmd) {
        var found := SelectPrevious(chat.messages, cmd.messageId);
        match found
        case Candidate(m) =>
          outcome := Sent(GetReply(Complete(api(m.text.value, prompt)), m.forwardUrl));
        case NoAnswerSilly =>
          outcome := Apology(Silly);
        case NoAnswerDummy =>
          outcome := Apology(Dummy);
        case Crash =>
          outcome := Crashed;
      } else {
        if cmd.text.None? {
          return Crashed;
        }
        var limit := Limit(cmd.text.value);
        var selected := SelectForward(chat.messages, cmd.replyTo.value.messageId, limit);
        var prepared := PrepareSources(selected);
        var response := Aggregate(prepared, prompt, api);
        outcome := Sent(response);
      }
    }
  }
}
