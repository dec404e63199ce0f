/** The per-user message controller of bot/bot.py, as a sequential state machine.
    The per-user semaphore is a `busy` flag in `slots`, the running exchange task is
    a `Handle` in `tasks`, time is whole seconds and replies are emitted notices. */
module Controller {
  import opened Results
  import opened Messages
  import Text
  import Prompt
  import opened Database

  /** More than this many seconds of silence starts a fresh dialog. */
  const IdleResetSeconds: int := 86400

  /** The longest answer text the controller puts in a chat message. */
  const MaxMessageLength: nat := 4096

  /** The model the controller asks for, whatever the user's `current_model`. */
  const ExchangeModel: string := "gpt-3.5-turbo"

  datatype ChatType = Private | Group | Supergroup | Channel

  datatype Sender = Sender(id: UserId, username: Option<string>, firstName: string, lastName: Option<string>)

  /** The message an incoming message replies to, if any; `author` is `None` when
      that message has no readable sender. */
  datatype ReplyRef = NoReply | ReplyTo(author: Option<UserId>)

  /** An incoming text message; a message without text has `text == ""`. */
  datatype Incoming = Incoming(chatId: int, chatType: ChatType, text: string, from: Sender, replyTo: ReplyRef)

  /** The bot's own account; `username` is `None` when it cannot be read. */
  datatype BotAccount = BotAccount(id: UserId, username: Option<string>)

  /** What the controller says in the chat. */
  datatype Notice =
    | CalledByName          // the canned group reply to "zara"
    | StillReplying         // the user's slot is held
    | FreshStart            // the idle reset started a new dialog
    | Placeholder           // the "..." message the answer is edited into
    | Answer(text: string)  // the placeholder edited to the answer
    | Canceled
    | NothingToCancel

  function Wording(n: Notice): string {
    match n
    case CalledByName => "Hehe~ did someone call me? Nyaa~ \U{1F63D}\U{1F497}"
    case StillReplying => "\U{23F3} Wait a sec, I'm still replying~"
    case FreshStart => "Nyaa~ It's been a while! I'm starting fresh, senpai \U{1F49E}"
    case Placeholder => "..."
    case Answer(text) => text
    case Canceled => "\U{2705} Canceled"
    case NothingToCancel => "<i>Nothing to cancel, senpai~</i>"
  }

  /** The in-flight exchange task of one user. */
  datatype Handle = Handle(message: string, cancelRequested: bool)

  /** The controller's state: the store, each registered user's slot (true while
      held) and each user's in-flight task. */
  datatype Bot = Bot(store: Store, slots: map<UserId, bool>, tasks: map<UserId, Handle>)

  /** An exception that ends a handler early; writes made before it stay. */
  datatype Fault =
    | StoreFault(storeError: StoreError)
    | CompletionFault(completionError: Prompt.CompletionError)
    | NotADatetime        // `last_interaction` holds a value that cannot be subtracted from now
    | UnexpectedKeyword   // a call passes a keyword argument the callee does not declare

  /** The state after a handler, what it said, and the exception it ended with, if any. */
  datatype Step = Step(bot: Bot, out: seq<Notice>, fault: Option<Fault>)

  function OptValue(o: Option<string>): Value {
    match o
    case None => Null
    case Some(s) => Str(s)
  }

  /** Slots and tasks agree: a user has an in-flight task exactly while their slot is held. */
  ghost predicate Inv(b: Bot) {
    && b.store.Valid()
    && (forall u :: u in b.tasks ==> u in b.slots && b.slots[u])
    && (forall u :: u in b.slots && b.slots[u] ==> u in b.tasks)
  }

  /** Store writes that leave other users and the existing dialogs alone. */
  ghost predicate OnlyTouches(st: Store, st': Store, u: UserId) {
    && st'.users.Keys == st.users.Keys + {u}
    && (forall v :: v in st.users && v != u ==> st'.users[v] == st.users[v])
    && (st.Valid() ==> st'.Valid())
    && (st.Valid() ==> forall d :: d in st.dialogs ==> d in st'.dialogs && st'.dialogs[d] == st.dialogs[d])
  }

  lemma OnlyTouchesTransitive(a: Store, b: Store, c: Store, u: UserId)
    requires OnlyTouches(a, b, u) && OnlyTouches(b, c, u)
    ensures OnlyTouches(a, c, u)
  {
  }

  /** First stage of registration: add an unknown user and start their first dialog. */
  function EnsureUser(st: Store, sender: Sender, chatId: int, now: int): (st': Store)
    ensures sender.id in st'.users && OnlyTouches(st, st', sender.id)
    ensures sender.id in st.users ==> st' == st
    ensures sender.id !in st.users ==>
              Lookup(st'.users[sender.id], "current_dialog_id") != Null
              && Lookup(st'.users[sender.id], "last_interaction") == Stamp(now)
  {
    var u := sender.id;
    if UserExists(st, u) then st
    else
      var added := AddNewUser(st, u, chatId, OptValue(sender.username), Str(sender.firstName), OptValue(sender.lastName), now);
      NewUserDefaults(st, u, chatId, OptValue(sender.username), Str(sender.firstName), OptValue(sender.lastName), now);
      StartNewDialog(added, u, now).value.store
  }

  /** Second stage: start a dialog for a user whose `current_dialog_id` is None. */
  function EnsureDialog(st: Store, u: UserId, now: int): (st': Store)
    requires u in st.users
    ensures u in st'.users && OnlyTouches(st, st', u)
    ensures Lookup(st'.users[u], "current_dialog_id") != Null
    ensures Lookup(st.users[u], "current_dialog_id") != Null ==> st' == st
    ensures forall k :: k != "current_dialog_id" ==> Lookup(st'.users[u], k) == Lookup(st.users[u], k)
  {
    if GetUserAttribute(st, u, "current_dialog_id").value == Null then StartNewDialog(st, u, now).value.store else st
  }

  /** Last stage: put the user back on the first text model and the "zara" mode. */
  function ResetProfile(st: Store, u: UserId): (st': Store)
    requires u in st.users
    ensures u in st'.users && OnlyTouches(st, st', u)
    ensures st'.dialogs == st.dialogs
    ensures Lookup(st'.users[u], "current_model") == Str(AvailableTextModels[0])
    ensures Lookup(st'.users[u], "current_chat_mode") == Str(DefaultChatMode)
    ensures forall k :: k != "current_model" && k != "current_chat_mode" ==> Lookup(st'.users[u], k) == Lookup(st.users[u], k)
  {
    var s := SetUserAttribute(st, u, "current_model", Str(AvailableTextModels[0])).value;
    SetUserAttribute(s, u, "current_chat_mode", Str(DefaultChatMode)).value
  }

  /** The store side of `register_user_if_not_exists`: the three stages in order. */
  function RegisterStore(st: Store, sender: Sender, chatId: int, now: int): (st': Store)
    ensures sender.id in st'.users && OnlyTouches(st, st', sender.id)
  {
    var u := sender.id;
    var s1 := EnsureUser(st, sender, chatId, now);
    var s2 := EnsureDialog(s1, u, now);
    var s3 := ResetProfile(s2, u);
    OnlyTouchesTransitive(st, s1, s2, u);
    OnlyTouchesTransitive(st, s2, s3, u);
    s3
  }

  /** `register_user_if_not_exists`: the store stages, and a free slot for a user
      seen for the first time. */
  function Register(bot: Bot, sender: Sender, chatId: int, now: int): (b: Bot)
    ensures sender.id in b.store.users && sender.id in b.slots
    ensures b.tasks == bot.tasks
    ensures b.slots.Keys == bot.slots.Keys + {sender.id}
    ensures forall v :: v in bot.slots ==> b.slots[v] == bot.slots[v]
    ensures sender.id !in bot.slots ==> !b.slots[sender.id]
    ensures OnlyTouches(bot.store, b.store, sender.id)
  {
    Bot(RegisterStore(bot.store, sender, chatId, now), ClaimSlot(bot.slots, sender.id), bot.tasks)
  }

  /** Give a user seen for the first time a free slot; every existing slot keeps its state. */
  function ClaimSlot(slots: map<UserId, bool>, u: UserId): (s: map<UserId, bool>)
    ensures u in s && s.Keys == slots.Keys + {u}
    ensures forall v :: v in slots ==> s[v] == slots[v]
    ensures u !in slots ==> !s[u]
  {
    if u in slots then slots else slots[u := false]
  }

  /** After registration the user exists with a current dialog, the first text model
      and the "zara" mode; `last_interaction` is untouched for a known user and now
      for a new one. */
  lemma RegisterEstablishesProfile(bot: Bot, sender: Sender, chatId: int, now: int)
    ensures var doc := Register(bot, sender, chatId, now).store.users[sender.id];
            && Lookup(doc, "current_dialog_id") != Null
            && Lookup(doc, "current_model") == Str(AvailableTextModels[0])
            && Lookup(doc, "current_chat_mode") == Str(DefaultChatMode)
            && (sender.id in bot.store.users ==>
                  Lookup(doc, "last_interaction") == Lookup(bot.store.users[sender.id], "last_interaction"))
            && (sender.id !in bot.store.users ==> Lookup(doc, "last_interaction") == Stamp(now))
  {
    RegisterSetsProfile(bot.store, sender, chatId, now);
    RegisterKeepsLastSeen(bot.store, sender, chatId, now);
  }

  /** Registration leaves a current dialog and the default model and chat mode. */
  lemma RegisterSetsProfile(st: Store, sender: Sender, chatId: int, now: int)
    ensures var doc := RegisterStore(st, sender, chatId, now).users[sender.id];
            && Lookup(doc, "current_dialog_id") != Null
            && Lookup(doc, "current_model") == Str(AvailableTextModels[0])
            && Lookup(doc, "current_chat_mode") == Str(DefaultChatMode)
  {
    var u := sender.id;
    var s2 := EnsureDialog(EnsureUser(st, sender, chatId, now), u, now);
    var s3 := ResetProfile(s2, u);
    assert RegisterStore(st, sender, chatId, now) == s3;
    assert Lookup(s3.users[u], "current_dialog_id") == Lookup(s2.users[u], "current_dialog_id");
  }

  /** Registration keeps a known user's `last_interaction` and sets a new user's to now. */
  lemma RegisterKeepsLastSeen(st: Store, sender: Sender, chatId: int, now: int)
    ensures var doc := RegisterStore(st, sender, chatId, now).users[sender.id];
            && (sender.id in st.users ==> Lookup(doc, "last_interaction") == Lookup(st.users[sender.id], "last_interaction"))
            && (sender.id !in st.users ==> Lookup(doc, "last_interaction") == Stamp(now))
  {
    var u := sender.id;
    var s1 := EnsureUser(st, sender, chatId, now);
    var s2 := EnsureDialog(s1, u, now);
    var s3 := ResetProfile(s2, u);
    assert RegisterStore(st, sender, chatId, now) == s3;
    assert Lookup(s2.users[u], "last_interaction") == Lookup(s1.users[u], "last_interaction");
    assert Lookup(s3.users[u], "last_interaction") == Lookup(s2.users[u], "last_interaction");
  }

  /** `is_bot_mentioned`; an inspection that would raise (no bot username, a replied-to
      message without a sender) counts as a mention. */
  function IsBotMentioned(msg: Incoming, me: BotAccount): bool {
    if msg.chatType == Private then true
    else if msg.text != "" && (me.username.None? || Text.Contains(msg.text, "@" + me.username.value)) then true
    else match msg.replyTo
      case NoReply => false
      case ReplyTo(author) => author.None? || author.value == me.id
  }

  /** The bot is mentioned exactly in a private chat, when the text contains "@" and its
      username, when the message replies to one of its own, or when inspecting raises. */
  lemma MentionCases(msg: Incoming, me: BotAccount)
    ensures IsBotMentioned(msg, me) <==>
              || msg.chatType == Private
              || (msg.text != "" && me.username.None?)
              || (msg.text != "" && me.username.Some? && exists i :: Text.OccursAt(msg.text, "@" + me.username.value, i))
              || msg.replyTo == ReplyTo(None)
              || msg.replyTo == ReplyTo(Some(me.id))
  {
    if me.username.Some? {
      Text.ContainsIffOccurs(msg.text, "@" + me.username.value);
    }
    match msg.replyTo
    case NoReply =>
    case ReplyTo(author) =>
      if author.Some? {
        assert author == Some(author.value);
      }
  }

  /** The canned group reply fires on "zara" anywhere in the text, in any letter case. */
  predicate CallsByName(msg: Incoming) {
    msg.chatType != Private && Text.Contains(Text.Lower(msg.text), "zara")
  }

  /** The name spelled at index `i` of `text`, each letter in either case. */
  ghost predicate NamedAt(text: string, i: int) {
    0 <= i && i + 4 <= |text| && forall k :: 0 <= k < 4 ==> text[i + k] == "zara"[k] || text[i + k] == "ZARA"[k]
  }

  /** The lower-case-then-search test fires exactly for a group message that spells
      "zara" somewhere, in any mix of letter cases. */
  lemma {:induction false} CallsByNameCases(msg: Incoming)
    ensures CallsByName(msg) <==> msg.chatType != Private && exists i :: NamedAt(msg.text, i)
  {
    var low := Text.Lower(msg.text);
    Text.ContainsIffOccurs(low, "zara");
    forall i | 0 <= i && i + 4 <= |msg.text|
      ensures Text.OccursAt(low, "zara", i) <==> NamedAt(msg.text, i)
    {
      assert Text.OccursAt(low, "zara", i) <==> forall k :: 0 <= k < 4 ==> low[i + k] == "zara"[k] by {
        if forall k :: 0 <= k < 4 ==> low[i + k] == "zara"[k] {
          assert low[i..i + 4] == "zara";
        }
      }
      forall k | 0 <= k < 4
        ensures low[i + k] == "zara"[k] <==> msg.text[i + k] == "zara"[k] || msg.text[i + k] == "ZARA"[k]
      {
      }
    }
    if exists i :: NamedAt(msg.text, i) {
      var i :| NamedAt(msg.text, i);
      assert Text.OccursAt(low, "zara", i);
    }
    if exists i :: Text.OccursAt(low, "zara", i) {
      var i :| Text.OccursAt(low, "zara", i);
      assert NamedAt(msg.text, i);
    }
  }

  /** The idle check on `last_interaction`: reset when it is missing (falsy) or more than
      a day old; a value that is neither raises when subtracted from now. */
  function IdleCheck(last: Value, now: int): (r: Result<bool, Fault>)
    ensures r.Err? <==> Truthy(last) && !last.Stamp?
    ensures r == Ok(true) <==> !Truthy(last) || (last.Stamp? && now - last.t > IdleResetSeconds)
  {
    if !Truthy(last) then Ok(true)
    else match last
      case Stamp(t) => Ok(now - t > IdleResetSeconds)
      case _ => Err(NotADatetime)
  }

  /** `message_handle` up to the point where the exchange task is running: register,
      apply the group filters and the busy check, reset an idle dialog, stamp the
      interaction, take the slot and record the task. */
  function HandleMessage(bot: Bot, msg: Incoming, me: BotAccount, now: int): Step {
    var u := msg.from.id;
    var b := Register(bot, msg.from, msg.chatId, now);
    if CallsByName(msg) then Step(b, [CalledByName], None)
    else if msg.chatType != Private && !IsBotMentioned(msg, me) then Step(b, [], None)
    else if b.slots[u] then Step(b, [StillReplying], None)
    else Dispatch(b, u, msg.text, now)
  }

  /** The rest of `message_handle` for an accepted message: the idle reset, the stamp
      of `last_interaction`, then taking the slot and recording the task. */
  function Dispatch(b: Bot, u: UserId, text: string, now: int): Step
    requires u in b.store.users
  {
    match IdleCheck(GetUserAttribute(b.store, u, "last_interaction").value, now)
    case Err(f) => Step(b, [], Some(f))
    case Ok(reset) =>
      var s1 := if reset then StartNewDialog(b.store, u, now).value.store else b.store;
      var s2 := SetUserAttribute(s1, u, "last_interaction", Stamp(now)).value;
      Step(Bot(s2, b.slots[u := true], b.tasks[u := Handle(text, false)]), if reset then [FreshStart] else [], None)
  }

  /** The state with `u`'s task gone and slot released, as `finally` and `async with` leave it. */
  function Release(bot: Bot, st: Store, u: UserId): Bot {
    Bot(st, bot.slots[u := false], bot.tasks - {u})
  }

  /** The running exchange task of `u` to its end: it observes a pending cancel, or it
      sends the placeholder, reads the dialog, asks for a completion, edits the
      placeholder into the answer and appends one turn. The slot is released and the
      handle dropped in every case. */
  function Resume(bot: Bot, u: UserId, upstream: Prompt.Upstream, now: int): Step {
    if u !in bot.tasks then Step(bot, [], None)
    else
      var h := bot.tasks[u];
      if h.cancelRequested then Step(Release(bot, bot.store, u), [Canceled], None)
      else match GetDialogMessages(bot.store, u)
        case Err(e) => Step(Release(bot, bot.store, u), [Placeholder], Some(StoreFault(e)))
        case Ok(history) =>
          match Prompt.SendMessage(upstream, ExchangeModel, h.message, history).outcome
          case Err(e) => Step(Release(bot, bot.store, u), [Placeholder], Some(CompletionFault(e)))
          case Ok(c) =>
            var turn := Turn(Parts([TextPart(h.message)]), c.answer, now);
            var st := SetDialogMessages(bot.store, u, history + [turn]).value;
            Step(Release(bot, st, u), [Placeholder, Answer(Text.Prefix(c.answer, MaxMessageLength))], None)
  }

  /** The exchange task exactly as bot/bot.py:81 writes it: the call passes a `chat_mode`
      keyword that `send_message` does not declare, so it raises before any request is
      made, after the placeholder went out and the dialog was read. */
  function ResumeAsWritten(bot: Bot, u: UserId, now: int): Step {
    if u !in bot.tasks then Step(bot, [], None)
    else if bot.tasks[u].cancelRequested then Step(Release(bot, bot.store, u), [Canceled], None)
    else match GetDialogMessages(bot.store, u)
      case Err(e) => Step(Release(bot, bot.store, u), [Placeholder], Some(StoreFault(e)))
      case Ok(_) => Step(Release(bot, bot.store, u), [Placeholder], Some(UnexpectedKeyword))
  }

  /** As written, no exchange ever answers or stores a turn: every task that runs
      ends in the keyword error, and the store is left as it was. */
  lemma AsWrittenExchangeNeverAnswers(bot: Bot, u: UserId, now: int)
    requires u in bot.tasks
    ensures var step := ResumeAsWritten(bot, u, now);
            && step.bot.store == bot.store
            && (forall i :: 0 <= i < |step.out| ==> !step.out[i].Answer?)
            && (!bot.tasks[u].cancelRequested && GetDialogMessages(bot.store, u).Ok? ==> step.fault == Some(UnexpectedKeyword))
            && step.bot.slots == bot.slots[u := false] && step.bot.tasks == bot.tasks - {u}
            && (Inv(bot) ==> Inv(step.bot))
  {
  }

  /** `cancel_handle`: mark the in-flight task cancelled, or say there is nothing to cancel. */
  function Cancel(bot: Bot, u: UserId): Step {
    if u in bot.tasks then Step(bot.(tasks := bot.tasks[u := bot.tasks[u].(cancelRequested := true)]), [], None)
    else Step(bot, [NothingToCancel], None)
  }

  /** The message passes the group filters and finds the sender's slot free. */
  predicate Accepted(bot: Bot, msg: Incoming, me: BotAccount) {
    && !CallsByName(msg)
    && (msg.chatType == Private || IsBotMentioned(msg, me))
    && !(msg.from.id in bot.slots && bot.slots[msg.from.id])
  }

  /** The `last_interaction` the idle check reads: the stored one, or now for a user
      registered by this very message. */
  function LastSeen(bot: Bot, u: UserId, now: int): Value {
    if u in bot.store.users then Lookup(bot.store.users[u], "last_interaction") else Stamp(now)
  }

  /** A group message with "zara" in it, in any letter case, gets the canned reply and
      the handler returns: no busy check, idle reset, stamp or task, only registration. */
  lemma CalledByNameShortCircuits(bot: Bot, msg: Incoming, me: BotAccount, now: int)
    requires msg.chatType != Private && exists i :: NamedAt(msg.text, i)
    ensures HandleMessage(bot, msg, me, now) == Step(Register(bot, msg.from, msg.chatId, now), [CalledByName], None)
  {
    CallsByNameCases(msg);
  }

  /** A group message that does not mention the bot gets no reply and changes nothing beyond registration. */
  lemma UnmentionedIgnored(bot: Bot, msg: Incoming, me: BotAccount, now: int)
    requires msg.chatType != Private && !CallsByName(msg) && !IsBotMentioned(msg, me)
    ensures HandleMessage(bot, msg, me, now) == Step(Register(bot, msg.from, msg.chatId, now), [], None)
  {
  }

  /** While the sender's slot is held the handler only says it is still replying: no
      stamp, no dialog change, no new task, the running one untouched. */
  lemma BusyRejects(bot: Bot, msg: Incoming, me: BotAccount, now: int)
    requires !CallsByName(msg) && (msg.chatType == Private || IsBotMentioned(msg, me))
    requires msg.from.id in bot.slots && bot.slots[msg.from.id]
    ensures var step := HandleMessage(bot, msg, me, now);
            && step == Step(Register(bot, msg.from, msg.chatId, now), [StillReplying], None)
            && step.bot.tasks == bot.tasks && step.bot.slots == bot.slots
            && Lookup(step.bot.store.users[msg.from.id], "last_interaction") == LastSeen(bot, msg.from.id, now)
  {
    RegisterEstablishesProfile(bot, msg.from, msg.chatId, now);
    var b := Register(bot, msg.from, msg.chatId, now);
    assert b.slots == bot.slots;
  }

  /** Single flight: a message for a user with an exchange in flight never starts a
      second one nor replaces the handle of the first. */
  lemma SingleFlight(bot: Bot, msg: Incoming, me: BotAccount, now: int)
    requires Inv(bot) && msg.from.id in bot.tasks
    ensures HandleMessage(bot, msg, me, now).bot.tasks == bot.tasks
    ensures HandleMessage(bot, msg, me, now).bot.slots[msg.from.id]
  {
  }

  /** The idle reset on an already registered state `b`. */
  lemma DispatchIdleReset(b: Bot, u: UserId, text: string, now: int)
    requires u in b.store.users && b.store.Valid()
    ensures var step := Dispatch(b, u, text, now);
            var last := Lookup(b.store.users[u], "last_interaction");
            var reset := !Truthy(last) || (last.Stamp? && now - last.t > IdleResetSeconds);
            && (Truthy(last) && !last.Stamp? ==> step == Step(b, [], Some(NotADatetime)))
            && (!Truthy(last) || last.Stamp? ==>
                  && step.fault == None
                  && step.out == (if reset then [FreshStart] else [])
                  && (!reset ==> step.bot.store.dialogs == b.store.dialogs)
                  && (reset ==>
                        var cur := Lookup(step.bot.store.users[u], "current_dialog_id");
                        && cur.DialogRef? && cur.id !in b.store.dialogs
                        && step.bot.store.dialogs == b.store.dialogs[cur.id := Dialog(u, Lookup(b.store.users[u], "current_chat_mode"), now,
                                                                                      Lookup(b.store.users[u], "current_model"), [])]))
  {
    var last := Lookup(b.store.users[u], "last_interaction");
    if IdleCheck(last, now) == Ok(true) {
      var started := StartNewDialog(b.store, u, now).value;
      var s2 := SetUserAttribute(started.store, u, "last_interaction", Stamp(now)).value;
      assert s2.dialogs == started.store.dialogs;
      assert Lookup(s2.users[u], "current_dialog_id") == DialogRef(started.id);
      assert started.store.dialogs == b.store.dialogs[started.id := Dialog(u, Lookup(b.store.users[u], "current_chat_mode"), now,
                                                                           Lookup(b.store.users[u], "current_model"), [])];
    }
  }

  /** The idle reset: for an accepted message, a new empty dialog and the reset notice
      come exactly once, and only when `last_interaction` is missing (falsy) or more
      than 86400 seconds old; a stored value that is no datetime raises instead. */
  lemma IdleResetRule(bot: Bot, msg: Incoming, me: BotAccount, now: int)
    requires Accepted(bot, msg, me) && bot.store.Valid()
    ensures var step := HandleMessage(bot, msg, me, now);
            var b := Register(bot, msg.from, msg.chatId, now);
            var last := LastSeen(bot, msg.from.id, now);
            var reset := !Truthy(last) || (last.Stamp? && now - last.t > IdleResetSeconds);
            && (Truthy(last) && !last.Stamp? ==> step == Step(b, [], Some(NotADatetime)))
            && (!Truthy(last) || last.Stamp? ==>
                  && step.fault == None
                  && step.out == (if reset then [FreshStart] else [])
                  && (!reset ==> step.bot.store.dialogs == b.store.dialogs)
                  && (reset ==>
                        var cur := Lookup(step.bot.store.users[msg.from.id], "current_dialog_id");
                        && cur.DialogRef? && cur.id !in b.store.dialogs
                        && step.bot.store.dialogs == b.store.dialogs[cur.id := Dialog(msg.from.id, Str(DefaultChatMode), now, Str(AvailableTextModels[0]), [])]))
  {
    var u := msg.from.id;
    RegisterEstablishesProfile(bot, msg.from, msg.chatId, now);
    var b := Register(bot, msg.from, msg.chatId, now);
    assert !b.slots[u];
    assert HandleMessage(bot, msg, me, now) == Dispatch(b, u, msg.text, now);
    assert Lookup(b.store.users[u], "last_interaction") == LastSeen(bot, u, now);
    DispatchIdleReset(b, u, msg.text, now);
  }

  /** A user registered by this message has an empty current dialog and no token usage. */
  lemma RegisterNewUserDialog(bot: Bot, sender: Sender, chatId: int, now: int)
    requires sender.id !in bot.store.users && bot.store.Valid()
    ensures var st := Register(bot, sender, chatId, now).store;
            && GetDialogMessages(st, sender.id) == Ok([])
            && Lookup(st.users[sender.id], "n_used_tokens") == TokenUsage(map[])
  {
    var u := sender.id;
    var s1 := EnsureUser(bot.store, sender, chatId, now);
    NewUserFirstDialog(bot.store, sender, chatId, now);
    assert EnsureDialog(s1, u, now) == s1;
    var s3 := ResetProfile(s1, u);
    assert Register(bot, sender, chatId, now).store == s3;
    assert Lookup(s3.users[u], "current_dialog_id") == Lookup(s1.users[u], "current_dialog_id");
    assert Lookup(s3.users[u], "n_used_tokens") == Lookup(s1.users[u], "n_used_tokens");
    assert CurrentDialog(s3, u) == CurrentDialog(s1, u);
  }

  /** The first stage of registering a new user leaves them an empty current dialog
      and no token usage. */
  lemma NewUserFirstDialog(st: Store, sender: Sender, chatId: int, now: int)
    requires sender.id !in st.users && st.Valid()
    ensures var s1 := EnsureUser(st, sender, chatId, now);
            && GetDialogMessages(s1, sender.id) == Ok([])
            && Lookup(s1.users[sender.id], "n_used_tokens") == TokenUsage(map[])
  {
    var u := sender.id;
    var added := AddNewUser(st, u, chatId, OptValue(sender.username), Str(sender.firstName), OptValue(sender.lastName), now);
    NewUserDefaults(st, u, chatId, OptValue(sender.username), Str(sender.firstName), OptValue(sender.lastName), now);
    var started := StartNewDialog(added, u, now).value;
    assert EnsureUser(st, sender, chatId, now) == started.store;
    assert CurrentDialog(started.store, u) == Some(started.id);
  }

  /** Past the idle check, the user's current dialog is a fresh empty one after a reset
      and the same as before otherwise; token usage is untouched. */
  lemma DispatchDialog(b: Bot, u: UserId, text: string, now: int)
    requires u in b.store.users && b.store.Valid()
    requires IdleCheck(Lookup(b.store.users[u], "last_interaction"), now).Ok?
    ensures var st := Dispatch(b, u, text, now).bot.store;
            && GetDialogMessages(st, u) ==
                 (if IdleCheck(Lookup(b.store.users[u], "last_interaction"), now).value then Ok([]) else GetDialogMessages(b.store, u))
            && Lookup(st.users[u], "n_used_tokens") == Lookup(b.store.users[u], "n_used_tokens")
  {
    var reset := IdleCheck(Lookup(b.store.users[u], "last_interaction"), now).value;
    if reset {
      var started := StartNewDialog(b.store, u, now).value;
      var s2 := SetUserAttribute(started.store, u, "last_interaction", Stamp(now)).value;
      assert CurrentDialog(s2, u) == Some(started.id);
    } else {
      var s2 := SetUserAttribute(b.store, u, "last_interaction", Stamp(now)).value;
      assert CurrentDialog(s2, u) == CurrentDialog(b.store, u);
    }
  }

  /** No reset when exactly one day has passed. */
  lemma NoResetAtExactlyOneDay(bot: Bot, msg: Incoming, me: BotAccount, now: int)
    requires Accepted(bot, msg, me) && bot.store.Valid()
    requires msg.from.id in bot.store.users && Lookup(bot.store.users[msg.from.id], "last_interaction") == Stamp(now - 86400)
    ensures HandleMessage(bot, msg, me, now).out == []
    ensures HandleMessage(bot, msg, me, now).bot.store.dialogs == Register(bot, msg.from, msg.chatId, now).store.dialogs
  {
    var u := msg.from.id;
    RegisterEstablishesProfile(bot, msg.from, msg.chatId, now);
    var b := Register(bot, msg.from, msg.chatId, now);
    assert !b.slots[u];
    assert HandleMessage(bot, msg, me, now) == Dispatch(b, u, msg.text, now);
    assert IdleCheck(Lookup(b.store.users[u], "last_interaction"), now) == Ok(false);
  }

  /** Dispatch writes only the user's own document, slot and task, and adds dialogs
      without changing stored ones. */
  lemma DispatchTouchesOnly(b: Bot, u: UserId, text: string, now: int)
    requires u in b.store.users
    ensures var step := Dispatch(b, u, text, now);
            && OnlyTouches(b.store, step.bot.store, u)
            && (forall v :: v in b.slots && v != u ==> v in step.bot.slots && step.bot.slots[v] == b.slots[v])
            && (forall v :: v in b.tasks && v != u ==> v in step.bot.tasks && step.bot.tasks[v] == b.tasks[v])
  {
    match IdleCheck(GetUserAttribute(b.store, u, "last_interaction").value, now)
    case Err(_) =>
    case Ok(reset) =>
      var s1 := if reset then StartNewDialog(b.store, u, now).value.store else b.store;
      var s2 := SetUserAttribute(s1, u, "last_interaction", Stamp(now)).value;
      assert OnlyTouches(b.store, s1, u);
      assert OnlyTouches(s1, s2, u);
      OnlyTouchesTransitive(b.store, s1, s2, u);
  }

  /** A message touches only its sender: every other user's document, slot and task
      is kept, and so is every stored dialog. */
  lemma HandleMessageTouchesOnlySender(bot: Bot, msg: Incoming, me: BotAccount, now: int)
    requires bot.store.Valid()
    ensures var step := HandleMessage(bot, msg, me, now);
            forall v :: v in bot.store.users && v != msg.from.id ==>
              v in step.bot.store.users && step.bot.store.users[v] == bot.store.users[v]
    ensures var step := HandleMessage(bot, msg, me, now);
            forall v :: v in bot.slots && v != msg.from.id ==> v in step.bot.slots && step.bot.slots[v] == bot.slots[v]
    ensures var step := HandleMessage(bot, msg, me, now);
            forall v :: v in bot.tasks && v != msg.from.id ==> v in step.bot.tasks && step.bot.tasks[v] == bot.tasks[v]
    ensures var step := HandleMessage(bot, msg, me, now);
            forall d :: d in bot.store.dialogs ==> d in step.bot.store.dialogs && step.bot.store.dialogs[d] == bot.store.dialogs[d]
  {
    var u := msg.from.id;
    var b := Register(bot, msg.from, msg.chatId, now);
    var step := HandleMessage(bot, msg, me, now);
    if Accepted(bot, msg, me) {
      assert !b.slots[u];
      assert step == Dispatch(b, u, msg.text, now);
      DispatchTouchesOnly(b, u, msg.text, now);
      OnlyTouchesTransitive(bot.store, b.store, step.bot.store, u);
    } else {
      assert step.bot == b;
    }
  }

  /** An accepted message whose idle check passes stamps `last_interaction` with now,
      takes the sender's slot and records one fresh task for the message text. */
  lemma AcceptedMessageStartsTask(bot: Bot, msg: Incoming, me: BotAccount, now: int)
    requires Accepted(bot, msg, me)
    requires var last := LastSeen(bot, msg.from.id, now); !Truthy(last) || last.Stamp?
    ensures var step := HandleMessage(bot, msg, me, now);
            var b := Register(bot, msg.from, msg.chatId, now);
            && Lookup(step.bot.store.users[msg.from.id], "last_interaction") == Stamp(now)
            && step.bot.slots == b.slots[msg.from.id := true]
            && step.bot.tasks == bot.tasks[msg.from.id := Handle(msg.text, false)]
  {
    var u := msg.from.id;
    RegisterEstablishesProfile(bot, msg.from, msg.chatId, now);
    var b := Register(bot, msg.from, msg.chatId, now);
    assert !b.slots[u];
    assert HandleMessage(bot, msg, me, now) == Dispatch(b, u, msg.text, now);
    assert Lookup(b.store.users[u], "last_interaction") == LastSeen(bot, u, now);
    DispatchStartsTask(b, u, msg.text, now);
  }

  /** Past the idle check, dispatch stamps `last_interaction`, takes the slot and records the task. */
  lemma DispatchStartsTask(b: Bot, u: UserId, text: string, now: int)
    requires u in b.store.users
    requires IdleCheck(Lookup(b.store.users[u], "last_interaction"), now).Ok?
    ensures var step := Dispatch(b, u, text, now);
            && u in step.bot.store.users
            && Lookup(step.bot.store.users[u], "last_interaction") == Stamp(now)
            && step.bot.slots == b.slots[u := true]
            && step.bot.tasks == b.tasks[u := Handle(text, false)]
  {
  }

  /** A successful exchange appends exactly one turn, the message as a text part with the
      answer, to the full history it read (turns dropped to fit the prompt stay stored),
      edits the placeholder into the answer cut to 4096 characters, and frees the slot. */
  lemma ExchangeAppendsOneTurn(bot: Bot, u: UserId, upstream: Prompt.Upstream, now: int, history: seq<Turn>)
    requires u in bot.tasks && !bot.tasks[u].cancelRequested
    requires GetDialogMessages(bot.store, u) == Ok(history)
    ensures var outcome := Prompt.SendMessage(upstream, ExchangeModel, bot.tasks[u].message, history).outcome;
            var step := Resume(bot, u, upstream, now);
            outcome.Ok? ==>
            var answer := outcome.value.answer;
            && GetDialogMessages(step.bot.store, u) == Ok(history + [Turn(Parts([TextPart(bot.tasks[u].message)]), answer, now)])
            && step.out == [Placeholder, Answer(Text.Prefix(answer, MaxMessageLength))]
            && step.fault == None
            && step.bot.slots == bot.slots[u := false] && step.bot.tasks == bot.tasks - {u}
            && step.bot.store.users == bot.store.users
            && step.bot.store.dialogs.Keys == bot.store.dialogs.Keys
            && (forall d :: d in bot.store.dialogs && d != CurrentDialog(bot.store, u).value ==>
                  step.bot.store.dialogs[d] == bot.store.dialogs[d])
  {
    var outcome := Prompt.SendMessage(upstream, ExchangeModel, bot.tasks[u].message, history).outcome;
    if outcome.Ok? {
      var turns := history + [Turn(Parts([TextPart(bot.tasks[u].message)]), outcome.value.answer, now)];
      DialogMessagesRoundTrip(bot.store, u, turns);
    }
  }

  /** A cancelled, failed or dialog-less exchange writes nothing, and still frees the
      slot and drops the handle; a cancelled one says so. */
  lemma FailedExchangeWritesNothing(bot: Bot, u: UserId, upstream: Prompt.Upstream, now: int)
    requires u in bot.tasks
    requires || bot.tasks[u].cancelRequested
             || GetDialogMessages(bot.store, u).Err?
             || Prompt.SendMessage(upstream, ExchangeModel, bot.tasks[u].message, GetDialogMessages(bot.store, u).value).outcome.Err?
    ensures var step := Resume(bot, u, upstream, now);
            && step.bot.store == bot.store
            && step.bot.slots == bot.slots[u := false] && step.bot.tasks == bot.tasks - {u}
            && (bot.tasks[u].cancelRequested ==> step.out == [Canceled] && step.fault == None)
            && (!bot.tasks[u].cancelRequested ==> step.out == [Placeholder] && step.fault.Some?)
  {
  }

  /** Cancelling with no task in flight says "nothing to cancel" and changes no state. */
  lemma CancelWithoutTask(bot: Bot, u: UserId)
    requires u !in bot.tasks
    ensures Cancel(bot, u) == Step(bot, [NothingToCancel], None)
  {
  }

  /** A cancel before the task runs on means nothing is written, whatever the upstream
      would have answered: the task says "Canceled", frees the slot and drops the handle. */
  lemma CancelThenResume(bot: Bot, u: UserId, upstream: Prompt.Upstream, now: int)
    requires u in bot.tasks
    ensures Cancel(bot, u).out == [] && Cancel(bot, u).bot.store == bot.store
    ensures Resume(Cancel(bot, u).bot, u, upstream, now) == Step(Release(bot, bot.store, u), [Canceled], None)
  {
  }

  lemma DispatchPreservesInv(b: Bot, u: UserId, text: string, now: int)
    requires u in b.store.users && Inv(b) && !(u in b.slots && b.slots[u])
    ensures Inv(Dispatch(b, u, text, now).bot)
  {
    var last := Lookup(b.store.users[u], "last_interaction");
    if IdleCheck(last, now).Ok? {
      var s1 := if IdleCheck(last, now).value then StartNewDialog(b.store, u, now).value.store else b.store;
      assert s1.Valid();
    }
  }

  /** A message handler keeps slots and tasks in step. */
  lemma HandleMessagePreservesInv(bot: Bot, msg: Incoming, me: BotAccount, now: int)
    requires Inv(bot)
    ensures Inv(HandleMessage(bot, msg, me, now).bot)
  {
    var u := msg.from.id;
    var b := Register(bot, msg.from, msg.chatId, now);
    assert Inv(b);
    if !CallsByName(msg) && (msg.chatType == Private || IsBotMentioned(msg, me)) && !b.slots[u] {
      DispatchPreservesInv(b, u, msg.text, now);
    }
  }

  /** The end of an exchange and a cancel request keep slots and tasks in step. */
  lemma ResumeAndCancelPreserveInv(bot: Bot, u: UserId, upstream: Prompt.Upstream, now: int)
    requires Inv(bot)
    ensures Inv(Resume(bot, u, upstream, now).bot)
    ensures Inv(Cancel(bot, u).bot)
  {
    if u in bot.tasks && !bot.tasks[u].cancelRequested && GetDialogMessages(bot.store, u).Ok? {
      var history := GetDialogMessages(bot.store, u).value;
      var a := Prompt.SendMessage(upstream, ExchangeModel, bot.tasks[u].message, history);
      if a.outcome.Ok? {
        var turn := Turn(Parts([TextPart(bot.tasks[u].message)]), a.outcome.value.answer, now);
        assert SetDialogMessages(bot.store, u, history + [turn]).value.Valid();
      }
    }
  }
}
