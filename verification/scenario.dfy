/** The bot's first exchange with a new user, end to end. */
module Scenario {
  import opened Results
  import opened Messages
  import Text
  import Prompt
  import opened Database
  import opened Controller

  const Fresh := Bot(Store(map[], map[], 0), map[], map[])
  const Hello := Incoming(7, Private, "hello", Sender(7, None, "Ann", None), NoReply)
  const Me := BotAccount(1, Some("zara_bot"))

  function AnswersHi(model: string, prompt: seq<Prompt.Entry>, options: Prompt.Options): Prompt.Reply {
    Prompt.Completed("hi!", 5, 3)
  }

  /** The prompt for "hello" with an empty history is the persona then "hello". */
  lemma HelloPrompt()
    ensures Prompt.BuildPrompt("hello", [])
              == [Prompt.Entry(Prompt.System, Plain(Prompt.Persona)), Prompt.Entry(Prompt.User, Plain("hello"))]
  {
    assert Prompt.HistoryEntries([]) == [];
  }

  /** That prompt is sent once and its answer comes back as it was given. */
  lemma HelloCompletion()
    ensures Prompt.SendMessage(AnswersHi, ExchangeModel, "hello", []).sent == [Prompt.BuildPrompt("hello", [])]
    ensures Prompt.SendMessage(AnswersHi, ExchangeModel, "hello", []).outcome == Ok(Prompt.Completion("hi!", 5, 3, 0))
  {
    Text.TrimmedStripsToItself("hi!");
  }

  /** Registering user 7 from nothing: a valid store with a free slot, no tasks, an
      empty current dialog, no token usage, and last seen now. */
  lemma HelloRegistered()
    ensures var b := Register(Fresh, Hello.from, Hello.chatId, 1000);
            && 7 in b.store.users && b.store.Valid()
            && b.slots == map[7 := false] && b.tasks == map[]
            && Lookup(b.store.users[7], "last_interaction") == Stamp(1000)
            && GetDialogMessages(b.store, 7) == Ok([])
            && Lookup(b.store.users[7], "n_used_tokens") == TokenUsage(map[])
  {
    RegisterNewUserDialog(Fresh, Hello.from, Hello.chatId, 1000);
    RegisterEstablishesProfile(Fresh, Hello.from, Hello.chatId, 1000);
  }

  /** User 7's first "hello" in a private chat is accepted without a reset: no notice,
      an empty current dialog, no token usage, and one task for "hello". */
  lemma HelloAccepted()
    ensures var s1 := HandleMessage(Fresh, Hello, Me, 1000);
            && s1.out == [] && s1.fault == None
            && GetDialogMessages(s1.bot.store, 7) == Ok([])
            && 7 in s1.bot.store.users && Lookup(s1.bot.store.users[7], "n_used_tokens") == TokenUsage(map[])
            && s1.bot.tasks == map[7 := Handle("hello", false)]
  {
    var b := Register(Fresh, Hello.from, Hello.chatId, 1000);
    HelloRegistered();
    assert HandleMessage(Fresh, Hello, Me, 1000) == Dispatch(b, 7, "hello", 1000);
    assert IdleCheck(Lookup(b.store.users[7], "last_interaction"), 1000) == Ok(false);
    DispatchDialog(b, 7, "hello", 1000);
  }

  /** From a state with "hello" in flight for user 7 and an empty current dialog, the
      exchange stores exactly the turn {"hello", "hi!"}, edits the placeholder into
      "hi!", frees the slot, and leaves the users' documents as they were. */
  lemma HelloExchange(b1: Bot)
    requires b1.tasks == map[7 := Handle("hello", false)]
    requires GetDialogMessages(b1.store, 7) == Ok([])
    ensures var s2 := Resume(b1, 7, AnswersHi, 1001);
            && s2.out == [Placeholder, Answer("hi!")] && s2.fault == None
            && GetDialogMessages(s2.bot.store, 7) == Ok([Turn(Parts([TextPart("hello")]), "hi!", 1001)])
            && s2.bot.store.users == b1.store.users
            && s2.bot.tasks == map[] && 7 in s2.bot.slots && !s2.bot.slots[7]
  {
    HelloCompletion();
    ExchangeAppendsOneTurn(b1, 7, AnswersHi, 1001, []);
    var turn := Turn(Parts([TextPart("hello")]), "hi!", 1001);
    assert [] + [turn] == [turn];
    assert Text.Prefix("hi!", MaxMessageLength) == "hi!";
    assert b1.tasks - {7} == map[];
  }

  /** End to end: the exchange after user 7's first "hello" stores the one turn and
      leaves the token counters empty, as the controller never records usage. */
  lemma HelloAnswered()
    ensures var s1 := HandleMessage(Fresh, Hello, Me, 1000);
            var s2 := Resume(s1.bot, 7, AnswersHi, 1001);
            && s2.out == [Placeholder, Answer("hi!")] && s2.fault == None
            && GetDialogMessages(s2.bot.store, 7) == Ok([Turn(Parts([TextPart("hello")]), "hi!", 1001)])
            && 7 in s2.bot.store.users && Lookup(s2.bot.store.users[7], "n_used_tokens") == TokenUsage(map[])
  {
    HelloAccepted();
    HelloExchange(HandleMessage(Fresh, Hello, Me, 1000).bot);
  }

  /** The same first exchange as bot/bot.py:81 writes it: the keyword error leaves the
      placeholder as the last word and the dialog empty. */
  lemma HelloAsWrittenUnanswered()
    ensures var s1 := HandleMessage(Fresh, Hello, Me, 1000);
            var s2 := ResumeAsWritten(s1.bot, 7, 1001);
            && s2.out == [Placeholder] && s2.fault == Some(UnexpectedKeyword)
            && GetDialogMessages(s2.bot.store, 7) == Ok([])
  {
    HelloAccepted();
  }
}
