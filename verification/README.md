# Zara chat-relay bot: a Dafny model of its core

Zara is a Telegram bot that relays each user's messages to a chat-completion API and
sends back the answer in a fixed persona. This project models the bot's pure decision
and data logic and proves properties about it. The model has three parts:

- **Prompt builder and completion client** (`bot/openai_utils.py`), in module `Prompt`.
  - The prompt is the persona's system entry, then one user/assistant pair per stored
    turn, then the new message.
  - `send_message` runs the trim-and-retry loop: when the upstream rejects a request as
    invalid, it drops the oldest turn and asks again.
  - When no history is left, it fails with "Too many tokens".
  - A successful answer is stripped of surrounding whitespace.
- **Dialog store** (`bot/database.py`), in module `Database`.
  - User documents are modelled as maps from field names to values, as the document
    database holds them.
  - Dialogs are kept under fresh ids.
  - The operations are add-if-missing, start a dialog, get/set an attribute,
    accumulate token counters, and read/write the current dialog's turns.
- **Per-user message controller** (`bot/bot.py`), in module `Controller`.
  - Each message goes through: registration, the "zara" group call-out, the mention
    filter, the busy check on the per-user slot, the 24-hour idle reset, the stamp of
    `last_interaction`, and then the exchange task.
  - Cancellation is the `/cancel` command.

Supporting modules:

- `Results`: `Option` and `Result`.
- `Text`: Python's `str.strip`, `str.lower`, the substring test and slicing.
- `Messages`: stored turns and message content.
- `Scenario`: the first exchange with a new user, end to end.

Modelling choices:

- **Telegram traffic** becomes a list of `Notice` values per step. `Controller.Wording`
  holds the exact texts.
- **Clock.** The clock reading is a parameter: one integer of seconds per event.
- **Completion API.** It is a function parameter `Upstream`. It answers with a
  completion and its usage counts, an invalid-request rejection, or another failure.
- **uuid4.** Dialog ids come from a counter. `Store.Valid()` says every stored id is
  below it, which is what makes a new id fresh.
- **Asyncio.** The controller is sequential:
  - `HandleMessage` takes the per-user slot and records the task handle.
  - `Cancel` marks the handle cancelled, as `task.cancel()` does.
  - `Resume` runs the task to its end, releasing the slot and dropping the handle in
    every case.
  - A pending cancel is observed before the task's first step.
- **Exceptions.** A Python exception raised part-way through a handler is a step that
  carries a `Fault`. Its state includes every store write made before the raise,
  because those writes are not rolled back.

## Behaviour worth noting

- The completion loop retries on every invalid-request rejection, whatever its cause,
  not only when the prompt is too long for the model (`bot/openai_utils.py:41-44`).
- The busy check comes before the idle reset (`bot/bot.py:61-73`). A message rejected
  as busy neither resets the dialog nor stamps `last_interaction`.
- No code path records token usage after an exchange. `bot/bot.py` never calls
  `update_n_used_tokens`, so a new user's counters are still empty after the first
  exchange (`Scenario.HelloAnswered`).
- A failed exchange sends no failure notice. The exception propagates after the slot is
  released, and the placeholder "..." is the last thing the user sees.

## Model

| member | source | states |
|---|---|---|
| Text.StripLeft | bot/openai_utils.py:76 | the result is a suffix of the input that is empty or starts with a non-whitespace character |
| Text.StripLeftDropsSpace | bot/openai_utils.py:76 | everything `StripLeft` removes is Python whitespace |
| Text.StripRight | bot/openai_utils.py:76 | the result is a prefix of the input that is empty or ends with a non-whitespace character |
| Text.StripRightDropsSpace | bot/openai_utils.py:76 | everything `StripRight` removes is Python whitespace |
| Text.Strip | bot/openai_utils.py:75-76 | the stripped answer neither starts nor ends with whitespace |
| Text.StripIsStrippedFrom | bot/openai_utils.py:75-76 | `Strip(s)` is a contiguous slice of `s` with only whitespace cut off on either side |
| Text.StrippedFromUnique | bot/openai_utils.py:75-76 | at most one trimmed slice of `s` has only whitespace around it, so the two facts above pin `strip()` down completely |
| Text.TrimmedStripsToItself | bot/openai_utils.py:75-76 | a string without surrounding whitespace is left unchanged |
| Text.StripIdempotent | bot/openai_utils.py:75-76 | post-processing an already post-processed answer changes nothing |
| Text.Lower | bot/bot.py:54 | `lower()` keeps the length, leaves no upper-case letter, turns each upper-case letter into the same letter in lower case and keeps every other character |
| Text.LowerIdempotent | bot/bot.py:54 | lower-casing an already lower-cased text changes nothing |
| Text.ContainsIffOccurs | bot/bot.py:54 | the substring test `p in s` holds exactly when `p` occurs at some index of `s` |
| Text.Prefix | bot/bot.py:82 | `answer[:4096]` is a prefix of the answer whose length is the smaller of 4096 and the answer's length |
| Prompt.HistoryEntries | bot/openai_utils.py:52-54 | each stored turn becomes exactly two prompt entries |
| Prompt.HistoryEntriesPairs | bot/openai_utils.py:52-54 | turn `i` becomes entries `2i` (user, with the stored content as is) and `2i+1` (assistant, the stored answer), in order |
| Prompt.BuildPrompt | bot/openai_utils.py:48-70 | the prompt has `2K+2` entries for `K` turns, starts with the persona as system entry and ends with the new message as user entry |
| Prompt.BuildPromptShape | bot/openai_utils.py:48-70 | the whole prompt is system, the turns as user/assistant pairs in order, then the new message |
| Prompt.PromptShapeUnique | bot/openai_utils.py:48-70 | any entry list of that shape is the built prompt, so the shape is a complete description |
| Prompt.DropOldestTurn | bot/openai_utils.py:44 | dropping the oldest turn removes exactly entries 1 and 2 of the prompt and keeps the rest, including the new message |
| Prompt.SendMessage | bot/openai_utils.py:28-46 | between 1 and `K+1` requests are made for `K` turns, and the first one is the full prompt |
| Prompt.SentPromptsAreSuffixes | bot/openai_utils.py:30-44 | request `i` is the prompt built from the history with its `i` oldest turns dropped |
| Prompt.RetriesFollowRejections | bot/openai_utils.py:41-44 | every request except the last was rejected as invalid, so the loop retries only on invalid-request rejections |
| Prompt.LastReplySettles | bot/openai_utils.py:38-46 | the outcome is settled by the last reply: a completion gives its stripped answer, another failure gives that failure, and an invalid-request rejection with no history left gives "Too many tokens" |
| Prompt.AlwaysInvalidExhaustsHistory | bot/openai_utils.py:41-44 | if every request is rejected, exactly `K+1` requests are made and the outcome is "Too many tokens" |
| Prompt.OtherFailureNotRetried | bot/openai_utils.py:31-44 | a failure other than an invalid-request rejection is not retried and is passed through after one request |
| Prompt.SentPromptsKeepMessage | bot/openai_utils.py:32-44 | every request ends with the new message, and each retry has exactly one turn fewer |
| Prompt.SuccessCarriesLastReply | bot/openai_utils.py:38-46 | on success the result is the stripped text and token counts of the last reply, with 0 turns reported removed |
| Prompt.SendMessageLoop | bot/openai_utils.py:28-46 | the `while answer is None` loop computes the same outcome and number of requests as the recursive definition |
| Database.AddNewUser | bot/database.py:20-42 | afterwards the user exists, no other user document changes and the dialogs are untouched |
| Database.AddNewUserIdempotent | bot/database.py:41-42 | adding an existing user changes nothing, so adding twice is the same as adding once |
| Database.NewUserDefaults | bot/database.py:28-40 | a new user document has the given chat id, username, first and last name, no current dialog, the default chat mode and model, empty token counters and `last_interaction` set to now |
| Database.StartNewDialog | bot/database.py:44-62 | fails exactly for an unknown user; otherwise it stores a new empty dialog with the user's mode and model under a fresh id, points `current_dialog_id` at it and changes nothing else |
| Database.GetUserAttribute | bot/database.py:64-67 | fails exactly for an unknown user; otherwise it returns the stored field, and a missing field reads as null |
| Database.SetUserAttribute | bot/database.py:69-71 | fails exactly for an unknown user; otherwise only that field of that user changes |
| Database.SetThenGet | bot/database.py:64-71 | reading a field just written returns the written value, and other fields read as before |
| Database.UpdateNUsedTokens | bot/database.py:73-85 | fails exactly for an unknown user or a non-empty non-mapping field; otherwise it adds the counts to the model's entry (starting it at the counts if missing) and leaves other models and fields unchanged |
| Database.TokenCountersNonDecreasing | bot/database.py:73-85 | with non-negative counts, no model's counters go down and no model disappears |
| Database.CurrentDialog | bot/database.py:87 | there is a current dialog exactly when `current_dialog_id` names a stored dialog owned by the user, and it is that dialog |
| Database.GetDialogMessages | bot/database.py:87 | fails exactly for an unknown user or one without a current dialog; otherwise it returns that dialog's turns |
| Database.SetDialogMessages | bot/database.py:87 | replaces only the current dialog's turns; users and other dialogs are unchanged |
| Database.DialogMessagesRoundTrip | bot/database.py:87 | turns written to the current dialog read back unchanged |
| Database.OperationsPreserveValid | bot/database.py:20-85 | every store operation keeps every stored dialog id below the id counter |
| Controller.EnsureUser | bot/bot.py:25-27 | a missing user is added and given a first dialog; a known user's state is unchanged |
| Controller.EnsureDialog | bot/bot.py:28-29 | afterwards the user has a current dialog; one that already existed is kept |
| Controller.ResetProfile | bot/bot.py:32-33 | model and chat mode are set to the defaults and nothing else of the user changes |
| Controller.NewUserFirstDialog | bot/bot.py:25-27 | a user seen for the first time gets an empty current dialog and empty token counters |
| Controller.ClaimSlot | bot/bot.py:30-31 | a user without a slot gets a free one; every existing slot keeps its state |
| Controller.RegisterStore | bot/bot.py:25-33 | the three registration stages together leave the user present and touch no other user or existing dialog |
| Controller.Register | bot/bot.py:24-33 | the user exists and owns a slot (a new one is free, an existing one is unchanged), the task handles are unchanged and only this user's data changes |
| Controller.RegisterEstablishesProfile | bot/bot.py:24-33 | after registration the user has a current dialog, the default model and chat mode, and `last_interaction` is kept or, for a new user, set to now |
| Controller.RegisterSetsProfile | bot/bot.py:28-33 | registration leaves a current dialog, the first text model and the "zara" mode |
| Controller.RegisterKeepsLastSeen | bot/bot.py:24-33 | registration keeps a known user's `last_interaction` and gives a new user now |
| Controller.RegisterNewUserDialog | bot/bot.py:25-27 | a user first seen in this message has an empty current dialog and empty token counters |
| Controller.MentionCases | bot/bot.py:35-46 | the bot counts as mentioned exactly when the chat is private, the text contains "@" plus its username, the message replies to the bot, or the check raises |
| Controller.CallsByNameCases | bot/bot.py:54 | the lower-case-then-search test fires exactly for a group message that spells "zara" somewhere, each letter in either case |
| Controller.CalledByNameShortCircuits | bot/bot.py:54-56 | in a group, "zara" spelled anywhere in the text, each letter in either case, gets the canned reply and nothing but registration happens |
| Controller.UnmentionedIgnored | bot/bot.py:58-59 | a group message that neither names nor mentions the bot is dropped silently after registration |
| Controller.BusyRejects | bot/bot.py:61-62 | with the slot held, the message gets only the "still replying" notice, and slots, tasks and `last_interaction` are untouched |
| Controller.SingleFlight | bot/bot.py:86-101 | while a user's task is in flight, no message starts a second one or replaces its handle |
| Controller.IdleCheck | bot/bot.py:67-69 | a reset is due exactly when `last_interaction` is empty or more than 86400 seconds old; a stored value that is not a datetime raises |
| Controller.DispatchIdleReset | bot/bot.py:67-73 | past the busy check, a due reset stores exactly one new empty dialog and sends the reset notice, and otherwise the dialogs are unchanged |
| Controller.IdleResetRule | bot/bot.py:48-73 | for an accepted message, exactly one new empty dialog (default mode and model) and one reset notice appear iff `last_interaction` is missing or more than a day old |
| Controller.NoResetAtExactlyOneDay | bot/bot.py:69 | exactly 86400 seconds of silence does not reset the dialog |
| Controller.DispatchDialog | bot/bot.py:67-73 | past the idle check, the current dialog is a fresh empty one after a reset and unchanged otherwise; token counters are untouched |
| Controller.DispatchStartsTask | bot/bot.py:73-88 | past the idle check, `last_interaction` becomes now, the slot is taken and one uncancelled task records the text |
| Controller.DispatchTouchesOnly | bot/bot.py:64-88 | past the busy check, only the sender's document, slot and task change, and stored dialogs are kept |
| Controller.HandleMessageTouchesOnlySender | bot/bot.py:24-88 | any inbound message leaves every other user's document, slot and task, and every stored dialog, unchanged |
| Controller.AcceptedMessageStartsTask | bot/bot.py:73-88 | an accepted message stamps `last_interaction` with now, takes the sender's slot and records one uncancelled task for its text |
| Controller.ExchangeAppendsOneTurn | bot/bot.py:76-94 | a successful exchange appends one turn (the message as a text part, the answer, now) to the full history it read, shows the answer cut to 4096 characters, frees this user's slot and drops this user's handle, and leaves every other slot and task as it was |
| Controller.FailedExchangeWritesNothing | bot/bot.py:76-94 | a cancelled or failed exchange leaves the store unchanged and still frees this user's slot and drops this user's handle, leaving every other slot and task as it was; only a cancelled one sends "Canceled" |
| Controller.CancelWithoutTask | bot/bot.py:103-108 | cancelling with no task in flight only says "nothing to cancel" |
| Controller.CancelThenResume | bot/bot.py:86-108 | cancelling marks the task silently, and the task then ends with "Canceled", the store as before, the slot free and the handle gone |
| Controller.DispatchPreservesInv | bot/bot.py:64-88 | taking a free slot keeps the store valid and "a task is recorded iff the slot is held" |
| Controller.HandleMessagePreservesInv | bot/bot.py:48-94 | every inbound message keeps that invariant |
| Controller.ResumeAndCancelPreserveInv | bot/bot.py:86-108 | running a task to its end and cancelling keep that invariant |
| Controller.AsWrittenExchangeNeverAnswers | bot/bot.py:81 | as written, the exchange call raises on its unknown keyword, so no task ever answers or writes to the store; only this user's handle is dropped and slot released, and the slot/task invariant is kept |
| Scenario.HelloPrompt | bot/openai_utils.py:48-70 | "hello" with empty history is sent as the persona entry followed by the user entry "hello" |
| Scenario.HelloCompletion | bot/openai_utils.py:28-46 | with an upstream answering "hi!" with usage (5, 3), one request is made and the result is ("hi!", 5, 3, 0) |
| Scenario.HelloRegistered | bot/bot.py:24-33 | registering user 7 from an empty state gives a free slot, no tasks, an empty current dialog, empty counters and last seen now |
| Scenario.HelloAccepted | bot/bot.py:48-88 | user 7's first private "hello" is accepted without a notice, with an empty dialog, empty counters and one task for "hello" |
| Scenario.HelloExchange | bot/bot.py:76-84 | that task shows the placeholder, then "hi!", and stores the one turn ("hello", "hi!") |
| Scenario.HelloAnswered | bot/bot.py:48-94 | after the whole exchange the dialog holds exactly that turn and the token counters are still empty |
| Scenario.HelloAsWrittenUnanswered | bot/bot.py:76-81 | as written, the same exchange ends in the keyword error after the placeholder, and the dialog stays empty |

## Findings

| source | as written | input that shows it | evidently intended | confidence | as-written member | corrected member |
|---|---|---|---|---|---|---|
| bot/bot.py:81 | `send_message(_message, dialog_messages=..., chat_mode="zara")`, but `send_message` (`bot/openai_utils.py:28`) has no `chat_mode` parameter, so the call raises `TypeError` before any request | any accepted private message, e.g. user 7 sending "hello": the placeholder "..." stays and nothing is stored | call `send_message(_message, dialog_messages=...)`, whose persona is fixed anyway | high; not executed | Controller.ResumeAsWritten, with Controller.AsWrittenExchangeNeverAnswers and Scenario.HelloAsWrittenUnanswered | Controller.Resume, with Controller.ExchangeAppendsOneTurn and Scenario.HelloExchange |

## Left out

- Telegram I/O: replies and placeholder edits become `Notice` values. The typing action (`bot/bot.py:78`) has no effect on state and is dropped. Failures of those calls are not modelled, such as an edit rejected for its HTML markup.
- Concurrency: asyncio scheduling is reduced to sequential steps. Two consequences follow:
  - The gap between the `locked()` check (`bot/bot.py:98`) and the acquire (`bot/bot.py:86`) is closed in the model. Two messages interleaved there would both pass the check and queue on the semaphore.
  - A cancel is observed only before the task runs. The source can be cancelled at any await in the task, including after the placeholder or after the upstream call but before the dialog write.
- Controller.Resume: does not model a cancellation that lands mid-task (see above). That is the only way a cancelled task could send both "..." and "Canceled".
- Clock: one clock reading per event. The source reads `datetime.now()` separately for the idle check and the stored turn, and compares `total_seconds()` with sub-second precision. The model uses whole seconds.
- Identifiers: `uuid4` is modelled by a counter. Only freshness is used.
- Configuration: `Prompt.Persona` and `Database.AvailableTextModels` are representative values for the configuration file, which is loaded at start-up.
- Images: the image branch of the prompt builder (`bot/openai_utils.py:56-66`) and `_encode_image` are not modelled. No caller in `bot/bot.py` passes an image.
- Token counting: `_count_tokens_from_messages` and the `tiktoken` encodings are not modelled.
- Text.Lower: folds ASCII letters only. Python's `str.lower` also folds other Unicode letters. For the "zara" test at `bot/bot.py:54` the result is the same: no non-ASCII character lower-cases to "z", "a" or "r", and the only character that lower-cases to more than one character (U+0130, to "i" plus a combining dot) yields none of them either.
- Dialog messages: `get_dialog_messages` and `set_dialog_messages` are cut off at `bot/database.py:87`. They are modelled as reading and replacing the turns of the user's current dialog, as their callers use them.
- Prompt.SendMessage: `InvalidRequest` stands for every `InvalidRequestError`, overflow or not. The model keeps the source's behaviour of retrying all of them.
- Stored turns: the user side of a stored turn is the list of parts built at `bot/bot.py:83`. It is forwarded to the prompt as is (`bot/openai_utils.py:53`), and the model keeps it that way.
- Model choice: the exchange model is the hard-coded "gpt-3.5-turbo" of `bot/bot.py:80`, not the user's `current_model`.
- Removed turns: the third result of `send_message` is always 0, whatever the loop dropped.
- Token usage: `update_n_used_tokens` is modelled, but nothing in `bot/bot.py` calls it, so no exchange records token usage.
- Set-up: the application set-up in `run_bot`, which registers the `/cancel` and text handlers, and the database connection are not modelled.
