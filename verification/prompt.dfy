/** The completion client of bot/openai_utils.py: prompt assembly and the
    trim-and-retry loop around the upstream chat-completion call. */
module Prompt {
  import opened Results
  import opened Messages
  import Text

  datatype Role = System | User | Assistant

  /** One role-tagged entry of a completion request. */
  datatype Entry = Entry(role: Role, content: Content)

  /** The system prompt of the "zara" chat mode. Its text lives in the bot's
      configuration; this is a representative value. */
  const Persona: string := "You are Zara."

  /** The fixed option bag sent with every completion request. */
  datatype Options = Options(temperature: real, maxTokens: nat, topP: real,
                             frequencyPenalty: real, presencePenalty: real, requestTimeout: real)

  const CompletionOptions: Options := Options(0.7, 1000, 1.0, 0.0, 0.0, 60.0)

  /** What the upstream completion call can come back with. `InvalidRequest` is
      every invalid-request error (context overflow among them); `OtherFailure`
      is any other exception (network, timeout, rate limit, ...). */
  datatype Reply =
    | Completed(content: string, promptTokens: nat, completionTokens: nat)
    | InvalidRequest
    | OtherFailure(reason: string)

  /** The upstream call: model name, prompt and options to a reply. */
  type Upstream = (string, seq<Entry>, Options) -> Reply

  /** The successful return value `(answer, (n_input_tokens, n_output_tokens), n_removed)`. */
  datatype Completion = Completion(answer: string, nInputTokens: nat, nOutputTokens: nat, nRemoved: int)

  datatype CompletionError =
    | TooManyTokens               // the history is empty and the request is still rejected
    | UpstreamError(reason: string) // propagated unchanged, never retried

  /** The outcome of `send_message` together with every prompt it sent upstream, in order. */
  datatype Attempt = Attempt(outcome: Result<Completion, CompletionError>, sent: seq<seq<Entry>>)

  /** For each turn, a user entry then an assistant entry, in the order of the history. */
  function HistoryEntries(history: seq<Turn>): (es: seq<Entry>)
    ensures |es| == 2 * |history|
  {
    if history == [] then []
    else [Entry(User, history[0].user), Entry(Assistant, Plain(history[0].bot))] + HistoryEntries(history[1..])
  }

  lemma {:induction false} HistoryEntriesPairs(history: seq<Turn>)
    ensures var es := HistoryEntries(history);
            forall i :: 0 <= i < |history| ==>
              es[2 * i] == Entry(User, history[i].user) && es[2 * i + 1] == Entry(Assistant, Plain(history[i].bot))
  {
    if history != [] {
      HistoryEntriesPairs(history[1..]);
      var es := HistoryEntries(history);
      var rest := HistoryEntries(history[1..]);
      forall i | 1 <= i < |history|
        ensures es[2 * i] == Entry(User, history[i].user) && es[2 * i + 1] == Entry(Assistant, Plain(history[i].bot))
      {
        assert history[i] == history[1..][i - 1];
        assert es[2 * i] == rest[2 * (i - 1)] && es[2 * i + 1] == rest[2 * (i - 1) + 1];
      }
    }
  }

  /** `_generate_prompt_messages` without an image: the persona, the history, then the new message. */
  function BuildPrompt(message: string, history: seq<Turn>): (p: seq<Entry>)
    ensures |p| == 2 * |history| + 2
    ensures p[0] == Entry(System, Plain(Persona))
    ensures p[|p| - 1] == Entry(User, Plain(message))
  {
    [Entry(System, Plain(Persona))] + HistoryEntries(history) + [Entry(User, Plain(message))]
  }

  /** The shape stated by `BuildPrompt`'s contract: a persona entry, a user/assistant pair per turn, the message. */
  ghost predicate PromptShape(p: seq<Entry>, message: string, history: seq<Turn>) {
    && |p| == 2 * |history| + 2
    && p[0] == Entry(System, Plain(Persona))
    && p[|p| - 1] == Entry(User, Plain(message))
    && forall i :: 0 <= i < |history| ==>
         p[2 * i + 1] == Entry(User, history[i].user) && p[2 * i + 2] == Entry(Assistant, Plain(history[i].bot))
  }

  /** The prompt is one system entry with the persona, then for each turn i a user
      entry at 2i+1 and an assistant entry at 2i+2 in the order of the history,
      then one user entry with the new message. */
  lemma BuildPromptShape(message: string, history: seq<Turn>)
    ensures PromptShape(BuildPrompt(message, history), message, history)
  {
    var p := BuildPrompt(message, history);
    var es := HistoryEntries(history);
    HistoryEntriesPairs(history);
    forall i | 0 <= i < |history|
      ensures p[2 * i + 1] == Entry(User, history[i].user) && p[2 * i + 2] == Entry(Assistant, Plain(history[i].bot))
    {
      assert p[2 * i + 1] == es[2 * i] && p[2 * i + 2] == es[2 * i + 1];
    }
  }

  /** The shape determines the prompt: no other entry sequence has it. */
  lemma PromptShapeUnique(p: seq<Entry>, message: string, history: seq<Turn>)
    requires PromptShape(p, message, history)
    ensures p == BuildPrompt(message, history)
  {
    var q := BuildPrompt(message, history);
    BuildPromptShape(message, history);
    forall k | 0 <= k < |p|
      ensures p[k] == q[k]
    {
      if k != 0 && k != |p| - 1 {
        var i := (k - 1) / 2;
        assert 0 <= i < |history|;
        var t := history[i];
        if k == 2 * i + 1 {
          assert p[k] == Entry(User, t.user) == q[k];
        } else {
          assert k == 2 * i + 2;
          assert p[k] == Entry(Assistant, Plain(t.bot)) == q[k];
        }
      }
    }
  }

  /** Dropping the oldest turn removes exactly the first user/assistant pair of the prompt. */
  lemma DropOldestTurn(message: string, history: seq<Turn>)
    requires |history| > 0
    ensures BuildPrompt(message, history[1..]) == BuildPrompt(message, history)[..1] + BuildPrompt(message, history)[3..]
  {
    var p := BuildPrompt(message, history);
    BuildPromptShape(message, history);
    var q := p[..1] + p[3..];
    assert forall i :: 0 <= i < |history[1..]| ==> history[1..][i] == history[i + 1];
    assert forall i :: 0 <= i < |history| - 1 ==> q[2 * i + 1] == p[2 * i + 3] && q[2 * i + 2] == p[2 * i + 4];
    PromptShapeUnique(q, message, history[1..]);
  }

  /** How the last reply of an attempt settles its outcome. */
  predicate Settles(reply: Reply, exhausted: bool, outcome: Result<Completion, CompletionError>) {
    match reply
    case Completed(content, pt, ct) => outcome == Ok(Completion(Text.Strip(content), pt, ct, 0))
    case OtherFailure(reason) => outcome == Err(UpstreamError(reason))
    case InvalidRequest => exhausted && outcome == Err(TooManyTokens)
  }

  /** `ChatGPT.send_message`: send the prompt; on an invalid request drop the oldest
      turn and try again, failing with "Too many tokens" once the history is empty. */
  function SendMessage(upstream: Upstream, model: string, message: string, history: seq<Turn>): (a: Attempt)
    ensures 1 <= |a.sent| <= |history| + 1
    ensures a.sent[0] == BuildPrompt(message, history)
    decreases |history|
  {
    var prompt := BuildPrompt(message, history);
    match upstream(model, prompt, CompletionOptions)
    case Completed(content, pt, ct) => Attempt(Ok(Completion(Text.Strip(content), pt, ct, 0)), [prompt])
    case OtherFailure(reason) => Attempt(Err(UpstreamError(reason)), [prompt])
    case InvalidRequest =>
      if |history| == 0 then Attempt(Err(TooManyTokens), [prompt])
      else
        var rest := SendMessage(upstream, model, message, history[1..]);
        Attempt(rest.outcome, [prompt] + rest.sent)
  }

  /** Attempt i of `send_message` sends the prompt built from `history[i..]`. */
  lemma {:induction false} SentPromptsAreSuffixes(upstream: Upstream, model: string, message: string, history: seq<Turn>)
    ensures var a := SendMessage(upstream, model, message, history);
            forall i :: 0 <= i < |a.sent| ==> a.sent[i] == BuildPrompt(message, history[i..])
    decreases |history|
  {
    var a := SendMessage(upstream, model, message, history);
    if upstream(model, BuildPrompt(message, history), CompletionOptions).InvalidRequest? && |history| > 0 {
      SentPromptsAreSuffixes(upstream, model, message, history[1..]);
      var rest := SendMessage(upstream, model, message, history[1..]);
      assert a.sent == [a.sent[0]] + rest.sent;
      forall i | 1 <= i < |a.sent|
        ensures a.sent[i] == BuildPrompt(message, history[i..])
      {
        assert a.sent[i] == rest.sent[i - 1];
        assert history[1..][i - 1..] == history[i..];
      }
    }
  }

  /** Every prompt of `sent` except the last was rejected as an invalid request. */
  ghost predicate RejectedBeforeLast(upstream: Upstream, model: string, sent: seq<seq<Entry>>) {
    forall i :: 0 <= i < |sent| - 1 ==> upstream(model, sent[i], CompletionOptions).InvalidRequest?
  }

  /** Every attempt but the last was rejected as an invalid request. */
  lemma {:induction false} RetriesFollowRejections(upstream: Upstream, model: string, message: string, history: seq<Turn>)
    ensures RejectedBeforeLast(upstream, model, SendMessage(upstream, model, message, history).sent)
    decreases |history|
  {
    var prompt := BuildPrompt(message, history);
    var a := SendMessage(upstream, model, message, history);
    if upstream(model, prompt, CompletionOptions).InvalidRequest? && |history| > 0 {
      RetriesFollowRejections(upstream, model, message, history[1..]);
      var rest := SendMessage(upstream, model, message, history[1..]);
      assert a.sent == [prompt] + rest.sent;
      forall i | 1 <= i < |a.sent| - 1
        ensures upstream(model, a.sent[i], CompletionOptions).InvalidRequest?
      {
        assert a.sent[i] == rest.sent[i - 1];
      }
    } else {
      assert a.sent == [prompt];
    }
  }

  /** The last reply settles the outcome: a completion is returned stripped with its
      usage and 0, another failure is passed on, and an invalid request ends the
      call only once every turn has been dropped. */
  lemma {:induction false} LastReplySettles(upstream: Upstream, model: string, message: string, history: seq<Turn>)
    ensures var a := SendMessage(upstream, model, message, history);
            Settles(upstream(model, a.sent[|a.sent| - 1], CompletionOptions), |a.sent| == |history| + 1, a.outcome)
    decreases |history|
  {
    var prompt := BuildPrompt(message, history);
    var a := SendMessage(upstream, model, message, history);
    if upstream(model, prompt, CompletionOptions).InvalidRequest? && |history| > 0 {
      LastReplySettles(upstream, model, message, history[1..]);
      var rest := SendMessage(upstream, model, message, history[1..]);
      assert a.sent == [prompt] + rest.sent;
      assert a.sent[|a.sent| - 1] == rest.sent[|rest.sent| - 1];
    } else {
      assert a.sent == [prompt];
    }
  }

  /** With an upstream that rejects every request, a history of K turns leads to
      exactly K + 1 calls and then "Too many tokens". */
  lemma AlwaysInvalidExhaustsHistory(upstream: Upstream, model: string, message: string, history: seq<Turn>)
    requires forall p :: upstream(model, p, CompletionOptions) == InvalidRequest
    ensures |SendMessage(upstream, model, message, history).sent| == |history| + 1
    ensures SendMessage(upstream, model, message, history).outcome == Err(TooManyTokens)
  {
    RetriesFollowRejections(upstream, model, message, history);
    LastReplySettles(upstream, model, message, history);
  }

  /** A failure other than an invalid request is not retried: one call, the error passed on. */
  lemma OtherFailureNotRetried(upstream: Upstream, model: string, message: string, history: seq<Turn>, reason: string)
    requires upstream(model, BuildPrompt(message, history), CompletionOptions) == OtherFailure(reason)
    ensures SendMessage(upstream, model, message, history) == Attempt(Err(UpstreamError(reason)), [BuildPrompt(message, history)])
  {
  }

  /** Every prompt sent ends with the new message and carries a suffix of the history;
      an attempt after a rejection carries the previous history minus its oldest turn. */
  lemma SentPromptsKeepMessage(upstream: Upstream, model: string, message: string, history: seq<Turn>, i: nat)
    requires i < |SendMessage(upstream, model, message, history).sent|
    ensures var p := SendMessage(upstream, model, message, history).sent[i];
            p == BuildPrompt(message, history[i..]) && p[|p| - 1] == Entry(User, Plain(message))
    ensures i + 1 < |SendMessage(upstream, model, message, history).sent| ==>
              |history[i..]| > 0 &&
              SendMessage(upstream, model, message, history).sent[i + 1] == BuildPrompt(message, history[i..][1..])
  {
    SentPromptsAreSuffixes(upstream, model, message, history);
    var a := SendMessage(upstream, model, message, history);
    if i + 1 < |a.sent| {
      assert history[i..][1..] == history[i + 1..];
    }
  }

  /** A successful result is `(stripped answer, (prompt tokens, completion tokens), 0)`
      taken from the one reply that completed. */
  lemma SuccessCarriesLastReply(upstream: Upstream, model: string, message: string, history: seq<Turn>)
    ensures var a := SendMessage(upstream, model, message, history);
            var reply := upstream(model, a.sent[|a.sent| - 1], CompletionOptions);
            a.outcome.Ok? ==>
            && reply.Completed?
            && a.outcome.value == Completion(Text.Strip(reply.content), reply.promptTokens, reply.completionTokens, 0)
            && Text.Trimmed(a.outcome.value.answer)
  {
    RetriesFollowRejections(upstream, model, message, history);
    LastReplySettles(upstream, model, message, history);
  }

  /** One round of `send_message`: what the first reply decides. */
  lemma SendMessageStep(upstream: Upstream, model: string, message: string, dialog: seq<Turn>)
    ensures var a := SendMessage(upstream, model, message, dialog);
            match upstream(model, BuildPrompt(message, dialog), CompletionOptions)
            case Completed(content, pt, ct) => a.outcome == Ok(Completion(Text.Strip(content), pt, ct, 0)) && |a.sent| == 1
            case OtherFailure(reason) => a.outcome == Err(UpstreamError(reason)) && |a.sent| == 1
            case InvalidRequest =>
              if |dialog| == 0 then a.outcome == Err(TooManyTokens) && |a.sent| == 1
              else a.outcome == SendMessage(upstream, model, message, dialog[1..]).outcome
                   && |a.sent| == 1 + |SendMessage(upstream, model, message, dialog[1..]).sent|
  {
  }

  /** The `while answer is None` loop of `send_message`, written as a loop. */
  method SendMessageLoop(upstream: Upstream, model: string, message: string, history: seq<Turn>)
    returns (outcome: Result<Completion, CompletionError>, calls: nat)
    ensures outcome == SendMessage(upstream, model, message, history).outcome
    ensures calls == |SendMessage(upstream, model, message, history).sent|
  {
    ghost var whole := SendMessage(upstream, model, message, history);
    var dialog := history;
    calls := 0;
    var done := false;
    outcome := Err(TooManyTokens);
    while !done
      invariant !done ==> calls + |dialog| == |history|
      invariant !done ==> whole.outcome == SendMessage(upstream, model, message, dialog).outcome
      invariant !done ==> |whole.sent| == calls + |SendMessage(upstream, model, message, dialog).sent|
      invariant done ==> outcome == whole.outcome && calls == |whole.sent|
      decreases |dialog| + (if done then 0 else 1)
    {
      SendMessageStep(upstream, model, message, dialog);
      var reply := upstream(model, BuildPrompt(message, dialog), CompletionOptions);
      calls := calls + 1;
      match reply {
        case Completed(content, pt, ct) =>
          outcome := Ok(Completion(Text.Strip(content), pt, ct, 0));
          done := true;
        case OtherFailure(reason) =>
          outcome := Err(UpstreamError(reason));
          done := true;
        case InvalidRequest =>
          if |dialog| == 0 {
            outcome := Err(TooManyTokens);
            done := true;
          } else {
            dialog := dialog[1..];
          }
      }
    }
  }
}
