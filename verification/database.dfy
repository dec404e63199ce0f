/** The dialog store of bot/database.py: a user collection and a dialog collection,
    each a map from document id to document. */
module Database {
  import opened Results
  import opened Messages

  type UserId = int

  /** Dialog ids. The store draws uuid4 strings; here they come from a counter. */
  type DialogId = nat

  /** The chat mode every user is put in. */
  const DefaultChatMode: string := "zara"

  /** The configured list of text models (its first entry is the default). Its
      contents live in the bot's configuration; this is a representative value. */
  const AvailableTextModels: seq<string> := ["gpt-3.5-turbo", "gpt-4"]

  /** `{"n_input_tokens": ..., "n_output_tokens": ...}` for one model. */
  datatype Counters = Counters(nInputTokens: int, nOutputTokens: int)

  /** A field value of a user document. */
  datatype Value =
    | Null
    | Num(n: int)
    | Str(s: string)
    | Stamp(t: int)                               // a datetime, in whole seconds
    | DialogRef(id: DialogId)
    | TokenUsage(usage: map<string, Counters>)    // model name to counters

  /** Python truthiness of a stored value; a datetime is always true. */
  predicate Truthy(v: Value) {
    match v
    case Null => false
    case Num(n) => n != 0
    case Str(s) => s != ""
    case Stamp(_) => true
    case DialogRef(_) => true
    case TokenUsage(m) => m != map[]
  }

  /** A user document: field name to value. */
  type UserDoc = map<string, Value>

  /** `user_dict.get(key)`: a missing field reads as None. */
  function Lookup(doc: UserDoc, key: string): Value {
    if key in doc then doc[key] else Null
  }

  datatype Dialog = Dialog(userId: UserId, chatMode: Value, startTime: int, model: Value, messages: seq<Turn>)

  datatype Store = Store(users: map<UserId, UserDoc>, dialogs: map<DialogId, Dialog>, nextDialogId: DialogId) {
    /** Every dialog id in use was drawn before, so the next one is fresh. */
    predicate Valid() {
      forall d :: d in dialogs ==> d < nextDialogId
    }
  }

  datatype StoreError =
    | UnknownUser(user: UserId)       // "User ... does not exist"
    | NoCurrentDialog(user: UserId)   // the current dialog document cannot be found
    | NotAMapping(user: UserId)       // n_used_tokens holds something other than a mapping

  /** `check_if_user_exists`. */
  function UserExists(st: Store, u: UserId): bool {
    u in st.users
  }

  /** The document `add_new_user` inserts; both clock readings are `now`. */
  function NewUserDoc(u: UserId, chatId: int, username: Value, firstName: Value, lastName: Value, now: int): UserDoc {
    map[
      "_id" := Num(u),
      "chat_id" := Num(chatId),
      "username" := username,
      "first_name" := firstName,
      "last_name" := lastName,
      "last_interaction" := Stamp(now),
      "first_seen" := Stamp(now),
      "current_dialog_id" := Null,
      "current_chat_mode" := Str(DefaultChatMode),
      "current_model" := Str(AvailableTextModels[0]),
      "n_used_tokens" := TokenUsage(map[])
    ]
  }

  /** `add_new_user`: insert the user document unless one with this id exists. */
  function AddNewUser(st: Store, u: UserId, chatId: int, username: Value, firstName: Value, lastName: Value, now: int): (st': Store)
    ensures u in st'.users
    ensures st'.dialogs == st.dialogs && st'.nextDialogId == st.nextDialogId
    ensures st'.users.Keys == st.users.Keys + {u}
    ensures forall v :: v in st.users ==> st'.users[v] == st.users[v]
  {
    if UserExists(st, u) then st
    else st.(users := st.users[u := NewUserDoc(u, chatId, username, firstName, lastName, now)])
  }

  /** Registering an id that is already there changes nothing, so registering twice is registering once. */
  lemma AddNewUserIdempotent(st: Store, u: UserId, chatId: int, username: Value, firstName: Value, lastName: Value, now: int,
                             chatId': int, username': Value, firstName': Value, lastName': Value, now': int)
    ensures u in st.users ==> AddNewUser(st, u, chatId, username, firstName, lastName, now) == st
    ensures var once := AddNewUser(st, u, chatId, username, firstName, lastName, now);
            AddNewUser(once, u, chatId', username', firstName', lastName', now') == once
  {
  }

  /** A freshly added user has no current dialog, the "zara" mode, the first text
      model, no token usage, and was first seen and last active now. */
  lemma NewUserDefaults(st: Store, u: UserId, chatId: int, username: Value, firstName: Value, lastName: Value, now: int)
    requires u !in st.users
    ensures var doc := AddNewUser(st, u, chatId, username, firstName, lastName, now).users[u];
            && Lookup(doc, "current_dialog_id") == Null
            && Lookup(doc, "current_chat_mode") == Str("zara")
            && Lookup(doc, "current_model") == Str(AvailableTextModels[0])
            && Lookup(doc, "n_used_tokens") == TokenUsage(map[])
            && Lookup(doc, "last_interaction") == Stamp(now)
            && Lookup(doc, "first_seen") == Stamp(now)
            && Lookup(doc, "chat_id") == Num(chatId)
            && Lookup(doc, "username") == username
            && Lookup(doc, "first_name") == firstName
            && Lookup(doc, "last_name") == lastName
  {
  }

  datatype Started = Started(store: Store, id: DialogId)

  /** `start_new_dialog`: insert an empty dialog stamped with the user's current chat
      mode and model, and point the user's `current_dialog_id` at it. */
  function StartNewDialog(st: Store, u: UserId, now: int): (r: Result<Started, StoreError>)
    ensures r.Err? <==> u !in st.users
    ensures r.Err? ==> r.error == UnknownUser(u)
    ensures r.Ok? ==>
              var st', id := r.value.store, r.value.id;
              && u in st'.users
              && id in st'.dialogs
              && st'.dialogs[id] == Dialog(u, Lookup(st.users[u], "current_chat_mode"), now,
                                           Lookup(st.users[u], "current_model"), [])
              && Lookup(st'.users[u], "current_dialog_id") == DialogRef(id)
    ensures r.Ok? ==>
              var st', id := r.value.store, r.value.id;
              && st'.dialogs.Keys == st.dialogs.Keys + {id}
              && (forall d :: d in st.dialogs && d != id ==> st'.dialogs[d] == st.dialogs[d])
              && st'.users.Keys == st.users.Keys
              && (forall v :: v in st.users && v != u ==> st'.users[v] == st.users[v])
              && st'.users[u].Keys == st.users[u].Keys + {"current_dialog_id"}
              && (forall k :: k in st.users[u] && k != "current_dialog_id" ==> st'.users[u][k] == st.users[u][k])
    ensures r.Ok? && st.Valid() ==> r.value.id !in st.dialogs && r.value.store.Valid()
  {
    if !UserExists(st, u) then Err(UnknownUser(u))
    else
      var doc := st.users[u];
      var id := st.nextDialogId;
      var dialog := Dialog(u, Lookup(doc, "current_chat_mode"), now, Lookup(doc, "current_model"), []);
      Ok(Started(Store(st.users[u := doc["current_dialog_id" := DialogRef(id)]], st.dialogs[id := dialog], id + 1), id))
  }

  /** `get_user_attribute`. */
  function GetUserAttribute(st: Store, u: UserId, key: string): (r: Result<Value, StoreError>)
    ensures r.Err? <==> u !in st.users
    ensures r.Err? ==> r.error == UnknownUser(u)
    ensures u in st.users ==> r == Ok(if key in st.users[u] then st.users[u][key] else Null)
  {
    if !UserExists(st, u) then Err(UnknownUser(u)) else Ok(Lookup(st.users[u], key))
  }

  /** `set_user_attribute`. */
  function SetUserAttribute(st: Store, u: UserId, key: string, v: Value): (r: Result<Store, StoreError>)
    ensures r.Err? <==> u !in st.users
    ensures r.Err? ==> r.error == UnknownUser(u)
    ensures r.Ok? ==>
              && r.value.dialogs == st.dialogs && r.value.nextDialogId == st.nextDialogId
              && r.value.users.Keys == st.users.Keys
              && (forall w :: w in st.users && w != u ==> r.value.users[w] == st.users[w])
              && r.value.users[u].Keys == st.users[u].Keys + {key}
              && Lookup(r.value.users[u], key) == v
              && (forall k :: k in st.users[u] && k != key ==> r.value.users[u][k] == st.users[u][k])
  {
    if !UserExists(st, u) then Err(UnknownUser(u))
    else Ok(st.(users := st.users[u := st.users[u][key := v]]))
  }

  /** Setting a field and reading it back yields the value set; every other field
      reads as before, and a field never set reads as None. */
  lemma SetThenGet(st: Store, u: UserId, key: string, v: Value, other: string)
    requires u in st.users
    ensures var st' := SetUserAttribute(st, u, key, v).value;
            && GetUserAttribute(st', u, key) == Ok(v)
            && (other != key ==> GetUserAttribute(st', u, other) == GetUserAttribute(st, u, other))
            && (other !in st.users[u] && other != key ==> GetUserAttribute(st', u, other) == Ok(Null))
  {
  }

  /** The per-model counters currently stored for a user (none when the field is not a mapping). */
  function UsageOf(doc: UserDoc): map<string, Counters> {
    match Lookup(doc, "n_used_tokens")
    case TokenUsage(m) => m
    case _ => map[]
  }

  /** `update_n_used_tokens`: add the counts to the model's counters, starting them at
      the given counts when the model has none yet. */
  function UpdateNUsedTokens(st: Store, u: UserId, model: string, nIn: int, nOut: int): (r: Result<Store, StoreError>)
    ensures r.Err? <==> (u !in st.users || (Truthy(Lookup(st.users[u], "n_used_tokens")) && !Lookup(st.users[u], "n_used_tokens").TokenUsage?))
    ensures r.Ok? ==> u in st.users && u in r.value.users
    ensures r.Ok? ==>
              var before := UsageOf(st.users[u]);
              var after := UsageOf(r.value.users[u]);
              && Lookup(r.value.users[u], "n_used_tokens").TokenUsage?
              && after.Keys == before.Keys + {model}
              && (model in before ==> after[model] == Counters(before[model].nInputTokens + nIn, before[model].nOutputTokens + nOut))
              && (model !in before ==> after[model] == Counters(nIn, nOut))
              && (forall m :: m in before && m != model ==> after[m] == before[m])
    ensures r.Ok? ==>
              && r.value.dialogs == st.dialogs && r.value.nextDialogId == st.nextDialogId
              && r.value.users.Keys == st.users.Keys
              && (forall w :: w in st.users && w != u ==> r.value.users[w] == st.users[w])
              && r.value.users[u].Keys == st.users[u].Keys + {"n_used_tokens"}
              && (forall k :: k in st.users[u] && k != "n_used_tokens" ==> r.value.users[u][k] == st.users[u][k])
  {
    match GetUserAttribute(st, u, "n_used_tokens")
    case Err(e) => Err(e)
    case Ok(v) =>
      if Truthy(v) && !v.TokenUsage? then Err(NotAMapping(u))
      else
        var tokens := if v.TokenUsage? then v.usage else map[];
        var updated :=
          if model in tokens then tokens[model := Counters(tokens[model].nInputTokens + nIn, tokens[model].nOutputTokens + nOut)]
          else tokens[model := Counters(nIn, nOut)];
        SetUserAttribute(st, u, "n_used_tokens", TokenUsage(updated))
  }

  /** With non-negative counts no counter ever decreases, and the model's counters cover the counts. */
  lemma TokenCountersNonDecreasing(st: Store, u: UserId, model: string, nIn: nat, nOut: nat)
    requires UpdateNUsedTokens(st, u, model, nIn, nOut).Ok?
    ensures var before := UsageOf(st.users[u]);
            var after := UsageOf(UpdateNUsedTokens(st, u, model, nIn, nOut).value.users[u]);
            && before.Keys <= after.Keys
            && (forall m :: m in before ==>
                  before[m].nInputTokens <= after[m].nInputTokens && before[m].nOutputTokens <= after[m].nOutputTokens)
  {
  }

  /** The user's current dialog: the one `current_dialog_id` names, if it exists and is theirs. */
  function CurrentDialog(st: Store, u: UserId): (d: Option<DialogId>)
    requires u in st.users
    ensures d.Some? ==> d.value in st.dialogs && st.dialogs[d.value].userId == u
                        && Lookup(st.users[u], "current_dialog_id") == DialogRef(d.value)
    ensures forall id :: Lookup(st.users[u], "current_dialog_id") == DialogRef(id) && id in st.dialogs && st.dialogs[id].userId == u
                         ==> d == Some(id)
  {
    match Lookup(st.users[u], "current_dialog_id")
    case DialogRef(id) => if id in st.dialogs && st.dialogs[id].userId == u then Some(id) else None
    case _ => None
  }

  /** `get_dialog_messages` for the current dialog. */
  function GetDialogMessages(st: Store, u: UserId): (r: Result<seq<Turn>, StoreError>)
    ensures r.Err? <==> u !in st.users || CurrentDialog(st, u).None?
    ensures r.Ok? ==> r.value == st.dialogs[CurrentDialog(st, u).value].messages
  {
    if !UserExists(st, u) then Err(UnknownUser(u))
    else match CurrentDialog(st, u)
      case Some(d) => Ok(st.dialogs[d].messages)
      case None => Err(NoCurrentDialog(u))
  }

  /** `set_dialog_messages` for the current dialog: replace its turns. When no current
      dialog document matches, the update matches nothing and the store is unchanged. */
  function SetDialogMessages(st: Store, u: UserId, turns: seq<Turn>): (r: Result<Store, StoreError>)
    ensures r.Err? <==> u !in st.users
    ensures r.Ok? ==> r.value.users == st.users && r.value.nextDialogId == st.nextDialogId
                      && r.value.dialogs.Keys == st.dialogs.Keys
    ensures r.Ok? && CurrentDialog(st, u).None? ==> r.value == st
    ensures r.Ok? && CurrentDialog(st, u).Some? ==>
              var d := CurrentDialog(st, u).value;
              && r.value.dialogs[d].messages == turns
              && r.value.dialogs[d] == st.dialogs[d].(messages := turns)
              && (forall e :: e in st.dialogs && e != d ==> r.value.dialogs[e] == st.dialogs[e])
  {
    if !UserExists(st, u) then Err(UnknownUser(u))
    else match CurrentDialog(st, u)
      case Some(d) => Ok(st.(dialogs := st.dialogs[d := st.dialogs[d].(messages := turns)]))
      case None => Ok(st)
  }

  /** Writing the current dialog's turns and reading them back returns what was written. */
  lemma DialogMessagesRoundTrip(st: Store, u: UserId, turns: seq<Turn>)
    requires GetDialogMessages(st, u).Ok?
    ensures SetDialogMessages(st, u, turns).Ok?
    ensures GetDialogMessages(SetDialogMessages(st, u, turns).value, u) == Ok(turns)
  {
    var st' := SetDialogMessages(st, u, turns).value;
    assert CurrentDialog(st', u) == CurrentDialog(st, u);
  }

  /** Every store operation keeps the dialog-id counter ahead of the ids in use. */
  lemma OperationsPreserveValid(st: Store, u: UserId, key: string, v: Value, model: string, nIn: int, nOut: int,
                                turns: seq<Turn>, chatId: int, username: Value, firstName: Value, lastName: Value, now: int)
    requires st.Valid()
    ensures AddNewUser(st, u, chatId, username, firstName, lastName, now).Valid()
    ensures StartNewDialog(st, u, now).Ok? ==> StartNewDialog(st, u, now).value.store.Valid()
    ensures SetUserAttribute(st, u, key, v).Ok? ==> SetUserAttribute(st, u, key, v).value.Valid()
    ensures UpdateNUsedTokens(st, u, model, nIn, nOut).Ok? ==> UpdateNUsedTokens(st, u, model, nIn, nOut).value.Valid()
    ensures SetDialogMessages(st, u, turns).Ok? ==> SetDialogMessages(st, u, turns).value.Valid()
  {
  }
}
