/** `handle_my_chat_member`: the bot's reaction to a change of its own
    status in a group. */
module Membership {
  import opened Wrappers
  import opened Groups
  import opened Storage
  import opened Telegram

  /** The store after a join whose welcome send had outcome `welcome`: the chat
      is added first; a `ChatMigrated` reply then replaces the old id by the
      new one. No other outcome touches the store again. */
  function Join(st: StoreState, chatId: int, welcome: Outcome): StoreState {
    var added := AddTo(st, chatId);
    match welcome
    case Migrated(newId) => AddTo(RemoveFrom(added, chatId), newId)
    case _ => added
  }

  /** The destinations of the handler's sends on a join, in order: the
      welcome to the chat, then, after a migration, the confirmation to the
      new id. */
  function JoinSends(chatId: int, welcome: Outcome): seq<int> {
    if welcome.Migrated? then [chatId, welcome.newId] else [chatId]
  }

  /** The exception that leaves the handler for `error_handler`: a failed
      welcome other than a migration, or a failed confirmation. */
  function JoinRaised(welcome: Outcome, confirmation: Outcome): Option<Error> {
    if welcome.Migrated? then Raised(confirmation) else Raised(welcome)
  }

  /** `handle_my_chat_member` for chat `chatId`, with the sends answered by
      `send` (attempt 0 is the welcome, attempt 1 the confirmation). Returns
      the destinations of the attempted sends and the exception that escapes
      to the error handler, if any. */
  method HandleMyChatMember(store: GroupStore, chatId: int, oldStatus: Status,
                            newStatus: Status, send: Transport)
    returns (sent: seq<int>, raised: Option<Error>)
    modifies store
    ensures !IsJoin(oldStatus, newStatus) ==>
      store.State() == old(store.State()) && sent == [] && raised == None
    ensures IsJoin(oldStatus, newStatus) ==>
      var welcome := send(0, chatId);
      store.State() == Join(old(store.State()), chatId, welcome) &&
      sent == JoinSends(chatId, welcome) &&
      raised == JoinRaised(welcome, if welcome.Migrated? then send(1, welcome.newId) else Success)
  {
    sent, raised := [], None;
    if IsJoin(oldStatus, newStatus) {
      store.AddGroup(chatId);
      var welcome := send(0, chatId);
      sent := sent + [chatId];
      match welcome {
        case Migrated(newId) =>
          store.RemoveGroup(chatId);
          store.AddGroup(newId);
          var confirmation := send(1, newId);
          sent := sent + [newId];
          raised := Raised(confirmation);
        case _ =>
          raised := Raised(welcome);
      }
    }
  }

  /** A failed welcome never undoes the add: unless the chat migrated, the
      chat id is stored afterwards, exactly as a plain `add_group` leaves it. */
  lemma JoinKeepsChat(st: StoreState, chatId: int, welcome: Outcome)
    requires !welcome.Migrated?
    ensures Join(st, chatId, welcome) == AddTo(st, chatId)
    ensures chatId in Loaded(Join(st, chatId, welcome).file)
  {
  }

  /** After a migration reported by the welcome send, the new id is stored,
      the old one is gone, and the store is still free of duplicates. */
  lemma JoinMigrated(st: StoreState, chatId: int, newId: int)
    requires NoDuplicates(Loaded(st.file))
    requires newId != chatId
    ensures var after := Loaded(Join(st, chatId, Migrated(newId)).file);
      newId in after && chatId !in after && NoDuplicates(after)
    ensures forall y :: y != chatId && y != newId ==>
      (y in Loaded(Join(st, chatId, Migrated(newId)).file) <==> y in Loaded(st.file))
  {
    var added := AddTo(st, chatId);
    MutatorsKeepNoDuplicates(st, chatId);
    var removed := RemoveFrom(added, chatId);
    MutatorsKeepNoDuplicates(added, chatId);
    MutatorsKeepNoDuplicates(removed, newId);
  }

  /** Whatever the welcome's outcome, a join keeps the store duplicate-free. */
  lemma JoinKeepsNoDuplicates(st: StoreState, chatId: int, welcome: Outcome)
    requires NoDuplicates(Loaded(st.file))
    ensures NoDuplicates(Loaded(Join(st, chatId, welcome).file))
  {
    var added := AddTo(st, chatId);
    MutatorsKeepNoDuplicates(st, chatId);
    if welcome.Migrated? {
      var removed := RemoveFrom(added, chatId);
      MutatorsKeepNoDuplicates(added, chatId);
      MutatorsKeepNoDuplicates(removed, welcome.newId);
    }
  }

  /** A join with a migrated welcome sends exactly one confirmation, to the
      new id; every failure that escapes is logged by the error handler. */
  lemma JoinMessages(chatId: int, welcome: Outcome, confirmation: Outcome)
    ensures |JoinSends(chatId, welcome)| == (if welcome.Migrated? then 2 else 1)
    ensures JoinSends(chatId, welcome)[0] == chatId
    ensures welcome.Migrated? ==> JoinSends(chatId, welcome)[1] == welcome.newId
    ensures JoinRaised(welcome, confirmation).Some? ==> IsLogged(JoinRaised(welcome, confirmation).value)
  {
  }

  /** The empty store, bot re-added (kicked to member) to chat 100, welcome
      delivered: the file becomes `[100]` after one write. */
  lemma JoinExample()
    ensures Join(StoreState(None, 0), 100, Success) == StoreState(Some([100]), 1)
    ensures JoinSends(100, Success) == [100] && JoinRaised(Success, Success) == None
    ensures IsJoin(Kicked, Member)
  {
    AddToMissingFile(0, 100);
  }
}
