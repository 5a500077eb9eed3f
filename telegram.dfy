/** What the bot sees of Telegram: the result of one send, the bot's member
    status in a chat, and the errors that reach the global error handler. */
module Telegram {
  import opened Wrappers

  /** The result of one `send_message` / `send_poll` call: success, or the
      exception it raised (`ChatMigrated`, `Forbidden`, anything else). */
  datatype Outcome = Success | Migrated(newId: int) | Forbidden | Other

  /** The transport as an oracle: the outcome of the send made as attempt
      number `i` (counted from 0 within one handler call or one job run) to
      chat `chatId`. */
  type Transport = (nat, int) -> Outcome

  /** A chat member status as reported in a `my_chat_member` update. */
  datatype Status = Creator | Administrator | Member | Restricted | Left | Kicked

  /** The exceptions that reach `error_handler`. */
  datatype Error = ApplicationHandlerStop | Conflict | SendFailed(failure: Outcome)

  /** The exception a send raises, if any. */
  function Raised(o: Outcome): (e: Option<Error>)
    ensures e.None? <==> o.Success?
    ensures e.Some? ==> e.value.SendFailed? && e.value.failure == o
  {
    if o.Success? then None else Some(SendFailed(o))
  }

  /** The status test of `handle_my_chat_member`: the bot was outside the
      chat (kicked or left) and is now inside it (member or administrator). */
  predicate IsJoin(oldStatus: Status, newStatus: Status) {
    (oldStatus == Kicked || oldStatus == Left) &&
    (newStatus == Member || newStatus == Administrator)
  }

  /** Exactly four transitions count as a join; in particular none that ends
      outside the chat, and none from `Creator`, `Restricted` or a status
      inside the chat. */
  lemma JoinTransitions(oldStatus: Status, newStatus: Status)
    ensures IsJoin(oldStatus, newStatus) <==>
      (oldStatus, newStatus) in {(Kicked, Member), (Kicked, Administrator),
                                 (Left, Member), (Left, Administrator)}
  {
  }

  /** `error_handler`: the two control-flow signals are swallowed silently,
      every other error is logged (and never re-raised). */
  predicate IsLogged(e: Error) {
    !(e.ApplicationHandlerStop? || e.Conflict?)
  }

  /** Every failed send that escapes a handler is logged, never silenced. */
  lemma SendFailuresAreLogged(o: Outcome)
    ensures Raised(o).Some? ==> IsLogged(Raised(o).value)
    ensures !IsLogged(ApplicationHandlerStop) && !IsLogged(Conflict)
  {
  }
}
