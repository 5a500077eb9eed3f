# daily-gaming-poll, modelled in Dafny

This project models the core of `daily-gaming-poll.py`, a Telegram bot. The bot
keeps the ids of the group chats it belongs to in `groups.json`. It reacts when
it is added to a group, sends a poll to every stored group once a day, and
updates the stored list from what each send reports.

The model has these modules:

- `Groups` (`groups.dfy`): the in-memory list. `NoDuplicates` is the store's
  intended invariant. `RemoveFirst` is Python's `list.remove`, which deletes
  only the first occurrence.
- `Storage` (`storage.dfy`): the file `groups.json` and its operations.
  - The file is `Option<seq<int>>`: `None` is a missing file, and the JSON text
    is modelled as the list itself.
  - `writes` counts overwrites, so "no write when nothing changed" can be stated.
  - `AddTo` and `RemoveFrom` are the specification functions on a
    `StoreState`. The class `GroupStore` has `Load`, `Save`, `AddGroup` and
    `RemoveGroup` methods proved against them.
- `Telegram` (`telegram.dfy`):
  - the outcome of one send: `Success`, `Migrated(newId)` (the
    `ChatMigrated` exception), `Forbidden`, or `Other` (any other exception);
  - the transport, as an oracle from (attempt number, destination) to outcome;
  - the member statuses, and the join test of `handle_my_chat_member`;
  - `IsLogged`, the classification made by `error_handler`.
- `Membership` (`membership.dfy`): `handle_my_chat_member` as a method over the
  store. `Join` is the store it produces, `JoinSends` the messages it sends and
  `JoinRaised` the exception it lets escape to the error handler.
- `Broadcast` (`broadcast.dfy`): `daily_poll_job` as a loop over the list loaded
  at its start. `Reconcile` is the effect of one outcome. `Run` is the effect
  of a whole run, and `Kept` lists the destinations a run without migrations
  keeps.

Three behaviours of the code worth knowing when reading the model:

- `handle_my_chat_member` acts only on a join. A transition such as member to
  kicked, or member to left, changes nothing, so an id stays stored after the
  bot leaves its chat until a later poll send is refused.
- `load_groups` raises the JSON error on a corrupt `groups.json` (outside this
  model, see below).
- `save_groups` overwrites the file in place.

## Model

| member | source | states |
|---|---|---|
| Groups.RemoveFirst | daily-gaming-poll.py:78 | `list.remove` shortens a list holding the id by exactly one element, and leaves a list without it unchanged |
| Groups.RemoveFirstIsSplice | daily-gaming-poll.py:78 | `list.remove` cuts out exactly the first occurrence and keeps the relative order of every other id |
| Groups.RemoveFirstMultiset | daily-gaming-poll.py:78 | `list.remove` takes away one copy of the id and nothing else |
| Groups.RemoveFirstNoDuplicates | daily-gaming-poll.py:77-79 | on a duplicate-free list, removal keeps it duplicate-free; an id is present afterwards iff it was present before and is not the removed one |
| Groups.AppendNoDuplicates | daily-gaming-poll.py:69-70 | appending an id that is absent keeps the list duplicate-free |
| Storage.GroupStore.Load | daily-gaming-poll.py:57-60 | a missing file loads as the empty list; otherwise the stored list is returned |
| Storage.GroupStore.Save | daily-gaming-poll.py:63-64 | the file is overwritten with the given list, and that is one more write |
| Storage.GroupStore.AddGroup | daily-gaming-poll.py:67-72 | the new file and write count are `AddTo` of the old ones |
| Storage.GroupStore.RemoveGroup | daily-gaming-poll.py:75-80 | the new file and write count are `RemoveFrom` of the old ones |
| Storage.AddToSpec | daily-gaming-poll.py:67-72 | after `add_group(x)`, x is stored. An absent x is appended at the end with one write. A present x changes nothing and writes nothing |
| Storage.AddToMissingFile | daily-gaming-poll.py:57-60 | `add_group(x)` on a missing file yields the file `[x]` after one write |
| Storage.AddToIdempotent | daily-gaming-poll.py:67-72 | `add_group` is idempotent: a second call neither changes nor writes anything |
| Storage.RemoveFromSpec | daily-gaming-poll.py:75-80 | `remove_group(x)` on an absent x changes and writes nothing. On a present x it writes once and the file is the old list with the first x cut out |
| Storage.RemoveFromIdempotent | daily-gaming-poll.py:75-80 | on a duplicate-free store, removing twice is the same as removing once |
| Storage.WritesOnlyOnChange | daily-gaming-poll.py:69-71 | each mutator writes at most once, and it writes iff the stored list changes |
| Storage.MutatorsKeepNoDuplicates | daily-gaming-poll.py:67-80 | both mutators keep the store duplicate-free; on such a store they act as set insertion and set deletion |
| Storage.RemoveUndoesAdd | daily-gaming-poll.py:67-80 | removing a just-added absent id restores the stored list, after exactly two writes |
| Telegram.JoinTransitions | daily-gaming-poll.py:94 | exactly the four transitions from kicked or left to member or administrator count as a join |
| Telegram.SendFailuresAreLogged | daily-gaming-poll.py:49-52 | every failed send that reaches the error handler is logged; the handler-stop and conflict signals are swallowed silently |
| Membership.HandleMyChatMember | daily-gaming-poll.py:86-112 | a non-join transition changes nothing and sends nothing. A join leaves the store `Join(old store)`, sends to `JoinSends` in order, and lets `JoinRaised` escape |
| Membership.JoinKeepsChat | daily-gaming-poll.py:95-103 | a failed welcome other than a migration never undoes the add: the store is that of a plain `add_group` and holds the chat |
| Membership.JoinMigrated | daily-gaming-poll.py:104-107 | after a migration on the welcome, the new id is stored and the old one is gone, with no duplicates. Every other id is stored iff it was before |
| Membership.JoinKeepsNoDuplicates | daily-gaming-poll.py:94-112 | a join keeps the store duplicate-free whatever the welcome's outcome |
| Membership.JoinMessages | daily-gaming-poll.py:97-112 | the welcome goes to the chat. Only after a migration is exactly one confirmation sent, to the new id. Any escaping failure is logged |
| Membership.JoinExample | daily-gaming-poll.py:94-103 | an empty store, the bot re-added to chat 100 (kicked to member), welcome delivered: the file becomes `[100]` after one write |
| Broadcast.DailyPollJob | daily-gaming-poll.py:118-138 | exactly one send is attempted per id of the list loaded at the start, in order, whatever earlier sends reported; the store ends as `Run` of that list |
| Broadcast.ReconcileOutcome | daily-gaming-poll.py:129-138 | success and any other error leave the store untouched with no write. `Forbidden` removes the id. `ChatMigrated(n)` removes the id and adds n. No duplicates appear |
| Broadcast.RunKeepsNoDuplicates | daily-gaming-poll.py:120-138 | a whole run keeps the store duplicate-free |
| Broadcast.RunWithoutTerminalFailures | daily-gaming-poll.py:137-138 | a run in which every send succeeded or failed with an unclassified error leaves the store exactly as it was, with no write |
| Broadcast.RunRemovesForbidden | daily-gaming-poll.py:120-136 | a run with no migration over a duplicate-free store removes exactly the forbidden ids and keeps the others in their order |
| Broadcast.MigrationRetargets | daily-gaming-poll.py:120-138 | after a migration from id O to id N at any attempt of a run, the store at the end of the run contains N and not O. This holds unless a later attempt to N is forbidden or migrated, or a later attempt migrates to O. So the next run targets N |
| Broadcast.ForbiddenRun | daily-gaming-poll.py:118-138 | the job on the store `[100, 200, 300]`, with 200 forbidden and the rest delivered, attempts 100, 200 and 300 in that order and leaves the file `[100, 300]` after one write |
| Broadcast.ForbiddenExample | daily-gaming-poll.py:120-138 | the store `[100, 200, 300]` with 200 forbidden and the rest delivered ends as `[100, 300]` after one write |

## Left out

- The Telegram transport is not modelled. This covers `send_message`, `send_poll`, `delete_webhook`, the `ChatMemberHandler` registration and `AIORateLimiter`. These are network calls, replaced by the `Transport` oracle.
- The event loop and scheduling are not modelled: `asyncio`, `nest_asyncio`, `run_polling`, `job_queue.run_daily`, the Europe/Kyiv time zone and the 19:10 fire time. Interleaving of the handler with a running job is not modelled either; each call runs to completion.
- JSON text encoding and decoding, and `Path.exists`, are library calls. The file is `Option<seq<int>>`. An exception raised by `json.loads` on a corrupt file is not modelled.
- The `BOT_TOKEN` startup check, logging, the poll question and options, and the message texts are not modelled. This includes the chat title and its "Untitled" default.
- Groups.RemoveFirst: Python's `list.remove` raises on an absent id. The model returns the list unchanged instead, since `remove_group` calls it only after checking membership.
- Telegram.SendFailuresAreLogged: every send failure is modelled as `SendFailed`, so a send never raises `Conflict`. python-telegram-bot raises `Conflict` on an HTTP 409 reply, and `error_handler` would swallow such a failure silently.
