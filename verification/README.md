# Slot relay-race scheduler — a Dafny model

This project models the scheduling core of a Telegram "slot manager" bot. The
bot holds a pool of user accounts. It plays the slot game of an external game
bot on their behalf, one account at a time (the "relay race"). Each account
gets a 43800-second cooldown (12 h 10 min) once the game bot says it has used
up its slots.

The model is a set of pure state transitions over one immutable `State`. The
state holds:

- the registry of connected clients (`clients`);
- each account's stats record: reward, cooldown end, name (`userData`);
- the farming queue (`queue`);
- the supervisor's running flag (`isRunning`);
- the account being played (`currentActive`).

Time is an integer parameter. The game bot's replies are a finite list of
strings. When the list runs out, that stands for the conversation failing
(a timeout or a lost connection).

Modules:

- `Common` (common.dfy): an optional value, duplicate freedom, Python's
  substring test `pat in text`, Python's `list.remove` and the
  order-preserving erasure it amounts to on a list without duplicates.
- `Database` (database.dfy, models database.py): the state, the eligibility test, and the
  invariant `Valid`. The queue has no duplicates, every queued id is
  registered, and the registry and the stats records have the same ids.
- `Utils` (utils.dfy, models utils.py): `parse_extols` as a left-to-right scanner for `Є\d+`,
  `format_status` as a three-way classifier, and `get_uptime` as a
  days/hours/minutes/seconds split.
- `Worker` (worker.dfy, models worker.py):
  - one turn (`RunTurn` over classified replies, `PlayUserTurn` on the state);
  - one pass over the queue (`PlayQueue`);
  - the sleep computation (`SleepDuration`);
  - one supervisor cycle (`RunCycle`, `SupervisorStep`);
  - the idempotent start (`StartRelayRace`).
- `Handlers` (handlers.dfy, models main.py): the state effects of `/login`, `/sessionimport`,
  `/logout`, `/slot`, `/allslot` and the client selection of `/self_reply`.
  `Dispatch` applies one event, which is a command or a supervisor cycle.
  `DispatchPreservesValid` shows that every event keeps the invariant.

Behaviour of the bot worth noting:

- A failed turn leaves `next_play_time` as it was. It does not set a short
  penalty cooldown, so the account is played again in the next cycle
  (`TurnEligibilityAfter`).
- Every stop reply sets the same fixed 43800 s cooldown. No duration is read
  from the reply text.
- The idle sleep is not capped. It lasts until 5 s after the earliest
  cooldown end, or 10 s if that moment has already passed by the time the
  sleep is computed.
- `/allslot` queues every registered account, whatever its cooldown, and
  reports only how many it added.
- `/slot` refuses an account that is not registered.
- There is no watchdog. `active_user_start_time` and `force_abort_flag` are
  declared but nothing reads or writes them.
- Only `current_active_user` is set and cleared around a turn.

## Model

| member | source | states |
|---|---|---|
| Common.ContainsSpec | worker.py:37-41 | the substring scan used for the stop markers is true exactly when the marker occurs at some position of the reply |
| Common.RemoveFirst | main.py:117 | `list.remove`: the result is one shorter and is the list with the first occurrence cut out |
| Common.RemoveIfPresent | main.py:117 | `if uid in queue: queue.remove(uid)` leaves a queue without `uid` unchanged, removes the first occurrence otherwise, and on a duplicate-free queue erases `uid` and keeps the others in order |
| Common.RemoveFirstIsErase | main.py:117 | on a duplicate-free list, `list.remove` equals erasing the element: no copy is left and the other entries keep their relative order |
| Utils.LeadingDigits | utils.py:21 | the greedy `\d+`: the result is a prefix of the input, made of digits, and is followed by a non-digit or the end |
| Utils.ParseExtols | utils.py:18-24 | `parse_extols` as a left-to-right scan for a currency sign followed by a digit; its meaning is stated by `Utils.ParseExtolsSpec` |
| Utils.ParseExtolsSpec | utils.py:18-24 | the reward is 0 when no `Є` is followed by a digit; otherwise it is the value of the whole digit run after the leftmost `Є` that is followed by a digit |
| Utils.LeadingZeroIgnored | utils.py:23 | `int()` ignores leading zeros: a digit string with a `0` in front has the same value |
| Utils.LeftmostMatchWins | utils.py:21-23 | "Є5 then Є7" reads 5: the first match wins |
| Utils.WholeDigitRunRead | utils.py:21-23 | "Є459x" reads 459: the digit run is read to its end |
| Utils.LeadingZerosRead | utils.py:21-23 | "Є007" reads 7 |
| Utils.BareSignSkipped | utils.py:21 | "Є Є12" reads 12: a sign with no digit after it does not end the search |
| Utils.FormatStatus | utils.py:26-38 | the active account is shown as playing whatever its cooldown; any other account is ready exactly when its cooldown has passed and resting exactly when it has not |
| Utils.StatusIconInjective | utils.py:31-38 | the three statuses are shown with three different icons |
| Utils.GetUptime | utils.py:9-16 | days·86400 + hours·3600 + minutes·60 + seconds equals the elapsed time, with hours < 24, minutes < 60 and seconds < 60 |
| Utils.UptimeUnique | utils.py:12-15 | the split is the only one within those bounds |
| Worker.IsStopReply | worker.py:37-41 | the stop test: the reply contains "Remaining Slot Usage: 0", "You have used 12 slots" or "play again in" |
| Worker.StopReplySpec | worker.py:37-41 | the stop test holds exactly when one of the three markers occurs at some position of the reply |
| Worker.ClassifyAll | worker.py:30-41 | each reply's reward is the `parse_extols` value of its text, and it ends the turn exactly when one of the three markers occurs in it |
| Worker.RunTurn | worker.py:24-58 | the turn reads replies up to and including the first stop reply; the reward is the sum over exactly the replies read; a turn with no stop reply reads everything and fails; it pauses 4 s after each non-stop reply, plus 5 s after a failure |
| Worker.EndsAtFirstStop | worker.py:33-43 | over classified replies: the turn ends on a reply exactly when it is the first stop reply, and the reward is the sum up to and including it |
| Worker.TurnEndsAtFirstStopReply | worker.py:33-43 | a reply ends the turn if and only if it contains "Remaining Slot Usage: 0", "You have used 12 slots" or "play again in" and no earlier reply did; the reward on that reply is still counted |
| Worker.TurnWithoutStopReplyFails | worker.py:25-58 | without any stop reply the turn fails, and every reward read stays added |
| Worker.PlayUserTurn | worker.py:11-58 | the turn changes nothing for an id without a client or still cooling down; otherwise it adds the rewards read, sets the cooldown to now + 43800 (in the future) after a stop reply, keeps it on failure, and touches no other account, the queue or the flags |
| Worker.TurnEligibilityAfter | worker.py:51-58 | after a turn has started, the account is still eligible at the same moment exactly when the turn failed |
| Worker.TurnLocal | worker.py:15-52 | a turn's effect on an account depends only on that account's own record and client |
| Worker.EligibleIds | worker.py:80-82 | the ids of the queue whose cooldown has passed, in queue order |
| Worker.PlayQueue | worker.py:77-92 | one pass changes no registry, queue or running flag; accounts it does not play stay untouched; if it plays nobody, every queued account was still cooling down and the state is unchanged; after any turn the active marker is cleared |
| Worker.PlayQueueServesEligible | worker.py:80-92 | on a duplicate-free queue the pass plays exactly the accounts whose cooldown had passed, in queue order, each one as its own turn |
| Worker.Earliest | worker.py:97-98 | `min` of the wake-up times: an element of the list no greater than any other |
| Worker.WakeTimes | worker.py:97 | the cooldown ends of the queued ids, in queue order |
| Worker.SleepDuration | worker.py:94-108 | every sleep lasts at least 5 s, so the loop never busy-waits |
| Worker.SleepOutlastsEarliestCooldown | worker.py:95-105 | after a cycle that played nobody, the sleep ends after the earliest cooldown end, so some queued account is eligible at the next cycle |
| Worker.RunCycle | worker.py:70-108 | a cycle exits, clearing the running flag, exactly when the queue is empty; otherwise it sleeps at least 5 s and keeps the registry, queue and flag |
| Worker.CycleSleep | worker.py:94-108 | a cycle that played somebody sleeps 5 s; one that played nobody sleeps until 5 s after the earliest cooldown end, which lies in the future because one `now` serves the cycle |
| Worker.CycleSkipsRestingAccount | worker.py:80-92 | with queue [A, B], A ready and B resting for 1000 s, a cycle plays A only and leaves B's record as it was |
| Worker.StartRelayRace | worker.py:64-66 | a start while the loop runs changes nothing; otherwise it sets the running flag and nothing else |
| Worker.SupervisorStep | worker.py:64-75 | a loop that was never started does nothing; a running loop stops exactly when it sees an empty queue |
| Worker.SupervisorStepPreservesValid | worker.py:70-92 | a supervisor cycle keeps the registry and queue invariant |
| Handlers.Register | main.py:95-101 | the client is stored and the record becomes {reward 0, cooldown 0, name}, replacing any earlier one; no other account, the queue or the flags change |
| Handlers.LoginCmd | main.py:77-108 | an authorised session registers the sender; a rejected one changes nothing; the queue is untouched |
| Handlers.LoginResetsCooldown | main.py:97-101 | after a login the account has reward 0 and is eligible at once |
| Handlers.LastImport | main.py:308-317 | the last connected session reporting an id, and none exactly when no session reported it |
| Handlers.ImportSessions | main.py:304-321 | every session that connects is registered with reward 0 and cooldown 0; for each imported id the client and name stored are those of the last session reporting it; accounts not imported keep their clients and records; the queue is untouched; the reported count is the number of sessions that connected |
| Handlers.LogoutCmd | main.py:110-120 | a registered sender is removed from the clients, the records and the queue, and the other queue entries keep their order; an unregistered sender changes nothing |
| Handlers.SlotCmd | main.py:124-136 | an unregistered sender changes nothing; a registered, unqueued one is appended at the end and the loop is started; a queued one changes nothing |
| Handlers.SlotIdempotent | main.py:130-136 | a second `/slot` by the same sender leaves the state as the first left it, and the queue grows by at most one |
| Handlers.AppendMissing | main.py:140-144 | the old queue stays a prefix; the result holds exactly the old entries and the given ids; the count is the number appended; no duplicate is introduced |
| Handlers.AllSlotCmd | main.py:138-147 | the old queue stays a prefix of the new one; every registered id ends up queued, and only registered ids are added; the count equals the number of ids appended; no duplicates are introduced; the loop is started |
| Handlers.AllSlotIdempotent | main.py:141-144 | a second `/allslot` appends nobody and leaves the state unchanged |
| Handlers.SelectTargets | main.py:217-224 | "all" selects every registered client once; an id selects that client when it is registered and nobody otherwise |
| Handlers.FilterOut | main.py:231-245 | the sends that did not fail, never more than the sends, each appearing once when the selection has no duplicates, so its length is the number of accounts triggered |
| Handlers.SelfReplyCmd | main.py:200-247 | a command that is not a reply is refused; an empty selection gives the error reply and no sends; otherwise the sends are one `/give` per selected account, in selection order, with the given group, reply target and amount, and the count is the number of sends that did not fail |
| Handlers.LoginPreservesValid | main.py:96-101 | a login keeps the queue duplicate-free and registered, and the records in step with the registry |
| Handlers.ImportPreservesValid | main.py:315-316 | an import keeps the invariant |
| Handlers.LogoutPreservesValid | main.py:113-117 | a logout keeps the invariant, and the logged-out id is no longer queued |
| Handlers.SlotPreservesValid | main.py:127-131 | `/slot` keeps the invariant |
| Handlers.AllSlotPreservesValid | main.py:141-143 | `/allslot` keeps the invariant |
| Handlers.Dispatch | main.py:124-147 | only a cycle that sees an empty queue clears the running flag; only `/slot` and `/allslot` set it; commands never change the active marker |
| Database.InitialValid | database.py:4-19 | the invariant holds for the empty state the bot starts with |
| Handlers.DispatchPreservesValid | database.py:4-19 | every command and every supervisor cycle keeps the invariant over the shared state |

## Left out

- Telethon I/O is not modelled: conversations, sending and receiving, connecting and disconnecting, and the text of every reply message. Command results are datatypes, such as `SlotReply` and `TransferReply`.
- The session layer is a parameter. A login is `Authorized(client, name)` or `Rejected`. `Rejected` covers an unauthorised session and any connection error.
- An import is a list of per-session outcomes. Reading the JSON file, and failing to read it, are not modelled.
- `get_balance_for_user` and `/check` are left out: network audits run in parallel with `asyncio.gather`. The balance regex they use is `ParseExtols`.
- `/start`, `/help` and the text of `/stats` are left out. `/stats` only renders `FormatStatus` and `GetUptime`, which are modelled.
- The uptime string `"{d}d {h}h {m}m {s}s"` is not rendered.
- Log handling (`read_last_logs`, `clear_logs`, the log buttons) and session export (`get_all_sessions`, which calls the client library's `session.save()`) are file and foreign-library operations, so they are left out.
- A failed `disconnect()` in `/logout` is not modelled (main.py:114). In the bot, an exception there leaves the account registered and queued; the model always removes it.
- Concurrency is not modelled. Each command and each supervisor cycle is one atomic step. Handlers that change the queue while the loop walks it are not modelled.
- The background coroutine that `/slot` and `/allslot` spawn starts the loop right after the command. Its test-and-set of `is_running` has no suspension point inside it.
- Time is an integer, not a float. One `now` serves a whole cycle, so time does not advance during the turns of one cycle. Three behaviours of the bot follow from its clock moving and are not modelled:
  - The bot reads the clock again for every queued id (worker.py:82). An account whose cooldown ends during an earlier turn of the same cycle is played in that cycle; the model plays it in the next one.
  - The bot falls back to a 10 s sleep when the earliest wake time passes between the eligibility checks and the sleep computation (worker.py:99-105). In the model that moment always lies in the future, so a cycle never takes that branch.
  - The bot reads the clock again after a turn's last reply to set the cooldown (worker.py:52), so the 43800 s count from the end of the turn, after its anti-flood pauses and reply waits, and a turn played later in a cycle gets a later cooldown end. The model counts from the cycle's `now`, so every account that stops in one cycle gets the same cooldown end.
- The `int()` truncation of the elapsed uptime is not modelled.
- Sleeps are returned as durations (`TurnRun.paused`, `Cycle.duration`); nothing is actually slept.
- A game bot that never sends a stop reply would keep a turn going forever in the bot. In the model, the finite reply list always ends, and running out of replies is the failure path.
- The watchdog is left out: nothing in the code uses its two declared variables.
- The `from_users=[OWNER_ID]` filters and the command-pattern matching are left out. `/self_reply`'s target, group and amount arrive already parsed.
- `\d` is read as the ASCII digits `0`–`9` only.
- A queued id without a stats record would raise `KeyError` in the bot. The model excludes this with the preconditions `AllKnown` and `Admissible`, which the invariant `Valid` guarantees.
- The registry map does not keep Python's dict iteration order. `/allslot` and `/self_reply all` take that order as a parameter (`order`), which must list every registered id exactly once.
- Handlers.AllSlotCmd: states which ids are appended and that each is appended once. It does not state the order among the appended ids, which follow `order`.
- Handlers.SelectTargets: for "all", states that every registered client is selected exactly once. It does not state that the selection follows `order`.
