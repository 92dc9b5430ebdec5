/** The bot's process-wide state: the registry of connected accounts, their
    stats and cooldown timers, the relay-race queue and the supervisor flags.
    Timestamps are whole seconds.
 */
module Database {
  import opened Common

  /** A Telegram user id. */
  type UserId = int

  /** The connected client of one account; only its session string is kept. */
  datatype Client = Client(session: string)

  /** Per-account stats: accumulated reward, the moment the cooldown ends, and
      the display name. */
  datatype UserRecord = UserRecord(extols: int, nextPlayTime: int, name: string)

  datatype State = State(
    clients: map<UserId, Client>,
    userData: map<UserId, UserRecord>,
    queue: seq<UserId>,
    isRunning: bool,
    currentActive: Option<UserId>)

  /** The state at process start: nothing registered, nothing queued, idle. */
  const Initial: State := State(map[], map[], [], false, None)

  /** The record's cooldown has passed at `now`. */
  predicate Eligible(u: UserRecord, now: int) {
    now >= u.nextPlayTime
  }

  /** Every id of `ids` has a stats record (so reading it cannot fail). */
  predicate AllKnown(ids: seq<UserId>, data: map<UserId, UserRecord>) {
    forall i :: 0 <= i < |ids| ==> ids[i] in data
  }

  /** The queue holds no id twice and only registered ids. */
  predicate QueueInvariant(s: State) {
    && NoDuplicates(s.queue)
    && (forall i :: 0 <= i < |s.queue| ==> s.queue[i] in s.clients)
  }

  /** The queue invariant, and every registered account has exactly one stats
      record. */
  predicate Valid(s: State) {
    QueueInvariant(s) && s.clients.Keys == s.userData.Keys
  }

  /** The invariant holds at process start. */
  lemma InitialValid()
    ensures Valid(Initial)
  {
  }
}
