/** The state effects of the manager bot's command handlers, with the
    Telegram conversation stripped away: registering and removing accounts,
    joining the relay-race queue, and choosing the accounts of a transfer.
    `Dispatch` applies one event, command or supervisor cycle, and the
    registry and queue invariant holds across every event.
 */
module Handlers {
  import opened Common
  import opened Database
  import Worker

  /** What the session layer reports for a `/login` attempt: a connected,
      authorised client and its first name, or a rejected session (revoked,
      invalid, or any connection error). */
  datatype Login = Authorized(client: Client, name: string) | Rejected

  /** Stores a client under `uid` with a fresh stats record. */
  function Register(s: State, uid: UserId, client: Client, name: string): (r: State)
    ensures uid in r.clients && r.clients[uid] == client
    ensures uid in r.userData && r.userData[uid] == UserRecord(0, 0, name)
    ensures forall x :: x != uid ==> (x in r.clients <==> x in s.clients) && (x in r.userData <==> x in s.userData)
    ensures forall x :: x != uid && x in s.clients ==> r.clients[x] == s.clients[x]
    ensures forall x :: x != uid && x in s.userData ==> r.userData[x] == s.userData[x]
    ensures r.(clients := s.clients, userData := s.userData) == s
  {
    s.(clients := s.clients[uid := client], userData := s.userData[uid := UserRecord(0, 0, name)])
  }

  /** `/login`: an authorised session registers the sender with zero reward
      and no cooldown, replacing any earlier record; a rejected one changes
      nothing. The queue is never touched. */
  function LoginCmd(s: State, sender: UserId, login: Login): (r: State)
    ensures login.Rejected? ==> r == s
    ensures login.Authorized? ==> r == Register(s, sender, login.client, login.name)
    ensures r.queue == s.queue
  {
    match login
    case Authorized(client, name) => Register(s, sender, client, name)
    case Rejected => s
  }

  /** A registered account can play at once, whatever its earlier cooldown. */
  lemma LoginResetsCooldown(s: State, sender: UserId, client: Client, name: string, now: int)
    requires now >= 0
    ensures Eligible(LoginCmd(s, sender, Authorized(client, name)).userData[sender], now)
    ensures LoginCmd(s, sender, Authorized(client, name)).userData[sender].extols == 0
  {
  }

  /** One session of an imported backup: connected (under the id the session
      itself reports) or failed. */
  datatype ImportEntry = Imported(uid: UserId, client: Client, name: string) | ImportFailed

  datatype ImportResult = ImportResult(state: State, loaded: nat)

  /** The ids of the sessions that connected. */
  ghost function ImportedIds(entries: seq<ImportEntry>): set<UserId> {
    set i | 0 <= i < |entries| && entries[i].Imported? :: entries[i].uid
  }

  /** The entry `e` is a connected session reporting the id `x`. */
  predicate ImportsAs(e: ImportEntry, x: UserId) {
    e.Imported? && e.uid == x
  }

  /** The last connected session reporting the id `x`: the one whose client
      and name stay stored, since each later one overwrites the earlier. */
  function LastImport(entries: seq<ImportEntry>, x: UserId): (r: Option<ImportEntry>)
    ensures r.None? <==> x !in ImportedIds(entries)
    ensures r.None? ==> forall i :: 0 <= i < |entries| ==> !ImportsAs(entries[i], x)
    ensures r.Some? ==> exists i :: (0 <= i < |entries| && entries[i] == r.value && ImportsAs(r.value, x) &&
      forall j :: i < j < |entries| ==> !ImportsAs(entries[j], x))
    decreases |entries|
  {
    if |entries| == 0 then None
    else
      var tail := entries[1..];
      var later := LastImport(tail, x);
      assert forall i :: 0 < i < |entries| ==> entries[i] == tail[i - 1];
      if later.Some? then later
      else if ImportsAs(entries[0], x) then Some(entries[0])
      else None
  }

  /** The ids of a non-empty import: the head's, if it connected, and the tail's. */
  lemma ImportedIdsCons(entries: seq<ImportEntry>)
    requires |entries| > 0
    ensures ImportedIds(entries) == (if entries[0].Imported? then {entries[0].uid} else {}) + ImportedIds(entries[1..])
  {
    var tail := entries[1..];
    forall x | x in ImportedIds(entries)
      ensures x in (if entries[0].Imported? then {entries[0].uid} else {}) + ImportedIds(tail)
    {
      var i :| 0 <= i < |entries| && entries[i].Imported? && entries[i].uid == x;
      if i > 0 {
        assert tail[i - 1] == entries[i];
      }
    }
    forall x | x in ImportedIds(tail)
      ensures x in ImportedIds(entries)
    {
      var i :| 0 <= i < |tail| && tail[i].Imported? && tail[i].uid == x;
      assert entries[i + 1] == tail[i];
    }
  }

  /** `/sessionimport`: every session that connects is registered like a
      login; the reply counts them. */
  function ImportSessions(s: State, entries: seq<ImportEntry>): (r: ImportResult)
    ensures r.loaded <= |entries|
    ensures r.loaded == |Erase(entries, ImportFailed)|
    ensures r.state.queue == s.queue && r.state.isRunning == s.isRunning
    ensures r.state.currentActive == s.currentActive
    ensures r.state.clients.Keys == s.clients.Keys + ImportedIds(entries)
    ensures r.state.userData.Keys == s.userData.Keys + ImportedIds(entries)
    ensures forall x :: x in ImportedIds(entries) ==>
      r.state.userData[x].extols == 0 && r.state.userData[x].nextPlayTime == 0
    ensures forall x :: x in ImportedIds(entries) ==> (LastImport(entries, x).Some? &&
      r.state.clients[x] == LastImport(entries, x).value.client &&
      r.state.userData[x] == UserRecord(0, 0, LastImport(entries, x).value.name))
    ensures forall x :: x in s.userData && x !in ImportedIds(entries) ==> r.state.userData[x] == s.userData[x]
    ensures forall x :: x in s.clients && x !in ImportedIds(entries) ==> r.state.clients[x] == s.clients[x]
    decreases |entries|
  {
    if |entries| == 0 then ImportResult(s, 0)
    else
      var tail := entries[1..];
      ImportedIdsCons(entries);
      match entries[0]
      case Imported(uid, client, name) =>
        var rest := ImportSessions(Register(s, uid, client, name), tail);
        ImportResult(rest.state, rest.loaded + 1)
      case ImportFailed =>
        ImportSessions(s, tail)
  }

  datatype LogoutReply = LoggedOut | NotLoggedIn
  datatype LogoutResult = LogoutResult(state: State, reply: LogoutReply)

  /** `/logout`: a registered sender loses its client, its record and its
      queue entry; everyone else keeps their place in the queue. An
      unregistered sender changes nothing. */
  function LogoutCmd(s: State, sender: UserId): (r: LogoutResult)
    ensures sender !in s.clients ==> r.state == s && r.reply == NotLoggedIn
    ensures sender in s.clients ==>
      && r.reply == LoggedOut
      && r.state.clients == s.clients - {sender}
      && r.state.userData == s.userData - {sender}
      && r.state.isRunning == s.isRunning && r.state.currentActive == s.currentActive
    ensures sender in s.clients && NoDuplicates(s.queue) ==> r.state.queue == Erase(s.queue, sender)
  {
    if sender in s.clients then
      var queue := RemoveIfPresent(s.queue, sender);
      LogoutResult(s.(clients := s.clients - {sender}, userData := s.userData - {sender}, queue := queue), LoggedOut)
    else LogoutResult(s, NotLoggedIn)
  }

  datatype SlotReply = LoginFirst | Added | AlreadyQueued
  datatype SlotResult = SlotResult(state: State, reply: SlotReply)

  /** `/slot`: a registered sender not yet queued joins at the end and the
      relay race is started; a queued sender, or an unregistered one, leaves
      the state as it was. */
  function SlotCmd(s: State, sender: UserId): (r: SlotResult)
    ensures sender !in s.clients ==> r.state == s && r.reply == LoginFirst
    ensures sender in s.clients && sender !in s.queue ==>
      r.reply == Added && r.state.queue == s.queue + [sender] && r.state.isRunning
    ensures sender in s.clients && sender in s.queue ==> r.state == s && r.reply == AlreadyQueued
    ensures r.state.(queue := s.queue, isRunning := s.isRunning) == s
  {
    if sender !in s.clients then SlotResult(s, LoginFirst)
    else if sender !in s.queue then
      SlotResult(Worker.StartRelayRace(s.(queue := s.queue + [sender])), Added)
    else SlotResult(s, AlreadyQueued)
  }

  /** A second `/slot` by the same sender changes nothing. */
  lemma SlotIdempotent(s: State, sender: UserId)
    ensures SlotCmd(SlotCmd(s, sender).state, sender).state == SlotCmd(s, sender).state
    ensures |SlotCmd(s, sender).state.queue| <= |s.queue| + 1
  {
  }

  datatype Appended = Appended(queue: seq<UserId>, count: nat)

  /** Appends, in order, each id of `ids` not yet in the growing queue, and
      counts the appended ones. */
  function AppendMissing(q: seq<UserId>, ids: seq<UserId>): (r: Appended)
    ensures q <= r.queue
    ensures forall x :: x in r.queue <==> x in q || x in ids
    ensures r.count == |r.queue| - |q|
    ensures NoDuplicates(q) ==> NoDuplicates(r.queue)
    decreases |ids|
  {
    if |ids| == 0 then Appended(q, 0)
    else if ids[0] !in q then
      var rest := AppendMissing(q + [ids[0]], ids[1..]);
      Appended(rest.queue, rest.count + 1)
    else AppendMissing(q, ids[1..])
  }

  datatype AllSlotResult = AllSlotResult(state: State, added: nat)

  /** `/allslot`: every registered account not yet queued is appended, in the
      registry's order; the reply counts them and the relay race is started.
      `order` is the iteration order of the registry. */
  function AllSlotCmd(s: State, order: seq<UserId>): (r: AllSlotResult)
    requires IsEnumeration(order, s.clients.Keys)
    ensures s.queue <= r.state.queue
    ensures forall x :: x in s.clients ==> x in r.state.queue
    ensures forall x :: x in r.state.queue ==> x in s.queue || x in s.clients
    ensures r.added == |r.state.queue| - |s.queue|
    ensures NoDuplicates(s.queue) ==> NoDuplicates(r.state.queue)
    ensures r.state.isRunning
    ensures r.state.(queue := s.queue, isRunning := s.isRunning) == s
  {
    var a := AppendMissing(s.queue, order);
    AllSlotResult(Worker.StartRelayRace(s.(queue := a.queue)), a.count)
  }

  /** A second `/allslot` appends nobody. */
  lemma AllSlotIdempotent(s: State, order: seq<UserId>)
    requires IsEnumeration(order, s.clients.Keys)
    ensures AllSlotCmd(AllSlotCmd(s, order).state, order).added == 0
    ensures AllSlotCmd(AllSlotCmd(s, order).state, order).state == AllSlotCmd(s, order).state
  {
    var t := AllSlotCmd(s, order).state;
    NothingMissing(t.queue, order);
  }

  /** Appending ids that are all queued already leaves the queue as it is. */
  lemma {:induction false} NothingMissing(q: seq<UserId>, ids: seq<UserId>)
    requires forall i :: 0 <= i < |ids| ==> ids[i] in q
    ensures AppendMissing(q, ids) == Appended(q, 0)
    decreases |ids|
  {
    if |ids| > 0 {
      NothingMissing(q, ids[1..]);
    }
  }

  /** Who a transfer is sent from: every account, or one account by id. */
  datatype Target = Everyone | Account(uid: UserId)

  /** The client selection of `/self_reply`: "all" picks every registered
      client, an id picks that client when it is registered and nobody
      otherwise. `order` is the iteration order of the registry. */
  function SelectTargets(clients: map<UserId, Client>, order: seq<UserId>, target: Target): (r: seq<UserId>)
    requires IsEnumeration(order, clients.Keys)
    ensures NoDuplicates(r)
    ensures forall x :: x in r ==> x in clients
    ensures target.Everyone? ==> forall x :: x in clients ==> x in r
    ensures target.Account? ==> forall x :: x in r <==> x == target.uid && x in clients
  {
    match target
    case Everyone => order
    case Account(uid) => if uid in clients then [uid] else []
  }

  /** One `/give` message sent by account `sender` into `group`, replying to
      message `replyTo`. */
  datatype Give = Give(sender: UserId, group: int, replyTo: int, amount: nat)

  datatype TransferReply =
    | NotAReply
    | NoMatchingClients
    | Executed(sends: seq<Give>, triggered: nat)

  /** The sends of a transfer from `senders`, in order. */
  function Gives(senders: seq<UserId>, group: int, replyTo: int, amount: nat): (gs: seq<Give>)
    ensures |gs| == |senders|
    ensures forall i :: 0 <= i < |senders| ==> gs[i] == Give(senders[i], group, replyTo, amount)
  {
    seq(|senders|, i requires 0 <= i < |senders| => Give(senders[i], group, replyTo, amount))
  }

  /** `/self_reply`: a command that is not a reply is refused; an empty
      selection is refused with no send; otherwise each selected account sends
      one `/give`, and the reply counts the sends that did not fail. */
  function SelfReplyCmd(clients: map<UserId, Client>, order: seq<UserId>, isReply: bool, target: Target,
                        group: int, amount: nat, replyTo: int, failed: set<UserId>): (r: TransferReply)
    requires IsEnumeration(order, clients.Keys)
    ensures r.NotAReply? <==> !isReply
    ensures r.NoMatchingClients? <==> isReply && |SelectTargets(clients, order, target)| == 0
    ensures r.Executed? ==>
      && r.sends == Gives(SelectTargets(clients, order, target), group, replyTo, amount)
      && |r.sends| > 0
      && r.triggered == |FilterOut(SelectTargets(clients, order, target), failed)|
      && r.triggered <= |r.sends|
  {
    if !isReply then NotAReply
    else
      var senders := SelectTargets(clients, order, target);
      if |senders| == 0 then NoMatchingClients
      else Executed(Gives(senders, group, replyTo, amount), |FilterOut(senders, failed)|)
  }

  /** `senders` without those in `failed`, in order. */
  function FilterOut(senders: seq<UserId>, failed: set<UserId>): (r: seq<UserId>)
    ensures |r| <= |senders|
    ensures forall x :: x in r <==> x in senders && x !in failed
    ensures NoDuplicates(senders) ==> NoDuplicates(r)
  {
    if |senders| == 0 then []
    else if senders[0] in failed then FilterOut(senders[1..], failed)
    else [senders[0]] + FilterOut(senders[1..], failed)
  }

  /** A login keeps the registry and queue invariant. */
  lemma LoginPreservesValid(s: State, sender: UserId, login: Login)
    requires Valid(s)
    ensures Valid(LoginCmd(s, sender, login))
  {
  }

  /** An import keeps the registry and queue invariant. */
  lemma ImportPreservesValid(s: State, entries: seq<ImportEntry>)
    requires Valid(s)
    ensures Valid(ImportSessions(s, entries).state)
  {
  }

  /** A logout keeps the invariant: the queue loses exactly the id the
      registry loses. */
  lemma LogoutPreservesValid(s: State, sender: UserId)
    requires Valid(s)
    ensures Valid(LogoutCmd(s, sender).state)
    ensures sender !in LogoutCmd(s, sender).state.queue
  {
    var r := LogoutCmd(s, sender).state;
    if sender in s.clients {
      forall i | 0 <= i < |r.queue|
        ensures r.queue[i] in r.clients
      {
        assert r.queue[i] in Erase(s.queue, sender);
      }
    }
  }

  /** `/slot` keeps the invariant: only a registered, unqueued id is appended. */
  lemma SlotPreservesValid(s: State, sender: UserId)
    requires Valid(s)
    ensures Valid(SlotCmd(s, sender).state)
  {
  }

  /** `/allslot` keeps the invariant: it appends registered ids, each once. */
  lemma AllSlotPreservesValid(s: State, order: seq<UserId>)
    requires Valid(s)
    requires IsEnumeration(order, s.clients.Keys)
    ensures Valid(AllSlotCmd(s, order).state)
  {
    var r := AllSlotCmd(s, order).state;
    forall i | 0 <= i < |r.queue|
      ensures r.queue[i] in r.clients
    {
      assert r.queue[i] in s.queue || r.queue[i] in s.clients;
    }
  }

  /** One thing that can happen to the bot: a command, or a cycle of the
      supervisor loop at time `now` with the replies the game bot gives. */
  datatype Event =
    | LoginEvent(sender: UserId, login: Login)
    | ImportEvent(entries: seq<ImportEntry>)
    | LogoutEvent(sender: UserId)
    | SlotEvent(sender: UserId)
    | AllSlotEvent(order: seq<UserId>)
    | CycleEvent(now: int, feed: map<UserId, seq<string>>)

  /** The event can be applied: `/allslot` iterates the registry, and a cycle
      reads the record of every queued id. */
  ghost predicate Admissible(s: State, e: Event) {
    && (e.AllSlotEvent? ==> IsEnumeration(e.order, s.clients.Keys))
    && (e.CycleEvent? ==> AllKnown(s.queue, s.userData))
  }

  /** Applies one event, each command and each cycle as one atomic step. Only
      the supervisor loop clears the running flag, and only when it finds the
      queue empty; only the two queueing commands set it. */
  function Dispatch(s: State, e: Event): (r: State)
    requires Admissible(s, e)
    ensures s.isRunning && !r.isRunning ==> e.CycleEvent? && |s.queue| == 0
    ensures !s.isRunning && r.isRunning ==> e.SlotEvent? || e.AllSlotEvent?
    ensures !e.CycleEvent? ==> r.currentActive == s.currentActive
  {
    match e
    case LoginEvent(sender, login) => LoginCmd(s, sender, login)
    case ImportEvent(entries) => ImportSessions(s, entries).state
    case LogoutEvent(sender) => LogoutCmd(s, sender).state
    case SlotEvent(sender) => SlotCmd(s, sender).state
    case AllSlotEvent(order) => AllSlotCmd(s, order).state
    case CycleEvent(now, feed) => Worker.SupervisorStep(s, now, feed)
  }

  /** Every event keeps the invariant: the queue has no duplicates, every
      queued id is registered, and every registered id has one record. */
  lemma DispatchPreservesValid(s: State, e: Event)
    requires Valid(s)
    requires e.AllSlotEvent? ==> IsEnumeration(e.order, s.clients.Keys)
    ensures Admissible(s, e)
    ensures Valid(Dispatch(s, e))
  {
    match e
    case LoginEvent(sender, login) => LoginPreservesValid(s, sender, login);
    case ImportEvent(entries) => ImportPreservesValid(s, entries);
    case LogoutEvent(sender) => LogoutPreservesValid(s, sender);
    case SlotEvent(sender) => SlotPreservesValid(s, sender);
    case AllSlotEvent(order) => AllSlotPreservesValid(s, order);
    case CycleEvent(now, feed) => Worker.SupervisorStepPreservesValid(s, now, feed);
  }
}
