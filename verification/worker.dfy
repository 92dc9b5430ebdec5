/** The relay race: one account's turn against the game bot, and the
    supervisor that walks the queue cycle after cycle.

    A turn reads a finite list of replies. Each reply's reward is added before
    the stop test; a reply carrying one of the three limit markers ends the
    turn and starts the 43800 s cooldown. Running out of replies stands for the
    conversation failing (a timeout or a lost connection): the rewards read so
    far stay added and the cooldown is left as it was.
 */
module Worker {
  import opened Common
  import opened Database
  import Utils

  /** Cooldown after a finished turn: 12 hours and 10 minutes. */
  const SlotCooldown: int := 43800
  /** Pause between two `/slot` requests of one turn. */
  const AntiFloodDelay: nat := 4
  /** Pause after a turn that failed. */
  const ErrorDelay: nat := 5
  /** Pause after a cycle that played somebody, and the margin added to a
      computed wake-up. */
  const TurnGap: nat := 5
  /** Pause when nobody was played but the earliest cooldown has already passed. */
  const RetryDelay: nat := 10

  const DailyLimitMarker: string := "Remaining Slot Usage: 0"
  const SlotsUsedMarker: string := "You have used 12 slots"
  const PlayAgainMarker: string := "play again in"

  /** A reply that ends the turn: the daily slot limit, or the global
      twelve-slot limit in either of its two phrasings. */
  predicate IsStopReply(text: string) {
    Contains(text, DailyLimitMarker) || Contains(text, SlotsUsedMarker) || Contains(text, PlayAgainMarker)
  }

  /** The stop test holds exactly when one of the three markers occurs in the reply. */
  lemma StopReplySpec(text: string)
    ensures IsStopReply(text) <==>
      Occurs(text, DailyLimitMarker) || Occurs(text, SlotsUsedMarker) || Occurs(text, PlayAgainMarker)
  {
    ContainsSpec(text, DailyLimitMarker);
    ContainsSpec(text, SlotsUsedMarker);
    ContainsSpec(text, PlayAgainMarker);
  }

  /** What the turn takes from one reply: its reward and whether it ends the turn. */
  datatype Reply = Reply(reward: nat, stops: bool)

  function Classify(text: string): Reply {
    Reply(Utils.ParseExtols(text), IsStopReply(text))
  }

  function ClassifyAll(texts: seq<string>): (rs: seq<Reply>)
    ensures |rs| == |texts|
    ensures forall i :: 0 <= i < |texts| ==> rs[i].reward == Utils.ParseExtols(texts[i])
    ensures forall i :: 0 <= i < |texts| ==> (rs[i].stops <==>
      Occurs(texts[i], DailyLimitMarker) || Occurs(texts[i], SlotsUsedMarker) || Occurs(texts[i], PlayAgainMarker))
  {
    assert forall i :: 0 <= i < |texts| ==> (IsStopReply(texts[i]) <==>
      Occurs(texts[i], DailyLimitMarker) || Occurs(texts[i], SlotsUsedMarker) || Occurs(texts[i], PlayAgainMarker)) by {
      forall i | 0 <= i < |texts| {
        StopReplySpec(texts[i]);
      }
    }
    seq(|texts|, i requires 0 <= i < |texts| => Classify(texts[i]))
  }

  /** Total reward of a list of replies. */
  function SumRewards(rs: seq<Reply>): nat {
    if |rs| == 0 then 0 else rs[0].reward + SumRewards(rs[1..])
  }

  lemma {:induction false} SumRewardsAppend(xs: seq<Reply>, y: Reply)
    ensures SumRewards(xs + [y]) == SumRewards(xs) + y.reward
  {
    if |xs| > 0 {
      assert (xs + [y])[1..] == xs[1..] + [y];
      SumRewardsAppend(xs[1..], y);
    }
  }

  /** What one turn did with its replies: the reward won, how many replies it
      read, whether it ended on a stop reply (rather than failing), and how
      long it paused in all. */
  datatype TurnRun = TurnRun(won: nat, consumed: nat, stopped: bool, paused: nat)

  /** The `while True` loop of a turn over the replies the game bot gives:
      the reward is added before the stop test, a stop reply ends the turn,
      any other reply is followed by the anti-flood pause and another request,
      and running out of replies is the failure path. */
  function RunTurn(rs: seq<Reply>): (r: TurnRun)
    ensures r.consumed <= |rs| && r.won == SumRewards(rs[..r.consumed])
    ensures forall j :: 0 <= j < |rs| && j + 1 < r.consumed ==> !rs[j].stops
    ensures r.stopped <==> 0 < r.consumed <= |rs| && rs[r.consumed - 1].stops
    ensures !r.stopped ==> r.consumed == |rs|
    ensures r.stopped ==> r.paused == AntiFloodDelay * (r.consumed - 1)
    ensures !r.stopped ==> r.paused == AntiFloodDelay * r.consumed + ErrorDelay
  {
    if |rs| == 0 then TurnRun(0, 0, false, ErrorDelay)
    else if rs[0].stops then
      assert rs[..1][1..] == [];
      TurnRun(rs[0].reward, 1, true, 0)
    else
      var rest := RunTurn(rs[1..]);
      HeadAndPrefix(rs, rest.consumed);
      TurnRun(rs[0].reward + rest.won, rest.consumed + 1, rest.stopped, AntiFloodDelay + rest.paused)
  }

  /** On classified replies: the turn ends on reply `k` exactly when it is the
      first stop reply, and its reward is counted. */
  lemma {:induction false} EndsAtFirstStop(rs: seq<Reply>, k: nat)
    requires k < |rs|
    requires forall j :: 0 <= j < k ==> !rs[j].stops
    ensures (RunTurn(rs).stopped && RunTurn(rs).consumed == k + 1) <==> rs[k].stops
    ensures rs[k].stops ==> RunTurn(rs).won == SumRewards(rs[..k]) + rs[k].reward
  {
    if rs[k].stops {
      assert rs[..k + 1] == rs[..k] + [rs[k]];
      SumRewardsAppend(rs[..k], rs[k]);
    }
  }

  /** A reply ends the turn exactly when it is the first reply containing one
      of the three stop markers, and the reward printed on that reply is still
      counted. */
  lemma TurnEndsAtFirstStopReply(texts: seq<string>, k: nat)
    requires k < |texts|
    requires forall j :: 0 <= j < k ==> !IsStopReply(texts[j])
    ensures var r := RunTurn(ClassifyAll(texts));
      (r.stopped && r.consumed == k + 1) <==> IsStopReply(texts[k])
    ensures var r := RunTurn(ClassifyAll(texts));
      IsStopReply(texts[k]) ==> r.won == SumRewards(ClassifyAll(texts)[..k]) + Utils.ParseExtols(texts[k])
  {
    var rs := ClassifyAll(texts);
    assert forall j :: 0 <= j < |rs| ==> rs[j] == Classify(texts[j]);
    EndsAtFirstStop(rs, k);
  }

  /** With no stop reply the turn reads everything, keeps every reward and fails. */
  lemma TurnWithoutStopReplyFails(texts: seq<string>)
    requires forall j :: 0 <= j < |texts| ==> !IsStopReply(texts[j])
    ensures !RunTurn(ClassifyAll(texts)).stopped
    ensures RunTurn(ClassifyAll(texts)).won == SumRewards(ClassifyAll(texts))
  {
    var rs := ClassifyAll(texts);
    assert rs[..|rs|] == rs;
  }

  /** The turn may start: the id has a client and its cooldown has passed. */
  predicate TurnStarts(s: State, id: UserId, now: int)
    requires id in s.clients ==> id in s.userData
  {
    id in s.clients && Eligible(s.userData[id], now)
  }

  /** `play_user_turn`: the reward of every reply read is added to the
      account, and a turn that ends on a stop reply sets the cooldown.
      `now` is the time the cycle started, not the moment the turn ends:
      the bot reads the clock again after the last reply, so its cooldown
      counts from the end of the turn, while here it counts from `now`. */
  function PlayUserTurn(s: State, id: UserId, now: int, replies: seq<string>): (r: State)
    requires id in s.clients ==> id in s.userData
    ensures !TurnStarts(s, id, now) ==> r == s
    ensures r.clients == s.clients && r.queue == s.queue
    ensures r.isRunning == s.isRunning && r.currentActive == s.currentActive
    ensures r.userData.Keys == s.userData.Keys
    ensures forall x :: x in s.userData && x != id ==> r.userData[x] == s.userData[x]
    ensures TurnStarts(s, id, now) ==>
      var run := RunTurn(ClassifyAll(replies));
      && r.userData[id].name == s.userData[id].name
      && r.userData[id].extols == s.userData[id].extols + SumRewards(ClassifyAll(replies)[..run.consumed])
      && (run.stopped ==> r.userData[id].nextPlayTime == now + SlotCooldown > now)
      && (!run.stopped ==> r.userData[id].nextPlayTime == s.userData[id].nextPlayTime)
  {
    if id !in s.clients then s
    else if !Eligible(s.userData[id], now) then s
    else
      var u := s.userData[id];
      var run := RunTurn(ClassifyAll(replies));
      var next := if run.stopped then now + SlotCooldown else u.nextPlayTime;
      s.(userData := s.userData[id := u.(extols := u.extols + run.won, nextPlayTime := next)])
  }

  /** A finished turn leaves the account resting for the rest of the cycle; a
      failed turn leaves it eligible, so the next cycle plays it again. */
  lemma TurnEligibilityAfter(s: State, id: UserId, now: int, replies: seq<string>)
    requires id in s.clients ==> id in s.userData
    requires TurnStarts(s, id, now)
    ensures Eligible(PlayUserTurn(s, id, now, replies).userData[id], now) <==> !RunTurn(ClassifyAll(replies)).stopped
  {
  }

  /** A turn reads only the played account's own record. */
  lemma TurnLocal(s: State, t: State, id: UserId, now: int, replies: seq<string>)
    requires id in s.userData && id in t.userData
    requires s.userData[id] == t.userData[id]
    requires (id in s.clients) == (id in t.clients)
    ensures PlayUserTurn(s, id, now, replies).userData[id] == PlayUserTurn(t, id, now, replies).userData[id]
  {
  }

  /** The replies the game bot gives `id` this cycle; none when it is unreachable. */
  function RepliesFor(feed: map<UserId, seq<string>>, id: UserId): seq<string> {
    if id in feed then feed[id] else []
  }

  /** The ids of `ids` whose cooldown has passed, in order. */
  function EligibleIds(data: map<UserId, UserRecord>, ids: seq<UserId>, now: int): (r: seq<UserId>)
    requires AllKnown(ids, data)
    ensures forall x :: x in r <==> x in ids && Eligible(data[x], now)
  {
    if |ids| == 0 then []
    else
      var rest := EligibleIds(data, ids[1..], now);
      if Eligible(data[ids[0]], now) then [ids[0]] + rest else rest
  }

  lemma {:induction false} EligibleIdsFrame(d1: map<UserId, UserRecord>, d2: map<UserId, UserRecord>, ids: seq<UserId>, now: int)
    requires AllKnown(ids, d1) && AllKnown(ids, d2)
    requires forall i :: 0 <= i < |ids| ==> d1[ids[i]] == d2[ids[i]]
    ensures EligibleIds(d1, ids, now) == EligibleIds(d2, ids, now)
  {
    if |ids| > 0 {
      EligibleIdsFrame(d1, d2, ids[1..], now);
    }
  }

  /** The state after one pass over the queue, and the ids played in it. */
  datatype Pass = Pass(state: State, played: seq<UserId>)

  /** The `for` loop of one cycle: every id whose cooldown has passed is marked
      active, played, and unmarked. */
  function PlayQueue(s: State, ids: seq<UserId>, now: int, feed: map<UserId, seq<string>>): (p: Pass)
    requires AllKnown(ids, s.userData)
    ensures p.state.clients == s.clients && p.state.queue == s.queue
    ensures p.state.isRunning == s.isRunning && p.state.userData.Keys == s.userData.Keys
    ensures forall x :: x in p.played ==> x in ids
    ensures forall x :: x in s.userData && x !in p.played ==> p.state.userData[x] == s.userData[x]
    ensures |p.played| == 0 ==> p.state == s
    ensures |p.played| == 0 ==> forall i :: 0 <= i < |ids| ==> !Eligible(s.userData[ids[i]], now)
    ensures |p.played| > 0 ==> p.state.currentActive == None
    decreases |ids|
  {
    if |ids| == 0 then Pass(s, [])
    else
      var id := ids[0];
      if Eligible(s.userData[id], now) then
        var s1 := s.(currentActive := Some(id));
        var s2 := PlayUserTurn(s1, id, now, RepliesFor(feed, id));
        var s3 := s2.(currentActive := None);
        var rest := PlayQueue(s3, ids[1..], now, feed);
        Pass(rest.state, [id] + rest.played)
      else
        var rest := PlayQueue(s, ids[1..], now, feed);
        Pass(rest.state, rest.played)
  }

  /** On a queue without duplicates a pass plays exactly the ids whose
      cooldown had passed when the cycle began, in queue order, each one as
      its own turn. */
  lemma {:induction false} PlayQueueServesEligible(s: State, ids: seq<UserId>, now: int, feed: map<UserId, seq<string>>)
    requires AllKnown(ids, s.userData)
    requires NoDuplicates(ids)
    decreases |ids|
    ensures PlayQueue(s, ids, now, feed).played == EligibleIds(s.userData, ids, now)
    ensures forall x :: x in PlayQueue(s, ids, now, feed).played ==>
      PlayQueue(s, ids, now, feed).state.userData[x] == PlayUserTurn(s, x, now, RepliesFor(feed, x)).userData[x]
  {
    if |ids| > 0 {
      var id := ids[0];
      NoDuplicatesTail(ids);
      if Eligible(s.userData[id], now) {
        var s1 := s.(currentActive := Some(id));
        var s2 := PlayUserTurn(s1, id, now, RepliesFor(feed, id));
        var s3 := s2.(currentActive := None);
        PlayQueueServesEligible(s3, ids[1..], now, feed);
        EligibleIdsFrame(s3.userData, s.userData, ids[1..], now);
        var p := PlayQueue(s, ids, now, feed);
        var rest := PlayQueue(s3, ids[1..], now, feed);
        forall x | x in p.played
          ensures p.state.userData[x] == PlayUserTurn(s, x, now, RepliesFor(feed, x)).userData[x]
        {
          TurnLocal(s1, s, x, now, RepliesFor(feed, x));
          if x != id {
            TurnLocal(s3, s, x, now, RepliesFor(feed, x));
          }
        }
      } else {
        PlayQueueServesEligible(s, ids[1..], now, feed);
      }
    }
  }

  /** The earliest of a non-empty list of wake-up times (Python's `min`). */
  function Earliest(ws: seq<int>): (m: int)
    requires |ws| > 0
    ensures m in ws
    ensures forall i :: 0 <= i < |ws| ==> m <= ws[i]
  {
    if |ws| == 1 then ws[0]
    else
      var m := Earliest(ws[1..]);
      if ws[0] <= m then ws[0] else m
  }

  /** The cooldown ends of the queued ids, in queue order. */
  function WakeTimes(data: map<UserId, UserRecord>, ids: seq<UserId>): (ws: seq<int>)
    requires AllKnown(ids, data)
    ensures |ws| == |ids|
    ensures forall i :: 0 <= i < |ids| ==> ws[i] == data[ids[i]].nextPlayTime
  {
    if |ids| == 0 then [] else [data[ids[0]].nextPlayTime] + WakeTimes(data, ids[1..])
  }

  /** How long the supervisor sleeps after a cycle. */
  function SleepDuration(played: bool, wakes: seq<int>, now: int): (d: int)
    ensures d >= TurnGap
  {
    if !played && |wakes| > 0 then
      var wait := Earliest(wakes) - now;
      if wait > 0 then wait + TurnGap else RetryDelay
    else TurnGap
  }

  /** The loop never busy-waits, and after a cycle that played nobody the
      sleep lasts until past the earliest cooldown end, so that account is
      eligible when the next cycle begins. */
  lemma SleepOutlastsEarliestCooldown(played: bool, wakes: seq<int>, now: int)
    requires !played && |wakes| > 0
    ensures now + SleepDuration(played, wakes, now) > Earliest(wakes)
    ensures exists i :: 0 <= i < |wakes| && now + SleepDuration(played, wakes, now) > wakes[i]
  {
    var i :| 0 <= i < |wakes| && wakes[i] == Earliest(wakes);
  }

  /** What one supervisor cycle ends in: the loop exits on an empty queue, or
      sleeps for `duration` seconds after playing the ids in `played`. */
  datatype Cycle = Exit(state: State) | Sleep(state: State, played: seq<UserId>, duration: int)

  /** One iteration of `start_relay_race`'s `while True` loop at time `now`. */
  function RunCycle(s: State, now: int, feed: map<UserId, seq<string>>): (c: Cycle)
    requires AllKnown(s.queue, s.userData)
    ensures c.Exit? <==> |s.queue| == 0
    ensures c.Exit? ==> c.state == s.(isRunning := false)
    ensures c.Sleep? ==> c.duration >= TurnGap && c.state.isRunning == s.isRunning
    ensures c.Sleep? ==> c.state.clients == s.clients && c.state.queue == s.queue
  {
    if |s.queue| == 0 then Exit(s.(isRunning := false))
    else
      var p := PlayQueue(s, s.queue, now, feed);
      var wakes := WakeTimes(p.state.userData, p.state.queue);
      Sleep(p.state, p.played, SleepDuration(|p.played| > 0, wakes, now))
  }

  /** A cycle that plays nobody sleeps exactly until five seconds after the
      earliest cooldown end; one that plays somebody sleeps five seconds.
      The earliest cooldown end lies in the future only because one `now`
      serves the whole cycle: the ten-second fallback for a wake time
      already past is never taken here. */
  lemma CycleSleep(s: State, now: int, feed: map<UserId, seq<string>>)
    requires AllKnown(s.queue, s.userData)
    requires |s.queue| > 0
    ensures var c := RunCycle(s, now, feed);
      && (|c.played| > 0 ==> c.duration == TurnGap)
      && (|c.played| == 0 ==>
            var e := Earliest(WakeTimes(s.userData, s.queue));
            e > now && c.duration == e - now + TurnGap)
  {
    var ws := WakeTimes(s.userData, s.queue);
    var i :| 0 <= i < |ws| && ws[i] == Earliest(ws);
  }

  /** The example of a two-account queue: the account whose cooldown has passed
      is played, the one still resting is left as it was. */
  lemma CycleSkipsRestingAccount(s: State, a: UserId, b: UserId, now: int, feed: map<UserId, seq<string>>)
    requires a != b && s.queue == [a, b]
    requires a in s.userData && b in s.userData && a in s.clients
    requires s.userData[a].nextPlayTime == 0 <= now
    requires s.userData[b].nextPlayTime == now + 1000
    ensures RunCycle(s, now, feed).Sleep?
    ensures RunCycle(s, now, feed).played == [a]
    ensures RunCycle(s, now, feed).state.userData[b] == s.userData[b]
    ensures RunCycle(s, now, feed).state.userData[a] == PlayUserTurn(s, a, now, RepliesFor(feed, a)).userData[a]
  {
    PlayQueueServesEligible(s, s.queue, now, feed);
    assert s.queue[1..] == [b];
    assert s.queue[1..][1..] == [];
    assert EligibleIds(s.userData, [b], now) == [];
    assert EligibleIds(s.userData, s.queue, now) == [a];
  }

  /** `start_relay_race`'s entry: a second start while the loop runs is a
      no-op; otherwise the loop is marked running and nothing else changes. */
  function StartRelayRace(s: State): (r: State)
    ensures r.isRunning
    ensures s.isRunning ==> r == s
    ensures r.(isRunning := s.isRunning) == s
  {
    if s.isRunning then s else s.(isRunning := true)
  }

  /** The supervisor loop, when alive, runs one cycle; when not started it does
      nothing. The loop stops itself only on a cycle that sees an empty queue. */
  function SupervisorStep(s: State, now: int, feed: map<UserId, seq<string>>): (r: State)
    requires AllKnown(s.queue, s.userData)
    ensures !s.isRunning ==> r == s
    ensures s.isRunning && !r.isRunning ==> |s.queue| == 0
    ensures s.isRunning && |s.queue| == 0 ==> !r.isRunning
  {
    if s.isRunning then RunCycle(s, now, feed).state else s
  }

  /** A turn, a pass and a cycle keep the registry and the queue invariant. */
  lemma SupervisorStepPreservesValid(s: State, now: int, feed: map<UserId, seq<string>>)
    requires Valid(s)
    ensures AllKnown(s.queue, s.userData)
    ensures Valid(SupervisorStep(s, now, feed))
  {
  }
}
