/**
  The keepalive loop: wait a random interval, ping, count failures, and force a reconnect once no
  ping has succeeded for more than three minutes.  Times are in milliseconds and timers are exact.
 */
module KeepAlive {
  const INTERVAL_MIN: nat := 20000

  const INTERVAL_MAX: nat := 30000

  const RESPONSE_DEADLINE: nat := 10000

  const MAX_FAIL_TIME: nat := 180000

  /** What a ping meets: an answer in time, a failure to send, silence until the deadline, a closed connection. */
  datatype Ping = Answered(after: nat) | NotSent | Unanswered | Closed

  datatype Tick = Tick(interval: nat, ping: Ping)

  /** The interval is drawn below the maximum, and an answer counts only before the deadline. */
  predicate Timely(t: Tick) {
    INTERVAL_MIN <= t.interval < INTERVAL_MAX && (t.ping.Answered? ==> t.ping.after <= RESPONSE_DEADLINE)
  }

  datatype Event = TimedOut(errorCount: nat, lastSuccess: nat) | Restored | ForcedReconnect

  datatype State = State(now: nat, lastSuccess: nat, errorCount: nat, events: seq<Event>, done: bool)

  function Wait(p: Ping): nat {
    match p
    case Answered(after) => after
    case NotSent => 0
    case Unanswered => RESPONSE_DEADLINE
    case Closed => 0
  }

  function Step(auto: bool, s: State, t: Tick): State {
    if s.done then s
    else
      var now := s.now + t.interval + Wait(t.ping);
      match t.ping
      case Closed => s.(now := now, done := true)
      case Answered(_) =>
        State(now, now, 0, if s.errorCount > 0 then s.events + [Restored] else s.events, false)
      case _ =>
        var n := s.errorCount + 1;
        var forced := auto && now - s.lastSuccess > MAX_FAIL_TIME;
        State(now, s.lastSuccess, n,
              s.events + [TimedOut(n, s.lastSuccess)] + if forced then [ForcedReconnect] else [], false)
  }

  function Run(auto: bool, start: nat, ticks: seq<Tick>): State {
    if ticks == [] then State(start, start, 0, [], false)
    else Step(auto, Run(auto, start, ticks[..|ticks| - 1]), ticks[|ticks| - 1])
  }

  /** Sends one ping; the loop stops when the connection's context is done. */
  method SendKeepAlive(now: nat, ping: Ping) returns (later: nat, isSuccess: bool, shouldContinue: bool)
    ensures later == now + Wait(ping)
    ensures isSuccess == ping.Answered? && shouldContinue == !ping.Closed?
  {
    match ping
    case Closed => return now, false, false;
    case NotSent => return now, false, true;
    case Unanswered => return now + RESPONSE_DEADLINE, false, true;
    case Answered(after) => return now + after, true, true;
  }

  method KeepAliveLoop(auto: bool, start: nat, ticks: seq<Tick>) returns (errorCount: nat, events: seq<Event>)
    ensures errorCount == Run(auto, start, ticks).errorCount && events == Run(auto, start, ticks).events
  {
    var now: nat, lastSuccess: nat := start, start;
    errorCount, events := 0, [];
    for i := 0 to |ticks|
      invariant Run(auto, start, ticks[..i]) == State(now, lastSuccess, errorCount, events, false)
      invariant lastSuccess <= now
    {
      assert ticks[..i + 1][..i] == ticks[..i];
      now := now + ticks[i].interval;
      var later, isSuccess, shouldContinue := SendKeepAlive(now, ticks[i].ping);
      now := later;
      if !shouldContinue {
        DoneStays(auto, start, ticks, i + 1);
        return;
      } else if !isSuccess {
        errorCount := errorCount + 1;
        events := events + [TimedOut(errorCount, lastSuccess)];
        if auto && now - lastSuccess > MAX_FAIL_TIME {
          events := events + [ForcedReconnect];
        }
      } else {
        if errorCount > 0 {
          errorCount := 0;
          events := events + [Restored];
        }
        lastSuccess := now;
      }
    }
    assert ticks[..|ticks|] == ticks;
  }

  lemma {:induction false} DoneStays(auto: bool, start: nat, ticks: seq<Tick>, i: nat)
    requires i <= |ticks| && Run(auto, start, ticks[..i]).done
    ensures Run(auto, start, ticks) == Run(auto, start, ticks[..i])
    decreases |ticks|
  {
    if i < |ticks| {
      assert ticks[..|ticks| - 1][..i] == ticks[..i];
      DoneStays(auto, start, ticks[..|ticks| - 1], i);
    } else {
      assert ticks[..i] == ticks;
    }
  }

  // ---------- counting failures ----------

  predicate Open(ticks: seq<Tick>) {
    forall t <- ticks :: !t.ping.Closed?
  }

  /** Failures since the last answered ping. */
  function Streak(ticks: seq<Tick>): nat {
    if ticks == [] || ticks[|ticks| - 1].ping.Answered? then 0 else 1 + Streak(ticks[..|ticks| - 1])
  }

  /** The time those failures took. */
  function Elapsed(ticks: seq<Tick>): nat {
    if ticks == [] || ticks[|ticks| - 1].ping.Answered? then 0
    else Elapsed(ticks[..|ticks| - 1]) + ticks[|ticks| - 1].interval + Wait(ticks[|ticks| - 1].ping)
  }

  /** The time that all ticks took. */
  function Duration(ticks: seq<Tick>): nat {
    if ticks == [] then 0
    else Duration(ticks[..|ticks| - 1]) + ticks[|ticks| - 1].interval + Wait(ticks[|ticks| - 1].ping)
  }

  /** When the last answer came, from the start on. */
  function LastAnswer(ticks: seq<Tick>): nat {
    if ticks == [] then 0
    else if ticks[|ticks| - 1].ping.Answered? then Duration(ticks) else LastAnswer(ticks[..|ticks| - 1])
  }

  lemma {:induction false} CountsTheStreak(auto: bool, start: nat, ticks: seq<Tick>)
    requires Open(ticks)
    ensures var s := Run(auto, start, ticks);
      && !s.done && s.errorCount == Streak(ticks)
      && s.now == start + Duration(ticks) && s.lastSuccess == start + LastAnswer(ticks)
      && s.now - s.lastSuccess == Elapsed(ticks)
  {
    if ticks != [] {
      assert ticks[|ticks| - 1] in ticks;
      CountsTheStreak(auto, start, ticks[..|ticks| - 1]);
    }
  }

  /** The events of the last tick of a run. */
  function LastEvents(auto: bool, start: nat, ticks: seq<Tick>): seq<Event>
    requires ticks != []
  {
    var before, after := Run(auto, start, ticks[..|ticks| - 1]).events, Run(auto, start, ticks).events;
    if before <= after then after[|before|..] else []
  }

  predicate Forces(auto: bool, start: nat, ticks: seq<Tick>)
    requires ticks != []
  {
    ForcedReconnect in LastEvents(auto, start, ticks)
  }

  /**
    A tick reports a restored connection exactly when it succeeds after at least one failure, and a
    timeout exactly when it fails, with the number of failures since the last success and its time.
   */
  lemma {:induction false} EventsOfATick(auto: bool, start: nat, ticks: seq<Tick>)
    requires ticks != [] && Open(ticks)
    ensures var front, events := ticks[..|ticks| - 1], LastEvents(auto, start, ticks);
      && (Restored in events <==> ticks[|ticks| - 1].ping.Answered? && Streak(front) > 0)
      && (forall n, t :: TimedOut(n, t) in events <==>
            !ticks[|ticks| - 1].ping.Answered? && n == Streak(ticks) && t == start + LastAnswer(ticks))
      && (Forces(auto, start, ticks) <==>
            auto && !ticks[|ticks| - 1].ping.Answered? && Elapsed(ticks) > MAX_FAIL_TIME)
  {
    EventsAre(auto, start, ticks);
  }

  /** What one tick emits, by the state before it and the time and count after it. */
  function Emitted(auto: bool, answered: bool, failures: nat, n: nat, lastSuccess: nat, elapsed: int): seq<Event> {
    if answered then (if failures > 0 then [Restored] else [])
    else [TimedOut(n, lastSuccess)] + if auto && elapsed > MAX_FAIL_TIME then [ForcedReconnect] else []
  }

  lemma StepEmits(auto: bool, s: State, t: Tick)
    requires !s.done && !t.ping.Closed?
    ensures var s' := Step(auto, s, t);
      s'.events == s.events + Emitted(auto, t.ping.Answered?, s.errorCount, s'.errorCount, s'.lastSuccess,
                                      s'.now - s'.lastSuccess)
  {}

  lemma {:induction false} LastEventsAre(auto: bool, start: nat, ticks: seq<Tick>, failures: nat, n: nat, t: nat,
                                         elapsed: int)
    requires ticks != [] && !ticks[|ticks| - 1].ping.Closed?
    requires var s := Run(auto, start, ticks[..|ticks| - 1]); !s.done && s.errorCount == failures
    requires var s' := Run(auto, start, ticks);
      s'.errorCount == n && s'.lastSuccess == t && s'.now - s'.lastSuccess == elapsed
    ensures LastEvents(auto, start, ticks)
         == Emitted(auto, ticks[|ticks| - 1].ping.Answered?, failures, n, t, elapsed)
  {
    StepEmits(auto, Run(auto, start, ticks[..|ticks| - 1]), ticks[|ticks| - 1]);
  }

  lemma {:induction false} EventsAre(auto: bool, start: nat, ticks: seq<Tick>)
    requires ticks != [] && Open(ticks)
    ensures LastEvents(auto, start, ticks)
         == Emitted(auto, ticks[|ticks| - 1].ping.Answered?, Streak(ticks[..|ticks| - 1]), Streak(ticks),
                    start + LastAnswer(ticks), Elapsed(ticks))
  {
    assert ticks[|ticks| - 1] in ticks;
    CountsTheStreak(auto, start, ticks[..|ticks| - 1]);
    CountsTheStreak(auto, start, ticks);
    LastEventsAre(auto, start, ticks, Streak(ticks[..|ticks| - 1]), Streak(ticks), start + LastAnswer(ticks),
                  Elapsed(ticks));
  }

  /** A closed connection ends the loop: nothing is counted or emitted by it or after it. */
  lemma ClosedEnds(auto: bool, start: nat, before: seq<Tick>, closed: Tick, after: seq<Tick>)
    requires Open(before) && closed.ping.Closed?
    ensures var s, s' := Run(auto, start, before), Run(auto, start, before + [closed] + after);
      s'.done && s'.errorCount == s.errorCount && s'.events == s.events
  {
    var ticks, n := before + [closed] + after, |before| + 1;
    assert ticks[..n] == before + [closed] && (before + [closed])[..|before|] == before;
    CountsTheStreak(auto, start, before);
    DoneStays(auto, start, ticks, n);
  }

  // ---------- the bound ----------

  /** Each failure takes at least 20 and less than 40 seconds. */
  lemma {:induction false} StreakTakes(ticks: seq<Tick>)
    requires forall t <- ticks :: Timely(t)
    ensures 20000 * Streak(ticks) <= Elapsed(ticks) <= 39999 * Streak(ticks)
  {
    if ticks != [] {
      assert Timely(ticks[|ticks| - 1]);
      StreakTakes(ticks[..|ticks| - 1]);
    }
  }

  /** No reconnect is forced before the fifth failure in a row, and every one from the tenth on forces one. */
  lemma ForcedWithin(auto: bool, start: nat, ticks: seq<Tick>)
    requires ticks != [] && Open(ticks) && forall t <- ticks :: Timely(t)
    ensures Forces(auto, start, ticks) ==> auto && Streak(ticks) >= 5
    ensures auto && Streak(ticks) >= 10 ==> Forces(auto, start, ticks)
  {
    EventsOfATick(auto, start, ticks);
    StreakTakes(ticks);
  }

  /** So the first forced reconnect after a success comes with the fifth to tenth failure in a row. */
  lemma FirstForcedReconnect(auto: bool, start: nat, ticks: seq<Tick>)
    requires ticks != [] && Open(ticks) && forall t <- ticks :: Timely(t)
    requires Forces(auto, start, ticks)
    requires var front := ticks[..|ticks| - 1]; Streak(front) > 0 ==> !Forces(auto, start, front)
    ensures auto && 5 <= Streak(ticks) <= 10
  {
    var front := ticks[..|ticks| - 1];
    EventsOfATick(auto, start, ticks);
    ForcedWithin(auto, start, ticks);
    if Streak(front) > 0 {
      ForcedWithin(auto, start, front);
    }
  }

  function Failures(n: nat, interval: nat, ping: Ping): seq<Tick> {
    seq(n, _ => Tick(interval, ping))
  }

  lemma {:induction false} UniformStreak(n: nat, interval: nat, ping: Ping)
    requires !ping.Answered?
    ensures Streak(Failures(n, interval, ping)) == n
    ensures Elapsed(Failures(n, interval, ping)) == n * (interval + Wait(ping))
  {
    if n > 0 {
      assert Failures(n, interval, ping)[..n - 1] == Failures(n - 1, interval, ping);
      UniformStreak(n - 1, interval, ping);
    }
  }

  /** Both ends of the bound are met: slow failures force at the fifth, quick ones only at the tenth. */
  lemma BoundsAreMet(start: nat)
    ensures Forces(true, start, Failures(5, 29999, Unanswered)) && !Forces(true, start, Failures(4, 29999, Unanswered))
    ensures Forces(true, start, Failures(10, 20000, NotSent)) && !Forces(true, start, Failures(9, 20000, NotSent))
  {
    UniformStreak(5, 29999, Unanswered);
    UniformStreak(4, 29999, Unanswered);
    UniformStreak(10, 20000, NotSent);
    UniformStreak(9, 20000, NotSent);
    EventsOfATick(true, start, Failures(5, 29999, Unanswered));
    EventsOfATick(true, start, Failures(4, 29999, Unanswered));
    EventsOfATick(true, start, Failures(10, 20000, NotSent));
    EventsOfATick(true, start, Failures(9, 20000, NotSent));
  }
}
