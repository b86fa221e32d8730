/**
  Runs of the connection lifecycle: user calls, websockets dying, close callbacks, reconnect loops,
  keepalive-forced reconnects and stream restarts interleave in any order between the sections under
  the socket lock.
 */
module ConnectionRuns {
  import opened Prelude
  import opened Connection

  /** The client, and how many goroutines are between two of its steps. */
  datatype World = World(
    s: State,
    past: nat,         // autoReconnect past its delay, before connect
    failed: nat,       // autoReconnect with a failed connect, before it looks at the flag
    deciding: nat,     // keepalive loop about to force a reconnect
    forcing: nat,      // ... after its Disconnect, before it resets the flag
    restarting: nat,   // stream error 515 before its Disconnect
    restarted: nat)    // ... after it, before its connect

  function Start(hasId: bool): World {
    World(State([], None, false, false, 0, hasId, false, 0, 0), 0, 0, 0, 0, 0, 0)
  }

  datatype Step =
    | Connect(dial: Dial, initial: bool)  // the user connects; `initial` is ConnectContext
    | Disconnect
    | Reset
    | Expect                              // a stream error or connect failure that ends the session
    | RemoteClose(i: nat)
    | Callback(i: nat)
    | WaitElapsed                         // a reconnect delay ends while no disconnect is expected
    | WaitCancelled
    | ContextDone
    | Reconnect(dial: Dial)
    | AfterFailure(stop: bool)
    | KeepAliveFails
    | ForceDisconnect
    | ForceReconnect
    | StreamRestart
    | RestartDisconnect
    | RestartConnect(dial: Dial)
    | AddWaiter
    | LoginSuccess
    | Pair                                // a session is stored over the live connection
    | DeleteStore

  predicate Live(s: State) {
    s.current.Some? && s.current.value < |s.sockets| && s.sockets[s.current.value].connected
  }

  predicate Enabled(c: Config, w: World, step: Step) {
    Valid(w.s) &&
    match step
    case RemoteClose(i) => i < |w.s.sockets| && w.s.sockets[i].connected
    case Callback(i) => i < |w.s.sockets| && w.s.sockets[i].pending.Some?
    case WaitElapsed => w.s.waiting > 0 && !w.s.expected
    case WaitCancelled => w.s.waiting > 0 && w.s.expected
    case ContextDone => w.s.waiting > 0
    case Reconnect(_) => w.past > 0
    case AfterFailure(_) => w.failed > 0
    case KeepAliveFails => c.autoReconnect && Live(w.s)
    case ForceDisconnect => w.deciding > 0
    case ForceReconnect => w.forcing > 0
    case StreamRestart => Live(w.s)
    case RestartDisconnect => w.restarting > 0
    case RestartConnect(_) => w.restarted > 0
    case Connect(_, _) => true
    case Disconnect => true
    case Reset => true
    case Expect => true
    case AddWaiter => true
    case LoginSuccess => true
    case Pair => Live(w.s) && !w.s.deleted
    case DeleteStore => true
  }

  /** ConnectContext hands a first failure that is worth a retry to the background. */
  function ConnectCall(c: Config, s: State, dial: Dial, initial: bool): State
    requires Valid(s)
  {
    var x := Attempted(s, dial);
    if initial && x.error.Some? && x.error.value.DialFailed? && x.error.value.retryable
       && c.initialAutoReconnect && c.autoReconnect
    then Spawn(c, x.state) else x.state
  }

  function Apply(c: Config, w: World, step: Step): World
    requires Enabled(c, w, step)
  {
    var s := w.s;
    match step
    case Connect(dial, initial) => w.(s := ConnectCall(c, s, dial, initial))
    case Disconnect => w.(s := Disconnected(s))
    case Reset => w.(s := Forced(s))
    case Expect => w.(s := Connection.Expect(s))
    case RemoteClose(i) => w.(s := s.(sockets := s.sockets[i := Close(s.sockets[i], true)]))
    case Callback(i) => w.(s := Notified(c, s, i))
    case WaitElapsed => w.(s := s.(waiting := s.waiting - 1), past := w.past + 1)
    case WaitCancelled => w.(s := s.(waiting := s.waiting - 1))
    case ContextDone => w.(s := s.(waiting := s.waiting - 1))
    case Reconnect(dial) =>
      var x := Attempted(s, dial);
      var failed := x.error.Some? && x.error != Some(AlreadyConnected);
      w.(s := x.state, past := w.past - 1, failed := if failed then w.failed + 1 else w.failed)
    case AfterFailure(stop) =>
      if s.expected || stop then w.(failed := w.failed - 1)
      else w.(failed := w.failed - 1, s := s.(waiting := s.waiting + 1, errors := s.errors + 1))
    case KeepAliveFails => w.(deciding := w.deciding + 1)
    case ForceDisconnect => w.(s := Disconnected(s), deciding := w.deciding - 1, forcing := w.forcing + 1)
    case ForceReconnect => w.(s := Spawn(c, ResetExpected(s)), forcing := w.forcing - 1)
    case StreamRestart => w.(restarting := w.restarting + 1)
    case RestartDisconnect => w.(s := Disconnected(s), restarting := w.restarting - 1, restarted := w.restarted + 1)
    case RestartConnect(dial) => w.(s := Attempted(s, dial).state, restarted := w.restarted - 1)
    case AddWaiter => w.(s := s.(waiters := s.waiters + 1))
    case LoginSuccess => w.(s := LoggedIn(s))
    case Pair => w.(s := s.(hasId := true))
    case DeleteStore => w.(s := s.(deleted := true, hasId := false))
  }

  ghost predicate Run(c: Config, w: World, steps: seq<Step>, w': World)
    decreases |steps|
  {
    if steps == [] then w == w'
    else Enabled(c, w, steps[0]) && Run(c, Apply(c, w, steps[0]), steps[1..], w')
  }

  ghost predicate Reachable(c: Config, w: World) {
    exists hasId, steps :: Run(c, Start(hasId), steps, w)
  }

  // ---------- the invariant ----------

  predicate SocketInv(s: State, i: nat)
    requires i < |s.sockets|
  {
    var x := s.sockets[i];
    && (x.connected ==> s.current == Some(i) && !x.destroyed && x.handler && x.pending.None?)
    && x.events == x.reconnects <= 1
    && (x.pending.Some? ==> x.events == 0)
    && (x.dropped ==> x.events == 0 && s.current != Some(i))
    && (s.current == Some(i) ==> x.events == 0)
  }

  predicate Inv(s: State) {
    Valid(s) && forall i | 0 <= i < |s.sockets| :: SocketInv(s, i)
  }

  lemma DroppedKeepsInv(s: State)
    requires Inv(s)
    ensures Inv(Dropped(s)) && Dropped(s).current == None
    ensures s.current.Some? ==> Dropped(s).waiters == 0
  {
    var t := Dropped(s);
    forall i | 0 <= i < |t.sockets| ensures SocketInv(t, i) {
      assert SocketInv(s, i);
    }
  }

  lemma AttemptedKeepsInv(s: State, dial: Dial)
    requires Inv(s)
    ensures Inv(Attempted(s, dial).state)
  {
    DroppedKeepsInv(s);
    var t, u := ResetExpected(Dropped(s)), Attempted(s, dial).state;
    forall i | 0 <= i < |u.sockets| ensures SocketInv(u, i) {
      if i < |s.sockets| {
        assert SocketInv(s, i) && SocketInv(Dropped(s), i);
      }
    }
  }

  lemma ForcedKeepsInv(s: State)
    requires Inv(s)
    ensures Inv(Forced(s))
  {
    forall i | 0 <= i < |s.sockets| ensures SocketInv(Forced(s), i) {
      assert SocketInv(s, i);
    }
  }

  lemma NotifiedKeepsInv(c: Config, s: State, i: nat)
    requires Inv(s) && i < |s.sockets| && s.sockets[i].pending.Some?
    ensures Inv(Notified(c, s, i))
  {
    assert SocketInv(s, i);
    var t := Notified(c, s, i);
    forall j | 0 <= j < |t.sockets| ensures SocketInv(t, j) {
      assert SocketInv(s, j);
    }
  }

  lemma ClosedKeepsInv(s: State, i: nat)
    requires Inv(s) && i < |s.sockets| && s.sockets[i].connected
    ensures Inv(s.(sockets := s.sockets[i := Close(s.sockets[i], true)]))
  {
    var t := s.(sockets := s.sockets[i := Close(s.sockets[i], true)]);
    forall j | 0 <= j < |t.sockets| ensures SocketInv(t, j) {
      assert SocketInv(s, j);
    }
  }

  /** Counters and flags do not matter to the invariant. */
  lemma SameSocketsKeepInv(s: State, t: State)
    requires Inv(s) && t.sockets == s.sockets && t.current == s.current
    ensures Inv(t)
  {
    forall i | 0 <= i < |t.sockets| ensures SocketInv(t, i) {
      assert SocketInv(s, i);
    }
  }

  lemma StepKeepsInv(c: Config, w: World, step: Step)
    requires Inv(w.s) && Enabled(c, w, step)
    ensures Inv(Apply(c, w, step).s)
  {
    match step
    case Connect(dial, initial) =>
      AttemptedKeepsInv(w.s, dial);
      SameSocketsKeepInv(Attempted(w.s, dial).state, ConnectCall(c, w.s, dial, initial));
    case Disconnect => DisconnectedKeepsInv(w.s);
    case Reset => ForcedKeepsInv(w.s);
    case Callback(i) => NotifiedKeepsInv(c, w.s, i);
    case RemoteClose(i) => ClosedKeepsInv(w.s, i);
    case Reconnect(dial) => AttemptedKeepsInv(w.s, dial);
    case ForceDisconnect => DisconnectedKeepsInv(w.s);
    case RestartDisconnect => DisconnectedKeepsInv(w.s);
    case RestartConnect(dial) => AttemptedKeepsInv(w.s, dial);
    case _ => SameSocketsKeepInv(w.s, Apply(c, w, step).s);
  }

  lemma DisconnectedKeepsInv(s: State)
    requires Inv(s)
    ensures Inv(Disconnected(s)) && Disconnected(s).current == None && Disconnected(s).expected
  {
    SameSocketsKeepInv(s, Connection.Expect(s));
    DroppedKeepsInv(Connection.Expect(s));
  }

  lemma {:induction false} RunKeepsInv(c: Config, w: World, steps: seq<Step>, w': World)
    requires Inv(w.s) && Run(c, w, steps, w')
    ensures Inv(w'.s)
    decreases |steps|
  {
    if steps != [] {
      StepKeepsInv(c, w, steps[0]);
      RunKeepsInv(c, Apply(c, w, steps[0]), steps[1..], w');
    }
  }

  lemma ReachableInv(c: Config, w: World)
    requires Reachable(c, w)
    ensures Inv(w.s)
  {
    var hasId, steps :| Run(c, Start(hasId), steps, w);
    RunKeepsInv(c, Start(hasId), steps, w);
  }

  // ---------- one socket at a time, one event each ----------

  /**
    In every reachable state only the current socket can be connected, so there is at most one; no
    socket ever caused more than one Disconnected event, nor a reconnect without one; and a socket
    that the client dropped first caused neither.
   */
  lemma OneSocketOneEvent(c: Config, w: World, i: nat, j: nat)
    requires Reachable(c, w) && i < |w.s.sockets| && j < |w.s.sockets|
    ensures w.s.sockets[i].connected ==> w.s.current == Some(i)
    ensures w.s.sockets[i].connected && w.s.sockets[j].connected ==> i == j
    ensures w.s.sockets[i].events == w.s.sockets[i].reconnects <= 1
    ensures w.s.sockets[i].dropped ==> w.s.sockets[i].events == 0
  {
    ReachableInv(c, w);
    assert SocketInv(w.s, i) && SocketInv(w.s, j);
  }

  /** Every step that unsets or replaces the current socket leaves no request waiting for an answer. */
  lemma UnsettingClearsWaiters(c: Config, w: World, step: Step)
    requires Enabled(c, w, step) && w.s.current.Some?
    requires Apply(c, w, step).s.current != w.s.current
    ensures Apply(c, w, step).s.waiters == 0
  {}

  /** A connected socket is never replaced, and only a Disconnect takes it away. */
  lemma LiveSocketIsNotReplaced(c: Config, w: World, step: Step)
    requires Reachable(c, w) && Enabled(c, w, step) && Live(w.s)
    requires Apply(c, w, step).s.current != w.s.current
    ensures Apply(c, w, step).s.current == None
    ensures step.Disconnect? || step.ForceDisconnect? || step.RestartDisconnect?
  {
    ReachableInv(c, w);
    assert SocketInv(w.s, w.s.current.value);
  }

  // ---------- when a Disconnect lasts ----------

  predicate NoConnect(steps: seq<Step>) {
    forall step <- steps :: !step.Connect?
  }

  /** Reconnect loops are started with a session, keepalive decisions with automatic reconnects on. */
  predicate ThreadInv(c: Config, w: World) {
    && (w.s.waiting + w.past + w.failed > 0 ==> c.autoReconnect && (w.s.hasId || w.s.deleted))
    && (w.deciding + w.forcing > 0 ==> c.autoReconnect)
  }

  lemma StepKeepsThreadInv(c: Config, w: World, step: Step)
    requires ThreadInv(c, w) && Enabled(c, w, step)
    ensures ThreadInv(c, Apply(c, w, step))
  {}

  lemma {:induction false} RunKeepsThreadInv(c: Config, w: World, steps: seq<Step>, w': World)
    requires ThreadInv(c, w) && Run(c, w, steps, w')
    ensures ThreadInv(c, w')
    decreases |steps|
  {
    if steps != [] {
      StepKeepsThreadInv(c, w, steps[0]);
      RunKeepsThreadInv(c, Apply(c, w, steps[0]), steps[1..], w');
    }
  }

  /**
    A goroutine is past the point where it would still look at the expected-disconnect flag, and its
    connect can succeed: a reconnect loop past its delay, a restart, or a keepalive loop that will
    start a reconnect.
   */
  predicate Reopens(c: Config, w: World) {
    && !w.s.deleted
    && (|| w.past > 0 || w.restarting > 0 || w.restarted > 0
        || (c.autoReconnect && w.s.hasId && w.deciding + w.forcing > 0))
  }

  predicate Down(c: Config, w: World) {
    && w.s.current == None
    && (|| w.s.deleted
        || (&& w.past == w.restarting == w.restarted == 0
            && if c.autoReconnect && w.s.hasId then w.s.expected && w.deciding == w.forcing == 0
               else w.s.waiting == w.failed == 0))
  }

  lemma DownStays(c: Config, w: World, step: Step)
    requires Down(c, w) && Enabled(c, w, step) && !step.Connect?
    ensures Down(c, Apply(c, w, step))
  {}

  lemma {:induction false} DownForever(c: Config, w: World, steps: seq<Step>, w': World)
    requires Down(c, w) && Run(c, w, steps, w') && NoConnect(steps)
    ensures Down(c, w')
    decreases |steps|
  {
    if steps != [] {
      assert steps[0] in steps;
      DownStays(c, w, steps[0]);
      DownForever(c, Apply(c, w, steps[0]), steps[1..], w');
    }
  }

  lemma {:induction false} RunJoins(c: Config, w: World, step: Step, steps: seq<Step>, w': World)
    requires Enabled(c, w, step) && Run(c, Apply(c, w, step), steps, w')
    ensures Run(c, w, [step] + steps, w')
  {
    assert ([step] + steps)[1..] == steps;
  }

  const OPEN := Opens(false)

  lemma OpensFrom(c: Config, w: World, step: Step)
    requires Enabled(c, w, step) && w.s.current == None && !w.s.deleted
    requires step == Reconnect(OPEN) || step == RestartConnect(OPEN)
    ensures var w' := Apply(c, w, step);
      Live(w'.s) && Run(c, w, [step], w')
  {
    RunJoins(c, w, step, [], Apply(c, w, step));
  }

  /** From after the Disconnect of a keepalive loop: the flag is reset and a reconnect started. */
  lemma ForcedReconnects(c: Config, w: World) returns (steps: seq<Step>, w': World)
    requires w.forcing > 0 && w.s.current == None && c.autoReconnect && w.s.hasId && !w.s.deleted
    ensures NoConnect(steps) && Run(c, w, steps, w') && Live(w'.s)
  {
    var w1 := Apply(c, w, ForceReconnect);
    var w2 := Apply(c, w1, WaitElapsed);
    OpensFrom(c, w2, Reconnect(OPEN));
    w' := Apply(c, w2, Reconnect(OPEN));
    RunJoins(c, w1, WaitElapsed, [Reconnect(OPEN)], w');
    RunJoins(c, w, ForceReconnect, [WaitElapsed] + [Reconnect(OPEN)], w');
    steps := [ForceReconnect] + ([WaitElapsed] + [Reconnect(OPEN)]);
  }

  lemma SomeoneReconnects(c: Config, w: World) returns (steps: seq<Step>, w': World)
    requires w.s.current == None && Reopens(c, w)
    ensures NoConnect(steps) && Run(c, w, steps, w') && Live(w'.s)
  {
    if w.past > 0 {
      OpensFrom(c, w, Reconnect(OPEN));
      return [Reconnect(OPEN)], Apply(c, w, Reconnect(OPEN));
    } else if w.restarted > 0 {
      OpensFrom(c, w, RestartConnect(OPEN));
      return [RestartConnect(OPEN)], Apply(c, w, RestartConnect(OPEN));
    } else if w.restarting > 0 {
      var w1 := Apply(c, w, RestartDisconnect);
      OpensFrom(c, w1, RestartConnect(OPEN));
      w' := Apply(c, w1, RestartConnect(OPEN));
      RunJoins(c, w, RestartDisconnect, [RestartConnect(OPEN)], w');
      steps := [RestartDisconnect] + [RestartConnect(OPEN)];
    } else if w.forcing > 0 {
      steps, w' := ForcedReconnects(c, w);
    } else {
      var w1 := Apply(c, w, ForceDisconnect);
      var rest;
      rest, w' := ForcedReconnects(c, w1);
      RunJoins(c, w, ForceDisconnect, rest, w');
      steps := [ForceDisconnect] + rest;
    }
  }

  lemma DisconnectLasts(c: Config, w: World)
    requires Reachable(c, w) && !Reopens(c, w)
    ensures Valid(w.s) && Down(c, Apply(c, w, Disconnect))
  {
    ReachableInv(c, w);
    var hasId, before :| Run(c, Start(hasId), before, w);
    RunKeepsThreadInv(c, Start(hasId), before, w);
  }

  /**
    After Disconnect the client stays without a socket in every run in which the user does not
    connect again, exactly when no goroutine can still reopen one: from any reachable state, with or
    without automatic reconnects, paired or not.
   */
  lemma DisconnectLastsExactly(c: Config, w: World)
    requires Reachable(c, w)
    ensures !Reopens(c, w) <==>
      forall steps, w' | Valid(w.s) && NoConnect(steps) && Run(c, Apply(c, w, Disconnect), steps, w') ::
        w'.s.current == None
  {
    ReachableInv(c, w);
    var down := Apply(c, w, Disconnect);
    if Reopens(c, w) {
      var steps, w' := SomeoneReconnects(c, down);
    } else {
      DisconnectLasts(c, w);
      forall steps, w' | NoConnect(steps) && Run(c, down, steps, w') ensures w'.s.current == None {
        DownForever(c, down, steps, w');
      }
    }
  }

  /** A reconnect that only fails to dial has still cleared the flag, so its loop keeps going. */
  lemma FailedReconnectForgetsDisconnect(c: Config, w: World, retryable: bool)
    requires Reachable(c, w) && w.past > 0 && !w.s.deleted
    ensures Valid(w.s)
    ensures var down := Apply(c, w, Disconnect);
      var failed := Apply(c, down, Reconnect(Fails(retryable)));
      && down.s.expected && !failed.s.expected
      && Apply(c, failed, AfterFailure(false)).s.waiting == w.s.waiting + 1
  {
    ReachableInv(c, w);
  }

  // ---------- reconnect delays ----------

  /** The waits that a run begins after its last successful login. */
  function WaitsBegun(c: Config, w: World, steps: seq<Step>, begun: nat): nat
    decreases |steps|
  {
    if steps == [] || !Enabled(c, w, steps[0]) then begun
    else
      var w' := Apply(c, w, steps[0]);
      WaitsBegun(c, w', steps[1..],
                 if steps[0].LoginSuccess? then 0 else if w'.s.waiting > w.s.waiting then begun + 1 else begun)
  }

  lemma StepCountsWait(c: Config, w: World, step: Step)
    requires Enabled(c, w, step)
    ensures var w' := Apply(c, w, step);
      w'.s.errors == if step.LoginSuccess? then 0
                     else if w'.s.waiting > w.s.waiting then w.s.errors + 1 else w.s.errors
  {}

  lemma {:induction false} RunCountsWaits(c: Config, w: World, steps: seq<Step>, w': World)
    requires Run(c, w, steps, w')
    ensures w'.s.errors == WaitsBegun(c, w, steps, w.s.errors)
    decreases |steps|
  {
    if steps != [] {
      StepCountsWait(c, w, steps[0]);
      RunCountsWaits(c, Apply(c, w, steps[0]), steps[1..], w');
    }
  }

  /** In seconds, from the counter before it goes up. */
  function Delay(errors: nat): nat {
    errors * 2
  }

  /**
    The delay of the next reconnect is two seconds for every wait begun since the last successful
    login, so after a login it starts from nothing again.
   */
  lemma DelayCountsFromLogin(c: Config, hasId: bool, steps: seq<Step>, w: World)
    requires Run(c, Start(hasId), steps, w)
    ensures Delay(w.s.errors) == 2 * WaitsBegun(c, Start(hasId), steps, 0)
    ensures Enabled(c, w, LoginSuccess) ==> Delay(Apply(c, w, LoginSuccess).s.errors) == 0
  {
    RunCountsWaits(c, Start(hasId), steps, w);
  }

  // ---------- every goroutine is accounted for ----------

  /** The step starts an autoReconnect loop that does not end at once. */
  predicate StartsLoop(c: Config, w: World, step: Step)
    requires Enabled(c, w, step)
  {
    && c.autoReconnect && w.s.hasId
    && match step
       case Connect(dial, initial) =>
         initial && c.initialAutoReconnect && !w.s.deleted && !Live(w.s) && dial == Fails(true)
       case Callback(i) => Reports(w.s, i)
       case ForceReconnect => true
       case _ => false
  }

  /** The step ends one: cancelled, connected or already connected, or given up after a failure. */
  predicate EndsLoop(c: Config, w: World, step: Step)
    requires Enabled(c, w, step)
  {
    match step
    case WaitCancelled => true
    case ContextDone => true
    case Reconnect(dial) => !w.s.deleted && (Live(w.s) || dial.Opens?)
    case AfterFailure(stop) => w.s.expected || stop
    case _ => false
  }

  function Loops(w: World): nat {
    w.s.waiting + w.past + w.failed
  }

  lemma StepCountsLoops(c: Config, w: World, step: Step)
    requires Enabled(c, w, step)
    ensures var w' := Apply(c, w, step);
      Loops(w') + (if EndsLoop(c, w, step) then 1 else 0) == Loops(w) + (if StartsLoop(c, w, step) then 1 else 0)
  {}

  /** Keepalive loops and stream restarts go through their two steps once each. */
  lemma StepCountsOthers(c: Config, w: World, step: Step)
    requires Enabled(c, w, step)
    ensures var w' := Apply(c, w, step);
      && (w'.past == w.past + if step.WaitElapsed? then 1 else if step.Reconnect? then -1 else 0)
      && w'.deciding + w'.forcing + (if step.ForceReconnect? then 1 else 0)
         == w.deciding + w.forcing + (if step.KeepAliveFails? then 1 else 0)
      && (w'.forcing == w.forcing + if step.ForceDisconnect? then 1 else if step.ForceReconnect? then -1 else 0)
      && w'.restarting + w'.restarted + (if step.RestartConnect? then 1 else 0)
         == w.restarting + w.restarted + (if step.StreamRestart? then 1 else 0)
      && (w'.restarted == w.restarted + if step.RestartDisconnect? then 1 else if step.RestartConnect? then -1 else 0)
  {}

  /**
    A forced reconnect of the keepalive loop first leaves no socket and no waiter; then it clears both
    flags and starts a reconnect loop if there is a session.
   */
  lemma ForcedReconnectIsExact(c: Config, w: World)
    requires Reachable(c, w) && w.deciding > 0
    ensures Valid(w.s)
    ensures var w1 := Apply(c, w, ForceDisconnect);
      var w2 := Apply(c, w1, ForceReconnect);
      && w1.s.current == None && w1.s.expected && (w.s.current.Some? ==> w1.s.waiters == 0)
      && w2.s.current == None && !w2.s.expected && !w2.s.force
      && w2.s.waiting == w.s.waiting + if c.autoReconnect && w.s.hasId then 1 else 0
  {
    ReachableInv(c, w);
    DisconnectedKeepsInv(w.s);
  }

  /** A restart of the stream leaves none either, and then connects at once. */
  lemma RestartIsExact(c: Config, w: World, dial: Dial)
    requires Reachable(c, w) && w.restarting > 0
    ensures Valid(w.s)
    ensures var w1 := Apply(c, w, RestartDisconnect);
      && w1.s.current == None && w1.s.expected && (w.s.current.Some? ==> w1.s.waiters == 0)
      && (Live(Apply(c, w1, RestartConnect(dial)).s) <==> !w.s.deleted && dial == Opens(false))
  {
    ReachableInv(c, w);
    DisconnectedKeepsInv(w.s);
  }

  /** How many loops a run starts, and how many it ends. */
  function LoopsStarted(c: Config, w: World, steps: seq<Step>): nat
    decreases |steps|
  {
    if steps == [] || !Enabled(c, w, steps[0]) then 0
    else (if StartsLoop(c, w, steps[0]) then 1 else 0) + LoopsStarted(c, Apply(c, w, steps[0]), steps[1..])
  }

  function LoopsEnded(c: Config, w: World, steps: seq<Step>): nat
    decreases |steps|
  {
    if steps == [] || !Enabled(c, w, steps[0]) then 0
    else (if EndsLoop(c, w, steps[0]) then 1 else 0) + LoopsEnded(c, Apply(c, w, steps[0]), steps[1..])
  }

  /**
    Over any run, the loops that were started are those still going and those that ended, so each
    reported loss, forced reconnect and failed first connect is followed up by one loop until that is
    cancelled, connected or given up.
   */
  lemma {:induction false} LoopsAreAccountedFor(c: Config, w: World, steps: seq<Step>, w': World)
    requires Run(c, w, steps, w')
    ensures Loops(w') + LoopsEnded(c, w, steps) == Loops(w) + LoopsStarted(c, w, steps)
    decreases |steps|
  {
    if steps != [] {
      StepCountsLoops(c, w, steps[0]);
      LoopsAreAccountedFor(c, Apply(c, w, steps[0]), steps[1..], w');
    }
  }

  // ---------- when the loss of a socket is reported ----------

  /** The conditions under which a close callback emits its event and reconnects. */
  predicate Reports(s: State, i: nat)
    requires i < |s.sockets| && s.sockets[i].pending.Some?
  {
    s.current == Some(i) && !s.expected && (s.force || s.sockets[i].pending.value)
  }

  /**
    In every reachable state a callback leaves its socket with one Disconnected event and one
    reconnect exactly when the socket is still current, no disconnect is expected, and the close was
    remote or forced; a reconnect loop starts with it when those are on and there is a session.
   */
  lemma CallbackReportsExactly(c: Config, w: World, i: nat)
    requires Reachable(c, w) && Enabled(c, w, Callback(i))
    ensures var s' := Apply(c, w, Callback(i)).s;
      && s'.sockets[i].events == s'.sockets[i].reconnects == (if Reports(w.s, i) then 1 else 0)
      && s'.sockets[i].pending.None? && !s'.sockets[i].connected
      && s'.waiting == w.s.waiting + (if Reports(w.s, i) && c.autoReconnect && w.s.hasId then 1 else 0)
      && s'.sockets[i].destroyed && (Reports(w.s, i) ==> !s'.force)
  {
    ReachableInv(c, w);
    assert SocketInv(w.s, i);
  }

  /** A closed socket, its callback due or not, and the events it has caused. */
  predicate Rests(s: State, i: nat, pending: Option<bool>, events: nat) {
    i < |s.sockets| && !s.sockets[i].connected && s.sockets[i].pending == pending && s.sockets[i].events == events
  }

  lemma AttemptKeepsRest(s: State, dial: Dial, i: nat, pending: Option<bool>, events: nat)
    requires Valid(s) && Rests(s, i, pending, events)
    ensures Rests(Attempted(s, dial).state, i, pending, events)
  {}

  lemma DisconnectKeepsRest(s: State, i: nat, pending: Option<bool>, events: nat)
    requires Valid(s) && Rests(s, i, pending, events)
    ensures Rests(Disconnected(s), i, pending, events)
  {}

  lemma ResetKeepsRest(s: State, i: nat, pending: Option<bool>, events: nat)
    requires Valid(s) && Rests(s, i, pending, events)
    ensures Rests(Forced(s), i, pending, events)
  {}

  lemma CallbackKeepsRest(c: Config, s: State, j: nat, i: nat, pending: Option<bool>, events: nat)
    requires Valid(s) && Rests(s, i, pending, events) && i != j
    requires j < |s.sockets| && s.sockets[j].pending.Some?
    ensures Rests(Notified(c, s, j), i, pending, events)
  {}

  /** Nothing but its own callback changes a closed socket any more. */
  lemma RestStays(c: Config, w: World, step: Step, i: nat, pending: Option<bool>, events: nat)
    requires Enabled(c, w, step) && Rests(w.s, i, pending, events) && (pending.Some? ==> step != Callback(i))
    ensures Rests(Apply(c, w, step).s, i, pending, events)
  {
    match step
    case Connect(dial, initial) => AttemptKeepsRest(w.s, dial, i, pending, events);
    case Reconnect(dial) => AttemptKeepsRest(w.s, dial, i, pending, events);
    case RestartConnect(dial) => AttemptKeepsRest(w.s, dial, i, pending, events);
    case Disconnect => DisconnectKeepsRest(w.s, i, pending, events);
    case ForceDisconnect => DisconnectKeepsRest(w.s, i, pending, events);
    case RestartDisconnect => DisconnectKeepsRest(w.s, i, pending, events);
    case Callback(j) => CallbackKeepsRest(c, w.s, j, i, pending, events);
    case Reset => ResetKeepsRest(w.s, i, pending, events);
    case _ =>
  }

  lemma {:induction false} RestsThrough(c: Config, w: World, steps: seq<Step>, w': World, i: nat,
                                        pending: Option<bool>, events: nat)
    requires Run(c, w, steps, w') && Rests(w.s, i, pending, events)
    requires pending.Some? ==> Callback(i) !in steps
    ensures Rests(w'.s, i, pending, events)
    decreases |steps|
  {
    if steps != [] {
      RestStays(c, w, steps[0], i, pending, events);
      RestsThrough(c, Apply(c, w, steps[0]), steps[1..], w', i, pending, events);
    }
  }

  lemma {:induction false} RunReaches(c: Config, w: World, steps: seq<Step>, w': World)
    requires Reachable(c, w) && Run(c, w, steps, w')
    ensures Reachable(c, w')
  {
    var hasId, before :| Run(c, Start(hasId), before, w);
    RunsJoin(c, Start(hasId), before, w, steps, w');
  }

  lemma {:induction false} RunsJoin(c: Config, w: World, a: seq<Step>, w1: World, b: seq<Step>, w2: World)
    requires Run(c, w, a, w1) && Run(c, w1, b, w2)
    ensures Run(c, w, a + b, w2)
    decreases |a|
  {
    if a == [] {
      assert a + b == b;
    } else {
      assert (a + b)[0] == a[0] && (a + b)[1..] == a[1..] + b;
      RunsJoin(c, Apply(c, w, a[0]), a[1..], w1, b, w2);
    }
  }

  /**
    A live socket that the other side closes: its callback stays due until it runs, and the loss is
    reported once and for all, with a reconnect, exactly when at that moment the socket is still
    current and no disconnect is expected.
   */
  lemma LossIsReportedExactly(c: Config, w: World, i: nat, before: seq<Step>, w2: World, after: seq<Step>, w': World)
    requires Reachable(c, w) && Enabled(c, w, RemoteClose(i))
    requires Callback(i) !in before && Run(c, Apply(c, w, RemoteClose(i)), before, w2)
    requires Enabled(c, w2, Callback(i)) ==> Run(c, Apply(c, w2, Callback(i)), after, w')
    ensures Valid(w2.s) && Enabled(c, w2, Callback(i))
    ensures i < |w'.s.sockets|
    ensures w'.s.sockets[i].events == if w2.s.current == Some(i) && !w2.s.expected then 1 else 0
    ensures Apply(c, w2, Callback(i)).s.waiting == w2.s.waiting +
      if w2.s.current == Some(i) && !w2.s.expected && c.autoReconnect && w2.s.hasId then 1 else 0
  {
    ReachableInv(c, w);
    assert SocketInv(w.s, i);
    var w1 := Apply(c, w, RemoteClose(i));
    RunJoins(c, w, RemoteClose(i), [], w1);
    RunReaches(c, w, [RemoteClose(i)] + [], w1);
    RunReaches(c, w1, before, w2);
    ReachableInv(c, w2);
    RestsThrough(c, w1, before, w2, i, Some(true), 0);
    CallbackReportsExactly(c, w2, i);
    var w3 := Apply(c, w2, Callback(i));
    RestsThrough(c, w3, after, w', i, None, w3.s.sockets[i].events);
  }

  /**
    A reset of a live socket: nothing waits for an answer any more, and the socket stays current with
    its callback due.  When that runs, the loss is reported, with a reconnect, exactly when the socket
    is still current, no disconnect is expected, and no disconnect or connect has taken the force back.
   */
  lemma ResetIsReportedExactly(c: Config, w: World, i: nat, before: seq<Step>, w2: World)
    requires Reachable(c, w) && Live(w.s) && w.s.current == Some(i)
    requires Callback(i) !in before && Run(c, Apply(c, w, Reset), before, w2)
    ensures var w1 := Apply(c, w, Reset); w1.s.waiters == 0 && w1.s.force && w1.s.current == Some(i)
    ensures Enabled(c, w2, Callback(i))
    ensures var reported := w2.s.current == Some(i) && !w2.s.expected && w2.s.force;
      var s' := Apply(c, w2, Callback(i)).s;
      && s'.sockets[i].events == (if reported then 1 else 0)
      && s'.waiting == w2.s.waiting + (if reported && c.autoReconnect && w2.s.hasId then 1 else 0)
  {
    ReachableInv(c, w);
    assert SocketInv(w.s, i);
    var w1 := Apply(c, w, Reset);
    RunJoins(c, w, Reset, [], w1);
    RunReaches(c, w, [Reset] + [], w1);
    RunReaches(c, w1, before, w2);
    ReachableInv(c, w2);
    RestsThrough(c, w1, before, w2, i, Some(false), 0);
    CallbackReportsExactly(c, w2, i);
  }

  /** Any reset of a client with a socket leaves no waiter, however the socket stands. */
  lemma ResetClearsWaiters(c: Config, w: World)
    requires Enabled(c, w, Reset) && w.s.current.Some?
    ensures Apply(c, w, Reset).s.waiters == 0 && Apply(c, w, Reset).s.current == w.s.current
  {}

  /**
    A connect that succeeds starts afresh: a new current socket, all others closed, no flag set, and
    after an old socket no waiter either.  It succeeds exactly when the device is not deleted, nothing
    live is there, and the dial opens; a deleted device or a live socket leaves everything as it is.
   */
  lemma ConnectsExactly(c: Config, w: World, dial: Dial, i: nat)
    requires Reachable(c, w)
    ensures Valid(w.s)
    ensures var r := Attempted(w.s, dial);
      && (r.error.None? <==> !w.s.deleted && !Live(w.s) && dial.Opens?)
      && (r.error.None? ==>
            && r.state.current == Some(|w.s.sockets|) && |r.state.sockets| == |w.s.sockets| + 1
            && (i < |r.state.sockets| && r.state.sockets[i].connected <==> i == |w.s.sockets| && !dial.dead)
            && !r.state.expected && !r.state.force
            && (w.s.current.Some? ==> r.state.waiters == 0))
      && (w.s.deleted || Live(w.s) ==> r.state == w.s)
  {
    ReachableInv(c, w);
    AttemptedKeepsInv(w.s, dial);
    assert i < |w.s.sockets| ==> SocketInv(w.s, i);
    if i < |Attempted(w.s, dial).state.sockets| { assert SocketInv(Attempted(w.s, dial).state, i); }
  }

  /**
    Which failures start or continue a reconnect loop.  A user's connect starts one exactly when it is
    the initial kind, both switches are on, there is a session, and dialing fails in a way worth a
    retry.  A loop past its delay goes on exactly when its connect fails other than on a live socket.
   */
  lemma FailuresRetryExactly(c: Config, w: World, dial: Dial, initial: bool)
    requires Reachable(c, w)
    ensures Valid(w.s)
    ensures var w' := Apply(c, w, Connect(dial, initial));
      w'.s.waiting == w.s.waiting +
        if initial && c.initialAutoReconnect && c.autoReconnect && w.s.hasId && !w.s.deleted && !Live(w.s)
           && dial == Fails(true) then 1 else 0
    ensures w.past > 0 ==>
      var w' := Apply(c, w, Reconnect(dial));
      && w'.past == w.past - 1
      && w'.failed == w.failed + if w.s.deleted || (!Live(w.s) && dial.Fails?) then 1 else 0
    ensures w.failed > 0 ==> forall stop ::
      var w' := Apply(c, w, AfterFailure(stop));
      && w'.failed == w.failed - 1
      && w'.s.waiting == w.s.waiting + if !w.s.expected && !stop then 1 else 0
  {
    ReachableInv(c, w);
  }

  // ---------- a socket that dies before its handler is set ----------

  /** Neither open, nor about to be reported, nor reported. */
  predicate Silent(s: State, i: nat) {
    Rests(s, i, None, 0)
  }

  /** Dead on arrival, it becomes the current socket and is never reported by any event. */
  lemma DeadOnArrivalIsSilent(c: Config, w: World, steps: seq<Step>, w': World, i: nat)
    requires Silent(w.s, i) && Run(c, w, steps, w')
    ensures Silent(w'.s, i)
  {
    RestsThrough(c, w, steps, w', i, None, 0);
  }

  /**
    Disconnect closes a live socket for good: it sets the flag, takes back a forced reconnect, leaves no
    socket and no waiter, and in no run that follows is that socket ever reported.
   */
  lemma DisconnectedIsSilent(c: Config, w: World, i: nat, steps: seq<Step>, w': World)
    requires Reachable(c, w) && Live(w.s) && w.s.current == Some(i)
    requires Run(c, Apply(c, w, Disconnect), steps, w')
    ensures var t := Apply(c, w, Disconnect).s;
      && t.expected && !t.force && t.current == None && t.waiters == 0
      && t.sockets[i].destroyed && t.sockets[i].dropped
    ensures Silent(w'.s, i)
  {
    ReachableInv(c, w);
    assert SocketInv(w.s, i);
    RestsThrough(c, Apply(c, w, Disconnect), steps, w', i, None, 0);
  }

  lemma DeadOnArrival(s: State)
    requires Valid(s) && !s.deleted && !Live(s)
    ensures var t := Attempted(s, Opens(true)).state;
      t.current.Some? && Silent(t, t.current.value) && !t.expected
  {}
}
