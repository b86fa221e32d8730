/**
  The start/stop protocol of the history-sync worker: producers put a notification in a bounded
  channel and then try to claim the "started" flag; the owner of the flag runs the loop, may time
  out at any select, and re-checks the channel after it has released the flag.  Every atomic
  operation of the source is one step here, and the steps of any number of producers and workers
  interleave in any order.
 */
module HistorySync {
  import opened Prelude

  // make(chan *waE2E.HistorySyncNotification, 32)
  const CAPACITY: nat := 32

  type Notification = nat

  datatype Thread =
    | Sending(item: Notification)   // producer before the channel send
    | Claiming                      // producer before its compare-and-swap
    | Looping                       // worker at the select
    | Handling(item: Notification)  // worker downloading and dispatching
    | Stopping                      // worker left the loop, flag not yet released
    | Rechecking                    // flag released, channel length not yet read
    | Reclaiming                    // channel seen non-empty, before the compare-and-swap
    | Ended

  datatype State = State(
    queue: seq<Notification>,
    started: bool,
    threads: seq<Thread>,
    sent: seq<Notification>,       // history: everything ever put in the channel
    received: seq<Notification>,   // history: everything ever taken out of it
    handled: seq<Notification>)    // history: everything downloaded and dispatched, or tried to

  datatype Step =
    | Deliver(item: Notification)  // a new protocol message reaches the client
    | Send(i: nat)
    | Claim(i: nat)
    | Receive(i: nat)
    | Finish(i: nat)
    | Panic(i: nat)                // handling panics; the deferred function recovers it
    | Timeout(i: nat)
    | Release(i: nat)
    | Recheck(i: nat)
    | Reclaim(i: nat)

  const START := State([], false, [], [], [], [])

  predicate At(s: State, i: nat, t: Thread) {
    i < |s.threads| && s.threads[i] == t
  }

  predicate Enabled(s: State, step: Step) {
    match step
    case Deliver(_) => true
    case Send(i) => i < |s.threads| && s.threads[i].Sending? && |s.queue| < CAPACITY
    case Claim(i) => At(s, i, Claiming)
    case Receive(i) => At(s, i, Looping) && s.queue != []
    case Finish(i) => i < |s.threads| && s.threads[i].Handling?
    case Panic(i) => i < |s.threads| && s.threads[i].Handling?
    case Timeout(i) => At(s, i, Looping)
    case Release(i) => At(s, i, Stopping)
    case Recheck(i) => At(s, i, Rechecking)
    case Reclaim(i) => At(s, i, Reclaiming)
  }

  /** CompareAndSwap(false, true) by thread i, which spawns a worker when it wins. */
  function CompareAndSpawn(s: State, i: nat): State
    requires i < |s.threads|
  {
    if s.started then s.(threads := s.threads[i := Ended])
    else s.(started := true, threads := s.threads[i := Ended] + [Looping])
  }

  function Apply(s: State, step: Step): State
    requires Enabled(s, step)
  {
    match step
    case Deliver(n) => s.(threads := s.threads + [Sending(n)])
    case Send(i) =>
      var n := s.threads[i].item;
      s.(queue := s.queue + [n], sent := s.sent + [n], threads := s.threads[i := Claiming])
    case Claim(i) => CompareAndSpawn(s, i)
    case Receive(i) =>
      s.(queue := s.queue[1..], received := s.received + [s.queue[0]],
         threads := s.threads[i := Handling(s.queue[0])])
    case Finish(i) => s.(handled := s.handled + [s.threads[i].item], threads := s.threads[i := Looping])
    case Panic(i) => s.(handled := s.handled + [s.threads[i].item], threads := s.threads[i := Stopping])
    case Timeout(i) => s.(threads := s.threads[i := Stopping])
    case Release(i) => s.(started := false, threads := s.threads[i := Rechecking])
    case Recheck(i) => s.(threads := s.threads[i := if s.queue != [] then Reclaiming else Ended])
    case Reclaim(i) => CompareAndSpawn(s, i)
  }

  ghost predicate Run(s: State, steps: seq<Step>, s': State)
    decreases |steps|
  {
    if steps == [] then s == s'
    else Enabled(s, steps[0]) && Run(Apply(s, steps[0]), steps[1..], s')
  }

  ghost predicate Reachable(s: State) {
    exists steps :: Run(START, steps, s)
  }

  // ---------- sums over the thread pool ----------

  function Total(ts: seq<Thread>, w: Thread -> nat): nat {
    if ts == [] then 0 else Total(ts[..|ts| - 1], w) + w(ts[|ts| - 1])
  }

  lemma {:induction false} TotalUpdate(ts: seq<Thread>, w: Thread -> nat, i: nat, t: Thread)
    requires i < |ts|
    ensures Total(ts[i := t], w) + w(ts[i]) == Total(ts, w) + w(t)
  {
    var last := |ts| - 1;
    if i == last {
      assert ts[i := t][..last] == ts[..last];
    } else {
      assert ts[i := t][..last] == ts[..last][i := t];
      TotalUpdate(ts[..last], w, i, t);
    }
  }

  lemma TotalAppend(ts: seq<Thread>, w: Thread -> nat, t: Thread)
    ensures Total(ts + [t], w) == Total(ts, w) + w(t)
  {
    assert (ts + [t])[..|ts|] == ts;
  }

  lemma {:induction false} TotalAtLeast(ts: seq<Thread>, w: Thread -> nat, i: nat)
    requires i < |ts|
    ensures Total(ts, w) >= w(ts[i])
  {
    if i < |ts| - 1 { TotalAtLeast(ts[..|ts| - 1], w, i); }
  }

  lemma {:induction false} TotalWitness(ts: seq<Thread>, w: Thread -> nat) returns (i: nat)
    requires Total(ts, w) > 0
    ensures i < |ts| && w(ts[i]) > 0
  {
    i := |ts| - 1;
    if w(ts[i]) == 0 { i := TotalWitness(ts[..i], w); }
  }

  lemma {:induction false} TotalTwo(ts: seq<Thread>, w: Thread -> nat, i: nat, j: nat)
    requires i < j < |ts|
    ensures Total(ts, w) >= w(ts[i]) + w(ts[j])
  {
    var last := |ts| - 1;
    if j == last { TotalAtLeast(ts[..last], w, i); }
    else { TotalTwo(ts[..last], w, i, j); }
  }

  // ---------- the inductive invariant ----------

  /** A thread that will still call Store(false): the owner of the started flag. */
  function Owns(t: Thread): nat {
    if t.Looping? || t.Handling? || t.Stopping? then 1 else 0
  }

  /** A thread that will still look at the flag or at the channel. */
  function Watches(t: Thread): nat {
    if t.Claiming? || t.Rechecking? || t.Reclaiming? then 1 else 0
  }

  /** Bounds the steps a thread still takes when nothing is sent and no select times out. */
  function Weight(t: Thread): nat {
    match t
    case Handling(_) => 4
    case Stopping => 3
    case Rechecking => 2
    case Reclaiming => 1
    case Claiming => 1
    case _ => 0
  }

  /** The notifications in the hands of workers. */
  function InHand(ts: seq<Thread>): seq<Notification> {
    if ts == [] then [] else InHand(ts[..|ts| - 1]) + HeldBy(ts[|ts| - 1])
  }

  function HeldBy(t: Thread): seq<Notification> {
    if t.Handling? then [t.item] else []
  }

  lemma {:induction false} HandUpdate(ts: seq<Thread>, i: nat, t: Thread)
    requires i < |ts| && HeldBy(ts[i]) == HeldBy(t)
    ensures InHand(ts[i := t]) == InHand(ts)
  {
    var last := |ts| - 1;
    if i == last {
      assert ts[i := t][..last] == ts[..last];
    } else {
      assert ts[i := t][..last] == ts[..last][i := t];
      HandUpdate(ts[..last], i, t);
    }
  }

  lemma HandAppend(ts: seq<Thread>, t: Thread)
    ensures InHand(ts + [t]) == InHand(ts) + HeldBy(t)
  {
    assert (ts + [t])[..|ts|] == ts;
  }

  lemma {:induction false} NobodyHolds(ts: seq<Thread>)
    requires forall i | 0 <= i < |ts| :: HeldBy(ts[i]) == []
    ensures InHand(ts) == []
  {
    if ts != [] { NobodyHolds(ts[..|ts| - 1]); }
  }

  /** Only the owner can have one in its hands. */
  lemma {:induction false} OwnerHolds(ts: seq<Thread>, i: nat)
    requires i < |ts| && Owns(ts[i]) == 1 == Total(ts, Owns)
    ensures InHand(ts) == HeldBy(ts[i])
  {
    var last := |ts| - 1;
    if i == last {
      forall j | 0 <= j < last ensures HeldBy(ts[..last][j]) == [] {
        TotalAtLeast(ts[..last], Owns, j);
      }
      NobodyHolds(ts[..last]);
    } else {
      TotalAtLeast(ts[..last], Owns, i);
      OwnerHolds(ts[..last], i);
    }
  }

  ghost predicate Inv(s: State) {
    && Total(s.threads, Owns) == (if s.started then 1 else 0)
    && (s.queue != [] && !s.started ==> Total(s.threads, Watches) > 0)
    && |s.queue| <= CAPACITY
    && s.received + s.queue == s.sent
    && Handed(s)
  }

  /** How the sums move when thread i becomes t, and possibly a worker is spawned. */
  lemma Moved(s: State, i: nat, t: Thread, w: Thread -> nat)
    requires i < |s.threads|
    ensures Total(s.threads[i := t], w) + w(s.threads[i]) == Total(s.threads, w) + w(t)
    ensures Total(s.threads[i := t] + [Looping], w) == Total(s.threads[i := t], w) + w(Looping)
    ensures Total(s.threads, w) >= w(s.threads[i])
  {
    TotalUpdate(s.threads, w, i, t);
    TotalAppend(s.threads[i := t], w, Looping);
    TotalAtLeast(s.threads, w, i);
  }

  lemma StepMoves(s: State, step: Step, w: Thread -> nat)
    requires Enabled(s, step)
    ensures step.Deliver? ==> Total(Apply(s, step).threads, w) == Total(s.threads, w) + w(Sending(step.item))
    ensures !step.Deliver? ==>
              var old', new' := s.threads[step.i], Apply(s, step).threads[step.i];
              && Total(s.threads, w) >= w(old')
              && Total(Apply(s, step).threads, w) + w(old')
                 == Total(s.threads, w) + w(new')
                    + (if (step.Claim? || step.Reclaim?) && !s.started then w(Looping) else 0)
  {
    if step.Deliver? {
      TotalAppend(s.threads, w, Sending(step.item));
    } else {
      Moved(s, step.i, Apply(s, step).threads[step.i], w);
    }
  }

  ghost predicate Handed(s: State) {
    s.received == s.handled + InHand(s.threads)
  }

  /** The owner takes an item, or is done with it. */
  lemma OwnerKeepsHands(s: State, step: Step)
    requires Inv(s) && Enabled(s, step) && (step.Receive? || step.Finish? || step.Panic?)
    ensures Handed(Apply(s, step))
  {
    var s' := Apply(s, step);
    TotalAtLeast(s.threads, Owns, step.i);
    OwnerHolds(s.threads, step.i);
    TotalUpdate(s.threads, Owns, step.i, s'.threads[step.i]);
    OwnerHolds(s'.threads, step.i);
  }

  lemma OthersKeepHands(s: State, step: Step)
    requires Handed(s) && Enabled(s, step) && !step.Deliver? && !(step.Receive? || step.Finish? || step.Panic?)
    ensures Handed(Apply(s, step))
  {
    var t := Apply(s, step).threads[step.i];
    HandUpdate(s.threads, step.i, t);
    HandAppend(s.threads[step.i := t], Looping);
  }

  lemma StepKeepsHands(s: State, step: Step)
    requires Inv(s) && Enabled(s, step)
    ensures Handed(Apply(s, step))
  {
    match step
    case Deliver(n) => HandAppend(s.threads, Sending(n));
    case Receive(_) => OwnerKeepsHands(s, step);
    case Finish(_) => OwnerKeepsHands(s, step);
    case Panic(_) => OwnerKeepsHands(s, step);
    case _ => OthersKeepHands(s, step);
  }

  lemma StepKeepsOrder(s: State, step: Step)
    requires s.received + s.queue == s.sent && Enabled(s, step)
    ensures var s' := Apply(s, step); s'.received + s'.queue == s'.sent
  {
    if step.Receive? {
      assert s.received + s.queue == s.received + [s.queue[0]] + s.queue[1..];
    } else if step.Send? {
      Associative(s.received, s.queue, [s.threads[step.i].item]);
    }
  }

  lemma StepKeepsOwner(s: State, step: Step)
    requires Inv(s) && Enabled(s, step)
    ensures var s' := Apply(s, step); Total(s'.threads, Owns) == (if s'.started then 1 else 0)
  {
    StepMoves(s, step, Owns);
  }

  lemma StepKeepsWatch(s: State, step: Step)
    requires Inv(s) && Enabled(s, step)
    ensures var s' := Apply(s, step); s'.queue != [] && !s'.started ==> Total(s'.threads, Watches) > 0
  {
    StepMoves(s, step, Watches);
  }

  lemma StepKeepsInv(s: State, step: Step)
    requires Inv(s) && Enabled(s, step)
    ensures Inv(Apply(s, step))
  {
    StepKeepsHands(s, step);
    StepKeepsOrder(s, step);
    StepKeepsOwner(s, step);
    StepKeepsWatch(s, step);
  }

  lemma {:induction false} RunKeepsInv(s: State, steps: seq<Step>, s': State)
    requires Inv(s) && Run(s, steps, s')
    ensures Inv(s')
    decreases |steps|
  {
    if steps != [] {
      StepKeepsInv(s, steps[0]);
      RunKeepsInv(Apply(s, steps[0]), steps[1..], s');
    }
  }

  // ---------- main results ----------

  /** In every interleaving: the flag is set exactly when one worker owns it, and never two do. */
  lemma FlagMeansOneOwner(s: State)
    requires Reachable(s)
    ensures s.started <==> exists i :: 0 <= i < |s.threads| && Owns(s.threads[i]) == 1
    ensures forall i, j | 0 <= i < |s.threads| && 0 <= j < |s.threads| ::
              Owns(s.threads[i]) == 1 && Owns(s.threads[j]) == 1 ==> i == j
  {
    var steps :| Run(START, steps, s);
    RunKeepsInv(START, steps, s);
    if s.started {
      var i := TotalWitness(s.threads, Owns);
    }
    forall i: nat | i < |s.threads| && Owns(s.threads[i]) == 1 ensures s.started {
      TotalAtLeast(s.threads, Owns, i);
    }
    forall i: nat, j: nat | i < j < |s.threads| && Owns(s.threads[i]) == 1
      ensures Owns(s.threads[j]) == 0
    {
      TotalTwo(s.threads, Owns, i, j);
    }
  }

  /** Work that waits while no worker owns the flag is always about to be noticed. */
  lemma UnownedWorkIsWatched(s: State)
    requires Reachable(s) && s.queue != [] && !s.started
    ensures exists i :: 0 <= i < |s.threads| && Watches(s.threads[i]) == 1
  {
    var steps :| Run(START, steps, s);
    RunKeepsInv(START, steps, s);
    var i := TotalWitness(s.threads, Watches);
  }

  /** No notification is lost, duplicated or reordered, and the channel never overflows. */
  lemma ReceivedThenQueuedIsSent(s: State)
    requires Reachable(s)
    ensures s.received + s.queue == s.sent && |s.queue| <= CAPACITY
  {
    var steps :| Run(START, steps, s);
    RunKeepsInv(START, steps, s);
  }

  /** What has been received is handled, in order, but for the one item a worker is handling. */
  lemma HandledThenHeldIsReceived(s: State)
    requires Reachable(s)
    ensures forall i | 0 <= i < |s.threads| && s.threads[i].Handling? :: s.received == s.handled + [s.threads[i].item]
    ensures (forall i | 0 <= i < |s.threads| :: !s.threads[i].Handling?) ==> s.received == s.handled
  {
    var steps :| Run(START, steps, s);
    RunKeepsInv(START, steps, s);
    forall i | 0 <= i < |s.threads| && s.threads[i].Handling? ensures InHand(s.threads) == HeldBy(s.threads[i]) {
      TotalAtLeast(s.threads, Owns, i);
      OwnerHolds(s.threads, i);
    }
    if forall i | 0 <= i < |s.threads| :: !s.threads[i].Handling? {
      NobodyHolds(s.threads);
    }
  }

  /** Steps that a thread takes by itself: neither new work nor the one-minute timer. */
  predicate Internal(step: Step) {
    !step.Deliver? && !step.Send? && !step.Timeout?
  }

  /** As long as something sent is not handled, there is a thread that can act on it. */
  lemma UnhandledWorkCanProceed(s: State) returns (step: Step)
    requires Inv(s) && s.handled != s.sent
    ensures Internal(step) && Enabled(s, step)
  {
    var i: nat;
    if s.queue == [] {
      if forall j | 0 <= j < |s.threads| :: HeldBy(s.threads[j]) == [] {
        NobodyHolds(s.threads);
      }
      i :| i < |s.threads| && HeldBy(s.threads[i]) != [];
      step := Finish(i);
    } else if s.started {
      i := TotalWitness(s.threads, Owns);
      match s.threads[i]
      case Looping => step := Receive(i);
      case Handling(_) => step := Finish(i);
      case Stopping => step := Release(i);
    } else {
      i := TotalWitness(s.threads, Watches);
      match s.threads[i]
      case Claiming => step := Claim(i);
      case Rechecking => step := Recheck(i);
      case Reclaiming => step := Reclaim(i);
    }
  }

  ghost predicate AtRest(s: State) {
    forall step :: Internal(step) ==> !Enabled(s, step)
  }

  /** When every thread has come to rest, everything that was sent has been handled, in order. */
  lemma NothingIsStranded(s: State)
    requires Reachable(s) && AtRest(s)
    ensures s.queue == [] && s.handled == s.sent
  {
    var steps :| Run(START, steps, s);
    RunKeepsInv(START, steps, s);
    if s.handled != s.sent {
      var step := UnhandledWorkCanProceed(s);
    } else {
      assert |s.received| + |s.queue| == |s.sent| == |s.handled|;
    }
  }

  // ---------- what reached the client ----------

  function Delivered(steps: seq<Step>): multiset<Notification> {
    if steps == [] then multiset{}
    else (if steps[0].Deliver? then multiset{steps[0].item} else multiset{}) + Delivered(steps[1..])
  }

  function IsSending(n: Notification): Thread -> nat {
    t => if t == Sending(n) then 1 else 0
  }

  /** How often a notification is waiting for room in the channel. */
  function Unsent(s: State, n: Notification): nat {
    Total(s.threads, IsSending(n))
  }

  lemma StepDelivers(s: State, step: Step, n: Notification)
    requires Enabled(s, step)
    ensures var s' := Apply(s, step);
      multiset(s'.sent)[n] + Unsent(s', n)
      == multiset(s.sent)[n] + Unsent(s, n) + if step == Deliver(n) then 1 else 0
  {
    StepMoves(s, step, IsSending(n));
  }

  lemma {:induction false} DeliveredIsSentOrUnsent(s: State, steps: seq<Step>, s': State, n: Notification)
    requires Run(s, steps, s')
    ensures multiset(s.sent)[n] + Unsent(s, n) + Delivered(steps)[n] == multiset(s'.sent)[n] + Unsent(s', n)
    decreases |steps|
  {
    if steps != [] {
      StepDelivers(s, steps[0], n);
      DeliveredIsSentOrUnsent(Apply(s, steps[0]), steps[1..], s', n);
    }
  }

  /**
    When neither a thread nor a producer can take another step, the notifications that reached the
    client are exactly those that were handled, as often as they came.
   */
  lemma EverythingDeliveredIsHandled(steps: seq<Step>, s: State)
    requires Run(START, steps, s) && AtRest(s)
    requires forall i :: !Enabled(s, Send(i))
    ensures multiset(s.handled) == Delivered(steps)
  {
    NothingIsStranded(s);
    forall n ensures multiset(s.handled)[n] == Delivered(steps)[n] {
      DeliveredIsSentOrUnsent(START, steps, s, n);
      if Unsent(s, n) > 0 {
        var i := TotalWitness(s.threads, IsSending(n));
        assert Enabled(s, Send(i));
      }
    }
  }

  // ---------- the work is bounded ----------

  function Fuel(s: State): nat {
    Total(s.threads, Weight) + 5 * |s.queue|
  }

  function StepCost(step: Step): nat {
    if step.Send? then 6 else if step.Timeout? then 3 else 0
  }

  function Cost(steps: seq<Step>): nat {
    if steps == [] then 0 else StepCost(steps[0]) + Cost(steps[1..])
  }

  function InternalSteps(steps: seq<Step>): nat {
    if steps == [] then 0
    else (if Internal(steps[0]) then 1 else 0) + InternalSteps(steps[1..])
  }

  lemma StepFuel(s: State, step: Step)
    requires Enabled(s, step)
    ensures (if Internal(step) then 1 else 0) + Fuel(Apply(s, step)) <= Fuel(s) + StepCost(step)
  {
    StepMoves(s, step, Weight);
  }

  /**
    No scheduler can keep the threads busy without new work: a run takes at most six internal
    steps for each notification sent and three for each timeout, on top of the work already there.
    With NothingIsStranded this is liveness: once sends and timeouts stop, everything gets handled.
   */
  lemma {:induction false} InternalStepsAreBounded(s: State, steps: seq<Step>, s': State)
    requires Run(s, steps, s')
    ensures InternalSteps(steps) + Fuel(s') <= Fuel(s) + Cost(steps)
    decreases |steps|
  {
    if steps != [] {
      StepFuel(s, steps[0]);
      InternalStepsAreBounded(Apply(s, steps[0]), steps[1..], s');
    }
  }

  lemma {:induction false} DrainFrom(s: State) returns (steps: seq<Step>, s': State)
    requires Inv(s)
    ensures Run(s, steps, s') && forall k :: 0 <= k < |steps| ==> Internal(steps[k])
    ensures s'.handled == s.sent == s'.sent
    decreases Fuel(s)
  {
    if s.handled == s.sent {
      steps, s' := [], s;
    } else {
      var step := UnhandledWorkCanProceed(s);
      StepKeepsInv(s, step);
      StepFuel(s, step);
      var rest;
      rest, s' := DrainFrom(Apply(s, step));
      steps := [step] + rest;
    }
  }

  /** From any reachable state the threads alone can handle everything that was sent. */
  lemma CanDrain(s: State) returns (steps: seq<Step>, s': State)
    requires Reachable(s)
    ensures Run(s, steps, s') && forall k :: 0 <= k < |steps| ==> Internal(steps[k])
    ensures s'.queue == [] && s'.handled == s.sent == s'.sent
  {
    var before :| Run(START, before, s);
    RunKeepsInv(START, before, s);
    steps, s' := DrainFrom(s);
    RunKeepsInv(s, steps, s');
    assert |s'.received| + |s'.queue| == |s'.sent| == |s'.handled|;
  }

  /** And whatever reaches the client in any reachable state can be handled as the next one. */
  lemma CanHandle(s: State, n: Notification) returns (steps: seq<Step>, s': State)
    requires Reachable(s)
    ensures Run(s, steps, s') && Delivered(steps) == multiset{n}
    ensures s'.handled == s.sent + [n]
  {
    var before :| Run(START, before, s);
    RunKeepsInv(START, before, s);
    var first, s1 := CanDrain(s);
    RunKeepsInv(s, first, s1);
    var s2 := Apply(s1, Deliver(n));
    var s3 := Apply(s2, Send(|s1.threads|));
    StepKeepsInv(s1, Deliver(n));
    StepKeepsInv(s2, Send(|s1.threads|));
    var last;
    last, s' := DrainFrom(s3);
    assert Run(s2, [Send(|s1.threads|)] + last, s') by {
      assert ([Send(|s1.threads|)] + last)[1..] == last;
    }
    assert Run(s1, [Deliver(n)] + ([Send(|s1.threads|)] + last), s') by {
      assert ([Deliver(n)] + ([Send(|s1.threads|)] + last))[1..] == [Send(|s1.threads|)] + last;
    }
    steps := first + ([Deliver(n)] + ([Send(|s1.threads|)] + last));
    RunsJoin(s, first, s1, [Deliver(n)] + ([Send(|s1.threads|)] + last), s');
    DeliversNothing(first);
    DeliversNothing(last);
  }

  lemma {:induction false} DeliversNothing(steps: seq<Step>)
    requires forall k :: 0 <= k < |steps| ==> Internal(steps[k])
    ensures Delivered(steps) == multiset{}
  {
    if steps != [] { DeliversNothing(steps[1..]); }
  }

  lemma {:induction false} RunsJoin(s: State, a: seq<Step>, s1: State, b: seq<Step>, s2: State)
    requires Run(s, a, s1) && Run(s1, b, s2)
    ensures Run(s, a + b, s2) && Delivered(a + b) == Delivered(a) + Delivered(b)
    decreases |a|
  {
    if a == [] {
      assert a + b == b;
    } else {
      assert (a + b)[0] == a[0] && (a + b)[1..] == a[1..] + b;
      RunsJoin(Apply(s, a[0]), a[1..], s1, b, s2);
    }
  }
}
