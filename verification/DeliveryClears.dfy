/**
  What a recorded clear means when deliveries may overlap: a delivery dispatches the payload after it
  only if it was already holding the plaintext; none that starts later ever does.
 */
module DeliveryClears {
  import opened Prelude
  import opened Delivery
  import opened DeliveryRuns
  import Padding

  ghost predicate IsCleared(w: World, k: Key) {
    k in w.store.buffer && w.store.buffer[k].None?
  }

  /** The delivery has fetched or decrypted the payload and not yet handed it over. */
  ghost predicate Holds(w: World, id: nat, k: Key) {
    id in w.active && HoldsPayload(w.active[id], k)
  }

  predicate HoldsPayload(d: Delivery, k: Key) {
    Running(d) && d.phase.Use? && CurrentKey(d) == Some(k)
  }

  /** What the log has gained since: dispatches of the payload by holders only. */
  ghost predicate OnlyHolders(w: World, k: Key, log: seq<Event>) {
    forall n | |w.log| <= n < |log| && log[n].Dispatched? && log[n].key == Some(k) :: Holds(w, log[n].id, k)
  }

  lemma NoNewHolder(base: set<Key>, w: World, d: Delivery, env: Env, k: Key)
    requires StoreInv(base, w) && IsCleared(w, k) && Running(d)
    ensures var r := Step(true, w.store, d, env);
      && k in r.store.buffer && r.store.buffer[k].None?
      && !HoldsPayload(r.d, k)
      && forall e <- r.events :: e.Dispatched? && e.key == Some(k) ==> HoldsPayload(d, k) && e.id == d.id
  {
    DispatchesOnlyFromUse(w.store, d, env);
    if d.phase.Use? {
      UsedEnds(w.store, d, env);
    } else if d.phase.Commit? {
      CommitIgnores(base, w, d, env, k);
    }
  }

  lemma CommitIgnores(base: set<Key>, w: World, d: Delivery, env: Env, k: Key)
    requires StoreInv(base, w) && IsCleared(w, k) && Running(d) && d.phase.Commit?
    ensures var r := StepCommit(true, w.store, d, env);
      k in r.store.buffer && r.store.buffer[k].None? && !HoldsPayload(r.d, k)
  {
    if Current(d).key == k {
      assert k in w.store.consumed;
    }
  }

  /** One step after the clear: it stays, no delivery comes to hold the payload, only holders dispatch it. */
  ghost predicate StaysCleared(w: World, w': World, k: Key) {
    && IsCleared(w', k) && w.log <= w'.log && OnlyHolders(w, k, w'.log)
    && forall id :: Holds(w', id, k) ==> Holds(w, id, k)
  }

  lemma AdvanceAfterClear(base: set<Key>, w: World, id: nat, env: Env, k: Key)
    requires Inv(base, w) && IsCleared(w, k) && Enabled(Overlapping, w, Advance(id, env))
    ensures StaysCleared(w, Apply(w, Advance(id, env)), k)
  {
    var d, w' := w.active[id], Apply(w, Advance(id, env));
    var r := Step(true, w.store, d, env);
    NoNewHolder(base, w, d, env, k);
    assert DeliveryInv(w, id);
    forall n | |w.log| <= n < |w'.log| && w'.log[n].Dispatched? && w'.log[n].key == Some(k)
      ensures Holds(w, w'.log[n].id, k)
    {
      assert w'.log[n] == r.events[n - |w.log|];
    }
  }

  lemma ArriveAfterClear(w: World, node: Node, k: Key)
    requires IsCleared(w, k) && forall id <- w.active :: id < w.nextId
    ensures StaysCleared(w, Apply(w, Arrive(node)), k)
  {
    var w' := Apply(w, Arrive(node));
    var (d, events) := Begin(w.nextId, node);
    forall n | |w.log| <= n < |w'.log| ensures !w'.log[n].Dispatched? {
      assert w'.log[n] == events[n - |w.log|];
    }
  }

  lemma StepAfterClear(base: set<Key>, w: World, step: WorldStep, k: Key)
    requires Inv(base, w) && IsCleared(w, k) && Enabled(Overlapping, w, step)
    ensures StaysCleared(w, Apply(w, step), k)
  {
    match step
    case Arrive(node) =>
      forall id <- w.active ensures id < w.nextId { assert DeliveryInv(w, id); }
      ArriveAfterClear(w, node, k);
    case Crash =>
    case Advance(id, env) => AdvanceAfterClear(base, w, id, env, k);
  }

  lemma {:induction false} RunAfterClear(base: set<Key>, w: World, steps: seq<WorldStep>, w': World, k: Key)
    requires Inv(base, w) && IsCleared(w, k) && Run(Overlapping, w, steps, w')
    ensures w.log <= w'.log && OnlyHolders(w, k, w'.log)
    decreases |steps|
  {
    if steps != [] {
      var next := Apply(w, steps[0]);
      StepAfterClear(base, w, steps[0], k);
      StepKeepsInv(base, w, steps[0]);
      RunAfterClear(base, next, steps[1..], w', k);
      HoldersCarryOver(w, next, w', k);
    }
  }

  lemma HoldersCarryOver(w: World, next: World, w': World, k: Key)
    requires w.log <= next.log <= w'.log
    requires OnlyHolders(w, k, next.log) && OnlyHolders(next, k, w'.log)
    requires forall id :: Holds(next, id, k) ==> Holds(w, id, k)
    ensures OnlyHolders(w, k, w'.log)
  {
    forall n | |w.log| <= n < |w'.log| && w'.log[n].Dispatched? && w'.log[n].key == Some(k)
      ensures Holds(w, w'.log[n].id, k)
    {
      if n < |next.log| { assert next.log[n] == w'.log[n]; }
    }
  }

  /**
    From any reachable state in which the clear of a payload is recorded, in every continuation with
    overlap and crashes: only a delivery that holds the plaintext at that moment dispatches it, so
    none that starts later does.
   */
  lemma OnlyHoldersDispatchAfterClear(base: set<Key>, w: World, k: Key, steps: seq<WorldStep>, w': World, n: nat)
    requires Reachable(base, Overlapping, w) && IsCleared(w, k) && Run(Overlapping, w, steps, w')
    requires n < |w'.log| && w'.log[n].Dispatched? && w'.log[n].key == Some(k)
    ensures w.log <= w'.log
    ensures n >= |w.log| ==> Holds(w, w'.log[n].id, k)
    ensures w'.log[n].id < w.nextId
  {
    ReachableInv(base, Overlapping, w);
    RunAfterClear(base, w, steps, w', k);
    if n < |w.log| {
      assert w.log[n] == w'.log[n] && EventInv(w, w.log[n]);
    } else {
      assert DeliveryInv(w, w'.log[n].id);
    }
  }

  /** And each holder can: with a readable payload, its next step hands the payload over once more. */
  lemma HolderCanDispatch(base: set<Key>, w: World, id: nat, k: Key, env: Env)
    requires Reachable(base, Overlapping, w) && Holds(w, id, k)
    requires Current(w.active[id]).version in {2, 3}
    requires Padding.UnpadMessage(w.active[id].phase.padded, Current(w.active[id]).version).Ok?
    requires env.decodes && env.protocolOk && env.hasMessage
    ensures Enabled(Overlapping, w, Advance(id, env))
    ensures exists e <- Apply(w, Advance(id, env)).log[|w.log|..] :: e.Dispatched? && e.key == Some(k)
  {
    ReachableInv(base, Overlapping, w);
    var r := Step(true, w.store, w.active[id], env);
    var d := w.active[id];
    var e := Dispatched(d.id, Some(k), d.phase.padded, HandlerFailed(env.handlers));
    assert r.events == [Decoded(d.id, Some(k), true), e];
    assert Apply(w, Advance(id, env)).log[|w.log|..] == r.events;
  }

  // ---------- such a run ----------

  const HANDED := [Decoded(0, Some([1]), true), Dispatched(0, Some([1]), [7, 1], false)]
  const HANDED_AGAIN := [Decoded(1, Some([1]), true), Dispatched(1, Some([1]), [7, 1], false)]
  const CLEARED := Cleared(0, Some([1]))
  const WIPED := Store(map[[1] := None], {[1]})

  lemma FirstHolds()
    ensures Reachable({}, Overlapping, World(FULL, map[0 := Point(0, 0, Use([7, 1])), 1 := Point(1, 0, Fetch)], 2,
                                      [COMMITTED]))
  {
    OverlapBoth();
    var w0 := World(EMPTY, map[0 := Point(0, 0, Fetch), 1 := Point(1, 0, Fetch)], 2, []);
    var w1 := World(EMPTY, map[0 := Point(0, 0, Commit), 1 := Point(1, 0, Fetch)], 2, []);
    var w2 := World(FULL, map[0 := Point(0, 0, Use([7, 1])), 1 := Point(1, 0, Fetch)], 2, [COMMITTED]);
    assert Step(true, EMPTY, Point(0, 0, Fetch), ENV) == StepResult(EMPTY, Point(0, 0, Commit), []);
    ReachStep({}, w0, Advance(0, ENV), w1);
    assert Step(true, EMPTY, Point(0, 0, Commit), ENV) == StepResult(FULL, Point(0, 0, Use([7, 1])), [COMMITTED]);
    ReachStep({}, w1, Advance(0, ENV), w2);
  }

  /** Delivery 1 of a stanza fetches the plaintext that delivery 0 has committed. */
  lemma BothHold()
    ensures Reachable({}, Overlapping, World(FULL, map[0 := Point(0, 0, Use([7, 1])), 1 := Point(1, 0, Use([7, 1]))], 2,
                                      [COMMITTED]))
  {
    FirstHolds();
    var w2 := World(FULL, map[0 := Point(0, 0, Use([7, 1])), 1 := Point(1, 0, Fetch)], 2, [COMMITTED]);
    assert Step(true, FULL, Point(1, 0, Fetch), ENV) == StepResult(FULL, Point(1, 0, Use([7, 1])), []);
    ReachStep({}, w2, Advance(1, ENV),
              World(FULL, map[0 := Point(0, 0, Use([7, 1])), 1 := Point(1, 0, Use([7, 1]))], 2, [COMMITTED]));
  }

  lemma FirstClears()
    ensures Reachable({}, Overlapping, World(WIPED, map[0 := Point(0, 1, Next), 1 := Point(1, 0, Use([7, 1]))], 2,
                                      [COMMITTED] + HANDED + [CLEARED]))
  {
    BothHold();
    var w0 := World(FULL, map[0 := Point(0, 0, Use([7, 1])), 1 := Point(1, 0, Use([7, 1]))], 2, [COMMITTED]);
    var w1 := World(FULL, map[0 := Point(0, 0, Clear), 1 := Point(1, 0, Use([7, 1]))], 2, [COMMITTED] + HANDED);
    UnpadOne();
    assert Step(true, FULL, Point(0, 0, Use([7, 1])), ENV) == StepResult(FULL, Point(0, 0, Clear), HANDED);
    ReachStep({}, w0, Advance(0, ENV), w1);
    assert Step(true, FULL, Point(0, 0, Clear), ENV) == StepResult(WIPED, Point(0, 1, Next), [CLEARED]);
    ReachStep({}, w1, Advance(0, ENV),
              World(WIPED, map[0 := Point(0, 1, Next), 1 := Point(1, 0, Use([7, 1]))], 2,
                    [COMMITTED] + HANDED + [CLEARED]));
  }

  lemma UnpadOne()
    ensures Padding.UnpadMessage([7, 1], 2) == Ok([7])
  {
    Padding.UnpadAcceptsExactlyPadded([7, 1], 2, [7]);
    assert Padding.Repeat(1, 1) == [1];
    assert [7, 1] == [7] + [1];
  }

  /** With overlap, a delivery that was holding the plaintext dispatches it after the clear. */
  lemma OverlapCanDispatchAfterClear()
    ensures exists w: World, a: nat, b: nat ::
      && Reachable({}, Overlapping, w) && a < b < |w.log|
      && w.log[a].Cleared? && w.log[b].Dispatched? && w.log[a].key == w.log[b].key
  {
    FirstClears();
    UnpadOne();
    var log := [COMMITTED] + HANDED + [CLEARED];
    var w0 := World(WIPED, map[0 := Point(0, 1, Next), 1 := Point(1, 0, Use([7, 1]))], 2, log);
    var w := World(WIPED, map[0 := Point(0, 1, Next), 1 := Point(1, 0, Clear)], 2, log + HANDED_AGAIN);
    assert Step(true, WIPED, Point(1, 0, Use([7, 1])), ENV) == StepResult(WIPED, Point(1, 0, Clear), HANDED_AGAIN);
    ReachStep({}, w0, Advance(1, ENV), w);
    assert w.log[3] == CLEARED && w.log[5] == HANDED_AGAIN[1];
  }
}
