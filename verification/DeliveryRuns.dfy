/**
  Whole runs with the event buffer on: stanzas arrive and are redelivered, handlers refuse or
  panic, store calls fail, and the process may crash between any two store operations.  A node
  handler loop starts the next stanza only when the previous one is finished, but it gives up waiting
  after five minutes, and every connection starts a loop of its own over the same queue, so a handler
  that is still running across a reconnect overlaps with the next stanza.
 */
module DeliveryRuns {
  import opened Prelude
  import opened Delivery

  datatype World = World(store: Store, active: map<nat, Delivery>, nextId: nat, log: seq<Event>)

  datatype WorldStep = Arrive(node: Node) | Advance(id: nat, env: Env) | Crash

  /** base: the ratchets already used up before the event buffer was switched on. */
  function Start(base: set<Key>): World {
    World(Store(map[], base), map[], 0, [])
  }

  predicate Quiet(w: World) {
    forall id | id in w.active :: w.active[id].phase.Done?
  }

  /** Two stanzas without a buffered payload in common. */
  predicate NothingShared(a: Node, b: Node) {
    forall c <- a.children, c' <- b.children :: Buffered(c) && Buffered(c') ==> c.key != c'.key
  }

  /**
    Which stanzas may arrive while deliveries are running: none, those that share no buffered payload
    with a running one, or any.
   */
  datatype Arrivals = Alone | Apart | Overlapping

  predicate MayArrive(arrivals: Arrivals, w: World, node: Node) {
    match arrivals
    case Alone => Quiet(w)
    case Apart => forall id <- w.active :: !w.active[id].phase.Done? ==> NothingShared(w.active[id].node, node)
    case Overlapping => true
  }

  predicate Enabled(arrivals: Arrivals, w: World, step: WorldStep) {
    match step
    case Arrive(node) => MayArrive(arrivals, w, node)
    case Advance(id, _) => id in w.active && Running(w.active[id])
    case Crash => true
  }

  function Apply(w: World, step: WorldStep): World
    requires Enabled(Overlapping, w, step)
  {
    match step
    case Arrive(node) =>
      var (d, events) := Begin(w.nextId, node);
      World(w.store, w.active[w.nextId := d], w.nextId + 1, w.log + events)
    case Advance(id, env) =>
      var r := Step(true, w.store, w.active[id], env);
      World(r.store, w.active[id := r.d], w.nextId, w.log + r.events)
    case Crash => w.(active := map[])
  }

  ghost predicate Run(arrivals: Arrivals, w: World, steps: seq<WorldStep>, w': World)
    decreases |steps|
  {
    if steps == [] then w == w'
    else Enabled(arrivals, w, steps[0]) && Run(arrivals, Apply(w, steps[0]), steps[1..], w')
  }

  ghost predicate Reachable(base: set<Key>, arrivals: Arrivals, w: World) {
    exists steps :: Run(arrivals, Start(base), steps, w)
  }

  // ---------- what the history says ----------

  /** The plaintexts committed for a key, in order. */
  function CommittedBytes(log: seq<Event>, k: Key): seq<Bytes> {
    if log == [] then []
    else
      var e := log[|log| - 1];
      CommittedBytes(log[..|log| - 1], k) + (if e.Committed? && e.key == Some(k) then [e.padded] else [])
  }

  /** The payload was handed over, swallowed without a dispatch, or could not be decoded. */
  ghost predicate Settles(e: Event, k: Key) {
    || (e.Dispatched? && e.key == Some(k) && !e.failed)
    || (e.Swallowed? && e.key == Some(k))
    || (e.Decoded? && e.key == Some(k) && !e.ok)
  }

  ghost predicate Settled(log: seq<Event>, k: Key) {
    exists e :: e in log && Settles(e, k)
  }

  /** Delivery id itself met an old counter for the payload. */
  predicate WasIgnored(log: seq<Event>, id: nat, k: Key) {
    Ignored(id, Some(k)) in log
  }

  ghost predicate SettledUpTo(log: seq<Event>, id: nat, node: Node, n: nat)
    requires n <= |node.children|
  {
    forall j | 0 <= j < n && Buffered(node.children[j]) ::
      Settled(log, node.children[j].key) || WasIgnored(log, id, node.children[j].key)
  }

  lemma {:induction false} CommittedAppend(log: seq<Event>, events: seq<Event>, k: Key)
    ensures CommittedBytes(log + events, k) == CommittedBytes(log, k) + CommittedBytes(events, k)
  {
    if events == [] {
      assert log + events == log;
    } else {
      var n := |events| - 1;
      assert (log + events)[..|log| + n] == log + events[..n];
      CommittedAppend(log, events[..n], k);
    }
  }

  lemma SettledMonotone(log: seq<Event>, events: seq<Event>)
    ensures forall k :: Settled(log, k) ==> Settled(log + events, k)
    ensures forall id, node: Node, n: nat | n <= |node.children| ::
              SettledUpTo(log, id, node, n) ==> SettledUpTo(log + events, id, node, n)
  {
    forall k | Settled(log, k) ensures Settled(log + events, k) {
      var e :| e in log && Settles(e, k);
      assert e in log + events;
    }
    assert forall id, k :: WasIgnored(log, id, k) ==> WasIgnored(log + events, id, k);
  }

  // ---------- invariants ----------

  /** Buffer entries, used-up ratchets and committed plaintexts always agree. */
  ghost predicate StoreInv(base: set<Key>, w: World) {
    && w.store.buffer.Keys !! base
    && w.store.consumed == base + w.store.buffer.Keys
    && (forall k :: |CommittedBytes(w.log, k)| == if k in w.store.buffer then 1 else 0)
    && (forall k | k in w.store.buffer :: w.store.buffer[k].Some? ==>
          CommittedBytes(w.log, k) == [w.store.buffer[k].value])
    && (forall k | k in w.store.buffer :: w.store.buffer[k].None? ==> Settled(w.log, k))
  }

  ghost predicate EventInv(w: World, e: Event) {
    && e.id < w.nextId
    && (e.Dispatched? && e.key.Some? ==> CommittedBytes(w.log, e.key.value) == [e.padded])
    && (e.Cleared? ==> e.key.Some? && e.key.value in w.store.buffer && w.store.buffer[e.key.value].None?)
    && (e.Replied? && (e.outcome.Receipt? || e.outcome.NackProtobuf?) ==>
          SettledUpTo(w.log, e.id, e.node, |e.node.children|))
    && (e.Dispatched? && e.failed && e.id in w.active ==> w.active[e.id].phase == Done(Silent))
    && (e.Replied? && e.id in w.active ==> w.active[e.id].phase == Done(e.outcome) && e.outcome != Silent)
  }

  ghost predicate DeliveryInv(w: World, id: nat)
    requires id in w.active
  {
    var d := w.active[id];
    && d.id == id < w.nextId
    && (d.phase.Done? || Running(d))
    && (!d.phase.Done? ==> SettledUpTo(w.log, d.id, d.node, d.i))
    && (d.phase.Use? && Buffered(Current(d)) ==> CommittedBytes(w.log, Current(d).key) == [d.phase.padded])
    && (d.phase.Clear? ==> Settled(w.log, Current(d).key))
  }

  /** A delivery whose handler failed never replies. */
  ghost predicate SilenceInv(w: World) {
    forall e, f | e in w.log && f in w.log ::
      e.Dispatched? && e.failed && f.Replied? ==> e.id != f.id
  }

  ghost predicate Inv(base: set<Key>, w: World) {
    && StoreInv(base, w)
    && (forall e | e in w.log :: EventInv(w, e))
    && (forall id | id in w.active :: DeliveryInv(w, id))
    && SilenceInv(w)
  }

  lemma {:induction false} NothingCommitted(events: seq<Event>, k: Key)
    requires forall e | e in events :: !e.Committed?
    ensures CommittedBytes(events, k) == []
  {
    if events != [] { NothingCommitted(events[..|events| - 1], k); }
  }

  ghost predicate Quietly(st: Store, r: StepResult) {
    r.store == st && forall k :: CommittedBytes(r.events, k) == []
  }

  ghost predicate Commits(st: Store, key: Key, p: Bytes, r: StepResult) {
    && key !in st.consumed && key !in st.buffer
    && r.store == Store(st.buffer[key := Some(p)], st.consumed + {key})
    && forall k :: CommittedBytes(r.events, k) == if k == key then [p] else []
  }

  ghost predicate Clears(st: Store, key: Key, r: StepResult) {
    && key in st.buffer
    && r.store == st.(buffer := st.buffer[key := None])
    && forall k :: CommittedBytes(r.events, k) == []
  }

  /** What a step does to the store, and what it says about it. */
  lemma StepOnStore(st: Store, d: Delivery, env: Env)
    requires Running(d)
    ensures var r := Step(true, st, d, env);
            || Quietly(st, r)
            || (d.phase.Commit? && env.decrypt.Ok? && Commits(st, Current(d).key, env.decrypt.value, r))
            || (d.phase.Clear? && Clears(st, Current(d).key, r))
  {
    var r := Step(true, st, d, env);
    match d.phase {
      case Clear => forall k { NothingCommitted(r.events, k); }
      case Commit =>
        var key := Current(d).key;
        if key in st.consumed || env.decrypt.Err? || env.putFails || key in st.buffer {
          forall k { NothingCommitted(r.events, k); }
          assert Quietly(st, r);
        } else {
          assert r.events == [Committed(d.id, Some(key), env.decrypt.value)];
          assert CommittedBytes([], key) == [] && r.events[..0] == [];
          assert Commits(st, key, env.decrypt.value, r);
        }
      case Done(_) =>
      case Next => forall k { NothingCommitted(r.events, k); }
      case Fetch => forall k { NothingCommitted(r.events, k); }
      case Use(_) => forall k { NothingCommitted(r.events, k); }
    }
  }

  lemma LogGrows(w: World, w': World, r: StepResult)
    requires w'.log == w.log + r.events
    ensures forall k :: CommittedBytes(w'.log, k) == CommittedBytes(w.log, k) + CommittedBytes(r.events, k)
    ensures forall k :: Settled(w.log, k) ==> Settled(w'.log, k)
  {
    SettledMonotone(w.log, r.events);
    forall k
      ensures CommittedBytes(w'.log, k) == CommittedBytes(w.log, k) + CommittedBytes(r.events, k)
    {
      CommittedAppend(w.log, r.events, k);
    }
  }

  lemma QuietStore(base: set<Key>, w: World, w': World, r: StepResult)
    requires StoreInv(base, w)
    requires w'.store == r.store && w'.log == w.log + r.events && Quietly(w.store, r)
    ensures StoreInv(base, w')
    ensures forall k | k in w.store.buffer :: CommittedBytes(w'.log, k) == CommittedBytes(w.log, k)
  {
    LogGrows(w, w', r);
  }

  lemma CommitStore(base: set<Key>, w: World, w': World, r: StepResult, key: Key, p: Bytes)
    requires StoreInv(base, w)
    requires w'.store == r.store && w'.log == w.log + r.events && Commits(w.store, key, p, r)
    ensures StoreInv(base, w')
    ensures forall k | k in w.store.buffer :: CommittedBytes(w'.log, k) == CommittedBytes(w.log, k)
  {
    LogGrows(w, w', r);
  }

  lemma ClearStore(base: set<Key>, w: World, w': World, r: StepResult, key: Key)
    requires StoreInv(base, w)
    requires w'.store == r.store && w'.log == w.log + r.events && Clears(w.store, key, r) && Settled(w.log, key)
    ensures StoreInv(base, w')
    ensures forall k | k in w.store.buffer :: CommittedBytes(w'.log, k) == CommittedBytes(w.log, k)
  {
    LogGrows(w, w', r);
  }

  lemma StoreStep(base: set<Key>, w: World, w': World, r: StepResult, key: Key, p: Bytes)
    requires StoreInv(base, w)
    requires w'.store == r.store && w'.log == w.log + r.events
    requires Quietly(w.store, r) || Commits(w.store, key, p, r) || (Clears(w.store, key, r) && Settled(w.log, key))
    ensures StoreInv(base, w')
    ensures forall k | k in w.store.buffer :: CommittedBytes(w'.log, k) == CommittedBytes(w.log, k)
  {
    if Quietly(w.store, r) {
      QuietStore(base, w, w', r);
    } else if Commits(w.store, key, p, r) {
      CommitStore(base, w, w', r, key, p);
    } else {
      ClearStore(base, w, w', r, key);
    }
  }

  // ---------- a step keeps every invariant ----------

  /** The consequences of one step of delivery id for the store part, shared by the lemmas below. */
  lemma AdvanceStore(base: set<Key>, w: World, id: nat, env: Env)
    requires Inv(base, w) && Enabled(Overlapping, w, Advance(id, env))
    ensures var w' := Apply(w, Advance(id, env));
            && StoreInv(base, w')
            && (forall k | k in w.store.buffer :: CommittedBytes(w'.log, k) == CommittedBytes(w.log, k))
            && (forall k | k in w.store.buffer && w.store.buffer[k].None? ::
                  k in w'.store.buffer && w'.store.buffer[k].None?)
            && (forall k :: Settled(w.log, k) ==> Settled(w'.log, k))
            && (forall other, node: Node, n: nat | n <= |node.children| ::
                  SettledUpTo(w.log, other, node, n) ==> SettledUpTo(w'.log, other, node, n))
  {
    var d := w.active[id];
    var r := Step(true, w.store, d, env);
    assert DeliveryInv(w, id);
    StepOnStore(w.store, d, env);
    StoreStep(base, w, Apply(w, Advance(id, env)), r,
              if d.phase.Commit? || d.phase.Clear? then Current(d).key else [],
              if env.decrypt.Ok? then env.decrypt.value else []);
    SettledMonotone(w.log, r.events);
  }

  lemma AdvanceKeepsOldEvent(base: set<Key>, w: World, id: nat, env: Env, e: Event)
    requires Inv(base, w) && Enabled(Overlapping, w, Advance(id, env))
    requires e in w.log
    ensures EventInv(Apply(w, Advance(id, env)), e)
  {
    assert DeliveryInv(w, id) && EventInv(w, e);
    AdvanceStore(base, w, id, env);
  }

  lemma AdvanceKeepsOtherDelivery(base: set<Key>, w: World, id: nat, env: Env, other: nat)
    requires Inv(base, w) && Enabled(Overlapping, w, Advance(id, env))
    requires other in w.active && other != id
    ensures DeliveryInv(Apply(w, Advance(id, env)), other)
  {
    assert DeliveryInv(w, other);
    AdvanceStore(base, w, id, env);
  }

  /** Moving past a child needs that child settled or ignored. */
  lemma SettledOneMore(log: seq<Event>, d: Delivery)
    requires d.i < |d.node.children| && SettledUpTo(log, d.id, d.node, d.i)
    requires Buffered(Current(d)) ==> Settled(log, Current(d).key) || WasIgnored(log, d.id, Current(d).key)
    ensures SettledUpTo(log, d.id, d.node, d.i + 1)
  {
  }

  /** What must hold of delivery d and of the events of its step, in the world after the step. */
  ghost predicate StepInv(w': World, r: StepResult) {
    && HoldsAt(w', r.d)
    && forall e | e in r.events :: EventInv(w', e)
  }

  ghost predicate HoldsAt(w': World, d: Delivery) {
    d.id in w'.active && w'.active[d.id] == d && DeliveryInv(w', d.id)
  }

  /** The world after delivery d of world w took the step r. */
  ghost predicate After(base: set<Key>, w: World, d: Delivery, r: StepResult, w': World) {
    && d.id in w.active && w.active[d.id] == d && Running(d) && DeliveryInv(w, d.id)
    && w' == World(r.store, w.active[d.id := r.d], w.nextId, w.log + r.events)
    && StoreInv(base, w')
    && (d.phase.Use? && Buffered(Current(d)) ==> CommittedBytes(w'.log, Current(d).key) == [d.phase.padded])
    && (d.phase.Clear? ==> Settled(w'.log, Current(d).key))
    && SettledUpTo(w'.log, d.id, d.node, d.i)
  }

  lemma FailKeeps(base: set<Key>, w: World, d: Delivery, d0: Delivery, env: Env, err: DecryptError, w': World)
    requires d0.i < |d0.node.children| && d0.id == d.id && d0.node == d.node && d0.i == d.i
    requires After(base, w, d, Fail(w.store, d0, env, err), w')
    ensures StepInv(w', Fail(w.store, d0, env, err))
  {
  }

  lemma FinalKeeps(base: set<Key>, w: World, d: Delivery, env: Env, w': World)
    requires Running(d) && d.phase.Next? && d.i == |d.node.children|
    requires After(base, w, d, StepNext(true, w.store, d, env), w')
    ensures StepInv(w', StepNext(true, w.store, d, env))
  {
  }

  lemma NextKeeps(base: set<Key>, w: World, d: Delivery, env: Env, w': World)
    requires Running(d) && d.phase.Next? && d.i < |d.node.children|
    requires After(base, w, d, StepNext(true, w.store, d, env), w')
    ensures StepInv(w', StepNext(true, w.store, d, env))
  {
    var r := StepNext(true, w.store, d, env);
    var kind := Current(d).kind;
    var d' := d.(recognized := true);
    if kind.Secret? {
      if env.secret.None? { FailKeeps(base, w, d, d', env, Other, w'); }
    } else if Buffered(Current(d)) {
      var d'' := d'.(containsDirectMsg := d.containsDirectMsg || kind.Direct?);
      if !env.parses {
        assert r == Fail(w.store, d'', env, Other);
        FailKeeps(base, w, d, d'', env, Other, w');
      }
    } else {
      SettledOneMore(w'.log, d);
    }
  }

  lemma FetchKeeps(base: set<Key>, w: World, d: Delivery, env: Env, w': World)
    requires Running(d) && d.phase.Fetch? && After(base, w, d, StepFetch(w.store, d, env), w')
    ensures StepInv(w', StepFetch(w.store, d, env))
  {
    if env.getFails {
      FailKeeps(base, w, d, d, env, Other, w');
    } else if Current(d).key in w.store.buffer && w.store.buffer[Current(d).key].None? {
      SettledOneMore(w'.log, d);
    }
  }

  lemma CommitKeeps(base: set<Key>, w: World, d: Delivery, env: Env, w': World)
    requires Running(d) && d.phase.Commit? && After(base, w, d, StepCommit(true, w.store, d, env), w')
    ensures StepInv(w', StepCommit(true, w.store, d, env))
  {
    var key := Current(d).key;
    if key in w.store.consumed {
      assert Ignored(d.id, Some(key)) in w'.log;
      SettledOneMore(w'.log, d);
    } else if env.decrypt.Err? {
      FailKeeps(base, w, d, d, env, env.decrypt.error, w');
    } else if env.putFails || key in w.store.buffer {
      FailKeeps(base, w, d, d, env, Other, w');
    }
  }

  /** A plaintext in use is dispatched as it is, and a delivery goes on only once it is settled. */
  ghost predicate Used(d: Delivery, r: StepResult)
    requires Running(d) && d.phase.Use?
  {
    && r.d.id == d.id && r.d.node == d.node
    && (forall e | e in r.events ::
          && e.id == d.id && (e.Decoded? || e.Dispatched? || e.Swallowed?)
          && (e.Dispatched? ==> e.key == CurrentKey(d) && e.padded == d.phase.padded)
          && (e.Dispatched? && e.failed ==> r.d.phase == Done(Silent)))
    && (r.d.phase != Done(Silent) ==>
          && (CurrentKey(d).Some? ==> exists e :: e in r.events && Settles(e, Current(d).key))
          && (|| (r.d.i == d.i && r.d.phase.Clear? && Buffered(Current(d)))
              || (r.d.i == d.i + 1 && r.d.phase.Next?)))
  }

  lemma UsedVersion2(st: Store, d: Delivery, env: Env)
    requires Running(d) && d.phase.Use?
    ensures Used(d, UseVersion2(true, st, d, env))
  {
    var r := UseVersion2(true, st, d, env);
    assert CurrentKey(d).Some? && r.d.phase != Done(Silent) ==>
        Settles(r.events[|r.events| - 1], Current(d).key);
  }

  lemma UsedVersion3(st: Store, d: Delivery, env: Env)
    requires Running(d) && d.phase.Use?
    ensures Used(d, UseVersion3(true, st, d, env))
  {
    var r := UseVersion3(true, st, d, env);
    assert CurrentKey(d).Some? && r.d.phase != Done(Silent) ==>
        Settles(r.events[|r.events| - 1], Current(d).key);
  }

  lemma UsedSteps(st: Store, d: Delivery, env: Env)
    requires Running(d) && d.phase.Use?
    ensures Used(d, UseVersion2(true, st, d, env)) && Used(d, UseVersion3(true, st, d, env))
  {
    UsedVersion2(st, d, env);
    UsedVersion3(st, d, env);
  }

  lemma UsedKeeps(base: set<Key>, w: World, d: Delivery, r: StepResult, w': World)
    requires Running(d) && d.phase.Use? && After(base, w, d, r, w') && Used(d, r)
    ensures StepInv(w', r)
  {
    assert forall e | e in r.events :: e in w'.log;
    if r.d.phase != Done(Silent) && r.d.phase.Next? {
      SettledOneMore(w'.log, d);
    }
  }

  lemma UseKeeps(base: set<Key>, w: World, d: Delivery, env: Env, w': World)
    requires Running(d) && d.phase.Use? && After(base, w, d, StepUse(true, w.store, d, env), w')
    ensures StepInv(w', StepUse(true, w.store, d, env))
  {
    var r := StepUse(true, w.store, d, env);
    if CurrentKey(d).Some? && Padding.UnpadMessage(d.phase.padded, Current(d).version).Err? {
      FailKeeps(base, w, d, d, env, Other, w');
    } else {
      UsedSteps(w.store, d, env);
      if Current(d).version != 2 && Current(d).version != 3 {
        assert CurrentKey(d).Some? ==> Settles(r.events[0], Current(d).key);
      }
      UsedKeeps(base, w, d, r, w');
    }
  }

  lemma ClearKeeps(base: set<Key>, w: World, d: Delivery, env: Env, w': World)
    requires Running(d) && d.phase.Clear? && After(base, w, d, StepClear(w.store, d, env), w')
    ensures StepInv(w', StepClear(w.store, d, env))
  {
    SettledOneMore(w'.log, d);
  }

  lemma AdvanceKeepsItself(base: set<Key>, w: World, id: nat, env: Env)
    requires Inv(base, w) && Enabled(Overlapping, w, Advance(id, env))
    ensures StepInv(Apply(w, Advance(id, env)), Step(true, w.store, w.active[id], env))
  {
    var d := w.active[id];
    var w' := Apply(w, Advance(id, env));
    assert DeliveryInv(w, id);
    AdvanceStore(base, w, id, env);
    assert After(base, w, d, Step(true, w.store, d, env), w');
    match d.phase {
      case Done(_) =>
      case Next =>
        if d.i == |d.node.children| { FinalKeeps(base, w, d, env, w'); }
        else { NextKeeps(base, w, d, env, w'); }
      case Fetch => FetchKeeps(base, w, d, env, w');
      case Commit => CommitKeeps(base, w, d, env, w');
      case Use(_) => UseKeeps(base, w, d, env, w');
      case Clear => ClearKeeps(base, w, d, env, w');
    }
  }

  lemma AdvanceKeepsSilence(base: set<Key>, w: World, id: nat, env: Env)
    requires Inv(base, w) && Enabled(Overlapping, w, Advance(id, env))
    ensures SilenceInv(Apply(w, Advance(id, env)))
  {
    var d := w.active[id];
    var w' := Apply(w, Advance(id, env));
    var r := Step(true, w.store, d, env);
    assert DeliveryInv(w, id);
    AdvanceKeepsItself(base, w, id, env);
    forall e, f | e in w'.log && f in w'.log && e.Dispatched? && e.failed && f.Replied?
      ensures e.id != f.id
    {
      assert EventInv(w', e) by {
        if e in w.log { AdvanceKeepsOldEvent(base, w, id, env, e); }
      }
      assert EventInv(w', f) by {
        if f in w.log { AdvanceKeepsOldEvent(base, w, id, env, f); }
      }
      assert e in w.log || e in r.events;
      assert f in w.log || f in r.events;
    }
  }

  /** The store part, and what stays known about the deliveries and events of before. */
  lemma ArriveStore(base: set<Key>, w: World, node: Node)
    requires StoreInv(base, w)
    ensures var w' := Apply(w, Arrive(node));
            && StoreInv(base, w')
            && (forall k :: CommittedBytes(w'.log, k) == CommittedBytes(w.log, k))
            && (forall k :: Settled(w.log, k) ==> Settled(w'.log, k))
            && (forall id, n: Node, i: nat | i <= |n.children| ::
                  SettledUpTo(w.log, id, n, i) ==> SettledUpTo(w'.log, id, n, i))
  {
    var events := Begin(w.nextId, node).1;
    SettledMonotone(w.log, events);
    forall k ensures CommittedBytes(w.log + events, k) == CommittedBytes(w.log, k) {
      CommittedAppend(w.log, events, k);
      NothingCommitted(events, k);
    }
  }

  lemma ArriveKeepsEvent(base: set<Key>, w: World, node: Node, e: Event)
    requires Inv(base, w) && e in Apply(w, Arrive(node)).log
    ensures EventInv(Apply(w, Arrive(node)), e)
  {
    ArriveStore(base, w, node);
    if e in w.log { assert EventInv(w, e); }
  }

  lemma ArriveKeepsDelivery(base: set<Key>, w: World, node: Node, id: nat)
    requires Inv(base, w) && id in Apply(w, Arrive(node)).active
    ensures DeliveryInv(Apply(w, Arrive(node)), id)
  {
    ArriveStore(base, w, node);
    if id != w.nextId { assert DeliveryInv(w, id); }
  }

  lemma ArriveKeepsInv(base: set<Key>, w: World, node: Node)
    requires Inv(base, w)
    ensures Inv(base, Apply(w, Arrive(node)))
  {
    var w' := Apply(w, Arrive(node));
    ArriveStore(base, w, node);
    forall e | e in w'.log ensures EventInv(w', e) { ArriveKeepsEvent(base, w, node, e); }
    forall id | id in w'.active ensures DeliveryInv(w', id) { ArriveKeepsDelivery(base, w, node, id); }
    forall e, f | e in w'.log && f in w'.log && e.Dispatched? && e.failed && f.Replied?
      ensures e.id != f.id
    {
      assert e in w.log && EventInv(w, e);
    }
  }

  lemma CrashKeepsInv(base: set<Key>, w: World)
    requires Inv(base, w)
    ensures Inv(base, Apply(w, Crash))
  {
    forall e | e in w.log ensures EventInv(Apply(w, Crash), e) {
      assert EventInv(w, e);
    }
  }

  lemma StepKeepsInv(base: set<Key>, w: World, step: WorldStep)
    requires Inv(base, w) && Enabled(Overlapping, w, step)
    ensures Inv(base, Apply(w, step))
  {
    match step
    case Arrive(node) => ArriveKeepsInv(base, w, node);
    case Crash => CrashKeepsInv(base, w);
    case Advance(id, env) =>
      var w' := Apply(w, step);
      AdvanceStore(base, w, id, env);
      AdvanceKeepsItself(base, w, id, env);
      AdvanceKeepsSilence(base, w, id, env);
      forall e | e in w'.log ensures EventInv(w', e) {
        if e in w.log { AdvanceKeepsOldEvent(base, w, id, env, e); }
      }
      forall other | other in w'.active ensures DeliveryInv(w', other) {
        if other != id { AdvanceKeepsOtherDelivery(base, w, id, env, other); }
        else { assert DeliveryInv(w, id); }
      }
  }

  lemma {:induction false} RunKeepsInv(base: set<Key>, arrivals: Arrivals, w: World, steps: seq<WorldStep>, w': World)
    requires Inv(base, w) && Run(arrivals, w, steps, w')
    ensures Inv(base, w')
    decreases |steps|
  {
    if steps != [] {
      StepKeepsInv(base, w, steps[0]);
      RunKeepsInv(base, arrivals, Apply(w, steps[0]), steps[1..], w');
    }
  }

  lemma ReachableInv(base: set<Key>, arrivals: Arrivals, w: World)
    requires Reachable(base, arrivals, w)
    ensures Inv(base, w)
  {
    var steps :| Run(arrivals, Start(base), steps, w);
    RunKeepsInv(base, arrivals, Start(base), steps, w);
  }

  // ---------- main results, overlapping deliveries included ----------

  /** Each payload is decrypted and committed at most once, and never if its ratchet was used up. */
  lemma CommittedAtMostOnce(base: set<Key>, w: World, k: Key)
    requires Reachable(base, Overlapping, w)
    ensures |CommittedBytes(w.log, k)| <= 1
    ensures k in base ==> CommittedBytes(w.log, k) == []
  {
    ReachableInv(base, Overlapping, w);
  }

  /** Every dispatch of a payload, in whatever delivery, carries the bytes committed for it. */
  lemma EveryDispatchCarriesTheCommittedBytes(base: set<Key>, w: World, e: Event)
    requires Reachable(base, Overlapping, w)
    requires e in w.log && e.Dispatched? && e.key.Some?
    ensures CommittedBytes(w.log, e.key.value) == [e.padded]
  {
    ReachableInv(base, Overlapping, w);
    assert EventInv(w, e);
  }

  /**
    A delivery that looks up a committed payload is given the same bytes again or told that the
    payload was already processed; it never goes on to decrypt.
   */
  lemma LaterDeliveriesReuseOrSkip(base: set<Key>, w: World, id: nat, env: Env)
    requires Reachable(base, Overlapping, w) && Enabled(Overlapping, w, Advance(id, env))
    requires w.active[id].phase.Fetch? && !env.getFails
    requires CommittedBytes(w.log, Current(w.active[id]).key) != []
    ensures var k, r := Current(w.active[id]).key, Step(true, w.store, w.active[id], env);
            && r.store == w.store && r.events == []
            && (|| r.d == NextChild(w.active[id])
                || (r.d.phase.Use? && CommittedBytes(w.log, k) == [r.d.phase.padded]))
  {
    ReachableInv(base, Overlapping, w);
  }

  /** A delivery one of whose handlers failed sends neither an ack nor a receipt. */
  lemma FailedHandlerMeansNoReply(base: set<Key>, w: World, e: Event, f: Event)
    requires Reachable(base, Overlapping, w)
    requires e in w.log && e.Dispatched? && e.failed
    requires f in w.log && f.Replied?
    ensures e.id != f.id
  {
    ReachableInv(base, Overlapping, w);
  }

  /**
    A final reply is sent only when every payload of the stanza has been handed to the handlers
    without a refusal, swallowed, found undecodable, or ignored by the very delivery that replies,
    because its ratchet was used up already.
   */
  lemma ReplyMeansSettledOrIgnored(base: set<Key>, w: World, f: Event, c: Child)
    requires Reachable(base, Overlapping, w)
    requires f in w.log && f.Replied? && (f.outcome.Receipt? || f.outcome.NackProtobuf?)
    requires c in f.node.children && Buffered(c)
    ensures Settled(w.log, c.key) || WasIgnored(w.log, f.id, c.key)
  {
    ReachableInv(base, Overlapping, w);
    assert EventInv(w, f);
  }

  // ---------- running deliveries that share no buffered payload ----------

  ghost predicate NoDispatchAfterClear(log: seq<Event>) {
    forall a, b | 0 <= a < b < |log| ::
      log[a].Cleared? && log[b].Dispatched? ==> log[a].key != log[b].key
  }

  ghost predicate SoloInv(base: set<Key>, w: World) {
    && (forall i, j | i in w.active && j in w.active && i != j :: Unrelated(w.active[i], w.active[j]))
    && (forall id | id in w.active :: SoloDelivery(w.store, w.active[id]))
    && (forall e | e in w.log :: e.Ignored? ==> e.key.Some? && e.key.value in base)
    && NoDispatchAfterClear(w.log)
  }

  predicate Unrelated(d: Delivery, d': Delivery) {
    d.phase.Done? || d'.phase.Done? || NothingShared(d.node, d'.node)
  }

  /** The store is as it was when the delivery last looked: nobody else has touched its payload. */
  ghost predicate SoloDelivery(st: Store, d: Delivery) {
    Running(d) ==>
      && (d.phase.Commit? ==> Current(d).key !in st.buffer)
      && (d.phase.Use? && Buffered(Current(d)) ==>
            Current(d).key in st.buffer && st.buffer[Current(d).key] == Some(d.phase.padded))
  }

  lemma UseDispatches(st: Store, d: Delivery, env: Env)
    requires Running(d) && d.phase.Use?
    ensures forall e | e in StepUse(true, st, d, env).events ::
              (e.Dispatched? ==> e.key == CurrentKey(d)) && !e.Ignored?
  {
    UsedSteps(st, d, env);
  }

  lemma DispatchesOnlyFromUse(st: Store, d: Delivery, env: Env)
    requires Running(d)
    ensures forall e | e in Step(true, st, d, env).events ::
              && (e.Dispatched? ==> d.phase.Use? && e.key == CurrentKey(d))
              && (e.Ignored? ==> d.phase.Commit? && e.key == Some(Current(d).key) && Current(d).key in st.consumed)
  {
    match d.phase
    case Done(_) =>
    case Next => assert OnlyReplies(StepNext(true, st, d, env));
    case Fetch => assert OnlyReplies(StepFetch(st, d, env));
    case Commit =>
    case Use(_) => UseDispatches(st, d, env);
    case Clear =>
  }

  /** A step touches no payload of a delivery that shares none with its own. */
  lemma SoloOther(st: Store, d: Delivery, env: Env, other: Delivery)
    requires Running(d) && !other.phase.Done? && NothingShared(d.node, other.node) && SoloDelivery(st, other)
    ensures SoloDelivery(Step(true, st, d, env).store, other)
  {
    StepOnStore(st, d, env);
    if Running(other) && !other.phase.Next? && Buffered(Current(other)) && !d.phase.Next? {
      assert Current(d) in d.node.children && Current(other) in other.node.children;
    }
  }

  lemma AdvanceKeepsUnrelated(base: set<Key>, w: World, id: nat, env: Env)
    requires SoloInv(base, w) && Enabled(Apart, w, Advance(id, env))
    ensures var w' := Apply(w, Advance(id, env));
            && (forall i, j | i in w'.active && j in w'.active && i != j :: Unrelated(w'.active[i], w'.active[j]))
            && (forall i | i in w'.active :: SoloDelivery(w'.store, w'.active[i]))
  {
    var d := w.active[id];
    var r := Step(true, w.store, d, env);
    assert r.d.node == d.node;
    SoloSelf(w, d, env);
    forall i | i in w.active && i != id ensures SoloDelivery(r.store, w.active[i]) {
      if !w.active[i].phase.Done? { SoloOther(w.store, d, env, w.active[i]); }
    }
  }

  /** What a step says never breaks the order of clears and dispatches. */
  lemma AdvanceKeepsClears(base: set<Key>, w: World, id: nat, env: Env)
    requires Inv(base, w) && SoloInv(base, w) && Enabled(Apart, w, Advance(id, env))
    ensures NoDispatchAfterClear(Apply(w, Advance(id, env)).log)
  {
    var d := w.active[id];
    var r := Step(true, w.store, d, env);
    var w' := Apply(w, Advance(id, env));
    assert DeliveryInv(w, id) && SoloDelivery(w.store, d);
    DispatchesOnlyFromUse(w.store, d, env);
    forall a, b | 0 <= a < b < |w'.log| && w'.log[a].Cleared? && w'.log[b].Dispatched?
      ensures w'.log[a].key != w'.log[b].key
    {
      if b >= |w.log| {
        assert w'.log[b] in r.events;
        if a < |w.log| { assert EventInv(w, w.log[a]); }
      }
    }
  }

  lemma AdvanceKeepsSolo(base: set<Key>, w: World, id: nat, env: Env)
    requires Inv(base, w) && SoloInv(base, w) && Enabled(Apart, w, Advance(id, env))
    ensures SoloInv(base, Apply(w, Advance(id, env)))
  {
    var d := w.active[id];
    var w' := Apply(w, Advance(id, env));
    AdvanceKeepsUnrelated(base, w, id, env);
    AdvanceKeepsClears(base, w, id, env);
    assert SoloDelivery(w.store, d);
    DispatchesOnlyFromUse(w.store, d, env);
    forall e | e in w'.log && e.Ignored? ensures e.key.Some? && e.key.value in base {
      assert e in w.log || e in Step(true, w.store, d, env).events;
    }
  }

  lemma SoloSelf(w: World, d: Delivery, env: Env)
    requires Running(d) && SoloDelivery(w.store, d)
    ensures var r := Step(true, w.store, d, env);
            SoloDelivery(r.store, r.d)
  {
    if d.phase.Next? {
      SoloNext(w, d, env);
    } else if d.phase.Use? {
      UsedEnds(w.store, d, env);
    } else if d.phase.Commit? {
      SoloCommit(w, d, env);
    }
  }

  lemma UsedEnds(st: Store, d: Delivery, env: Env)
    requires Running(d) && d.phase.Use?
    ensures var r := StepUse(true, st, d, env); !r.d.phase.Commit? && !r.d.phase.Use?
  {
    UsedSteps(st, d, env);
  }

  lemma SoloCommit(w: World, d: Delivery, env: Env)
    requires Running(d) && d.phase.Commit? && SoloDelivery(w.store, d)
    ensures var r := StepCommit(true, w.store, d, env);
            SoloDelivery(r.store, r.d)
  {
  }

  lemma SoloNext(w: World, d: Delivery, env: Env)
    requires Running(d) && d.phase.Next?
    ensures SoloDelivery(w.store, StepNext(true, w.store, d, env).d)
  {
    if d.i < |d.node.children| && Buffered(Current(d)) {
      assert StepNext(true, w.store, d, env).d.phase.Fetch? || StepNext(true, w.store, d, env).d.phase.Done?;
    }
  }

  lemma StepKeepsSolo(base: set<Key>, w: World, step: WorldStep)
    requires Inv(base, w) && SoloInv(base, w) && Enabled(Apart, w, step)
    ensures SoloInv(base, Apply(w, step))
  {
    match step
    case Advance(id, env) => AdvanceKeepsSolo(base, w, id, env);
    case Crash =>
    case Arrive(node) =>
  }

  lemma {:induction false} RunKeepsSolo(base: set<Key>, w: World, steps: seq<WorldStep>, w': World)
    requires Inv(base, w) && SoloInv(base, w) && Run(Apart, w, steps, w')
    ensures Inv(base, w') && SoloInv(base, w')
    decreases |steps|
  {
    if steps != [] {
      StepKeepsSolo(base, w, steps[0]);
      StepKeepsInv(base, w, steps[0]);
      RunKeepsSolo(base, Apply(w, steps[0]), steps[1..], w');
    }
  }

  lemma SoloReachable(base: set<Key>, w: World)
    requires Reachable(base, Apart, w)
    ensures Inv(base, w) && SoloInv(base, w)
  {
    var steps :| Run(Apart, Start(base), steps, w);
    RunKeepsSolo(base, Start(base), steps, w);
  }

  /** Deliveries one at a time are a special case: nothing is running that could share a payload. */
  lemma AloneIsApart(base: set<Key>, w: World)
    requires Reachable(base, Alone, w)
    ensures Reachable(base, Apart, w)
  {
    var steps :| Run(Alone, Start(base), steps, w);
    RunsWiden(Alone, Apart, Start(base), steps, w);
  }

  lemma {:induction false} RunsWiden(a: Arrivals, b: Arrivals, w: World, steps: seq<WorldStep>, w': World)
    requires Run(a, w, steps, w') && (a.Alone? || b.Overlapping?)
    ensures Run(b, w, steps, w')
    decreases |steps|
  {
    if steps != [] { RunsWiden(a, b, Apply(w, steps[0]), steps[1..], w'); }
  }

  /** A payload whose ratchet was used up before the buffer existed is never settled. */
  ghost predicate NoneSettled(base: set<Key>, log: seq<Event>) {
    forall e <- log, k <- base :: !Settles(e, k)
  }

  lemma SettlesFromUse(st: Store, d: Delivery, env: Env, k: Key)
    requires Running(d)
    ensures forall e <- Step(true, st, d, env).events ::
              Settles(e, k) ==> d.phase.Use? && CurrentKey(d) == Some(k)
  {
    match d.phase
    case Done(_) =>
    case Next => assert OnlyReplies(StepNext(true, st, d, env));
    case Fetch => assert OnlyReplies(StepFetch(st, d, env));
    case Commit =>
    case Use(_) => UseSettles(st, d, env, k);
    case Clear =>
  }

  lemma UseSettles(st: Store, d: Delivery, env: Env, k: Key)
    requires Running(d) && d.phase.Use?
    ensures forall e <- StepUse(true, st, d, env).events :: Settles(e, k) ==> CurrentKey(d) == Some(k)
  {}

  lemma {:induction false} RunSettlesNoneOf(base: set<Key>, w: World, steps: seq<WorldStep>, w': World)
    requires Inv(base, w) && NoneSettled(base, w.log) && Run(Overlapping, w, steps, w')
    ensures NoneSettled(base, w'.log)
    decreases |steps|
  {
    if steps != [] {
      var next := Apply(w, steps[0]);
      if steps[0].Advance? {
        var d := w.active[steps[0].id];
        assert DeliveryInv(w, steps[0].id);
        forall e <- next.log, k <- base ensures !Settles(e, k) {
          SettlesFromUse(w.store, d, steps[0].env, k);
          assert e in w.log || e in Step(true, w.store, d, steps[0].env).events;
        }
      }
      StepKeepsInv(base, w, steps[0]);
      RunSettlesNoneOf(base, next, steps[1..], w');
    }
  }

  /**
    At-least-once handling: while no stanza arrives that shares a buffered payload with a running
    delivery, a final reply means that a payload was settled exactly when its ratchet had not been
    used up before the buffer existed.
   */
  lemma RepliesOnlyAfterHandling(base: set<Key>, w: World, f: Event, c: Child)
    requires Reachable(base, Apart, w)
    requires f in w.log && f.Replied? && (f.outcome.Receipt? || f.outcome.NackProtobuf?)
    requires c in f.node.children && Buffered(c)
    ensures Settled(w.log, c.key) <==> c.key !in base
  {
    SoloReachable(base, w);
    assert EventInv(w, f);
    var steps :| Run(Apart, Start(base), steps, w);
    RunsWiden(Apart, Overlapping, Start(base), steps, w);
    RunSettlesNoneOf(base, Start(base), steps, w);
  }

  /** In such runs, once a plaintext is cleared no dispatch of that payload follows at all. */
  lemma NeverDispatchedAfterClear(base: set<Key>, w: World, a: nat, b: nat)
    requires Reachable(base, Apart, w)
    requires a < b < |w.log| && w.log[a].Cleared? && w.log[b].Dispatched?
    ensures w.log[a].key != w.log[b].key
  {
    SoloReachable(base, w);
  }

  /**
    A refused dispatch changes nothing in the store and ends the delivery.  With or without overlap,
    a redelivery that looks the payload up uses exactly those bytes without decrypting, if and only
    if no other delivery has cleared them.
   */
  lemma RefusedPayloadIsKept(base: set<Key>, w: World, id: nat, env: Env, again: Delivery, env': Env)
    requires Reachable(base, Overlapping, w) && Enabled(Overlapping, w, Advance(id, env))
    requires w.active[id].phase.Use? && Buffered(Current(w.active[id]))
    requires exists e :: e in Step(true, w.store, w.active[id], env).events && e.Dispatched? && e.failed
    requires Running(again) && again.phase.Fetch? && Current(again).key == Current(w.active[id]).key
    requires !env'.getFails
    ensures Apply(w, Advance(id, env)).store == w.store
    ensures Apply(w, Advance(id, env)).active[id].phase == Done(Silent)
    ensures var k := Current(again).key;
      && k in w.store.buffer
      && (w.store.buffer[k].Some? <==>
            Step(true, w.store, again, env') == StepResult(w.store, again.(phase := w.active[id].phase), []))
  {
    ReachableInv(base, Overlapping, w);
    assert DeliveryInv(w, id);
    RefusedEnds(w.store, w.active[id], env);
  }

  /** No other delivery can have cleared them while no running one shares a payload. */
  lemma RefusedPayloadIsKeptApart(base: set<Key>, w: World, id: nat, env: Env)
    requires Reachable(base, Apart, w) && Enabled(Apart, w, Advance(id, env))
    requires w.active[id].phase.Use? && Buffered(Current(w.active[id]))
    ensures var k := Current(w.active[id]).key;
      k in w.store.buffer && w.store.buffer[k] == Some(w.active[id].phase.padded)
  {
    SoloReachable(base, w);
    assert SoloDelivery(w.store, w.active[id]);
  }

  lemma RefusedEnds(st: Store, d: Delivery, env: Env)
    requires Running(d) && d.phase.Use?
    requires exists e :: e in StepUse(true, st, d, env).events && e.Dispatched? && e.failed
    ensures StepUse(true, st, d, env).store == st && StepUse(true, st, d, env).d.phase == Done(Silent)
  {
    UsedSteps(st, d, env);
  }

  // ---------- overlapping deliveries ----------

  const CHILD := Child(Direct, [1], 2)
  const NODE := Node([CHILD], false)
  const ENV := Env(true, false, Ok([7, 1]), false, None, true, true, true, [], false, false)
  const EMPTY := Store(map[], {})
  const FULL := Store(map[[1] := Some([7, 1])], {[1]})

  /** Delivery number id of NODE at the given point of its only child, or past it. */
  function Point(id: nat, i: nat, phase: Phase): Delivery {
    Delivery(id, NODE, i, phase, true, false, true)
  }

  lemma OverlapBoth()
    ensures Reachable({}, Overlapping, World(EMPTY, map[0 := Point(0, 0, Fetch), 1 := Point(1, 0, Fetch)], 2, []))
  {
    var d0 := Delivery(0, NODE, 0, Next, false, false, false);
    var d1 := d0.(id := 1);
    var w1 := World(EMPTY, map[0 := d0], 1, []);
    var w2 := World(EMPTY, map[0 := d0, 1 := d1], 2, []);
    var w3 := World(EMPTY, map[0 := Point(0, 0, Fetch), 1 := d1], 2, []);
    assert CHILD in NODE.children && !CHILD.kind.NotEnc?;
    assert Begin(0, NODE) == (d0, []) && Begin(1, NODE) == (d1, []);
    assert Run(Overlapping, Start({}), [], Start({}));
    ReachStep({}, Start({}), Arrive(NODE), w1);
    ReachStep({}, w1, Arrive(NODE), w2);
    assert Step(true, EMPTY, d0, ENV) == StepResult(EMPTY, Point(0, 0, Fetch), []);
    assert Step(true, EMPTY, d1, ENV) == StepResult(EMPTY, Point(1, 0, Fetch), []);
    ReachStep({}, w2, Advance(0, ENV), w3);
    ReachStep({}, w3, Advance(1, ENV), World(EMPTY, map[0 := Point(0, 0, Fetch), 1 := Point(1, 0, Fetch)], 2, []));
  }

  lemma OverlapMissed()
    ensures Reachable({}, Overlapping, World(EMPTY, map[0 := Point(0, 0, Commit), 1 := Point(1, 0, Commit)], 2, []))
  {
    OverlapBoth();
    var w4 := World(EMPTY, map[0 := Point(0, 0, Fetch), 1 := Point(1, 0, Fetch)], 2, []);
    var w5 := World(EMPTY, map[0 := Point(0, 0, Commit), 1 := Point(1, 0, Fetch)], 2, []);
    assert Step(true, EMPTY, Point(0, 0, Fetch), ENV) == StepResult(EMPTY, Point(0, 0, Commit), []);
    assert Step(true, EMPTY, Point(1, 0, Fetch), ENV) == StepResult(EMPTY, Point(1, 0, Commit), []);
    ReachStep({}, w4, Advance(0, ENV), w5);
    ReachStep({}, w5, Advance(1, ENV), World(EMPTY, map[0 := Point(0, 0, Commit), 1 := Point(1, 0, Commit)], 2, []));
  }

  const COMMITTED := Committed(0, Some([1]), [7, 1])
  const IGNORED := Ignored(1, Some([1]))

  lemma OverlapCommitted()
    ensures Reachable({}, Overlapping, World(FULL, map[0 := Point(0, 0, Use([7, 1])), 1 := Point(1, 0, Commit)], 2,
                                      [COMMITTED]))
  {
    OverlapMissed();
    assert Step(true, EMPTY, Point(0, 0, Commit), ENV) == StepResult(FULL, Point(0, 0, Use([7, 1])), [COMMITTED]);
    ReachStep({}, World(EMPTY, map[0 := Point(0, 0, Commit), 1 := Point(1, 0, Commit)], 2, []), Advance(0, ENV),
              World(FULL, map[0 := Point(0, 0, Use([7, 1])), 1 := Point(1, 0, Commit)], 2, [COMMITTED]));
  }

  lemma OverlapSkipped()
    ensures Reachable({}, Overlapping, World(FULL, map[0 := Point(0, 0, Use([7, 1])), 1 := Point(1, 1, Next)], 2,
                                      [COMMITTED, IGNORED]))
  {
    OverlapCommitted();
    assert Step(true, FULL, Point(1, 0, Commit), ENV) == StepResult(FULL, Point(1, 1, Next), [IGNORED]);
    ReachStep({}, World(FULL, map[0 := Point(0, 0, Use([7, 1])), 1 := Point(1, 0, Commit)], 2, [COMMITTED]),
              Advance(1, ENV),
              World(FULL, map[0 := Point(0, 0, Use([7, 1])), 1 := Point(1, 1, Next)], 2, [COMMITTED, IGNORED]));
  }

  /**
    With overlapping deliveries at-least-once handling fails: the second delivery finds the ratchet
    used up inside its transaction, skips the payload and sends the receipt, while the first has not
    dispatched it yet and may still see its handler refuse.
   */
  lemma OverlapCanReplyWithoutHandling()
    ensures exists w, f, c: Child ::
      && Reachable({}, Overlapping, w) && f in w.log && f.Replied? && f.outcome.Receipt?
      && c in f.node.children && Buffered(c) && !Settled(w.log, c.key)
  {
    OverlapSkipped();
    var f := Replied(1, NODE, Receipt);
    var w := World(FULL, map[0 := Point(0, 0, Use([7, 1])), 1 := Point(1, 1, Done(Receipt))], 2,
                   [COMMITTED, IGNORED, f]);
    assert Step(true, FULL, Point(1, 1, Next), ENV) == StepResult(FULL, Point(1, 1, Done(Receipt)), [f]);
    ReachStep({}, World(FULL, map[0 := Point(0, 0, Use([7, 1])), 1 := Point(1, 1, Next)], 2, [COMMITTED, IGNORED]),
              Advance(1, ENV), w);
    assert f in w.log && CHILD in f.node.children && !Settled(w.log, CHILD.key);
  }

  lemma ReachStep(base: set<Key>, w: World, step: WorldStep, w': World)
    requires Reachable(base, Overlapping, w) && Enabled(Overlapping, w, step) && Apply(w, step) == w'
    ensures Reachable(base, Overlapping, w')
  {
    var steps :| Run(Overlapping, Start(base), steps, w);
    RunExtends(Start(base), steps, w, step);
    assert Run(Overlapping, Start(base), steps + [step], w');
  }

  lemma {:induction false} RunExtends(w0: World, steps: seq<WorldStep>, w: World, step: WorldStep)
    requires Run(Overlapping, w0, steps, w) && Enabled(Overlapping, w, step)
    ensures Run(Overlapping, w0, steps + [step], Apply(w, step))
    decreases |steps|
  {
    if steps == [] {
      assert [step][1..] == [];
      assert Run(Overlapping, Apply(w, step), [], Apply(w, step));
    } else {
      RunExtends(Apply(w0, steps[0]), steps[1..], w, step);
      assert (steps + [step])[1..] == steps[1..] + [step];
    }
  }
}
