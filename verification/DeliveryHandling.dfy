/**
  What a delivery does with each payload, told by what the calls answer alone, with the event buffer
  on or off: where the plaintext comes from, whether it reaches the handlers, and what is stored.
 */
module DeliveryHandling {
  import opened Prelude
  import opened Delivery
  import opened DecryptMessages
  import Padding

  // ---------- one child, by the answers ----------

  /** A ratchet is used: the cipher is asked, answers, and the transaction goes through. */
  predicate Decrypts(on: bool, st: Store, c: Child, e: Env) {
    && Buffered(c) && e.parses && e.decrypt.Ok? && c.key !in st.consumed
    && (on ==> !e.getFails && !e.putFails && c.key !in st.buffer)
  }

  /** The plaintext that a child gives, from the bot secret, the event buffer or the cipher. */
  function Obtained(on: bool, st: Store, c: Child, e: Env): Option<Bytes> {
    if c.kind.Secret? then e.secret
    else if Decrypts(on, st, c, e) then Some(e.decrypt.value)
    else if on && Buffered(c) && e.parses && !e.getFails && c.key in st.buffer then st.buffer[c.key]
    else None
  }

  /** What is unpadded; bot messages are not. */
  predicate Unpads(c: Child, padded: Bytes) {
    Buffered(c) ==> Padding.UnpadMessage(padded, c.version).Ok?
  }

  /** A decoded payload has something to hand over. */
  predicate Deliverable(c: Child, e: Env) {
    e.decodes && ((c.version == 2 && e.protocolOk) || (c.version == 3 && e.hasMessage))
  }

  function HashOf(c: Child): Option<Key> {
    if Buffered(c) then Some(c.key) else None
  }

  /** Decoding and dispatching of a plaintext, as the history shows it. */
  function UseEvents(id: nat, c: Child, e: Env, p: Bytes): seq<Event> {
    var hash := HashOf(c);
    if !Unpads(c, p) then []
    else if c.version != 2 && c.version != 3 then [Swallowed(id, hash)]
    else if !e.decodes then [Decoded(id, hash, false)]
    else if !Deliverable(c, e) then [Decoded(id, hash, true), Swallowed(id, hash)]
    else [Decoded(id, hash, true), Dispatched(id, hash, p, HandlerFailed(e.handlers))]
  }

  /** What came of a payload or of a delivery: its history, the store after it, and whether it went on. */
  datatype Account = Account(events: seq<Event>, store: Store, goesOn: bool)

  /**
    A plaintext in use, buffered if the buffer is on.  One that cannot be unpadded or that a handler
    refuses ends the delivery and stays in the buffer, as does a version 2 payload that does not decode.
   */
  function Used(on: bool, st: Store, id: nat, c: Child, e: Env, p: Bytes): Account {
    var events := UseEvents(id, c, e, p);
    if !Unpads(c, p) || (Deliverable(c, e) && HandlerFailed(e.handlers)) then Account(events, st, false)
    else if on && Buffered(c) && (c.version == 2 ==> e.decodes) && !e.clearFails then
      Account(events + [Cleared(id, Some(c.key))], st.(buffer := st.buffer[c.key := None]), true)
    else Account(events, st, true)
  }

  /** The ratchet is used up, and the plaintext buffered if the buffer is on. */
  function Taken(on: bool, st: Store, id: nat, c: Child, p: Bytes): Account {
    Account([Committed(id, Some(c.key), p)],
            Store(if on then st.buffer[c.key := Some(p)] else st.buffer, st.consumed + {c.key}), true)
  }

  /** The payload was dealt with before: cleared, or its ratchet used up. */
  predicate Skipped(on: bool, st: Store, c: Child, e: Env) {
    && Buffered(c) && e.parses && (on ==> !e.getFails)
    && if on && c.key in st.buffer then st.buffer[c.key].None? else c.key in st.consumed
  }

  /** One child.  A payload that gives no plaintext ends the delivery unless it was dealt with before. */
  function Answered(on: bool, st: Store, id: nat, c: Child, e: Env): Account {
    var p := Obtained(on, st, c, e);
    if Decrypts(on, st, c, e) then
      var taken := Taken(on, st, id, c, p.value);
      Joined(taken, Used(on, taken.store, id, c, e, p.value))
    else if p.Some? then Used(on, st, id, c, e, p.value)
    else if Skipped(on, st, c, e) then
      Account(if on && c.key in st.buffer then [] else [Ignored(id, Some(c.key))], st, true)
    else Account([], st, !(Buffered(c) || c.kind.Secret?))
  }

  /** All children from i on. */
  function AnsweredFrom(on: bool, st: Store, id: nat, node: Node, script: seq<Env>, i: nat): Account
    requires i <= |node.children| < |script|
    decreases |node.children| - i
  {
    if i == |node.children| then Account([], st, true)
    else Joined(Answered(on, st, id, node.children[i], script[i]),
                AnsweredFrom(on, Answered(on, st, id, node.children[i], script[i]).store, id, node, script, i + 1))
  }

  function Joined(a: Account, rest: Account): Account {
    if a.goesOn then rest.(events := a.events + rest.events) else a
  }

  // ---------- one turn does what the answers say ----------

  /** The events are those of the account, and then nothing but a reply and a report. */
  predicate Ends(events: seq<Event>, front: seq<Event>) {
    front <= events && forall i | |front| <= i < |events| :: events[i].Replied? || events[i].UndecryptableEvent?
  }

  lemma EndsBehind(a: seq<Event>, events: seq<Event>, front: seq<Event>)
    requires Ends(events, front)
    ensures Ends(a + events, a + front)
  {
    assert a + events == (a + front) + events[|front|..];
  }

  ghost predicate Tells(r: StepResult, a: Account) {
    r.store == a.store && (r.d.phase.Done? <==> !a.goesOn)
    && if a.goesOn then r.events == a.events else Ends(r.events, a.events)
  }

  lemma TellsBehind(a: Account, r: StepResult, b: Account)
    requires a.goesOn && Tells(r, b)
    ensures Tells(Before(a.events, r), Joined(a, b))
  {
    if !b.goesOn { EndsBehind(a.events, r.events, b.events); }
  }

  lemma FailTells(st: Store, d: Delivery, e: Env, err: DecryptError)
    requires d.i < |d.node.children|
    ensures Tells(Fail(st, d, e, err), Account([], st, false))
  {}

  /** The use r of an unpadded plaintext is what the answers say; it leaves the clear to come. */
  ghost predicate UsedAs(on: bool, st: Store, d: Delivery, e: Env, r: StepResult)
    requires Running(d) && d.phase.Use?
  {
    var c, refused := Current(d), Deliverable(Current(d), e) && HandlerFailed(e.handlers);
    && r.store == st && r.events == UseEvents(d.id, c, e, d.phase.padded)
    && (if refused then r.d.phase == Done(Silent) else !r.d.phase.Done?)
    && (r.d.phase.Clear? <==> on && Buffered(c) && !refused && (c.version == 2 ==> e.decodes))
  }

  lemma Version2UsedAs(on: bool, st: Store, d: Delivery, e: Env)
    requires Running(d) && d.phase.Use? && Current(d).version == 2 && Unpads(Current(d), d.phase.padded)
    ensures UsedAs(on, st, d, e, UseVersion2(on, st, d, e))
  {}

  lemma Version3UsedAs(on: bool, st: Store, d: Delivery, e: Env)
    requires Running(d) && d.phase.Use? && Current(d).version == 3 && Unpads(Current(d), d.phase.padded)
    ensures UsedAs(on, st, d, e, UseVersion3(on, st, d, e))
  {}

  lemma UsedByAnswers(on: bool, st: Store, d: Delivery, e: Env)
    requires Running(d) && d.phase.Use? && Unpads(Current(d), d.phase.padded)
    ensures UsedAs(on, st, d, e, StepUse(on, st, d, e))
  {
    if Current(d).version == 2 {
      Version2UsedAs(on, st, d, e);
      assert StepUse(on, st, d, e) == UseVersion2(on, st, d, e);
    } else if Current(d).version == 3 {
      Version3UsedAs(on, st, d, e);
      assert StepUse(on, st, d, e) == UseVersion3(on, st, d, e);
    }
  }

  lemma UseThenClearTells(on: bool, st: Store, d: Delivery, e: Env)
    requires Running(d) && d.phase.Use?
    requires on && Buffered(Current(d)) ==> Current(d).key in st.buffer
    ensures Tells(UseThenClear(on, st, d, e), Used(on, st, d.id, Current(d), e, d.phase.padded))
  {
    if !Unpads(Current(d), d.phase.padded) {
      BadPadding(on, st, d, e);
      FailTells(st, d, e, Other);
    } else {
      UsedByAnswers(on, st, d, e);
    }
  }

  /** What bufferedDecrypt answers and stores, by the answers. */
  lemma BufferedByAnswers(on: bool, st: Store, c: Child, e: Env)
    requires Buffered(c) && e.parses
    ensures var (answer, st') := BufferedResult(on, st, c.key, e);
      && Obtained(on, st, c, e) == (if answer.Plaintext? then Some(answer.padded) else None)
      && (answer.Failed? <==> Obtained(on, st, c, e).None? && !Skipped(on, st, c, e))
      && (answer.OldCounter? <==> Skipped(on, st, c, e) && !(on && c.key in st.buffer))
      && (Decrypts(on, st, c, e) <==> answer.Plaintext? && !(on && c.key in st.buffer))
      && st' == (if Decrypts(on, st, c, e) then Taken(on, st, 0, c, e.decrypt.value).store else st)
  {}

  lemma PlaintextTells(on: bool, st: Store, d: Delivery, e: Env)
    requires Running(d) && d.i < |d.node.children| && Buffered(Current(d)) && e.parses
    requires BufferedResult(on, st, Current(d).key, e).0.Plaintext?
    ensures Tells(OnePayload(on, st, d, e), Answered(on, st, d.id, Current(d), e))
  {
    var c := Current(d);
    var (answer, st') := BufferedResult(on, st, c.key, e);
    var used := d.(phase := Use(answer.padded));
    var r := UseThenClear(on, st', used, e);
    BufferedByAnswers(on, st, c, e);
    UseThenClearTells(on, st', used, e);
    if Decrypts(on, st, c, e) {
      TellsBehind(Taken(on, st, d.id, c, answer.padded), r, Used(on, st', d.id, c, e, answer.padded));
    } else {
      assert Before([], r) == r;
    }
  }

  lemma PayloadTells(on: bool, st: Store, d: Delivery, e: Env)
    requires Running(d) && d.i < |d.node.children| && Buffered(Current(d)) && e.parses
    ensures Tells(OnePayload(on, st, d, e), Answered(on, st, d.id, Current(d), e))
  {
    var (answer, st') := BufferedResult(on, st, Current(d).key, e);
    BufferedByAnswers(on, st, Current(d), e);
    if answer.Plaintext? {
      PlaintextTells(on, st, d, e);
    } else if answer.Failed? {
      FailTells(st', d, e, answer.error);
      assert Before([], Fail(st', d, e, answer.error)) == Fail(st', d, e, answer.error);
    }
  }

  lemma SecretTells(on: bool, st: Store, d: Delivery, e: Env)
    requires Running(d) && d.phase.Next? && d.i < |d.node.children| && Current(d).kind.Secret?
    ensures Tells(OneChild(on, st, d, e), Answered(on, st, d.id, Current(d), e))
  {
    if e.secret.None? {
      FailTells(st, Recognized(d), e, Other);
    } else {
      UseThenClearTells(on, st, Recognized(d).(phase := Use(e.secret.value)), e);
    }
  }

  lemma PlainTells(on: bool, st: Store, d: Delivery, e: Env)
    requires Running(d) && d.phase.Next? && d.i < |d.node.children| && !Current(d).kind.Secret?
    requires Buffered(Current(d)) ==> !e.parses
    ensures Tells(OneChild(on, st, d, e), Answered(on, st, d.id, Current(d), e))
  {
    if Buffered(Current(d)) { FailTells(st, Recognized(d), e, Other); }
  }

  /** With the event buffer on or off, one turn of the loop does exactly what the answers say. */
  lemma ChildTells(on: bool, st: Store, d: Delivery, e: Env)
    requires Running(d) && d.phase.Next? && d.i < |d.node.children|
    ensures Tells(OneChild(on, st, d, e), Answered(on, st, d.id, Current(d), e))
  {
    if Current(d).kind.Secret? {
      SecretTells(on, st, d, e);
    } else if Buffered(Current(d)) && e.parses {
      PayloadTells(on, st, Recognized(d), e);
      assert OneChild(on, st, d, e) == OnePayload(on, st, Recognized(d), e);
    } else {
      PlainTells(on, st, d, e);
    }
  }

  // ---------- whole deliveries ----------

  predicate Final(outcome: Outcome) {
    outcome.Receipt? || outcome.NackProtobuf? || outcome.NackUnrecognized?
  }

  ghost predicate TellsAll(r: Delivered, a: Account) {
    r.store == a.store && (Final(r.outcome) <==> a.goesOn) && Ends(r.events, a.events)
  }

  lemma UseStopIsNotFinal(on: bool, st: Store, d: Delivery, e: Env)
    requires Running(d) && d.phase.Use?
    ensures var r := UseThenClear(on, st, d, e); r.d.phase.Done? ==> !Final(r.d.phase.outcome)
  {
    if Unpads(Current(d), d.phase.padded) {
      UsedByAnswers(on, st, d, e);
    } else {
      BadPadding(on, st, d, e);
    }
  }

  lemma StopIsNotFinal(on: bool, st: Store, d: Delivery, e: Env)
    requires Running(d) && d.phase.Next? && d.i < |d.node.children|
    ensures var r := OneChild(on, st, d, e); r.d.phase.Done? ==> !Final(r.d.phase.outcome)
  {
    var c, d' := Current(d), Recognized(d);
    if c.kind.Secret? && e.secret.Some? {
      UseStopIsNotFinal(on, st, d'.(phase := Use(e.secret.value)), e);
    } else if Buffered(c) && e.parses {
      var (answer, st') := BufferedResult(on, st, c.key, e);
      if answer.Plaintext? { UseStopIsNotFinal(on, st', d'.(phase := Use(answer.padded)), e); }
    }
  }

  /** One turn of the loop, and then the rest of the delivery. */
  lemma OneTurn(on: bool, st: Store, d: Delivery, script: seq<Env>) returns (r: StepResult, a: Account)
    requires |script| == |d.node.children| + 1 && Running(d) && d.phase.Next? && d.i < |d.node.children|
    ensures ChildDone(d, r) && Tells(r, a) && a == Answered(on, st, d.id, Current(d), script[d.i])
    ensures r.d.phase.Done? ==> !Final(r.d.phase.outcome)
    ensures r.d.phase.Done? ==> Drive(on, st, d, script) == Delivered(r.store, r.d.phase.outcome, r.events)
    ensures !r.d.phase.Done? ==> Drive(on, st, d, script) == Prepend(r.events, Drive(on, r.store, r.d, script))
  {
    r, a := OneChild(on, st, d, script[d.i]), Answered(on, st, d.id, Current(d), script[d.i]);
    DriveChild(on, st, d, script);
    ChildTells(on, st, d, script[d.i]);
    StopIsNotFinal(on, st, d, script[d.i]);
  }

  lemma NoTurnLeft(on: bool, st: Store, d: Delivery, script: seq<Env>)
    requires |script| == |d.node.children| + 1
    requires Running(d) && d.phase.Next? && d.i == |d.node.children|
    ensures TellsAll(Drive(on, st, d, script), Account([], st, true))
    ensures Final(Drive(on, st, d, script).outcome)
  {
    LoopEnd(on, st, d, script, []);
  }

  /** The account of the delivery is that of its child, and then that of the rest. */
  lemma AnsweredRest(on: bool, st: Store, d: Delivery, script: seq<Env>, r: StepResult, a: Account)
    returns (rest: Account)
    requires |script| == |d.node.children| + 1 && d.i < |d.node.children| && ChildDone(d, r) && !r.d.phase.Done?
    requires a == Answered(on, st, d.id, Current(d), script[d.i]) && Tells(r, a)
    ensures rest == AnsweredFrom(on, r.store, r.d.id, r.d.node, script, r.d.i)
    ensures AnsweredFrom(on, st, d.id, d.node, script, d.i) == Joined(a, rest)
  {
    rest := AnsweredFrom(on, a.store, d.id, d.node, script, d.i + 1);
  }

  lemma TellsAllBehind(a: Account, rest: Delivered, b: Account)
    requires a.goesOn && TellsAll(rest, b)
    ensures TellsAll(Prepend(a.events, rest), Joined(a, b))
  {
    EndsBehind(a.events, rest.events, b.events);
  }

  lemma DriveBehind(on: bool, st: Store, d: Delivery, script: seq<Env>, r: StepResult, a: Account, rest: Account)
    requires |script| == |d.node.children| + 1 && Running(d) && d.phase.Next? && d.i < |d.node.children|
    requires ChildDone(d, r) && Tells(r, a) && !r.d.phase.Done?
    requires Drive(on, st, d, script) == Prepend(r.events, Drive(on, r.store, r.d, script))
    requires TellsAll(Drive(on, r.store, r.d, script), rest)
    ensures TellsAll(Drive(on, st, d, script), Joined(a, rest))
  {
    TellsAllBehind(a, Drive(on, r.store, r.d, script), rest);
  }

  lemma {:induction false} DriveTells(on: bool, st: Store, d: Delivery, script: seq<Env>, all: Account)
    requires |script| == |d.node.children| + 1 && Running(d) && d.phase.Next?
    requires all == AnsweredFrom(on, st, d.id, d.node, script, d.i)
    ensures TellsAll(Drive(on, st, d, script), all)
    decreases |d.node.children| - d.i
  {
    if d.i == |d.node.children| {
      NoTurnLeft(on, st, d, script);
    } else {
      var r, a := OneTurn(on, st, d, script);
      if !r.d.phase.Done? {
        var rest := AnsweredRest(on, st, d, script, r, a);
        DriveTells(on, r.store, r.d, script, rest);
        DriveBehind(on, st, d, script, r, a, rest);
      }
    }
  }

  /**
    The event buffer on or off, every delivery decrypts, decodes, dispatches, swallows, clears and
    stores exactly what the answers say, in order, child by child up to the one it ends with, and sends
    a final reply exactly when it ends with none.
   */
  lemma DeliveryByAnswers(on: bool, st: Store, id: nat, node: Node, script: seq<Env>)
    requires |script| == |node.children| + 1
    ensures var r, all := Deliver(on, st, id, node, script), AnsweredFrom(on, st, id, node, script, 0);
      && Ends(r.events, all.events) && r.store == all.store
      && (!r.outcome.Unavailable? ==> (Final(r.outcome) <==> all.goesOn))
  {
    var (d, events) := Begin(id, node);
    if d.phase.Done? {
      NothingToHandle(on, st, id, node, script, 0);
    } else {
      DriveTells(on, st, d, script, AnsweredFrom(on, st, id, node, script, 0));
    }
  }

  lemma {:induction false} NothingToHandle(on: bool, st: Store, id: nat, node: Node, script: seq<Env>, i: nat)
    requires i <= |node.children| < |script|
    requires forall c <- node.children :: c.kind.NotEnc?
    ensures AnsweredFrom(on, st, id, node, script, i) == Account([], st, true)
    decreases |node.children| - i
  {
    if i < |node.children| {
      assert node.children[i] in node.children;
      assert Answered(on, st, id, node.children[i], script[i]) == Account([], st, true);
      NothingToHandle(on, st, id, node, script, i + 1);
    }
  }

  // ---------- what is acknowledged was handed over ----------

  /** The dispatches of a payload in a history. */
  function Dispatches(events: seq<Event>, k: Key): seq<Event> {
    if events == [] then []
    else
      var e := events[|events| - 1];
      Dispatches(events[..|events| - 1], k) + if e.Dispatched? && e.key == Some(k) then [e] else []
  }

  lemma {:induction false} DispatchesJoin(a: seq<Event>, b: seq<Event>, k: Key)
    ensures Dispatches(a + b, k) == Dispatches(a, k) + Dispatches(b, k)
  {
    if b == [] {
      assert a + b == a;
    } else {
      assert (a + b)[..|a + b| - 1] == a + b[..|b| - 1];
      DispatchesJoin(a, b[..|b| - 1], k);
    }
  }

  /** Events that dispatch nothing of the payload. */
  lemma {:induction false} DispatchesNone(events: seq<Event>, k: Key)
    requires forall i | 0 <= i < |events| :: !(events[i].Dispatched? && events[i].key == Some(k))
    ensures Dispatches(events, k) == []
  {
    if events != [] { DispatchesNone(events[..|events| - 1], k); }
  }

  lemma {:induction false} DispatchesOnce(front: seq<Event>, e: Event, back: seq<Event>, k: Key)
    requires Dispatches(front, k) == [] && Dispatches(back, k) == [] && e.Dispatched? && e.key == Some(k)
    ensures Dispatches(front + [e] + back, k) == [e]
  {
    DispatchesJoin(front + [e], back, k);
    assert (front + [e])[..|front|] == front;
  }

  /** The dispatch that a fresh payload is due. */
  function Due(id: nat, c: Child, e: Env): seq<Event> {
    if e.decrypt.Ok? && Deliverable(c, e) then [Dispatched(id, Some(c.key), e.decrypt.value, false)] else []
  }

  predicate Fresh(st: Store, k: Key) {
    k !in st.consumed && k !in st.buffer
  }

  predicate OnlyAt(node: Node, k: Key, j: nat) {
    forall i | 0 <= i < |node.children| && i != j :: Buffered(node.children[i]) ==> node.children[i].key != k
  }

  /** A new payload that lets the delivery go on: what comes before its dispatch, and after it. */
  lemma {:induction false} FreshDispatches(on: bool, st: Store, id: nat, c: Child, e: Env)
    requires Buffered(c) && Fresh(st, c.key) && Answered(on, st, id, c, e).goesOn
    ensures e.decrypt.Ok? && Unpads(c, e.decrypt.value)
    ensures Dispatches(Answered(on, st, id, c, e).events, c.key) == Due(id, c, e)
  {
    assert Decrypts(on, st, c, e);
    var events, p := Answered(on, st, id, c, e).events, e.decrypt.value;
    if Deliverable(c, e) {
      var front := [Committed(id, Some(c.key), p), Decoded(id, Some(c.key), true)];
      var it := Dispatched(id, Some(c.key), p, false);
      assert events == front + [it] + events[3..];
      DispatchesNone(front, c.key);
      DispatchesNone(events[3..], c.key);
      DispatchesOnce(front, it, events[3..], c.key);
    } else {
      DispatchesNone(events, c.key);
    }
  }

  /** Other children dispatch nothing of the payload and leave its ratchet and buffer entry alone. */
  lemma {:induction false} OthersDispatchNone(on: bool, st: Store, id: nat, c: Child, e: Env, k: Key)
    requires HashOf(c) != Some(k)
    ensures Dispatches(Answered(on, st, id, c, e).events, k) == []
    ensures Fresh(st, k) ==> Fresh(Answered(on, st, id, c, e).store, k)
  {
    var p := Obtained(on, st, c, e);
    if p.Some? {
      UseOfOthers(on, if Decrypts(on, st, c, e) then Taken(on, st, id, c, p.value).store else st, id, c, e, p.value, k);
    }
    DispatchesNone(Answered(on, st, id, c, e).events, k);
  }

  lemma {:induction false} UseOfOthers(on: bool, st: Store, id: nat, c: Child, e: Env, p: Bytes, k: Key)
    requires HashOf(c) != Some(k)
    ensures var a := Used(on, st, id, c, e, p);
      && (forall i | 0 <= i < |a.events| :: !(a.events[i].Dispatched? && a.events[i].key == Some(k)))
      && (Fresh(st, k) ==> Fresh(a.store, k))
  {}

  lemma {:induction false} JoinedDispatches(a: Account, rest: Account, k: Key)
    ensures Dispatches(Joined(a, rest).events, k)
         == Dispatches(a.events, k) + if a.goesOn then Dispatches(rest.events, k) else []
  {
    DispatchesJoin(a.events, rest.events, k);
  }

  lemma {:induction false} OthersFrom(on: bool, st: Store, id: nat, node: Node, script: seq<Env>, i: nat, k: Key,
                                      all: Account)
    requires i <= |node.children| < |script| && all == AnsweredFrom(on, st, id, node, script, i)
    requires forall l | i <= l < |node.children| :: HashOf(node.children[l]) != Some(k)
    ensures Dispatches(all.events, k) == []
    decreases |node.children| - i
  {
    if i < |node.children| {
      var a := Answered(on, st, id, node.children[i], script[i]);
      var rest := AnsweredFrom(on, a.store, id, node, script, i + 1);
      OthersDispatchNone(on, st, id, node.children[i], script[i], k);
      OthersFrom(on, a.store, id, node, script, i + 1, k, rest);
      JoinedDispatches(a, rest, k);
    }
  }

  lemma {:induction false} DispatchesFrom(on: bool, st: Store, id: nat, node: Node, script: seq<Env>, i: nat, j: nat)
    requires i <= j < |node.children| < |script| && Buffered(node.children[j])
    requires AnsweredFrom(on, st, id, node, script, i).goesOn && OnlyAt(node, node.children[j].key, j)
    requires Fresh(st, node.children[j].key)
    ensures var c, e := node.children[j], script[j];
      && e.decrypt.Ok? && Unpads(c, e.decrypt.value)
      && Dispatches(AnsweredFrom(on, st, id, node, script, i).events, c.key) == Due(id, c, e)
    decreases |node.children| - i
  {
    var c, e, k := node.children[i], script[i], node.children[j].key;
    var a := Answered(on, st, id, c, e);
    JoinedDispatches(a, AnsweredFrom(on, a.store, id, node, script, i + 1), k);
    if i == j {
      FreshDispatches(on, st, id, c, e);
      OthersFrom(on, a.store, id, node, script, i + 1, k, AnsweredFrom(on, a.store, id, node, script, i + 1));
    } else {
      OthersDispatchNone(on, st, id, c, e, k);
      DispatchesFrom(on, a.store, id, node, script, i + 1, j);
    }
  }

  /**
    A delivery that sends its receipt, the event buffer on or off, has decrypted and unpadded every
    payload that was new, and has dispatched it exactly once, unrefused and with the bytes of the
    cipher, if it decodes to something to hand over, and never otherwise.
   */
  lemma {:induction false} AcknowledgedIsDispatched(on: bool, st: Store, id: nat, node: Node, script: seq<Env>, j: nat)
    requires |script| == |node.children| + 1 && j < |node.children| && Buffered(node.children[j])
    requires Fresh(st, node.children[j].key) && OnlyAt(node, node.children[j].key, j)
    requires Final(Deliver(on, st, id, node, script).outcome)
    ensures var c, e := node.children[j], script[j];
      && e.decrypt.Ok? && Padding.UnpadMessage(e.decrypt.value, c.version).Ok?
      && Dispatches(Deliver(on, st, id, node, script).events, c.key)
         == if e.decodes && ((c.version == 2 && e.protocolOk) || (c.version == 3 && e.hasMessage))
            then [Dispatched(id, Some(c.key), e.decrypt.value, false)] else []
  {
    DeliveryByAnswers(on, st, id, node, script);
    DispatchesFrom(on, st, id, node, script, 0, j);
    var events, k := Deliver(on, st, id, node, script).events, node.children[j].key;
    var front := AnsweredFrom(on, st, id, node, script, 0).events;
    DispatchesNone(events[|front|..], k);
    DispatchesJoin(front, events[|front|..], k);
    assert events == front + events[|front|..];
  }

  // ---------- what is reported undecryptable ----------

  predicate DirectBefore(node: Node, n: nat)
    requires n <= |node.children|
  {
    exists j :: 0 <= j < n && node.children[j].kind.Direct?
  }

  /** The cipher was asked for this child, and has no sender key. */
  predicate LacksSenderKey(on: bool, st: Store, c: Child, e: Env) {
    c.kind.SenderKey? && e.parses && (on ==> !e.getFails && c.key !in st.buffer) && e.decrypt == Err(NoSenderKey)
  }

  /** How child j is reported if the delivery fails on it. */
  function Report(on: bool, st: Store, node: Node, j: nat, e: Env): Outcome
    requires j < |node.children|
  {
    Undecryptable(LacksSenderKey(on, st, node.children[j], e) && !DirectBefore(node, j), node.children[j].kind.Secret?)
  }

  /** The store when child j begins. */
  function StoreBefore(on: bool, st: Store, id: nat, node: Node, script: seq<Env>, j: nat): Store
    requires j <= |node.children| < |script|
  {
    if j == 0 then st
    else Answered(on, StoreBefore(on, st, id, node, script, j - 1), id, node.children[j - 1], script[j - 1]).store
  }

  lemma UseReportsOther(on: bool, st: Store, d: Delivery, e: Env)
    requires Running(d) && d.phase.Use?
    ensures var o := UseThenClear(on, st, d, e).d;
      && (o.phase.Done? && o.phase.outcome.Undecryptable? ==>
            o.phase.outcome == Undecryptable(false, Current(d).kind.Secret?))
      && (!o.phase.Done? ==> o.containsDirectMsg == d.containsDirectMsg)
  {
    if Unpads(Current(d), d.phase.padded) {
      UsedByAnswers(on, st, d, e);
    } else {
      BadPadding(on, st, d, e);
    }
  }

  lemma PayloadReports(on: bool, st: Store, d: Delivery, e: Env)
    requires Running(d) && d.i < |d.node.children| && Buffered(Current(d)) && e.parses
    requires d.containsDirectMsg == (DirectBefore(d.node, d.i) || Current(d).kind.Direct?)
    ensures var o := OnePayload(on, st, d, e).d;
      && (o.phase.Done? && o.phase.outcome.Undecryptable? ==> o.phase.outcome == Report(on, st, d.node, d.i, e))
      && (!o.phase.Done? ==> o.containsDirectMsg == d.containsDirectMsg)
  {
    var (answer, st') := BufferedResult(on, st, Current(d).key, e);
    if answer.Plaintext? { UseReportsOther(on, st', d.(phase := Use(answer.padded)), e); }
  }

  lemma ChildReports(on: bool, st: Store, d: Delivery, e: Env)
    requires Running(d) && d.phase.Next? && d.i < |d.node.children|
    requires d.containsDirectMsg == DirectBefore(d.node, d.i)
    ensures var o := OneChild(on, st, d, e).d;
      && (o.phase.Done? && o.phase.outcome.Undecryptable? ==> o.phase.outcome == Report(on, st, d.node, d.i, e))
      && (!o.phase.Done? ==> o.containsDirectMsg == DirectBefore(d.node, d.i + 1))
  {
    var c, d' := Current(d), Recognized(d);
    assert DirectBefore(d.node, d.i + 1) == (DirectBefore(d.node, d.i) || c.kind.Direct?);
    if c.kind.Secret? && e.secret.Some? {
      UseReportsOther(on, st, d'.(phase := Use(e.secret.value)), e);
    } else if Buffered(c) && e.parses {
      PayloadReports(on, st, d', e);
    }
  }

  /** Child i does not end the delivery. */
  predicate Passes(on: bool, st: Store, id: nat, node: Node, script: seq<Env>, i: nat)
    requires i < |node.children| < |script|
  {
    Answered(on, StoreBefore(on, st, id, node, script, i), id, node.children[i], script[i]).goesOn
  }

  /** The delivery stands before child d.i, in the store that the children before it leave. */
  ghost predicate Stands(on: bool, st0: Store, id: nat, node: Node, script: seq<Env>, st: Store, d: Delivery) {
    && |script| == |node.children| + 1 && d.id == id && d.node == node && Running(d) && d.phase.Next?
    && st == StoreBefore(on, st0, id, node, script, d.i)
    && d.containsDirectMsg == DirectBefore(node, d.i)
  }

  lemma StandsNext(on: bool, st0: Store, id: nat, node: Node, script: seq<Env>, st: Store, d: Delivery,
                   r: StepResult, a: Account)
    requires Stands(on, st0, id, node, script, st, d) && d.i < |node.children|
    requires ChildDone(d, r) && !r.d.phase.Done? && Tells(r, a)
    requires a == Answered(on, st, id, node.children[d.i], script[d.i])
    requires r.d.containsDirectMsg == DirectBefore(node, d.i + 1)
    ensures Stands(on, st0, id, node, script, r.store, r.d)
  {}

  lemma ReportingTurn(on: bool, st0: Store, id: nat, node: Node, script: seq<Env>, st: Store, d: Delivery)
    returns (r: StepResult)
    requires Stands(on, st0, id, node, script, st, d) && d.i < |node.children|
    ensures r.d.phase.Done? || (Stands(on, st0, id, node, script, r.store, r.d) && r.d.i == d.i + 1)
    ensures r.d.phase.Done? <==> !Passes(on, st0, id, node, script, d.i)
    ensures var o := Drive(on, st, d, script).outcome;
      if r.d.phase.Done? then
        o.Undecryptable? ==> o == Report(on, StoreBefore(on, st0, id, node, script, d.i), node, d.i, script[d.i])
      else o == Drive(on, r.store, r.d, script).outcome
  {
    r := OneChild(on, st, d, script[d.i]);
    DriveChild(on, st, d, script);
    ChildTells(on, st, d, script[d.i]);
    ChildReports(on, st, d, script[d.i]);
    if !r.d.phase.Done? {
      StandsNext(on, st0, id, node, script, st, d, r, Answered(on, st, id, node.children[d.i], script[d.i]));
    }
  }

  lemma {:induction false} DriveReports(on: bool, st0: Store, id: nat, node: Node, script: seq<Env>, st: Store,
                                        d: Delivery) returns (j: nat)
    requires Stands(on, st0, id, node, script, st, d) && Drive(on, st, d, script).outcome.Undecryptable?
    ensures d.i <= j < |node.children|
    ensures Drive(on, st, d, script).outcome
         == Report(on, StoreBefore(on, st0, id, node, script, j), node, j, script[j])
    ensures forall i | d.i <= i <= j :: Passes(on, st0, id, node, script, i) <==> i < j
    decreases |node.children| - d.i
  {
    if d.i == |node.children| { NoTurnLeft(on, st, d, script); }
    var r := ReportingTurn(on, st0, id, node, script, st, d);
    if r.d.phase.Done? {
      j := d.i;
    } else {
      j := DriveReports(on, st0, id, node, script, r.store, r.d);
    }
  }

  /**
    A delivery that ends undecryptable does so at the first child that it does not get past.  The
    message is called unavailable exactly when the cipher was asked for a sender-key message, has no
    sender key, and no direct message came before it; and its secret missing exactly for a bot message.
   */
  lemma UndecryptableIsExact(on: bool, st: Store, id: nat, node: Node, script: seq<Env>) returns (j: nat)
    requires |script| == |node.children| + 1
    requires Deliver(on, st, id, node, script).outcome.Undecryptable?
    ensures j < |node.children|
    ensures Deliver(on, st, id, node, script).outcome
         == Report(on, StoreBefore(on, st, id, node, script, j), node, j, script[j])
    ensures forall i | 0 <= i <= j :: Passes(on, st, id, node, script, i) <==> i < j
  {
    j := DriveReports(on, st, id, node, script, st, Begin(id, node).0);
  }
}
