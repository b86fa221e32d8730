/**
  decryptMessages and bufferedDecrypt in the source's own form, proved to do exactly what the
  delivery machine does when it runs without interruption, and the exact outcome of a delivery.
 */
module DecryptMessages {
  import opened Prelude
  import opened Delivery
  import Padding

  datatype Delivered = Delivered(store: Store, outcome: Outcome, events: seq<Event>)

  function Prepend(events: seq<Event>, r: Delivered): Delivered {
    r.(events := events + r.events)
  }

  function Remaining(d: Delivery): nat
    requires Running(d)
  {
    6 * (|d.node.children| - d.i) + Rank(d.phase)
  }

  /** Runs the machine to the end; script[i] answers the calls made for child i. */
  function Drive(on: bool, st: Store, d: Delivery, script: seq<Env>): Delivered
    requires |script| == |d.node.children| + 1
    requires Running(d)
    decreases Remaining(d)
  {
    var r := Step(on, st, d, script[d.i]);
    if r.d.phase.Done? then Delivered(r.store, r.d.phase.outcome, r.events)
    else Prepend(r.events, Drive(on, r.store, r.d, script))
  }

  function Deliver(on: bool, st: Store, id: nat, node: Node, script: seq<Env>): Delivered
    requires |script| == |node.children| + 1
  {
    var (d, events) := Begin(id, node);
    if d.phase.Done? then Delivered(st, d.phase.outcome, events)
    else Drive(on, st, d, script)
  }

  // ---------- one child at a time ----------

  datatype Decrypted =
    | Plaintext(padded: Bytes)
    | AlreadyProcessed
    | OldCounter
    | Failed(error: DecryptError)

  /** What bufferedDecrypt answers, and the store it leaves. */
  function BufferedResult(on: bool, st: Store, key: Key, e: Env): (Decrypted, Store) {
    if on && e.getFails then (Failed(Other), st)
    else if on && key in st.buffer then
      (if st.buffer[key].None? then AlreadyProcessed else Plaintext(st.buffer[key].value), st)
    else if key in st.consumed then (OldCounter, st)
    else if e.decrypt.Err? then (Failed(e.decrypt.error), st)
    else if on && e.putFails then (Failed(Other), st)
    else (Plaintext(e.decrypt.value),
          Store(if on then st.buffer[key := Some(e.decrypt.value)] else st.buffer, st.consumed + {key}))
  }

  function DecryptEvents(on: bool, st: Store, id: nat, key: Key, r: Decrypted): seq<Event> {
    match r
    case Plaintext(p) => if on && key in st.buffer then [] else [Committed(id, Some(key), p)]
    case OldCounter => [Ignored(id, Some(key))]
    case _ => []
  }

  function Before(events: seq<Event>, r: StepResult): StepResult {
    r.(events := events + r.events)
  }

  /** Unpad, decode and dispatch, then clear the buffered plaintext. */
  function UseThenClear(on: bool, st: Store, d: Delivery, e: Env): (r: StepResult)
    requires Running(d) && d.phase.Use?
    ensures ChildDone(d, r)
  {
    var r := StepUse(on, st, d, e);
    if r.d.phase.Clear? then Before(r.events, StepClear(r.store, r.d, e)) else r
  }

  /** The clear after a use, spelled out. */
  lemma ClearAfterUse(on: bool, st: Store, d: Delivery, e: Env, log: seq<Event>)
    requires Running(d) && d.phase.Use? && StepUse(on, st, d, e).d.phase.Clear?
    ensures var used, r, key := StepUse(on, st, d, e), UseThenClear(on, st, d, e), Current(d).key;
      var kept := e.clearFails || key !in st.buffer;
      && r.d == NextChild(used.d)
      && r.store == (if kept then st else st.(buffer := st.buffer[key := None]))
      && log + r.events == log + used.events + if kept then [] else [Cleared(d.id, Some(key))]
  {
    var used := StepUse(on, st, d, e);
    Associative(log, used.events, StepClear(st, used.d, e).events);
  }

  lemma BadPadding(on: bool, st: Store, d: Delivery, e: Env)
    requires Running(d) && d.phase.Use? && CurrentKey(d).Some?
    requires Padding.UnpadMessage(d.phase.padded, Current(d).version).Err?
    ensures UseThenClear(on, st, d, e) == Fail(st, d, e, Other)
  {}

  predicate ChildDone(d: Delivery, r: StepResult) {
    && r.d.id == d.id && r.d.node == d.node
    && (r.d.phase.Done? || (Running(r.d) && r.d.phase.Next? && r.d.i == d.i + 1))
  }

  function Recognized(d: Delivery): Delivery
    requires d.i < |d.node.children|
  {
    d.(recognized := true, containsDirectMsg := d.containsDirectMsg || Current(d).kind.Direct?)
  }

  /** decryptDM or decryptGroupMsg once the ciphertext is parsed, and what follows it. */
  function OnePayload(on: bool, st: Store, d: Delivery, e: Env): (r: StepResult)
    requires Running(d) && d.i < |d.node.children| && Buffered(Current(d))
    ensures ChildDone(d, r)
  {
    var key := Current(d).key;
    var (answer, st') := BufferedResult(on, st, key, e);
    var events := DecryptEvents(on, st, d.id, key, answer);
    match answer
    case Plaintext(padded) => Before(events, UseThenClear(on, st', d.(phase := Use(padded)), e))
    case Failed(err) => Before(events, Fail(st', d, e, err))
    case _ => StepResult(st', NextChild(d), events)
  }

  /** One turn of the loop over the children of the stanza. */
  function OneChild(on: bool, st: Store, d: Delivery, e: Env): (r: StepResult)
    requires Running(d) && d.phase.Next? && d.i < |d.node.children|
    ensures ChildDone(d, r)
  {
    var kind, d' := Current(d).kind, Recognized(d);
    if kind.NotEnc? then StepResult(st, NextChild(d), [])
    else if kind.Untyped? || kind.Unhandled? then StepResult(st, NextChild(d'), [])
    else if kind.Secret? then
      if e.secret.None? then Fail(st, d', e, Other)
      else UseThenClear(on, st, d'.(phase := Use(e.secret.value)), e)
    else if !e.parses then Fail(st, d', e, Other)
    else OnePayload(on, st, d', e)
  }

  /** The rest of the delivery after the step r. */
  function Continue(on: bool, r: StepResult, script: seq<Env>): Delivered
    requires |script| == |r.d.node.children| + 1
    requires r.d.phase.Done? || Running(r.d)
  {
    if r.d.phase.Done? then Delivered(r.store, r.d.phase.outcome, r.events)
    else Prepend(r.events, Drive(on, r.store, r.d, script))
  }

  lemma ContinueBefore(on: bool, events: seq<Event>, r: StepResult, script: seq<Env>)
    requires |script| == |r.d.node.children| + 1
    requires r.d.phase.Done? || Running(r.d)
    ensures Continue(on, Before(events, r), script) == Prepend(events, Continue(on, r, script))
  {
    if !r.d.phase.Done? {
      var rest := Drive(on, r.store, r.d, script);
      assert (events + r.events) + rest.events == events + (r.events + rest.events);
    }
  }

  lemma DriveUse(on: bool, st: Store, d: Delivery, script: seq<Env>)
    requires |script| == |d.node.children| + 1 && Running(d) && d.phase.Use?
    ensures Drive(on, st, d, script) == Continue(on, UseThenClear(on, st, d, script[d.i]), script)
  {
    var r := StepUse(on, st, d, script[d.i]);
    if r.d.phase.Clear? {
      ContinueBefore(on, r.events, StepClear(r.store, r.d, script[d.i]), script);
    }
  }

  lemma CommitEnds(on: bool, st: Store, d: Delivery, e: Env)
    requires Running(d) && d.phase.Commit? && (on ==> Current(d).key !in st.buffer && !e.getFails)
    requires !BufferedResult(on, st, Current(d).key, e).0.Plaintext?
    ensures StepCommit(on, st, d, e) == OnePayload(on, st, d, e)
  {
  }

  lemma CommitGoesOn(on: bool, st: Store, d: Delivery, e: Env)
    requires Running(d) && d.phase.Commit? && (on ==> Current(d).key !in st.buffer && !e.getFails)
    requires BufferedResult(on, st, Current(d).key, e).0.Plaintext?
    ensures var (answer, st') := BufferedResult(on, st, Current(d).key, e);
            StepCommit(on, st, d, e) == StepResult(st', d.(phase := Use(answer.padded)),
                                                   DecryptEvents(on, st, d.id, Current(d).key, answer))
  {
  }

  lemma DriveCommit(on: bool, st: Store, d: Delivery, script: seq<Env>)
    requires |script| == |d.node.children| + 1 && Running(d) && d.phase.Commit?
    requires on ==> Current(d).key !in st.buffer && !script[d.i].getFails
    ensures Drive(on, st, d, script) == Continue(on, OnePayload(on, st, d, script[d.i]), script)
  {
    var e, key := script[d.i], Current(d).key;
    var (answer, st') := BufferedResult(on, st, key, e);
    if answer.Plaintext? {
      var d' := d.(phase := Use(answer.padded));
      CommitGoesOn(on, st, d, e);
      DriveUse(on, st', d', script);
      ContinueBefore(on, DecryptEvents(on, st, d.id, key, answer), UseThenClear(on, st', d', e), script);
    } else {
      CommitEnds(on, st, d, e);
    }
  }

  lemma FetchEnds(st: Store, d: Delivery, e: Env)
    requires Running(d) && d.phase.Fetch?
    ensures var key := Current(d).key;
            if e.getFails || (key in st.buffer && st.buffer[key].None?) then
              StepFetch(st, d, e) == OnePayload(true, st, d, e)
            else
              StepFetch(st, d, e) ==
                StepResult(st, d.(phase := if key in st.buffer then Use(st.buffer[key].value) else Commit), [])
  {
  }

  lemma DriveFetch(st: Store, d: Delivery, script: seq<Env>)
    requires |script| == |d.node.children| + 1 && Running(d) && d.phase.Fetch?
    ensures Drive(true, st, d, script) == Continue(true, OnePayload(true, st, d, script[d.i]), script)
  {
    var e, key := script[d.i], Current(d).key;
    FetchEnds(st, d, e);
    if !e.getFails && key !in st.buffer {
      var d' := d.(phase := Commit);
      assert Drive(true, st, d, script) == Drive(true, st, d', script);
      DriveCommit(true, st, d', script);
      PhaseForgotten(true, st, d, d', e);
    } else if !e.getFails && st.buffer[key].Some? {
      var d' := d.(phase := Use(st.buffer[key].value));
      DriveUse(true, st, d', script);
      ContinueBefore(true, [], UseThenClear(true, st, d', e), script);
    }
  }

  lemma DrivePayload(on: bool, st: Store, d: Delivery, script: seq<Env>)
    requires |script| == |d.node.children| + 1
    requires Running(d) && d.phase.Next? && d.i < |d.node.children| && Buffered(Current(d)) && script[d.i].parses
    ensures Drive(on, st, d, script) == Continue(on, OnePayload(on, st, Recognized(d), script[d.i]), script)
  {
    var e := script[d.i];
    var d' := Recognized(d).(phase := if on then Fetch else Commit);
    assert StepNext(on, st, d, e) == StepResult(st, d', []);
    assert Drive(on, st, d, script) == Drive(on, st, d', script);
    if on { DriveFetch(st, d', script); } else { DriveCommit(on, st, d', script); }
    PhaseForgotten(on, st, Recognized(d), d', e);
  }

  lemma PhaseForgotten(on: bool, st: Store, d: Delivery, d': Delivery, e: Env)
    requires Running(d) && Running(d') && d.i < |d.node.children| && Buffered(Current(d))
    requires d' == d.(phase := d'.phase)
    ensures OnePayload(on, st, d, e) == OnePayload(on, st, d', e)
  {
  }

  lemma DriveChild(on: bool, st: Store, d: Delivery, script: seq<Env>)
    requires |script| == |d.node.children| + 1
    requires Running(d) && d.phase.Next? && d.i < |d.node.children|
    ensures Drive(on, st, d, script) == Continue(on, OneChild(on, st, d, script[d.i]), script)
  {
    var e, kind, d' := script[d.i], Current(d).kind, Recognized(d);
    if kind.Secret? && e.secret.Some? {
      var d'' := d'.(phase := Use(e.secret.value));
      assert StepNext(on, st, d, e) == StepResult(st, d'', []);
      assert Drive(on, st, d, script) == Drive(on, st, d'', script);
      DriveUse(on, st, d'', script);
    } else if Buffered(Current(d)) && e.parses {
      DrivePayload(on, st, d, script);
    } else {
      assert StepNext(on, st, d, e) == OneChild(on, st, d, e);
    }
  }

  /** One turn of the loop, as a step of the whole run. */
  lemma LoopStep(on: bool, st: Store, d: Delivery, script: seq<Env>, emitted: seq<Event>, r: StepResult)
    requires |script| == |d.node.children| + 1
    requires Running(d) && d.phase.Next? && d.i < |d.node.children|
    requires r == OneChild(on, st, d, script[d.i])
    ensures var whole := Prepend(emitted, Drive(on, st, d, script));
            if r.d.phase.Done? then whole == Delivered(r.store, r.d.phase.outcome, emitted + r.events)
            else whole == Prepend(emitted + r.events, Drive(on, r.store, r.d, script))
  {
    DriveChild(on, st, d, script);
    if !r.d.phase.Done? {
      var rest := Drive(on, r.store, r.d, script);
      assert (emitted + r.events) + rest.events == emitted + (r.events + rest.events);
    }
  }

  /** The local variables after one turn. */
  lemma NextTurn(d: Delivery, recognized: bool, containsDirectMsg: bool, protobufFailed: bool)
    requires d.i < |d.node.children|
    requires recognized == (d.recognized || !Current(d).kind.NotEnc?)
    requires containsDirectMsg == Recognized(d).containsDirectMsg
    ensures NextChild(if Current(d).kind.NotEnc? then d else Recognized(d)).(protobufFailed := protobufFailed)
         == Delivery(d.id, d.node, d.i + 1, Next, recognized, protobufFailed, containsDirectMsg)
  {
  }

  /** The last turn of the loop: the final reply. */
  lemma LoopEnd(on: bool, st: Store, d: Delivery, script: seq<Env>, emitted: seq<Event>)
    requires |script| == |d.node.children| + 1
    requires Running(d) && d.phase.Next? && d.i == |d.node.children|
    ensures Prepend(emitted, Drive(on, st, d, script))
         == Delivered(st, FinalReply(d), emitted + [Replied(d.id, d.node, FinalReply(d))])
  {
  }

  // ---------- the source's own form ----------

  datatype Turn = Continued(protobufFailed: bool) | Stopped(outcome: Outcome)

  class Client {
    const enableDecryptedEventBuffer: bool
    var buffer: map<Key, Option<Bytes>>
    var consumed: set<Key>
    ghost var log: seq<Event>

    constructor (on: bool, st: Store)
      ensures enableDecryptedEventBuffer == on && Contents() == st && log == []
    {
      enableDecryptedEventBuffer := on;
      buffer, consumed := st.buffer, st.consumed;
      log := [];
    }

    function Contents(): Store
      reads this
    {
      Store(buffer, consumed)
    }

    /** The cipher's decrypt call: one use per ratchet. */
    method Decrypt(key: Key, e: Env) returns (r: Decrypted)
      modifies this`consumed
      ensures r == (if key in old(consumed) then OldCounter
                    else if e.decrypt.Err? then Failed(e.decrypt.error) else Plaintext(e.decrypt.value))
      ensures consumed == if r.Plaintext? then old(consumed) + {key} else old(consumed)
    {
      if key in consumed { return OldCounter; }
      if e.decrypt.Err? { return Failed(e.decrypt.error); }
      consumed := consumed + {key};
      return Plaintext(e.decrypt.value);
    }

    method BufferedDecrypt(ghost id: nat, key: Key, e: Env) returns (r: Decrypted)
      modifies this
      ensures (r, Contents()) == BufferedResult(enableDecryptedEventBuffer, old(Contents()), key, e)
      ensures log == old(log) + DecryptEvents(enableDecryptedEventBuffer, old(Contents()), id, key, r)
    {
      if !enableDecryptedEventBuffer {
        r := Decrypt(key, e);
      } else if e.getFails {
        r := Failed(Other);
        return;
      } else if key in buffer {
        r := if buffer[key].None? then AlreadyProcessed else Plaintext(buffer[key].value);
        return;
      } else {
        // DoDecryptionTxn: a failing call inside it rolls back what was done before
        var before := consumed;
        r := Decrypt(key, e);
        if r.Plaintext? && e.putFails {
          r := Failed(Other);
          consumed := before;
        } else if r.Plaintext? {
          buffer := buffer[key := Some(r.padded)];
        }
      }
      log := log + DecryptEvents(enableDecryptedEventBuffer, old(Contents()), id, key, r);
    }

    /** The switch over the payload version and the handlers; skip is the continue of version 2. */
    method DispatchPlaintext(ghost d: Delivery, hash: Option<Key>, version: int, padded: Bytes, e: Env, failed: bool)
      returns (handlerFailed: bool, protobufFailed: bool, skip: bool)
      requires Running(d) && d.phase == Use(padded) && failed == d.protobufFailed
      requires hash == CurrentKey(d) && version == Current(d).version
      requires hash.Some? ==> Padding.UnpadMessage(padded, version).Ok?
      modifies this`log
      ensures var on := enableDecryptedEventBuffer;
              var r := StepUse(on, Contents(), d, e);
              && log == old(log) + r.events
              && r.d == if handlerFailed then d.(phase := Done(Silent), protobufFailed := protobufFailed)
                        else if skip then NextChild(d).(protobufFailed := protobufFailed)
                        else AfterDispatch(on, d.(protobufFailed := protobufFailed))
    {
      handlerFailed, protobufFailed, skip := false, failed, false;
      if version == 2 {
        log := log + [Decoded(d.id, hash, e.decodes)];
        protobufFailed := !e.decodes;
        if !e.decodes {
          skip := true;
        } else if !e.protocolOk {
          log := log + [Swallowed(d.id, hash)];
        } else {
          handlerFailed := DispatchEvent(e.handlers);
          log := log + [Dispatched(d.id, hash, padded, handlerFailed)];
        }
      } else if version == 3 {
        log := log + [Decoded(d.id, hash, e.decodes)];
        protobufFailed := !e.decodes;
        if e.decodes && e.hasMessage {
          handlerFailed := DispatchEvent(e.handlers);
          log := log + [Dispatched(d.id, hash, padded, handlerFailed)];
        } else if e.decodes {
          log := log + [Swallowed(d.id, hash)];
        }
      } else {
        log := log + [Swallowed(d.id, hash)];
      }
    }

    method ClearBufferedEventPlaintext(ghost id: nat, key: Key, e: Env)
      modifies this
      ensures consumed == old(consumed)
      ensures buffer == if e.clearFails || key !in old(buffer) then old(buffer) else old(buffer)[key := None]
      ensures log == old(log) + if e.clearFails || key !in old(buffer) then [] else [Cleared(id, Some(key))]
    {
      if !e.clearFails && key in buffer {
        buffer := buffer[key := None];
        log := log + [Cleared(id, Some(key))];
      }
    }

    /** Dispatch of a payload whose padding is fine, and the clear that follows it. */
    method HandleUnpadded(ghost d: Delivery, child: Child, hash: Option<Key>, padded: Bytes, e: Env, failed: bool)
      returns (t: Turn)
      requires Running(d) && d.phase == Use(padded) && child == Current(d) && hash == CurrentKey(d)
      requires failed == d.protobufFailed
      requires hash.Some? ==> Padding.UnpadMessage(padded, child.version).Ok?
      modifies this
      ensures Matches(t, d, UseThenClear(enableDecryptedEventBuffer, old(Contents()), d, e), old(log))
    {
      ghost var r := StepUse(enableDecryptedEventBuffer, Contents(), d, e);
      assert LeavesStore(Contents(), r) && Follows(d, r);
      var handlerFailed, protobufFailed, skip := DispatchPlaintext(d, hash, child.version, padded, e, failed);
      if handlerFailed {
        return Stopped(Silent);
      }
      if !skip && hash.Some? && enableDecryptedEventBuffer {
        assert r.d == d.(phase := Clear, protobufFailed := protobufFailed);
        ClearAfterUse(enableDecryptedEventBuffer, Contents(), d, e, old(log));
        ClearBufferedEventPlaintext(d.id, hash.value, e);
      }
      return Continued(protobufFailed);
    }

    /** What happens to a decrypted payload up to the end of its turn of the loop. */
    method HandlePlaintext(ghost d: Delivery, child: Child, hash: Option<Key>, padded: Bytes, e: Env,
                           containsDirectMsg: bool, failed: bool)
      returns (t: Turn)
      requires Running(d) && d.phase == Use(padded) && child == Current(d) && hash == CurrentKey(d)
      requires containsDirectMsg == d.containsDirectMsg && failed == d.protobufFailed
      modifies this
      ensures Matches(t, d, UseThenClear(enableDecryptedEventBuffer, old(Contents()), d, e), old(log))
    {
      if hash.Some? && Padding.UnpadMessage(padded, child.version).Err? {
        BadPadding(enableDecryptedEventBuffer, Contents(), d, e);
        t := DecryptionFailed(d, child.kind, containsDirectMsg, e, Other);
      } else {
        t := HandleUnpadded(d, child, hash, padded, e, failed);
      }
    }

    /** The turn t, the store and the history are those of the step result r. */
    ghost predicate Matches(t: Turn, d: Delivery, r: StepResult, before: seq<Event>)
      reads this
    {
      && Contents() == r.store && log == before + r.events
      && if r.d.phase.Done? then t == Stopped(r.d.phase.outcome)
         else t == Continued(r.d.protobufFailed) && r.d == NextChild(d).(protobufFailed := r.d.protobufFailed)
    }

    /** The error branch: silent when cancelled, otherwise reply and report. */
    method DecryptionFailed(ghost d: Delivery, kind: Kind, containsDirectMsg: bool, e: Env, err: DecryptError)
      returns (t: Turn)
      requires d.i < |d.node.children| && kind == Current(d).kind && containsDirectMsg == d.containsDirectMsg
      modifies this`log
      ensures Matches(t, d, Fail(old(Contents()), d, e, err), old(log))
    {
      if e.cancelled { return Stopped(Silent); }
      var outcome := Undecryptable(kind.SenderKey? && !containsDirectMsg && err.NoSenderKey?, kind.Secret?);
      log := log + [Replied(d.id, d.node, outcome), UndecryptableEvent(d.id)];
      return Stopped(outcome);
    }

    /** decryptDM and decryptGroupMsg up to the unpadding, and the rest of the turn. */
    method HandlePayload(ghost d: Delivery, child: Child, e: Env, containsDirectMsg: bool, failed: bool)
      returns (t: Turn)
      requires Running(d) && d.i < |d.node.children| && child == Current(d) && Buffered(child)
      requires containsDirectMsg == d.containsDirectMsg && failed == d.protobufFailed
      modifies this
      ensures Matches(t, d, OnePayload(enableDecryptedEventBuffer, old(Contents()), d, e), old(log))
    {
      ghost var before := Contents();
      var answer := BufferedDecrypt(d.id, child.key, e);
      ghost var events := DecryptEvents(enableDecryptedEventBuffer, before, d.id, child.key, answer);
      assert forall more :: old(log) + (events + more) == (old(log) + events) + more;
      if answer.Plaintext? {
        ghost var used := d.(phase := Use(answer.padded));
        ghost var r := UseThenClear(enableDecryptedEventBuffer, Contents(), used, e);
        ghost var logged := log;
        t := HandlePlaintext(used, child, Some(child.key), answer.padded, e, containsDirectMsg, failed);
        assert Matches(t, used, r, logged);
        assert NextChild(used) == NextChild(d);
        assert OnePayload(enableDecryptedEventBuffer, before, d, e) == Before(events, r);
      } else if answer.Failed? {
        t := DecryptionFailed(d, child.kind, containsDirectMsg, e, answer.error);
      } else {
        t := Continued(failed);
      }
    }

    /** One turn of the loop over the children. */
    method HandleChild(ghost d: Delivery, child: Child, e: Env, containsDirectMsg: bool, failed: bool)
      returns (t: Turn)
      requires Running(d) && d.phase.Next? && d.i < |d.node.children| && child == Current(d)
      requires containsDirectMsg == Recognized(d).containsDirectMsg && failed == d.protobufFailed
      modifies this
      ensures Matches(t, if child.kind.NotEnc? then d else Recognized(d),
                      OneChild(enableDecryptedEventBuffer, old(Contents()), d, e), old(log))
    {
      ghost var d' := Recognized(d);
      if child.kind.NotEnc? || child.kind.Untyped? || child.kind.Unhandled? {
        return Continued(failed);
      } else if child.kind.Secret? && e.secret.Some? {
        ghost var used := d'.(phase := Use(e.secret.value));
        t := HandlePlaintext(used, child, None, e.secret.value, e, containsDirectMsg, failed);
        assert NextChild(used) == NextChild(d');
      } else if child.kind.Secret? || !e.parses {
        t := DecryptionFailed(d', child.kind, containsDirectMsg, e, Other);
      } else {
        t := HandlePayload(d', child, e, containsDirectMsg, failed);
      }
    }

    /** The loop over the children and the final reply. */
    method HandleChildren(ghost id: nat, node: Node, script: seq<Env>) returns (outcome: Outcome)
      requires |script| == |node.children| + 1
      modifies this
      ensures var r := Drive(enableDecryptedEventBuffer, old(Contents()),
                             Delivery(id, node, 0, Next, false, false, false), script);
              Contents() == r.store && outcome == r.outcome && log == old(log) + r.events
    {
      var recognized, protobufFailed, containsDirectMsg := false, false, false;
      ghost var on := enableDecryptedEventBuffer;
      ghost var d := Delivery(id, node, 0, Next, false, false, false);
      ghost var whole := Drive(on, Contents(), d, script);
      ghost var log0, emitted: seq<Event> := log, [];
      for i := 0 to |node.children|
        invariant d == Delivery(id, node, i, Next, recognized, protobufFailed, containsDirectMsg)
        invariant log == log0 + emitted
        invariant whole == Prepend(emitted, Drive(on, Contents(), d, script))
      {
        var child, e := node.children[i], script[i];
        ghost var r := OneChild(on, Contents(), d, e);
        LoopStep(on, Contents(), d, script, emitted, r);
        if !child.kind.NotEnc? { recognized := true; }
        if child.kind.Direct? { containsDirectMsg := true; }
        var turn := HandleChild(d, child, e, containsDirectMsg, protobufFailed);
        Associative(log0, emitted, r.events);
        emitted := emitted + r.events;
        if turn.Stopped? {
          return turn.outcome;
        }
        NextTurn(d, recognized, containsDirectMsg, turn.protobufFailed);
        protobufFailed := turn.protobufFailed;
        d := r.d;
      }
      LoopEnd(on, Contents(), d, script, emitted);
      outcome := if !recognized then NackUnrecognized else if protobufFailed then NackProtobuf else Receipt;
      Associative(log0, emitted, [Replied(id, node, outcome)]);
      log := log + [Replied(id, node, outcome)];
    }

    /** The whole of decryptMessages; script[i] answers the calls made for child i. */
    method DecryptMessages(ghost id: nat, node: Node, script: seq<Env>) returns (outcome: Outcome)
      requires |script| == |node.children| + 1
      modifies this
      ensures var r := Deliver(enableDecryptedEventBuffer, old(Contents()), id, node, script);
              Contents() == r.store && outcome == r.outcome && log == old(log) + r.events
    {
      if node.unavailable && forall c | c in node.children :: c.kind.NotEnc? {
        log := log + [Replied(id, node, Unavailable), UndecryptableEvent(id)];
        return Unavailable;
      }
      outcome := HandleChildren(id, node, script);
    }
  }
}
