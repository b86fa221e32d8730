/**
  One delivery of an encrypted stanza, as a machine that takes one step per store operation or
  dispatch: bufferedDecrypt, decryptDM, decryptGroupMsg and decryptMessages.  A step is a function
  of the durable store, the delivery's local variables and what the outside calls answer (Env).
 */
module Delivery {
  import opened Prelude
  import Padding

  /** The buffer key of a payload: see module BufferKey. */
  type Key = Bytes

  datatype Kind = NotEnc | Untyped | Direct | SenderKey | Secret | Unhandled

  datatype Child = Child(kind: Kind, key: Key, version: int)

  datatype Node = Node(children: seq<Child>, unavailable: bool)

  /** Which branch of decryptMessages a child takes, from its tag and its type attribute. */
  function Classify(tag: string, encType: Option<string>, isGroup: bool, fromBot: bool): Kind {
    if tag != "enc" then NotEnc
    else match encType
         case None => Untyped
         case Some(t) =>
           if t == "pkmsg" || t == "msg" then Direct
           else if isGroup && t == "skmsg" then SenderKey
           else if t == "msmsg" && fromBot then Secret
           else Unhandled
  }

  /** The payloads that go through bufferedDecrypt. */
  predicate Buffered(c: Child) {
    c.kind.Direct? || c.kind.SenderKey?
  }

  // ---------- dispatchEvent ----------

  datatype HandlerResult = Accepted | Refused | Panicked

  function HandlerFailed(handlers: seq<HandlerResult>): bool {
    if handlers == [] then false
    else match handlers[0]
         case Refused => true
         case Panicked => false
         case Accepted => HandlerFailed(handlers[1..])
  }

  /** Handlers run in order; the first false return stops the loop, and so does a panic. */
  method DispatchEvent(handlers: seq<HandlerResult>) returns (handlerFailed: bool)
    ensures handlerFailed == HandlerFailed(handlers)
  {
    for i := 0 to |handlers|
      invariant HandlerFailed(handlers) == HandlerFailed(handlers[i..])
    {
      assert handlers[i..][1..] == handlers[i + 1..];
      if handlers[i].Panicked? { return false; }  // recovered by the deferred function
      if handlers[i].Refused? { return true; }
    }
    return false;
  }

  /**
    A dispatch is reported as failed exactly when some handler refused the event and every handler
    before it accepted: a panic hides every later refusal and itself counts as success.
   */
  lemma {:induction false} FailedExactly(handlers: seq<HandlerResult>)
    ensures HandlerFailed(handlers)
       <==> exists i :: 0 <= i < |handlers| && handlers[i].Refused?
                        && forall j :: 0 <= j < i ==> handlers[j].Accepted?
  {
    if handlers != [] {
      FailedExactly(handlers[1..]);
      if handlers[0].Accepted? {
        if HandlerFailed(handlers) {
          var i :| 0 <= i < |handlers| - 1 && handlers[1..][i].Refused?
                   && forall j :: 0 <= j < i ==> handlers[1..][j].Accepted?;
          assert handlers[i + 1].Refused?;
          assert forall j :: 0 < j < i + 1 ==> handlers[j] == handlers[1..][j - 1];
        }
        if i :| 0 <= i < |handlers| && handlers[i].Refused? && forall j :: 0 <= j < i ==> handlers[j].Accepted? {
          assert handlers[1..][i - 1].Refused?;
          assert forall j :: 0 <= j < i - 1 ==> handlers[1..][j] == handlers[j + 1];
        }
      } else if handlers[0].Refused? {
        assert handlers[0].Refused?;
      }
    }
  }

  // ---------- state, environment, history ----------

  /** The durable part: the event buffer (None is a cleared plaintext) and the used-up ratchets. */
  datatype Store = Store(buffer: map<Key, Option<Bytes>>, consumed: set<Key>)

  datatype DecryptError = NoSenderKey | Other

  /** What the calls made while one child is processed answer. */
  datatype Env = Env(
    parses: bool,
    getFails: bool,
    decrypt: Result<Bytes, DecryptError>,  // Signal library, for a ratchet not yet used up
    putFails: bool,
    secret: Option<Bytes>,                 // decryptBotMessage and the lookups before it
    decodes: bool,
    protocolOk: bool,                      // processProtocolParts
    hasMessage: bool,                      // version 3: something to dispatch
    handlers: seq<HandlerResult>,
    clearFails: bool,
    cancelled: bool)

  datatype Outcome =
    | Silent                                                     // no ack, no receipt
    | Unavailable
    | Undecryptable(isUnavailable: bool, missingSecret: bool)
    | Receipt
    | NackUnrecognized
    | NackProtobuf

  datatype Phase = Next | Fetch | Commit | Use(padded: Bytes) | Clear | Done(outcome: Outcome)

  datatype Delivery = Delivery(
    id: nat, node: Node, i: nat, phase: Phase,
    recognized: bool, protobufFailed: bool, containsDirectMsg: bool)

  /** History.  The key is None for payloads that are not buffered. */
  datatype Event =
    | Committed(id: nat, key: Option<Key>, padded: Bytes)
    | Ignored(id: nat, key: Option<Key>)                  // the ratchet reported an old counter
    | Decoded(id: nat, key: Option<Key>, ok: bool)
    | Dispatched(id: nat, key: Option<Key>, padded: Bytes, failed: bool)
    | Swallowed(id: nat, key: Option<Key>)                // accepted with nothing dispatched
    | Cleared(id: nat, key: Option<Key>)
    | UndecryptableEvent(id: nat)
    | Replied(id: nat, node: Node, outcome: Outcome)

  datatype StepResult = StepResult(store: Store, d: Delivery, events: seq<Event>)

  predicate Running(d: Delivery) {
    && !d.phase.Done?
    && d.i <= |d.node.children|
    && (!d.phase.Next? ==> d.i < |d.node.children|)
    && (d.phase.Fetch? || d.phase.Commit? || d.phase.Clear? ==> Buffered(Current(d)))
    && (d.phase.Use? ==> Buffered(Current(d)) || Current(d).kind.Secret?)
  }

  function Current(d: Delivery): Child
    requires d.i < |d.node.children|
  {
    d.node.children[d.i]
  }

  /** The key of the current payload if it has a ciphertext hash. */
  function CurrentKey(d: Delivery): Option<Key>
    requires d.i < |d.node.children|
  {
    if Buffered(Current(d)) then Some(Current(d).key) else None
  }

  function NextChild(d: Delivery): Delivery {
    d.(i := d.i + 1, phase := Next)
  }

  // ---------- steps ----------

  function Rank(phase: Phase): nat {
    match phase
    case Done(_) => 0
    case Clear => 1
    case Use(_) => 2
    case Commit => 3
    case Fetch => 4
    case Next => 5
  }

  /** A step keeps the delivery's identity and leaves it finished or at a later point. */
  predicate Follows(d: Delivery, r: StepResult) {
    && r.d.id == d.id && r.d.node == d.node
    && (forall e | e in r.events :: e.id == d.id)
    && (|| r.d.phase.Done?
        || (Running(r.d) && r.d.i == d.i && Rank(r.d.phase) < Rank(d.phase))
        || (Running(r.d) && r.d.i == d.i + 1 && r.d.phase.Next?))
  }

  /** Only the transaction commits, and only clearing rewrites a buffered entry. */
  predicate LeavesStore(st: Store, r: StepResult) {
    r.store == st && forall e | e in r.events :: !e.Committed? && !e.Cleared?
  }

  predicate OnlyReplies(r: StepResult) {
    forall e | e in r.events :: e.Replied? || e.UndecryptableEvent?
  }

  function Begin(id: nat, node: Node): (Delivery, seq<Event>) {
    var d := Delivery(id, node, 0, Next, false, false, false);
    if node.unavailable && forall c | c in node.children :: c.kind.NotEnc? then
      (d.(phase := Done(Unavailable)), [Replied(id, node, Unavailable), UndecryptableEvent(id)])
    else
      (d, [])
  }

  /** The error branch: cancelled deliveries stay silent, all others reply and report. */
  function Fail(st: Store, d: Delivery, e: Env, err: DecryptError): (r: StepResult)
    requires d.i < |d.node.children|
    ensures LeavesStore(st, r) && OnlyReplies(r)
    ensures forall ev | ev in r.events :: ev.id == d.id
  {
    if e.cancelled then StepResult(st, d.(phase := Done(Silent)), [])
    else
      var kind := Current(d).kind;
      var outcome := Undecryptable(kind.SenderKey? && !d.containsDirectMsg && err.NoSenderKey?, kind.Secret?);
      StepResult(st, d.(phase := Done(outcome)), [Replied(d.id, d.node, outcome), UndecryptableEvent(d.id)])
  }

  function FinalReply(d: Delivery): Outcome {
    if !d.recognized then NackUnrecognized else if d.protobufFailed then NackProtobuf else Receipt
  }

  function StepNext(on: bool, st: Store, d: Delivery, e: Env): (r: StepResult)
    requires Running(d) && d.phase.Next?
    ensures Follows(d, r) && LeavesStore(st, r) && OnlyReplies(r)
  {
    if d.i == |d.node.children| then
      StepResult(st, d.(phase := Done(FinalReply(d))), [Replied(d.id, d.node, FinalReply(d))])
    else
      match Current(d).kind
      case NotEnc => StepResult(st, NextChild(d), [])
      case Untyped => StepResult(st, NextChild(d).(recognized := true), [])
      case Unhandled => StepResult(st, NextChild(d).(recognized := true), [])
      case Secret =>
        var d' := d.(recognized := true);
        if e.secret.None? then Fail(st, d', e, Other)
        else StepResult(st, d'.(phase := Use(e.secret.value)), [])
      case _ =>
        var d' := d.(recognized := true,
                     containsDirectMsg := d.containsDirectMsg || Current(d).kind.Direct?);
        if !e.parses then Fail(st, d', e, Other)
        else StepResult(st, d'.(phase := if on then Fetch else Commit), [])
  }

  function StepFetch(st: Store, d: Delivery, e: Env): (r: StepResult)
    requires Running(d) && d.phase.Fetch?
    ensures Follows(d, r) && LeavesStore(st, r) && OnlyReplies(r)
  {
    var key := Current(d).key;
    if e.getFails then Fail(st, d, e, Other)
    else if key !in st.buffer then StepResult(st, d.(phase := Commit), [])
    else match st.buffer[key]
         case None => StepResult(st, NextChild(d), [])  // EventAlreadyProcessed
         case Some(padded) => StepResult(st, d.(phase := Use(padded)), [])
  }

  /** Decrypt and put in one transaction: either both are committed or neither. */
  function StepCommit(on: bool, st: Store, d: Delivery, e: Env): (r: StepResult)
    requires Running(d) && d.phase.Commit?
    ensures Follows(d, r)
  {
    var key := Current(d).key;
    if key in st.consumed then
      StepResult(st, NextChild(d), [Ignored(d.id, Some(key))])  // ErrOldCounter
    else if e.decrypt.Err? then Fail(st, d, e, e.decrypt.error)
    else if !on then
      StepResult(st.(consumed := st.consumed + {key}), d.(phase := Use(e.decrypt.value)),
                 [Committed(d.id, Some(key), e.decrypt.value)])
    else if e.putFails || key in st.buffer then Fail(st, d, e, Other)
    else
      StepResult(Store(st.buffer[key := Some(e.decrypt.value)], st.consumed + {key}),
                 d.(phase := Use(e.decrypt.value)),
                 [Committed(d.id, Some(key), e.decrypt.value)])
  }

  /** After the handlers: stop on failure, clear what is buffered, otherwise go on. */
  function AfterDispatch(on: bool, d: Delivery): Delivery
    requires d.i < |d.node.children|
  {
    if on && CurrentKey(d).Some? then d.(phase := Clear) else NextChild(d)
  }

  function Dispatch(on: bool, st: Store, d: Delivery, e: Env, padded: Bytes): StepResult
    requires d.i < |d.node.children|
  {
    var failed := HandlerFailed(e.handlers);
    StepResult(st, if failed then d.(phase := Done(Silent)) else AfterDispatch(on, d),
               [Decoded(d.id, CurrentKey(d), true), Dispatched(d.id, CurrentKey(d), padded, failed)])
  }

  function UseVersion2(on: bool, st: Store, d: Delivery, e: Env): (r: StepResult)
    requires Running(d) && d.phase.Use?
    ensures Follows(d, r) && LeavesStore(st, r)
  {
    var key := CurrentKey(d);
    if !e.decodes then
      StepResult(st, NextChild(d).(protobufFailed := true), [Decoded(d.id, key, false)])
    else
      var d' := d.(protobufFailed := false);
      if !e.protocolOk then
        StepResult(st, AfterDispatch(on, d'), [Decoded(d.id, key, true), Swallowed(d.id, key)])
      else
        Dispatch(on, st, d', e, d.phase.padded)
  }

  function UseVersion3(on: bool, st: Store, d: Delivery, e: Env): (r: StepResult)
    requires Running(d) && d.phase.Use?
    ensures Follows(d, r) && LeavesStore(st, r)
  {
    var key := CurrentKey(d);
    var d' := d.(protobufFailed := !e.decodes);
    if !e.decodes then
      StepResult(st, AfterDispatch(on, d'), [Decoded(d.id, key, false)])
    else if !e.hasMessage then
      StepResult(st, AfterDispatch(on, d'), [Decoded(d.id, key, true), Swallowed(d.id, key)])
    else
      Dispatch(on, st, d', e, d.phase.padded)
  }

  function StepUse(on: bool, st: Store, d: Delivery, e: Env): (r: StepResult)
    requires Running(d) && d.phase.Use?
    ensures Follows(d, r) && LeavesStore(st, r)
  {
    var version, key := Current(d).version, CurrentKey(d);
    if key.Some? && Padding.UnpadMessage(d.phase.padded, version).Err? then Fail(st, d, e, Other)
    else if version == 2 then UseVersion2(on, st, d, e)
    else if version == 3 then UseVersion3(on, st, d, e)
    else StepResult(st, AfterDispatch(on, d), [Swallowed(d.id, key)])
  }

  function StepClear(st: Store, d: Delivery, e: Env): (r: StepResult)
    requires Running(d) && d.phase.Clear?
    ensures Follows(d, r)
  {
    var key := Current(d).key;
    if e.clearFails || key !in st.buffer then StepResult(st, NextChild(d), [])
    else StepResult(st.(buffer := st.buffer[key := None]), NextChild(d), [Cleared(d.id, Some(key))])
  }

  function Step(on: bool, st: Store, d: Delivery, e: Env): (r: StepResult)
    requires Running(d)
    ensures Follows(d, r)
  {
    match d.phase
    case Next => StepNext(on, st, d, e)
    case Fetch => StepFetch(st, d, e)
    case Commit => StepCommit(on, st, d, e)
    case Use(_) => StepUse(on, st, d, e)
    case Clear => StepClear(st, d, e)
  }
}
