/** Which reply a delivery ends with, and what it emits besides. */
module DeliveryOutcomes {
  import opened Prelude
  import opened Delivery
  import opened DecryptMessages
  import Padding

  function Replies(events: seq<Event>): nat {
    if events == [] then 0
    else Replies(events[..|events| - 1]) + if events[|events| - 1].Replied? then 1 else 0
  }

  function Reports(events: seq<Event>): nat {
    if events == [] then 0
    else Reports(events[..|events| - 1]) + if events[|events| - 1].UndecryptableEvent? then 1 else 0
  }

  function Refusals(events: seq<Event>): nat {
    if events == [] then 0
    else
      var e := events[|events| - 1];
      Refusals(events[..|events| - 1]) + if e.Dispatched? && e.failed then 1 else 0
  }

  /** Whether the last payload that reached decoding failed to decode. */
  predicate LastDecodeFailed(events: seq<Event>) {
    if events == [] then false
    else
      var e := events[|events| - 1];
      if e.Decoded? then !e.ok else LastDecodeFailed(events[..|events| - 1])
  }

  lemma AppendOne(events: seq<Event>, e: Event)
    ensures Replies(events + [e]) == Replies(events) + if e.Replied? then 1 else 0
    ensures Reports(events + [e]) == Reports(events) + if e.UndecryptableEvent? then 1 else 0
    ensures Refusals(events + [e]) == Refusals(events) + if e.Dispatched? && e.failed then 1 else 0
    ensures LastDecodeFailed(events + [e]) == if e.Decoded? then !e.ok else LastDecodeFailed(events)
  {
    assert (events + [e])[..|events|] == events;
  }

  /** The events of one step, appended one by one (a step emits at most two). */
  lemma AppendStep(events: seq<Event>, more: seq<Event>)
    requires |more| <= 2
    ensures var n := |more|;
            && Replies(events + more) == Replies(events)
                 + (if n > 0 && more[0].Replied? then 1 else 0) + (if n > 1 && more[1].Replied? then 1 else 0)
            && Reports(events + more) == Reports(events)
                 + (if n > 0 && more[0].UndecryptableEvent? then 1 else 0)
                 + (if n > 1 && more[1].UndecryptableEvent? then 1 else 0)
            && Refusals(events + more) == Refusals(events)
                 + (if n > 0 && more[0].Dispatched? && more[0].failed then 1 else 0)
                 + (if n > 1 && more[1].Dispatched? && more[1].failed then 1 else 0)
            && LastDecodeFailed(events + more) ==
                 if n > 1 && more[1].Decoded? then !more[1].ok
                 else if n > 0 && more[0].Decoded? then !more[0].ok
                 else LastDecodeFailed(events)
  {
    if |more| == 0 {
      assert events + more == events;
    } else if |more| == 1 {
      assert more == [more[0]];
      AppendOne(events, more[0]);
    } else {
      assert events + more == (events + [more[0]]) + [more[1]];
      AppendOne(events, more[0]);
      AppendOne(events + [more[0]], more[1]);
    }
  }

  predicate SeenEnc(node: Node, n: nat)
    requires n <= |node.children|
  {
    exists j :: 0 <= j < n && !node.children[j].kind.NotEnc?
  }

  predicate NoReplies(events: seq<Event>) {
    forall e <- events :: !e.Replied?
  }

  /** The local variables agree with what has been emitted so far. */
  ghost predicate Tracks(d: Delivery, sofar: seq<Event>)
    requires Running(d)
  {
    && d.protobufFailed == LastDecodeFailed(sofar)
    && d.recognized == SeenEnc(d.node, if d.phase.Next? then d.i else d.i + 1)
    && NoReplies(sofar) && Replies(sofar) == 0 && Reports(sofar) == 0 && Refusals(sofar) == 0
  }

  // ---------- where a delivery runs into an error ----------

  /** The step meets an error: a lookup, parse, decryption, store call or padding that fails. */
  predicate Errs(on: bool, st: Store, d: Delivery, e: Env)
    requires Running(d)
  {
    match d.phase
    case Next =>
      d.i < |d.node.children|
      && ((Current(d).kind.Secret? && e.secret.None?) || (Buffered(Current(d)) && !e.parses))
    case Fetch => e.getFails
    case Commit =>
      Current(d).key !in st.consumed
      && (e.decrypt.Err? || (on && (e.putFails || Current(d).key in st.buffer)))
    case Use(padded) =>
      CurrentKey(d).Some? && Padding.UnpadMessage(padded, Current(d).version).Err?
    case Clear => false
  }

  function ErrorOf(on: bool, st: Store, d: Delivery, e: Env): Option<Env>
    requires Running(d)
  {
    if Errs(on, st, d, e) then Some(e) else None
  }

  /** What the calls answered when the delivery met its error, if it does. */
  function DriveError(on: bool, st: Store, d: Delivery, script: seq<Env>): Option<Env>
    requires |script| == |d.node.children| + 1 && Running(d)
    decreases Remaining(d)
  {
    var s := Step(on, st, d, script[d.i]);
    if s.d.phase.Done? then ErrorOf(on, st, d, script[d.i]) else DriveError(on, s.store, s.d, script)
  }

  function DeliverError(on: bool, st: Store, id: nat, node: Node, script: seq<Env>): Option<Env>
    requires |script| == |node.children| + 1
  {
    var d := Begin(id, node).0;
    if d.phase.Done? then None else DriveError(on, st, d, script)
  }

  lemma {:induction false} ErrorIsScripted(on: bool, st: Store, d: Delivery, script: seq<Env>)
    requires |script| == |d.node.children| + 1 && Running(d)
    ensures var error := DriveError(on, st, d, script); error.Some? ==> error.value in script
    decreases Remaining(d)
  {
    var s := Step(on, st, d, script[d.i]);
    if !s.d.phase.Done? { ErrorIsScripted(on, s.store, s.d, script); }
  }

  /** What the finished delivery with the given history and error must look like. */
  ghost predicate Fits(id: nat, node: Node, outcome: Outcome, events: seq<Event>, error: Option<Env>) {
    && (forall e <- events :: e.Replied? ==> e == Replied(id, node, outcome))
    && Replies(events) == (if outcome.Silent? then 0 else 1)
    && Reports(events) == (if outcome.Unavailable? || outcome.Undecryptable? then 1 else 0)
    && Refusals(events) == (if outcome.Silent? && error.None? then 1 else 0)
    && (outcome.Undecryptable? <==> error.Some? && !error.value.cancelled)
    && (error.Some? && error.value.cancelled ==> outcome.Silent?)
    && (outcome.NackUnrecognized? ==> !SeenEnc(node, |node.children|))
    && (outcome.NackProtobuf? ==> SeenEnc(node, |node.children|) && LastDecodeFailed(events))
    && (outcome.Receipt? ==> SeenEnc(node, |node.children|) && !LastDecodeFailed(events))
  }

  /** The step r, taken after the history sofar, keeps track or ends as it should. */
  ghost predicate TracksOn(d: Delivery, sofar: seq<Event>, r: StepResult, error: Option<Env>) {
    && |r.events| <= 2 && r.d.node == d.node && r.d.id == d.id
    && if r.d.phase.Done? then
         !r.d.phase.outcome.Unavailable? && Fits(d.id, d.node, r.d.phase.outcome, sofar + r.events, error)
       else Running(r.d) && Tracks(r.d, sofar + r.events)
  }

  lemma FailTracks(st: Store, d: Delivery, e: Env, err: DecryptError, sofar: seq<Event>)
    requires Running(d) && d.i < |d.node.children| && Tracks(d, sofar)
    ensures TracksOn(d, sofar, Fail(st, d, e, err), Some(e))
  {
    var r := Fail(st, d, e, err);
    AppendStep(sofar, r.events);
  }

  lemma FinalTracks(on: bool, st: Store, d: Delivery, e: Env, sofar: seq<Event>)
    requires Running(d) && d.phase.Next? && d.i == |d.node.children| && Tracks(d, sofar)
    ensures TracksOn(d, sofar, StepNext(on, st, d, e), None)
  {
    var r := StepNext(on, st, d, e);
    AppendStep(sofar, r.events);
  }

  lemma NextErrs(on: bool, st: Store, d: Delivery, e: Env, sofar: seq<Event>)
    requires Running(d) && d.phase.Next? && Errs(on, st, d, e) && Tracks(d, sofar)
    ensures TracksOn(d, sofar, StepNext(on, st, d, e), Some(e))
  {
    assert SeenEnc(d.node, d.i + 1);
    // the error branch does not look at the phase
    var d' := Recognized(d).(phase := Use([]));
    FailTracks(st, d', e, Other, sofar);
    assert StepNext(on, st, d, e) == Fail(st, d', e, Other);
  }

  lemma NextTracks(on: bool, st: Store, d: Delivery, e: Env, sofar: seq<Event>)
    requires Running(d) && d.phase.Next? && d.i < |d.node.children| && Tracks(d, sofar)
    ensures TracksOn(d, sofar, StepNext(on, st, d, e), ErrorOf(on, st, d, e))
  {
    if Errs(on, st, d, e) {
      NextErrs(on, st, d, e, sofar);
    } else {
      assert SeenEnc(d.node, d.i + 1) == (SeenEnc(d.node, d.i) || !Current(d).kind.NotEnc?);
      assert sofar + [] == sofar;
    }
  }

  lemma CommitTracks(on: bool, st: Store, d: Delivery, e: Env, sofar: seq<Event>)
    requires Running(d) && d.phase.Commit? && Tracks(d, sofar)
    ensures TracksOn(d, sofar, StepCommit(on, st, d, e), ErrorOf(on, st, d, e))
  {
    var key := Current(d).key;
    if Errs(on, st, d, e) {
      FailTracks(st, d, e, if e.decrypt.Err? then e.decrypt.error else Other, sofar);
    } else if key in st.consumed {
      AppendStep(sofar, [Ignored(d.id, Some(key))]);
    } else {
      AppendStep(sofar, [Committed(d.id, Some(key), e.decrypt.value)]);
    }
  }

  lemma UseTracks2(on: bool, st: Store, d: Delivery, e: Env, sofar: seq<Event>)
    requires Running(d) && d.phase.Use? && Tracks(d, sofar)
    ensures TracksOn(d, sofar, UseVersion2(on, st, d, e), None)
  {
    AppendStep(sofar, UseVersion2(on, st, d, e).events);
  }

  lemma UseTracks3(on: bool, st: Store, d: Delivery, e: Env, sofar: seq<Event>)
    requires Running(d) && d.phase.Use? && Tracks(d, sofar)
    ensures TracksOn(d, sofar, UseVersion3(on, st, d, e), None)
  {
    AppendStep(sofar, UseVersion3(on, st, d, e).events);
  }

  lemma StepUseTracks(on: bool, st: Store, d: Delivery, e: Env, sofar: seq<Event>)
    requires Running(d) && d.phase.Use? && Tracks(d, sofar)
    ensures TracksOn(d, sofar, StepUse(on, st, d, e), ErrorOf(on, st, d, e))
  {
    if Errs(on, st, d, e) {
      FailTracks(st, d, e, Other, sofar);
    } else if Current(d).version == 2 {
      UseTracks2(on, st, d, e, sofar);
    } else if Current(d).version == 3 {
      UseTracks3(on, st, d, e, sofar);
    } else {
      AppendStep(sofar, [Swallowed(d.id, CurrentKey(d))]);
    }
  }

  lemma StepTracks(on: bool, st: Store, d: Delivery, e: Env, sofar: seq<Event>)
    requires Running(d) && Tracks(d, sofar)
    ensures TracksOn(d, sofar, Step(on, st, d, e), ErrorOf(on, st, d, e))
  {
    match d.phase
    case Done(_) =>
    case Next =>
      if d.i == |d.node.children| { FinalTracks(on, st, d, e, sofar); }
      else { NextTracks(on, st, d, e, sofar); }
    case Fetch =>
      if e.getFails { FailTracks(st, d, e, Other, sofar); }
      else { AppendStep(sofar, []); }
    case Commit => CommitTracks(on, st, d, e, sofar);
    case Use(_) => StepUseTracks(on, st, d, e, sofar);
    case Clear =>
      AppendStep(sofar, []);
      AppendStep(sofar, [Cleared(d.id, Some(Current(d).key))]);
  }

  lemma {:induction false} DriveTracks(on: bool, st: Store, d: Delivery, script: seq<Env>, sofar: seq<Event>)
    requires |script| == |d.node.children| + 1 && Running(d) && Tracks(d, sofar)
    ensures var r := Drive(on, st, d, script);
            && !r.outcome.Unavailable?
            && Fits(d.id, d.node, r.outcome, sofar + r.events, DriveError(on, st, d, script))
    decreases Remaining(d)
  {
    var s := Step(on, st, d, script[d.i]);
    StepTracks(on, st, d, script[d.i], sofar);
    if !s.d.phase.Done? {
      DriveTracks(on, s.store, s.d, script, sofar + s.events);
      Associative(sofar, s.events, Drive(on, s.store, s.d, script).events);
    }
  }

  /**
    Every delivery ends in exactly one way, told by the error it meets: none, and it either stops
    silently after exactly one refused dispatch or sends one reply; a cancelled one, and it is silent
    without a refusal; any other, and it sends and reports itself undecryptable.  The one reply event
    carries the outcome.  The final replies are told apart by whether the stanza has an enc child at
    all and whether the last payload that reached decoding failed to decode.
   */
  lemma OutcomeIsExact(on: bool, st: Store, id: nat, node: Node, script: seq<Env>)
    requires |script| == |node.children| + 1
    ensures var r, error := Deliver(on, st, id, node, script), DeliverError(on, st, id, node, script);
            && Fits(id, node, r.outcome, r.events, error)
            && (error.Some? ==> error.value in script)
            && (r.outcome.Unavailable? <==> node.unavailable && !SeenEnc(node, |node.children|))
            && (r.outcome.NackUnrecognized? <==> !node.unavailable && !SeenEnc(node, |node.children|))
  {
    var (d, events) := Begin(id, node);
    assert (forall c | c in node.children :: c.kind.NotEnc?) <==> !SeenEnc(node, |node.children|);
    if d.phase.Done? {
      AppendStep([], events);
      assert [] + events == events;
    } else {
      DriveTracks(on, st, d, script, []);
      ErrorIsScripted(on, st, d, script);
      var r := Drive(on, st, d, script);
      assert [] + r.events == r.events;
      if !SeenEnc(node, |node.children|) { NothingEncrypted(on, st, d, script); }
    }
  }

  /** So a delivery that no call cancels is silent exactly when a handler refused a payload of it. */
  lemma SilentMeansRefused(on: bool, st: Store, id: nat, node: Node, script: seq<Env>)
    requires |script| == |node.children| + 1
    requires forall e <- script :: !e.cancelled
    ensures var r := Deliver(on, st, id, node, script);
      r.outcome.Silent? <==> exists e <- r.events :: e.Dispatched? && e.failed
  {
    OutcomeIsExact(on, st, id, node, script);
    CountsRefusals(Deliver(on, st, id, node, script).events);
  }

  lemma {:induction false} CountsRefusals(events: seq<Event>)
    ensures Refusals(events) > 0 <==> exists e <- events :: e.Dispatched? && e.failed
  {
    if events != [] {
      var front, last := events[..|events| - 1], events[|events| - 1];
      assert events == front + [last];
      CountsRefusals(front);
      if e :| e in front && e.Dispatched? && e.failed {
        assert e in events;
      }
    }
  }

  lemma {:induction false} NothingEncrypted(on: bool, st: Store, d: Delivery, script: seq<Env>)
    requires |script| == |d.node.children| + 1 && Running(d) && d.phase.Next? && !d.recognized
    requires !SeenEnc(d.node, |d.node.children|)
    ensures Drive(on, st, d, script).outcome == NackUnrecognized
    decreases |d.node.children| - d.i
  {
    if d.i < |d.node.children| {
      assert Step(on, st, d, script[d.i]) == StepResult(st, NextChild(d), []);
      NothingEncrypted(on, st, NextChild(d), script);
    }
  }

  // ---------- the stanza as it arrives ----------

  /** A child of the stanza with its tag and type attribute. */
  datatype RawChild = RawChild(tag: string, encType: Option<string>, key: Key, version: int)

  function Parsed(raw: seq<RawChild>, isGroup: bool, fromBot: bool): Node {
    Node(seq(|raw|, i requires 0 <= i < |raw| =>
           Child(Classify(raw[i].tag, raw[i].encType, isGroup, fromBot), raw[i].key, raw[i].version)),
         exists c <- raw :: c.tag == "unavailable")
  }

  /**
    By tags alone: a stanza is refused as unrecognized exactly when no child is called enc and none
    unavailable, and reported unavailable exactly when none is called enc and some unavailable.
   */
  lemma TagsDecideRefusal(on: bool, st: Store, id: nat, raw: seq<RawChild>, isGroup: bool, fromBot: bool,
                          script: seq<Env>)
    requires |script| == |raw| + 1
    ensures var outcome := Deliver(on, st, id, Parsed(raw, isGroup, fromBot), script).outcome;
      var enc, unavailable := exists c <- raw :: c.tag == "enc", exists c <- raw :: c.tag == "unavailable";
      && (outcome.NackUnrecognized? <==> !enc && !unavailable)
      && (outcome.Unavailable? <==> !enc && unavailable)
  {
    var node := Parsed(raw, isGroup, fromBot);
    OutcomeIsExact(on, st, id, node, script);
    if c :| c in raw && c.tag == "enc" {
      var i :| 0 <= i < |raw| && raw[i] == c;
      assert !node.children[i].kind.NotEnc?;
    }
    if j :| 0 <= j < |raw| && !node.children[j].kind.NotEnc? {
      assert raw[j].tag == "enc";
    }
  }

  /** The payloads that are buffered: direct messages anywhere, sender-key messages in groups only. */
  lemma BufferedExactly(raw: seq<RawChild>, isGroup: bool, fromBot: bool, i: nat)
    requires i < |raw|
    ensures Buffered(Parsed(raw, isGroup, fromBot).children[i]) <==>
      && raw[i].tag == "enc" && raw[i].encType.Some?
      && (raw[i].encType.value in {"pkmsg", "msg"} || (isGroup && raw[i].encType.value == "skmsg"))
  {}

  /** And every other kind, by tag, type and the chat and sender of the stanza. */
  lemma KindsExactly(raw: seq<RawChild>, isGroup: bool, fromBot: bool, i: nat)
    requires i < |raw|
    ensures var kind, c := Parsed(raw, isGroup, fromBot).children[i].kind, raw[i];
      && (kind.NotEnc? <==> c.tag != "enc")
      && (kind.Untyped? <==> c.tag == "enc" && c.encType.None?)
      && (kind.Direct? <==> c.tag == "enc" && c.encType in {Some("pkmsg"), Some("msg")})
      && (kind.SenderKey? <==> c.tag == "enc" && isGroup && c.encType == Some("skmsg"))
      && (kind.Secret? <==> c.tag == "enc" && fromBot && c.encType == Some("msmsg"))
  {}

  ghost predicate AllCleared(st: Store, node: Node) {
    forall c | c in node.children ::
      !c.kind.Secret? && (Buffered(c) ==> c.key in st.buffer && st.buffer[c.key].None?)
  }

  /**
    A stanza whose payloads have all been cleared is still acknowledged when it is delivered again:
    nothing is decrypted or dispatched, the store does not change, and the receipt goes out.
   */
  lemma ClearedStanzaIsStillAcknowledged(st: Store, id: nat, node: Node, script: seq<Env>)
    requires |script| == |node.children| + 1
    requires SeenEnc(node, |node.children|) && AllCleared(st, node)
    requires forall e | e in script :: e.parses && !e.getFails
    ensures Deliver(true, st, id, node, script) == Delivered(st, Receipt, [Replied(id, node, Receipt)])
  {
    var (d, events) := Begin(id, node);
    DriveCleared(st, d, script);
  }

  lemma {:induction false} DriveCleared(st: Store, d: Delivery, script: seq<Env>)
    requires |script| == |d.node.children| + 1 && Running(d) && d.phase.Next?
    requires AllCleared(st, d.node) && SeenEnc(d.node, |d.node.children|)
    requires forall e | e in script :: e.parses && !e.getFails
    requires d.recognized == SeenEnc(d.node, d.i) && !d.protobufFailed
    ensures Drive(true, st, d, script) == Delivered(st, Receipt, [Replied(d.id, d.node, Receipt)])
    decreases |d.node.children| - d.i
  {
    if d.i < |d.node.children| {
      assert Current(d) in d.node.children;
      assert SeenEnc(d.node, d.i + 1) == (SeenEnc(d.node, d.i) || !Current(d).kind.NotEnc?);
      DriveChild(true, st, d, script);
      var r := OneChild(true, st, d, script[d.i]);
      assert r.store == st && r.events == [] && r.d.phase.Next?;
      DriveCleared(st, r.d, script);
    }
  }
}
