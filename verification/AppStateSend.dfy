/**
  Sending an app state patch: the patch is encoded against the stored version, a server that only
  accepts a patch at its head version either appends it or answers with a conflict, and one conflict
  is applied and retried.  The request layer below sends the same frame once more when the websocket
  drops before the answer, which is what decides how often the patch can end up in the log.
 */
module AppStateSend {
  import opened Prelude
  import opened AppStateSync
  import opened AppStateLog

  datatype Entry = Entry(mutations: seq<Mutation>, own: bool)

  /** What a frame carries: the version it was encoded against, and the patch. */
  datatype Frame = Frame(version: nat, mutations: seq<Mutation>)

  datatype Answer = Accept | Conflict(list: PatchList, collects: bool) | Refuse

  /** How the wait for an answer ends; Garbled is an answer without a collection. */
  datatype End = Replies | Garbled | Drops | Expires

  /**
    One trip of a frame: whether it leaves, whether it reaches the server, what other clients have
    appended by then, what the server would answer, and what comes back.
   */
  datatype Trip = Trip(leaves: bool, arrives: bool, others: seq<seq<Mutation>>, answer: Answer, end: End)

  /** One call of sendAppState; `resumes` is a reconnect in time after a drop that is no auth error. */
  datatype Call = Call(hasKey: bool, encodes: bool, first: Trip, resumes: bool, second: Trip,
                       rounds: seq<Round>)

  datatype SendFailure =
    | Corrupt
    | NoKey
    | NotEncoded
    | NoAnswer
    | Rejected
    | ConflictNotApplied(failure: Failure)
    | NotFetched(failure: Failure)

  // ---------- the server and the wire ----------

  function Others(patches: seq<seq<Mutation>>): (es: seq<Entry>)
    ensures |es| == |patches| && forall i | 0 <= i < |es| :: es[i] == Entry(patches[i], false)
  {
    seq(|patches|, i requires 0 <= i < |patches| => Entry(patches[i], false))
  }

  predicate Accepted(log: seq<Entry>, frame: Frame, trip: Trip) {
    trip.leaves && trip.arrives && trip.answer.Accept? && frame.version == |log| + |trip.others|
  }

  /** The log after a trip. */
  function Processed(log: seq<Entry>, frame: Frame, trip: Trip): seq<Entry> {
    log + Others(trip.others) + if Accepted(log, frame, trip) then [Entry(frame.mutations, true)] else []
  }

  /** The answer the client sees; an acceptance that is no longer possible is a refusal. */
  function Seen(log: seq<Entry>, frame: Frame, trip: Trip): Option<Answer> {
    if !trip.leaves || !trip.arrives || !trip.end.Replies? then None
    else if trip.answer.Accept? && !Accepted(log, frame, trip) then Some(Refuse)
    else Some(trip.answer)
  }

  predicate Resends(call: Call) {
    call.first.leaves && call.first.end.Drops? && call.resumes
  }

  datatype Exchange = Exchange(log: seq<Entry>, frames: nat, answer: Option<Answer>)

  function SendIQ(log: seq<Entry>, frame: Frame, call: Call): Exchange {
    var log1 := Processed(log, frame, call.first);
    if !Resends(call) then Exchange(log1, if call.first.leaves then 1 else 0, Seen(log, frame, call.first))
    else Exchange(Processed(log1, frame, call.second), if call.second.leaves then 2 else 1,
                  Seen(log1, frame, call.second))
  }

  // ---------- sendAppState ----------

  datatype Sent = Sent(stored: Option<HashState>, log: seq<Entry>, frames: nat, patches: nat,
                       result: Result<HashState, SendFailure>)

  /** `retry` is the environment of the retry that a conflict leads to, absent when none is allowed. */
  function Send(mix: Mix, stored: Option<HashState>, log: seq<Entry>, patch: seq<Mutation>, call: Call,
                retry: Option<Call>): Sent
    decreases retry.Some?
  {
    if stored.Some? && stored.value.version == 0 then Sent(stored, log, 0, 0, Err(Corrupt))
    else if !call.hasKey then Sent(stored, log, 0, 0, Err(NoKey))
    else if !call.encodes then Sent(stored, log, 0, 0, Err(NotEncoded))
    else
      var x := SendIQ(log, Frame(Load(stored).version, patch), call);
      if x.answer.None? then Sent(stored, x.log, x.frames, 1, Err(NoAnswer))
      else match x.answer.value
        case Refuse => Sent(stored, x.log, x.frames, 1, Err(Rejected))
        case Conflict(list, collects) =>
          if retry.None? then Sent(stored, x.log, x.frames, 1, Err(Rejected))
          else
            var d := ApplyPatches(mix, stored, list, collects);
            if d.error.Some? then Sent(d.stored, x.log, x.frames, 1, Err(ConflictNotApplied(d.error.value)))
            else
              var again := Send(mix, d.stored, x.log, patch, retry.value, None);
              again.(frames := x.frames + again.frames, patches := 1 + again.patches)
        case Accept =>
          var o := Fetch(mix, stored, false, false, call.rounds);
          Sent(o.stored, x.log, x.frames, 1,
               if o.result.Ok? then Ok(o.result.value) else Err(NotFetched(o.result.error)))
  }

  /** A client together with the server's log of its collection. */
  class Session {
    const client: Client
    var log: seq<Entry>
    var frames: nat

    constructor (client: Client)
      ensures this.client == client && log == [] && frames == 0
    {
      this.client := client;
      log := [];
      frames := 0;
    }

    /** One trip of a frame to the server and back. */
    method Exchange(frame: Frame, trip: Trip) returns (answer: Option<Answer>)
      modifies this
      ensures log == Processed(old(log), frame, trip) && answer == Seen(old(log), frame, trip)
      ensures frames == old(frames) + if trip.leaves then 1 else 0
    {
      log := log + Others(trip.others);
      if !trip.leaves {
        return None;
      }
      frames := frames + 1;
      answer := Some(trip.answer);
      if trip.answer.Accept? {
        if trip.arrives && frame.version == |log| {
          log := log + [Entry(frame.mutations, true)];
        } else {
          answer := Some(Refuse);
        }
      }
      if !trip.arrives || !trip.end.Replies? {
        answer := None;
      }
    }

    method SendQuery(frame: Frame, call: Call) returns (answer: Option<Answer>)
      modifies this
      ensures var x := SendIQ(old(log), frame, call);
        log == x.log && frames == old(frames) + x.frames && answer == x.answer
    {
      answer := Exchange(frame, call.first);
      if call.first.leaves && call.first.end.Drops? && call.resumes {
        answer := Exchange(frame, call.second);
      }
    }

    method SendAppState(patch: seq<Mutation>, call: Call, retry: Option<Call>)
      returns (result: Result<HashState, SendFailure>)
      modifies this, client
      decreases retry.Some?
      ensures var s := Send(client.mix, old(client.stored), old(log), patch, call, retry);
        client.stored == s.stored && log == s.log && frames == old(frames) + s.frames && result == s.result
    {
      if client.stored.Some? && client.stored.value.version == 0 {
        return Err(Corrupt);
      } else if !call.hasKey {
        return Err(NoKey);
      } else if !call.encodes {
        return Err(NotEncoded);
      }
      var answer := SendQuery(Frame(Load(client.stored).version, patch), call);
      if answer.None? {
        return Err(NoAnswer);
      }
      match answer.value {
        case Refuse =>
          return Err(Rejected);
        case Conflict(list, collects) =>
          if retry.None? {
            return Err(Rejected);
          }
          var _, error := client.ApplyAppStatePatches(list, collects);
          if error.Some? {
            return Err(ConflictNotApplied(error.value));
          }
          result := SendAppState(patch, retry.value, None);
        case Accept =>
          var fetched, _ := client.FetchAppState(false, false, call.rounds);
          result := if fetched.Ok? then Ok(fetched.value) else Err(NotFetched(fetched.error));
      }
    }
  }

  // ---------- how often the patch is in the log ----------

  function Own(log: seq<Entry>): nat {
    if log == [] then 0 else Own(log[..|log| - 1]) + if log[|log| - 1].own then 1 else 0
  }

  lemma {:induction false} OwnOfOthers(log: seq<Entry>, patches: seq<seq<Mutation>>)
    ensures Own(log + Others(patches)) == Own(log)
  {
    if patches == [] {
      assert log + Others(patches) == log;
    } else {
      var last := |patches| - 1;
      assert (log + Others(patches))[..|log| + last] == log + Others(patches[..last]);
      OwnOfOthers(log, patches[..last]);
    }
  }

  lemma OwnOfTrip(log: seq<Entry>, frame: Frame, trip: Trip)
    ensures Own(Processed(log, frame, trip)) == Own(log) + if Accepted(log, frame, trip) then 1 else 0
    ensures |Processed(log, frame, trip)| == |log| + |trip.others| + if Accepted(log, frame, trip) then 1 else 0
  {
    OwnOfOthers(log, trip.others);
    var log1 := log + Others(trip.others);
    if Accepted(log, frame, trip) {
      assert (log1 + [Entry(frame.mutations, true)])[..|log1|] == log1;
    } else {
      assert log1 + [] == log1;
    }
  }

  /** The frame of this call was appended, by either trip. */
  predicate Appended(log: seq<Entry>, frame: Frame, call: Call) {
    || Accepted(log, frame, call.first)
    || (Resends(call) && Accepted(Processed(log, frame, call.first), frame, call.second))
  }

  /** The first trip was accepted, its answer lost, and the frame sent again. */
  predicate AcceptedUnheard(log: seq<Entry>, frame: Frame, call: Call) {
    Accepted(log, frame, call.first) && Resends(call)
  }

  /** A frame is never accepted twice; only after a lost acceptance can the answer be a conflict. */
  lemma QueryAppendsAtMostOnce(log: seq<Entry>, frame: Frame, call: Call)
    ensures var x := SendIQ(log, frame, call);
      && Own(x.log) == Own(log) + (if Appended(log, frame, call) then 1 else 0)
      && x.frames <= 2
      && (x.answer == Some(Accept) ==> Appended(log, frame, call) && !AcceptedUnheard(log, frame, call)
                                       && frame.version == |x.log| - 1 && x.log[frame.version].own)
      && (x.answer.Some? && x.answer.value.Conflict? && Appended(log, frame, call)
          ==> AcceptedUnheard(log, frame, call))
      && log <= x.log
  {
    OwnOfTrip(log, frame, call.first);
    OwnOfTrip(Processed(log, frame, call.first), frame, call.second);
  }

  predicate Submits(stored: Option<HashState>, call: Call) {
    !(stored.Some? && stored.value.version == 0) && call.hasKey && call.encodes
  }

  /** The call ends in a conflict that is applied and retried. */
  predicate Retries(mix: Mix, stored: Option<HashState>, log: seq<Entry>, patch: seq<Mutation>, call: Call,
                    retry: Option<Call>)
  {
    && Submits(stored, call) && retry.Some?
    && var answer := SendIQ(log, Frame(Load(stored).version, patch), call).answer;
    && answer.Some? && answer.value.Conflict?
    && ApplyPatches(mix, stored, answer.value.list, answer.value.collects).error.None?
  }

  predicate FirstAppends(stored: Option<HashState>, log: seq<Entry>, patch: seq<Mutation>, call: Call) {
    Submits(stored, call) && Appended(log, Frame(Load(stored).version, patch), call)
  }

  predicate RetryAppends(mix: Mix, stored: Option<HashState>, log: seq<Entry>, patch: seq<Mutation>, call: Call,
                         retry: Option<Call>)
  {
    && Retries(mix, stored, log, patch, call, retry)
    && var x := SendIQ(log, Frame(Load(stored).version, patch), call);
    && var d := ApplyPatches(mix, stored, x.answer.value.list, x.answer.value.collects);
    FirstAppends(d.stored, x.log, patch, retry.value)
  }

  /** What a call without a retry comes to. */
  lemma LastCall(mix: Mix, stored: Option<HashState>, log: seq<Entry>, patch: seq<Mutation>, call: Call)
    ensures var s := Send(mix, stored, log, patch, call, None);
      var x := SendIQ(log, Frame(Load(stored).version, patch), call);
      && (Submits(stored, call) ==> s.log == x.log && s.frames == x.frames && s.patches == 1)
      && (!Submits(stored, call) ==> s.log == log && s.frames == s.patches == 0)
      && (s.result.Ok? ==> Submits(stored, call) && x.answer == Some(Accept))
      && (s.result.Ok? ==> var o := Fetch(mix, stored, false, false, call.rounds); s.stored == o.stored && o.result.Ok?)
  {}

  lemma OneCall(mix: Mix, stored: Option<HashState>, log: seq<Entry>, patch: seq<Mutation>, call: Call)
    ensures var s := Send(mix, stored, log, patch, call, None);
      && Own(s.log) == Own(log) + (if FirstAppends(stored, log, patch, call) then 1 else 0)
      && s.patches <= 1 && s.frames <= 2
      && (s.result.Ok? ==> FirstAppends(stored, log, patch, call))
  {
    LastCall(mix, stored, log, patch, call);
    QueryAppendsAtMostOnce(log, Frame(Load(stored).version, patch), call);
  }

  /**
    How a call without a retry fails, and what that says: before a patch is submitted nothing has left;
    without an answer or with a refusal or conflict the stored state is the one before; and a failed
    fetch means that the patch was accepted all the same.
   */
  lemma FailsExactly(mix: Mix, stored: Option<HashState>, log: seq<Entry>, patch: seq<Mutation>, call: Call)
    ensures var s := Send(mix, stored, log, patch, call, None);
      var x := SendIQ(log, Frame(Load(stored).version, patch), call);
      && (s.result == Err(Corrupt) <==> stored.Some? && stored.value.version == 0)
      && (s.result in {Err(Corrupt), Err(NoKey), Err(NotEncoded)} <==> !Submits(stored, call))
      && (s.result in {Err(NoKey), Err(NotEncoded)} ==> (s.result == Err(NoKey) <==> !call.hasKey))
      && (s.result == Err(NoAnswer) <==> Submits(stored, call) && x.answer.None?)
      && (s.result == Err(Rejected) <==> Submits(stored, call) && x.answer.Some? && !x.answer.value.Accept?)
      && (s.stored != stored ==> Submits(stored, call) && x.answer == Some(Accept))
      && (Submits(stored, call) && x.answer == Some(Accept) ==>
            (s.result.Ok? <==> Fetch(mix, stored, false, false, call.rounds).result.Ok?))
      && (s.result.Err? && s.result.error.NotFetched? ==> Submits(stored, call) && x.answer == Some(Accept))
  {}

  /** A call that is not retried comes to the same as one that may not be. */
  lemma NotRetried(mix: Mix, stored: Option<HashState>, log: seq<Entry>, patch: seq<Mutation>, call: Call,
                   retry: Option<Call>)
    requires !Retries(mix, stored, log, patch, call, retry)
    ensures var s, once := Send(mix, stored, log, patch, call, retry), Send(mix, stored, log, patch, call, None);
      s.log == once.log && s.frames == once.frames && s.patches == once.patches
      && (s.result.Ok? ==> s == once)
  {}

  lemma Retried(mix: Mix, stored: Option<HashState>, log: seq<Entry>, patch: seq<Mutation>, call: Call,
                retry: Option<Call>)
    requires Retries(mix, stored, log, patch, call, retry)
    ensures var x := SendIQ(log, Frame(Load(stored).version, patch), call);
      var d := ApplyPatches(mix, stored, x.answer.value.list, x.answer.value.collects);
      var again := Send(mix, d.stored, x.log, patch, retry.value, None);
      Send(mix, stored, log, patch, call, retry)
      == again.(frames := x.frames + again.frames, patches := 1 + again.patches)
  {}

  /**
    At most two encoded patches and four frames leave; the log gains one entry for each call whose
    frame was accepted, and a nil result means that at least one was.
   */
  lemma PatchIsCounted(mix: Mix, stored: Option<HashState>, log: seq<Entry>, patch: seq<Mutation>, call: Call,
                       retry: Option<Call>)
    ensures var s := Send(mix, stored, log, patch, call, retry);
      && Own(s.log) == Own(log) + (if FirstAppends(stored, log, patch, call) then 1 else 0)
                                + (if RetryAppends(mix, stored, log, patch, call, retry) then 1 else 0)
      && s.patches <= 2 && s.frames <= 2 * s.patches
      && (s.result.Ok? ==> Own(s.log) > Own(log))
  {
    if Retries(mix, stored, log, patch, call, retry) {
      var x := SendIQ(log, Frame(Load(stored).version, patch), call);
      var d := ApplyPatches(mix, stored, x.answer.value.list, x.answer.value.collects);
      QueryAppendsAtMostOnce(log, Frame(Load(stored).version, patch), call);
      Retried(mix, stored, log, patch, call, retry);
      OneCall(mix, d.stored, x.log, patch, retry.value);
    } else {
      NotRetried(mix, stored, log, patch, call, retry);
      OneCall(mix, stored, log, patch, call);
    }
  }

  /** The frames of one query: one if it could be sent, another if that was cut off and a resend left. */
  function FramesOf(call: Call): nat {
    if !call.first.leaves then 0
    else if call.first.end.Drops? && call.resumes && call.second.leaves then 2 else 1
  }

  /** Every frame that leaves is one of the queries of the one or two patches that are submitted. */
  lemma FramesAreCounted(mix: Mix, stored: Option<HashState>, log: seq<Entry>, patch: seq<Mutation>, call: Call,
                         retry: Option<Call>)
    ensures var s := Send(mix, stored, log, patch, call, retry);
      if !Submits(stored, call) then s.frames == s.patches == 0
      else if !Retries(mix, stored, log, patch, call, retry) then s.frames == FramesOf(call) && s.patches == 1
      else
        var x := SendIQ(log, Frame(Load(stored).version, patch), call);
        var d := ApplyPatches(mix, stored, x.answer.value.list, x.answer.value.collects);
        if Submits(d.stored, retry.value) then
          s.frames == FramesOf(call) + FramesOf(retry.value) && s.patches == 2
        else s.frames == FramesOf(call) && s.patches == 1
  {
    if Retries(mix, stored, log, patch, call, retry) {
      var x := SendIQ(log, Frame(Load(stored).version, patch), call);
      var d := ApplyPatches(mix, stored, x.answer.value.list, x.answer.value.collects);
      Retried(mix, stored, log, patch, call, retry);
      LastCall(mix, d.stored, x.log, patch, retry.value);
    } else {
      NotRetried(mix, stored, log, patch, call, retry);
      LastCall(mix, stored, log, patch, call);
    }
  }

  /** The patch was accepted, but the answer was lost with the websocket and the frame sent again. */
  predicate LostAcceptance(stored: Option<HashState>, log: seq<Entry>, patch: seq<Mutation>, call: Call) {
    Submits(stored, call) && AcceptedUnheard(log, Frame(Load(stored).version, patch), call)
  }

  /**
    The patch is in the log twice exactly when its first acceptance was lost and the retry that its
    own conflict leads to was accepted too.
   */
  lemma PatchTwiceExactly(mix: Mix, stored: Option<HashState>, log: seq<Entry>, patch: seq<Mutation>, call: Call,
                          retry: Option<Call>)
    ensures var s := Send(mix, stored, log, patch, call, retry);
      && (Own(s.log) == Own(log) + 2 <==>
            LostAcceptance(stored, log, patch, call) && RetryAppends(mix, stored, log, patch, call, retry))
      && Own(log) <= Own(s.log) <= Own(log) + 2
      && (s.result.Ok? ==>
            Own(s.log) == Own(log) + if LostAcceptance(stored, log, patch, call) then 2 else 1)
  {
    PatchIsCounted(mix, stored, log, patch, call, retry);
    var frame := Frame(Load(stored).version, patch);
    var x := SendIQ(log, frame, call);
    QueryAppendsAtMostOnce(log, frame, call);
    if Retries(mix, stored, log, patch, call, retry) {
      var d := ApplyPatches(mix, stored, x.answer.value.list, x.answer.value.collects);
      OneCall(mix, d.stored, x.log, patch, retry.value);
    }
  }

  /** Without the resend of frames, as queries marked NoRetry behave, the patch is never there twice. */
  lemma NeverTwiceWithoutResend(mix: Mix, stored: Option<HashState>, log: seq<Entry>, patch: seq<Mutation>,
                                call: Call, retry: Option<Call>)
    requires !call.resumes
    ensures var s := Send(mix, stored, log, patch, call, retry);
      Own(s.log) <= Own(log) + 1 && (s.result.Ok? ==> Own(s.log) == Own(log) + 1)
  {
    PatchTwiceExactly(mix, stored, log, patch, call, retry);
  }

  /** A run that puts the patch in the log twice and still returns nil. */
  lemma PatchCanBeTwice(mix: Mix, patch: seq<Mutation>)
    ensures var s1 := HashState(1, mix(0, patch));
      var own := Patch(1, patch, s1, true, None);
      var s2 := HashState(2, mix(s1.hash, patch));
      var again := Patch(2, patch, s2, true, None);
      var drop := Trip(true, true, [], Accept, Drops);
      var conflict := Trip(true, true, [], Conflict(PatchList(None, [own], false), true), Replies);
      var call := Call(true, true, drop, true, conflict, []);
      var retry := Call(true, true, drop.(end := Replies), true, conflict,
                        [Answered(PatchList(None, [again], false), 2, true)]);
      var s := Send(mix, None, [], patch, call, Some(retry));
      s.result.Ok? && s.log == [Entry(patch, true), Entry(patch, true)]
  {
    var s1 := HashState(1, mix(0, patch));
    var own := Patch(1, patch, s1, true, None);
    var s2 := HashState(2, mix(s1.hash, patch));
    var again := Patch(2, patch, s2, true, None);
    var drop := Trip(true, true, [], Accept, Drops);
    var conflict := Trip(true, true, [], Conflict(PatchList(None, [own], false), true), Replies);
    var call := Call(true, true, drop, true, conflict, []);
    var frame, log1 := Frame(0, patch), [Entry(patch, true)];
    assert Processed([], frame, drop) == log1;
    assert Processed(log1, frame, conflict) == log1;
    assert SendIQ([], frame, call) == Exchange(log1, 2, Some(conflict.answer));
    assert DecodeOne(mix, EMPTY, own) == Ok(s1);
    assert [own][1..] == [] && [again][1..] == [];
    assert Decode(mix, Some(s1), []) == Decoded(Some(s1), [], None);
    assert ApplyPatches(mix, None, conflict.answer.list, true) == Applied(Some(s1), patch + [], None);
    var rounds := [Answered(PatchList(None, [again], false), 2, true)];
    var retry := Call(true, true, drop.(end := Replies), true, conflict, rounds);
    assert Processed(log1, Frame(1, patch), retry.first) == [Entry(patch, true), Entry(patch, true)];
    assert DecodeOne(mix, s1, again) == Ok(s2);
    assert Decode(mix, Some(s2), []) == Decoded(Some(s2), [], None);
    assert Fetch(mix, Some(s1), false, false, rounds).result.Ok?;
    assert Send(mix, Some(s1), log1, patch, retry, None).log == [Entry(patch, true), Entry(patch, true)];
  }

  // ---------- the sender's own view ----------

  function Plain(log: seq<Entry>): Log {
    seq(|log|, i requires 0 <= i < |log| => log[i].mutations)
  }

  /** The fetch after an acceptance is answered in order, from at least the log the patch is in. */
  ghost predicate FetchesInOrder(mix: Mix, stored: Option<HashState>, log: seq<Entry>, patch: seq<Mutation>,
                                 call: Call, whole: Log)
  {
    var v := Load(stored).version;
    var x := SendIQ(log, Frame(v, patch), call);
    x.answer == Some(Accept) ==>
      && Plain(x.log) <= whole
      && AtVersion(mix, whole, stored, v) && Faithful(mix, whole, v, v == 0, call.rounds)
      && forall r <- call.rounds :: r.Answered? ==> |x.log| <= r.head
  }

  /**
    When a call returns nil, the patch sits in the log at the version it was encoded against, the
    stored state is a true state past it, and an incremental fetch has handed over everything from
    the patch on.
   */
  lemma NilMeansSynced(mix: Mix, stored: Option<HashState>, log: seq<Entry>, patch: seq<Mutation>, call: Call,
                       whole: Log)
    requires FetchesInOrder(mix, stored, log, patch, call, whole)
    requires Send(mix, stored, log, patch, call, None).result.Ok?
    ensures var s, v := Send(mix, stored, log, patch, call, None), Load(stored).version;
      var w := Load(s.stored).version;
      && v < |s.log| && s.log[v] == Entry(patch, true)
      && v < w <= |whole| && Load(s.stored) == StateAt(mix, whole, w)
      && whole[v] == patch
      && (v > 0 ==> Fetch(mix, stored, false, false, call.rounds).applied == Flatten(whole[v..w]))
  {
    var v := Load(stored).version;
    var frame := Frame(v, patch);
    LastCall(mix, stored, log, patch, call);
    OwnEntry(log, frame, call);
    assert Plain(SendIQ(log, frame, call).log)[v] == patch;
    FetchPast(mix, stored, |SendIQ(log, frame, call).log|, call.rounds, whole);
  }

  lemma FetchPast(mix: Mix, stored: Option<HashState>, n: nat, rounds: seq<Round>, whole: Log)
    requires var v := Load(stored).version;
      AtVersion(mix, whole, stored, v) && Faithful(mix, whole, v, v == 0, rounds)
    requires forall r <- rounds :: r.Answered? ==> n <= r.head
    requires Fetch(mix, stored, false, false, rounds).result.Ok?
    ensures var o, v := Fetch(mix, stored, false, false, rounds), Load(stored).version;
      var w := Load(o.stored).version;
      && v <= w && n <= w <= |whole| && Load(o.stored) == StateAt(mix, whole, w)
      && (v > 0 ==> o.applied == Flatten(whole[v..w]))
  {
    var v := Load(stored).version;
    var w := SyncFollowsServer(mix, whole, stored, v, false, rounds);
    var o := Fetch(mix, stored, false, false, rounds);
    StateAtHasVersion(mix, whole, w);
    assert LastRound(o, rounds) in rounds;
    if v > 0 {
      IncrementalDelivers(whole, v, rounds, o, mix);
    }
  }

  lemma OwnEntry(log: seq<Entry>, frame: Frame, call: Call)
    requires SendIQ(log, frame, call).answer == Some(Accept)
    ensures var x := SendIQ(log, frame, call);
      frame.version < |x.log| && x.log[frame.version] == Entry(frame.mutations, true)
  {
    OwnOfTrip(log, frame, call.first);
  }

  /** The same for a call that may be retried: nil means that the stored state is past the patch. */
  lemma NilMeansSyncedWithRetry(mix: Mix, stored: Option<HashState>, log: seq<Entry>, patch: seq<Mutation>,
                                call: Call, retry: Option<Call>, whole: Log) returns (v: nat)
    requires FetchesInOrder(mix, stored, log, patch, call, whole)
    requires Retries(mix, stored, log, patch, call, retry) ==>
      var x := SendIQ(log, Frame(Load(stored).version, patch), call);
      var d := ApplyPatches(mix, stored, x.answer.value.list, x.answer.value.collects);
      FetchesInOrder(mix, d.stored, x.log, patch, retry.value, whole)
    requires Send(mix, stored, log, patch, call, retry).result.Ok?
    ensures var s := Send(mix, stored, log, patch, call, retry);
      var w := Load(s.stored).version;
      && v < |s.log| && s.log[v] == Entry(patch, true)
      && v < w <= |whole| && Load(s.stored) == StateAt(mix, whole, w)
  {
    if Retries(mix, stored, log, patch, call, retry) {
      var x := SendIQ(log, Frame(Load(stored).version, patch), call);
      var d := ApplyPatches(mix, stored, x.answer.value.list, x.answer.value.collects);
      Retried(mix, stored, log, patch, call, retry);
      NilMeansSynced(mix, d.stored, x.log, patch, retry.value, whole);
      v := Load(d.stored).version;
    } else {
      NotRetried(mix, stored, log, patch, call, retry);
      NilMeansSynced(mix, stored, log, patch, call, whole);
      v := Load(stored).version;
    }
  }
}
