/**
  The fetch loop against the server's append-only log: whatever the server answers, only signed
  states are stored; a server that answers in order brings the client to its head; and exactly the
  patches stored by a round that then fails have mutations nobody ever sees.
 */
module AppStateLog {
  import opened Prelude
  import opened AppStateSync

  /** Patch v of the log is log[v - 1]. */
  type Log = seq<seq<Mutation>>

  function StateAt(mix: Mix, log: Log, v: nat): HashState
    requires v <= |log|
  {
    if v == 0 then EMPTY else HashState(v, mix(StateAt(mix, log, v - 1).hash, log[v - 1]))
  }

  function Flatten(log: Log): seq<Mutation> {
    if log == [] then [] else log[0] + Flatten(log[1..])
  }

  /** The signature on a patch or snapshot was made for that version of the log. */
  ghost predicate Genuine(mix: Mix, log: Log, p: Patch) {
    1 <= p.version <= |log| && p.signed == StateAt(mix, log, p.version)
  }

  ghost predicate GenuineRound(mix: Mix, log: Log, round: Round) {
    round.Answered? ==> forall p <- Items(round.list) :: Genuine(mix, log, p)
  }

  /** Nothing is stored, or the state of some version of the log is. */
  ghost predicate Synced(mix: Mix, log: Log, stored: Option<HashState>) {
    stored.Some? ==> 1 <= stored.value.version <= |log| && stored.value == StateAt(mix, log, stored.value.version)
  }

  // ---------- only signed states are stored ----------

  lemma {:induction false} DecodeKeepsSynced(mix: Mix, log: Log, stored: Option<HashState>, items: seq<Patch>)
    requires Synced(mix, log, stored)
    requires forall p <- items :: Genuine(mix, log, p)
    ensures Synced(mix, log, Decode(mix, stored, items).stored)
    decreases |items|
  {
    if items != [] {
      var next := DecodeOne(mix, Load(stored), items[0]);
      if next.Ok? {
        assert Genuine(mix, log, items[0]);
        DecodeKeepsSynced(mix, log, Some(next.value), items[1..]);
      }
    }
  }

  /**
    Patches may come in any order, with gaps, repeated, or carrying altered mutations, and the sync
    may fail at any point: the stored state is still the true state of the version stored with it.
   */
  lemma {:induction false} RoundsKeepSynced(mix: Mix, log: Log, stored: Option<HashState>, want: bool,
                                            rounds: seq<Round>)
    requires Synced(mix, log, stored)
    requires forall r <- rounds :: GenuineRound(mix, log, r)
    ensures Synced(mix, log, Rounds(mix, stored, want, rounds).stored)
    decreases |rounds|
  {
    if rounds != [] && rounds[0].Answered? {
      assert GenuineRound(mix, log, rounds[0]);
      DecodeKeepsSynced(mix, log, stored, Items(rounds[0].list));
      var d := OneRound(mix, stored, want, rounds[0]);
      if d.error.None? && rounds[0].list.hasMore {
        RoundsKeepSynced(mix, log, d.stored, false, rounds[1..]);
      }
    }
  }

  lemma StoredStateIsAlwaysTrue(mix: Mix, log: Log, stored: Option<HashState>, fullSync: bool,
                                onlyIfNotSynced: bool, rounds: seq<Round>)
    requires Synced(mix, log, stored)
    requires forall r <- rounds :: GenuineRound(mix, log, r)
    ensures Synced(mix, log, Fetch(mix, stored, fullSync, onlyIfNotSynced, rounds).stored)
  {
    var start := if fullSync then None else stored;
    RoundsKeepSynced(mix, log, start, start.None?, rounds);
  }

  // ---------- the snapshot guards ----------

  lemma {:induction false} LaterRoundsWantNoSnapshot(mix: Mix, stored: Option<HashState>, want: bool,
                                                     rounds: seq<Round>)
    requires want ==> Load(stored) == EMPTY
    ensures var o := Rounds(mix, stored, want, rounds);
      && o.requests != []
      && o.requests[0] == Request(Load(stored).version, want)
      && (forall i | 1 <= i < |o.requests| :: !o.requests[i].snapshot)
      && o.result != Err(NonEmptyState)
    decreases |rounds|
  {
    var d := OneRound(mix, stored, want, RoundAt(rounds, 0));
    if d.error.None? && rounds[0].list.hasMore {
      LaterRoundsWantNoSnapshot(mix, d.stored, false, rounds[1..]);
    }
  }

  /**
    For any server at all: a snapshot is requested in the first round or never, and then from the
    empty state, so the guard against applying one to a non-empty state never fires here.
   */
  lemma SnapshotOnlyOntoEmpty(mix: Mix, stored: Option<HashState>, fullSync: bool, onlyIfNotSynced: bool,
                              rounds: seq<Round>)
    ensures var o := Fetch(mix, stored, fullSync, onlyIfNotSynced, rounds);
      && (forall i | 0 <= i < |o.requests| && o.requests[i].snapshot :: i == 0 && o.requests[i].version == 0)
      && (o.requests != [] ==> (o.requests[0].snapshot <==> fullSync || stored.None?))
      && o.result != Err(NonEmptyState)
  {
    var start := if fullSync then None else stored;
    LaterRoundsWantNoSnapshot(mix, start, start.None?, rounds);
  }

  /**
    A sync asks the server nothing exactly when it is incremental over something stored and either was
    to run only if nothing is, or finds version 0 stored, which is an error; it then changes nothing.
   */
  lemma AsksNothingExactly(mix: Mix, stored: Option<HashState>, fullSync: bool, onlyIfNotSynced: bool,
                           rounds: seq<Round>)
    ensures var o := Fetch(mix, stored, fullSync, onlyIfNotSynced, rounds);
      && (o.requests == [] <==> !fullSync && stored.Some? && (onlyIfNotSynced || stored.value.version == 0))
      && (o.requests == [] ==>
            && o.stored == stored && o.applied == []
            && o.result == if stored.value.version == 0 then Err(CorruptVersion) else Ok(stored.value))
  {
    var start := if fullSync then None else stored;
    LaterRoundsWantNoSnapshot(mix, start, start.None?, rounds);
  }

  // ---------- a server that answers in order ----------

  /** The patches that follow version `base`, in order and as they are in the log. */
  ghost predicate Contiguous(mix: Mix, log: Log, base: nat, patches: seq<Patch>) {
    && base + |patches| <= |log|
    && forall i | 0 <= i < |patches| :: IsPatch(mix, log, base + i + 1, patches[i])
  }

  ghost predicate IsPatch(mix: Mix, log: Log, v: nat, p: Patch) {
    1 <= v <= |log| && p.version == v && p.mutations == log[v - 1] && p.signed == StateAt(mix, log, v)
  }

  ghost predicate IsSnapshot(mix: Mix, log: Log, p: Patch) {
    Genuine(mix, log, p) && p.signed.hash == mix(EMPTY.hash, p.mutations)
  }

  /** The version that the patches of a response start from. */
  function Base(v: nat, list: PatchList): nat {
    if list.snapshot.Some? then list.snapshot.value.version else v
  }

  /** Asked at version v: at most a requested snapshot, then a contiguous run, all of it unless hasMore. */
  ghost predicate FaithfulRound(mix: Mix, log: Log, v: nat, want: bool, round: Round) {
    round.Answered? ==>
      var base := Base(v, round.list);
      && (round.list.snapshot.Some? ==> want && IsSnapshot(mix, log, round.list.snapshot.value))
      && Contiguous(mix, log, base, round.list.patches)
      && base + |round.list.patches| <= round.head <= |log|
      && (!round.list.hasMore ==> base + |round.list.patches| == round.head)
  }

  function Reached(v: nat, round: Round): nat {
    if round.Answered? then Base(v, round.list) + |round.list.patches| else v
  }

  ghost predicate Faithful(mix: Mix, log: Log, v: nat, want: bool, rounds: seq<Round>)
    decreases |rounds|
  {
    rounds == [] || (FaithfulRound(mix, log, v, want, rounds[0])
                     && Faithful(mix, log, Reached(v, rounds[0]), false, rounds[1..]))
  }

  ghost predicate AtVersion(mix: Mix, log: Log, stored: Option<HashState>, v: nat) {
    v <= |log| && Load(stored) == StateAt(mix, log, v) && (stored.None? <==> v == 0)
  }

  predicate Readable(p: Patch) {
    p.keyKnown && p.trouble.None?
  }

  lemma {:induction false} StateAtHasVersion(mix: Mix, log: Log, v: nat)
    requires v <= |log|
    ensures StateAt(mix, log, v).version == v
  {}

  lemma FlattenHead(log: Log, v: nat, n: nat)
    requires 0 < n && v + n <= |log|
    ensures Flatten(log[v..v + n]) == log[v] + Flatten(log[v + 1..v + n])
  {
    assert log[v..v + n] == [log[v]] + log[v + 1..v + n];
  }

  /** How many patches come before the first one that cannot be read. */
  function Leading(patches: seq<Patch>): (n: nat)
    ensures n <= |patches|
  {
    if patches == [] || !Readable(patches[0]) then 0 else 1 + Leading(patches[1..])
  }

  lemma {:induction false} LeadingIsAll(patches: seq<Patch>)
    ensures Leading(patches) == |patches| <==> forall p <- patches :: Readable(p)
  {
    if patches != [] {
      assert patches == [patches[0]] + patches[1..];
      LeadingIsAll(patches[1..]);
    }
  }

  lemma ContiguousTail(mix: Mix, log: Log, base: nat, patches: seq<Patch>)
    requires patches != [] && Contiguous(mix, log, base, patches)
    ensures IsPatch(mix, log, base + 1, patches[0])
    ensures Contiguous(mix, log, base + 1, patches[1..])
  {
    assert IsPatch(mix, log, base + 0 + 1, patches[0]);
    forall i | 0 <= i < |patches| - 1 ensures IsPatch(mix, log, base + 1 + i + 1, patches[1..][i]) {
      assert IsPatch(mix, log, base + (i + 1) + 1, patches[i + 1]);
    }
  }

  /** A contiguous run is accepted up to the first patch that cannot be read, and reproduces the log. */
  lemma {:induction false} DecodeContiguous(mix: Mix, log: Log, stored: Option<HashState>, v: nat,
                                            patches: seq<Patch>)
    requires AtVersion(mix, log, stored, v)
    requires Contiguous(mix, log, v, patches)
    ensures var d, n := Decode(mix, stored, patches), Leading(patches);
      && AtVersion(mix, log, d.stored, v + n)
      && d.mutations == Flatten(log[v..v + n])
      && (d.error.None? <==> n == |patches|)
    decreases |patches|
  {
    if patches != [] {
      ContiguousTail(mix, log, v, patches);
      StateAtHasVersion(mix, log, v);
      if Readable(patches[0]) {
        var n := Leading(patches);
        var next := DecodeOne(mix, Load(stored), patches[0]).value;
        DecodeContiguous(mix, log, Some(next), v + 1, patches[1..]);
        FlattenHead(log, v, n);
      }
    }
  }

  predicate AllReadable(round: Round)
    requires round.Answered?
  {
    Leading(Items(round.list)) == |Items(round.list)|
  }

  /** The response is refused before anything of it is stored. */
  predicate StoresNothing(round: Round) {
    round.Unanswered? || Leading(Items(round.list)) == 0
  }

  ghost predicate RoundDecoded(mix: Mix, log: Log, v: nat, round: Round, d: Decoded, w: nat)
    requires round.Answered?
  {
    && v <= w <= Reached(v, round)
    && AtVersion(mix, log, d.stored, w)
    && (d.error.None? <==> AllReadable(round))
    && (d.error.None? ==> Complete(log, v, round.list, d.mutations, w) && w == Reached(v, round))
    && (w == v <==> StoresNothing(round))
  }

  predicate Complete(log: Log, v: nat, list: PatchList, mutations: seq<Mutation>, w: nat) {
    Base(v, list) <= w <= |log| && mutations == Content(log, Base(v, list), list.snapshot, w)
  }

  /** What brings a client from the response's base to version w. */
  function Content(log: Log, base: nat, snapshot: Option<Patch>, w: nat): seq<Mutation>
    requires base <= w <= |log|
  {
    if snapshot.Some? then snapshot.value.mutations + Flatten(log[base..w]) else Flatten(log[base..w])
  }

  lemma DecodeHead(mix: Mix, stored: Option<HashState>, s: Patch, patches: seq<Patch>)
    ensures Leading([s] + patches) == if Readable(s) then 1 + Leading(patches) else 0
    ensures var d, one := Decode(mix, stored, [s] + patches), DecodeOne(mix, Load(stored), s);
      if one.Err? then d == Decoded(stored, [], Some(one.error))
      else var rest := Decode(mix, Some(one.value), patches);
        d == rest.(mutations := s.mutations + rest.mutations)
  {
    assert ([s] + patches)[1..] == patches;
  }

  lemma DecodeSnapshot(mix: Mix, log: Log, stored: Option<HashState>, round: Round) returns (w: nat)
    requires AtVersion(mix, log, stored, 0)
    requires round.Answered? && FaithfulRound(mix, log, 0, true, round) && round.list.snapshot.Some?
    ensures RoundDecoded(mix, log, 0, round, Decode(mix, stored, Items(round.list)), w)
  {
    var s, patches := round.list.snapshot.value, round.list.patches;
    DecodeHead(mix, stored, s, patches);
    StateAtHasVersion(mix, log, s.version);
    if Readable(s) {
      assert DecodeOne(mix, Load(stored), s) == Ok(StateAt(mix, log, s.version));
      DecodeContiguous(mix, log, Some(StateAt(mix, log, s.version)), s.version, patches);
      w := s.version + Leading(patches);
    } else {
      w := 0;
    }
  }

  lemma DecodeIncrement(mix: Mix, log: Log, stored: Option<HashState>, v: nat, round: Round) returns (w: nat)
    requires AtVersion(mix, log, stored, v)
    requires round.Answered? && FaithfulRound(mix, log, v, false, round)
    ensures RoundDecoded(mix, log, v, round, Decode(mix, stored, Items(round.list)), w)
  {
    var list := round.list;
    DecodeContiguous(mix, log, stored, v, list.patches);
    w := v + Leading(list.patches);
  }

  lemma DecodeRound(mix: Mix, log: Log, stored: Option<HashState>, v: nat, want: bool, round: Round)
    returns (w: nat)
    requires AtVersion(mix, log, stored, v) && (want ==> v == 0)
    requires round.Answered? && FaithfulRound(mix, log, v, want, round)
    ensures RoundDecoded(mix, log, v, round, Decode(mix, stored, Items(round.list)), w)
  {
    if round.list.snapshot.Some? {
      w := DecodeSnapshot(mix, log, stored, round);
    } else {
      w := DecodeIncrement(mix, log, stored, v, round);
    }
  }

  // ---------- whole syncs ----------

  /** The response that ended the sync. */
  function LastRound(o: Outcome, rounds: seq<Round>): Round
    requires o.requests != []
  {
    RoundAt(rounds, |o.requests| - 1)
  }

  /** The server answers and everything it sends can be read and collected, until it has no more. */
  predicate Smooth(rounds: seq<Round>) {
    && rounds != [] && rounds[0].Answered? && AllReadable(rounds[0]) && rounds[0].collects
    && (rounds[0].list.hasMore ==> Smooth(rounds[1..]))
  }

  ghost predicate Caught(mix: Mix, log: Log, v: nat, rounds: seq<Round>, o: Outcome, w: nat) {
    && o.requests != []
    && AtVersion(mix, log, o.stored, w)
    && v <= o.covered <= w
    && (o.result.Ok? <==> Smooth(rounds))
    && (o.result.Ok? ==> LastRound(o, rounds).Answered? && w == LastRound(o, rounds).head == o.covered)
    && (w == o.covered <==> o.result.Ok? || StoresNothing(LastRound(o, rounds)))
  }

  lemma ShiftLast(rounds: seq<Round>, asked: seq<Request>, applied: seq<Mutation>, rest: Outcome)
    requires rounds != [] && |asked| == 1 && rest.requests != []
    ensures LastRound(After(asked, applied, rest), rounds) == LastRound(rest, rounds[1..])
  {}

  lemma {:induction false} RoundsFollowServer(mix: Mix, log: Log, stored: Option<HashState>, v: nat, want: bool,
                                              rounds: seq<Round>) returns (w: nat)
    requires AtVersion(mix, log, stored, v) && (want ==> v == 0)
    requires Faithful(mix, log, v, want, rounds)
    ensures Caught(mix, log, v, rounds, Rounds(mix, stored, want, rounds), w)
    decreases |rounds|
  {
    StateAtHasVersion(mix, log, v);
    if rounds == [] || rounds[0].Unanswered? { return v; }
    w := DecodeRound(mix, log, stored, v, want, rounds[0]);
    StateAtHasVersion(mix, log, w);
    var d := OneRound(mix, stored, want, rounds[0]);
    if d.error.None? && rounds[0].list.hasMore {
      var rest := Rounds(mix, d.stored, false, rounds[1..]);
      w := RoundsFollowServer(mix, log, d.stored, w, false, rounds[1..]);
      ShiftLast(rounds, [Request(Load(stored).version, want)], d.mutations, rest);
    }
  }

  lemma {:induction false} FlattenJoins(log: Log, a: nat, b: nat, c: nat)
    requires a <= b <= c <= |log|
    ensures Flatten(log[a..b]) + Flatten(log[b..c]) == Flatten(log[a..c])
    decreases b - a
  {
    if a == b {
      assert log[a..b] == [];
    } else {
      FlattenJoins(log, a + 1, b, c);
      assert log[a..b] == [log[a]] + log[a + 1..b];
      assert log[a..c] == [log[a]] + log[a + 1..c];
      Associative(log[a], Flatten(log[a + 1..b]), Flatten(log[b..c]));
    }
  }

  lemma ContentJoins(log: Log, a: nat, snapshot: Option<Patch>, b: nat, c: nat)
    requires a <= b <= c <= |log|
    ensures Content(log, a, snapshot, b) + Flatten(log[b..c]) == Content(log, a, snapshot, c)
  {
    FlattenJoins(log, a, b, c);
    if snapshot.Some? {
      Associative(snapshot.value.mutations, Flatten(log[a..b]), Flatten(log[b..c]));
    }
  }

  /** The mutations handed over are those of the log, in order, up to the covered version. */
  predicate Delivered(log: Log, v: nat, rounds: seq<Round>, o: Outcome) {
    if rounds == [] || rounds[0].Unanswered? || (o.result.Err? && |o.requests| == 1) then
      o.applied == [] && o.covered == v
    else
      var list := rounds[0].list;
      Base(v, list) <= o.covered <= |log| && o.applied == Content(log, Base(v, list), list.snapshot, o.covered)
  }

  /** A first round that reaches version w, and later ones that go on from there. */
  lemma DeliveredInTwo(log: Log, v: nat, rounds: seq<Round>, asked: seq<Request>, mutations: seq<Mutation>, w: nat,
                       rest: Outcome)
    requires rounds != [] && rounds[0].Answered? && |asked| == 1 && rest.requests != []
    requires Complete(log, v, rounds[0].list, mutations, w)
    requires w <= rest.covered <= |log| && rest.applied == Flatten(log[w..rest.covered])
    ensures Delivered(log, v, rounds, After(asked, mutations, rest))
  {
    ContentJoins(log, Base(v, rounds[0].list), rounds[0].list.snapshot, w, rest.covered);
  }

  lemma {:induction false} RoundsDeliverTheLog(mix: Mix, log: Log, stored: Option<HashState>, v: nat,
                                               want: bool, rounds: seq<Round>)
    requires AtVersion(mix, log, stored, v) && (want ==> v == 0)
    requires Faithful(mix, log, v, want, rounds)
    ensures Delivered(log, v, rounds, Rounds(mix, stored, want, rounds))
    decreases |rounds|
  {
    StateAtHasVersion(mix, log, v);
    if rounds == [] || rounds[0].Unanswered? { return; }
    var w := DecodeRound(mix, log, stored, v, want, rounds[0]);
    StateAtHasVersion(mix, log, w);
    var d := OneRound(mix, stored, want, rounds[0]);
    if d.error.None? && rounds[0].list.hasMore {
      var rest := Rounds(mix, d.stored, false, rounds[1..]);
      RoundsDeliverTheLog(mix, log, d.stored, w, false, rounds[1..]);
      var _ := RoundsFollowServer(mix, log, d.stored, w, false, rounds[1..]);
      LaterDelivered(log, w, rounds[1..], rest);
      DeliveredInTwo(log, v, rounds, [Request(Load(stored).version, want)], d.mutations, w, rest);
    }
  }

  /** After the first round there is no snapshot left to hand over. */
  lemma LaterDelivered(log: Log, v: nat, rounds: seq<Round>, o: Outcome)
    requires Delivered(log, v, rounds, o) && v <= o.covered <= |log|
    requires rounds != [] && rounds[0].Answered? && rounds[0].list.snapshot.Some? ==> o.applied == []
    requires rounds != [] && rounds[0].Answered? && rounds[0].list.snapshot.Some? ==> o.covered == v
    ensures o.applied == Flatten(log[v..o.covered])
  {
    assert log[v..v] == [];
  }

  function StartVersion(v: nat, fullSync: bool): nat {
    if fullSync then 0 else v
  }

  /**
    A sync with a server that answers in order succeeds exactly when every response can be read and
    collected, and then it has stored the state the server was at when it gave its last response;
    the mutations it handed over are those of the log, in order.
   */
  lemma SyncFollowsServer(mix: Mix, log: Log, stored: Option<HashState>, v: nat, fullSync: bool, rounds: seq<Round>)
    returns (w: nat)
    requires AtVersion(mix, log, stored, v)
    requires var v0 := StartVersion(v, fullSync); Faithful(mix, log, v0, v0 == 0, rounds)
    ensures var o, v0 := Fetch(mix, stored, fullSync, false, rounds), StartVersion(v, fullSync);
      Caught(mix, log, v0, rounds, o, w) && Delivered(log, v0, rounds, o)
  {
    var v0 := StartVersion(v, fullSync);
    var start := if fullSync then None else stored;
    StateAtHasVersion(mix, log, v);
    RoundsDeliverTheLog(mix, log, start, v0, v0 == 0, rounds);
    w := RoundsFollowServer(mix, log, start, v0, v0 == 0, rounds);
  }

  /**
    The events of a sync.  An error emits none.  A successful incremental sync emits exactly the log's
    mutations between the version stored before and the one it returns.  A sync from nothing emits the
    snapshot, if there was one, and all patches after it, if that is switched on, and nothing otherwise.
   */
  lemma SyncEmits(mix: Mix, log: Log, stored: Option<HashState>, v: nat, fullSync: bool, rounds: seq<Round>,
                  emitOnFullSync: bool) returns (w: nat)
    requires AtVersion(mix, log, stored, v)
    requires var v0 := StartVersion(v, fullSync); Faithful(mix, log, v0, v0 == 0, rounds)
    ensures var o := Fetch(mix, stored, fullSync, false, rounds);
      var events := EventsOf(o, fullSync || stored.None?, emitOnFullSync);
      && (o.result.Err? ==> events == [])
      && (o.result.Ok? ==> w <= |log| && o.result == Ok(StateAt(mix, log, w)))
      && (o.result.Ok? && !fullSync && v > 0 ==> v <= w && events == Flatten(log[v..w]))
      && (o.result.Ok? && (fullSync || v == 0) ==>
            && rounds != [] && rounds[0].Answered?
            && var list := rounds[0].list;
            if emitOnFullSync then Base(0, list) <= w && events == Content(log, Base(0, list), list.snapshot, w)
            else events == [])
  {
    var o, v0 := Fetch(mix, stored, fullSync, false, rounds), StartVersion(v, fullSync);
    w := SyncFollowsServer(mix, log, stored, v, fullSync, rounds);
    FetchIsStored(mix, stored, fullSync, rounds);
    if o.result.Ok? && v0 > 0 { IncrementalDelivers(log, v0, rounds, o, mix); }
  }

  /** What a smooth sync of a log that has stopped growing comes to. */
  ghost predicate WholeLog(mix: Mix, log: Log, v: nat, rounds: seq<Round>, o: Outcome)
    requires rounds != [] && rounds[0].Answered? && v <= |log|
  {
    && o.result == Ok(StateAt(mix, log, |log|))
    && Load(o.stored) == StateAt(mix, log, |log|)
    && (rounds[0].list.snapshot.None? ==> o.applied == Flatten(log[v..]))
  }

  lemma CaughtUp(mix: Mix, log: Log, v: nat, rounds: seq<Round>, o: Outcome, w: nat)
    requires Caught(mix, log, v, rounds, o, w) && Delivered(log, v, rounds, o)
    requires Smooth(rounds) && forall r <- rounds :: r.Answered? ==> r.head == |log|
    requires o.result.Ok? ==> o.result.value == Load(o.stored) && LastRound(o, rounds) in rounds
    ensures WholeLog(mix, log, v, rounds, o)
  {
    assert log[v..|log|] == log[v..];
  }

  /** A log that has not grown past the last response is reached as a whole. */
  lemma SyncConverges(mix: Mix, log: Log, stored: Option<HashState>, v: nat, fullSync: bool, rounds: seq<Round>)
    requires AtVersion(mix, log, stored, v)
    requires var v0 := StartVersion(v, fullSync); Faithful(mix, log, v0, v0 == 0, rounds) && Smooth(rounds)
    requires forall r <- rounds :: r.Answered? ==> r.head == |log|
    ensures WholeLog(mix, log, StartVersion(v, fullSync), rounds, Fetch(mix, stored, fullSync, false, rounds))
  {
    var w := SyncFollowsServer(mix, log, stored, v, fullSync, rounds);
    FetchIsStored(mix, stored, fullSync, rounds);
    CaughtUp(mix, log, StartVersion(v, fullSync), rounds, Fetch(mix, stored, fullSync, false, rounds), w);
  }

  lemma FetchIsStored(mix: Mix, stored: Option<HashState>, fullSync: bool, rounds: seq<Round>)
    ensures var o := Fetch(mix, stored, fullSync, false, rounds);
      o.result.Ok? ==> o.result.value == Load(o.stored) && o.requests != [] && LastRound(o, rounds) in rounds
  {
    var start := if fullSync then None else stored;
    OkIsStored(mix, start, start.None?, rounds);
  }

  lemma {:induction false} OkIsStored(mix: Mix, stored: Option<HashState>, want: bool, rounds: seq<Round>)
    ensures var o := Rounds(mix, stored, want, rounds);
      o.result.Ok? ==> o.result.value == Load(o.stored) && o.requests != [] && LastRound(o, rounds) in rounds
    decreases |rounds|
  {
    var d := OneRound(mix, stored, want, RoundAt(rounds, 0));
    if d.error.None? && rounds[0].list.hasMore {
      OkIsStored(mix, d.stored, false, rounds[1..]);
    }
  }

  /**
    A sync, full or not, followed by a second one.  What the first stored beyond what it covered is a
    gap exactly when it fails on a response of which it stored something, and the second goes on after
    the gap: neither hands over the snapshot or the patches in it.
   */
  lemma StoredButNotCoveredIsSkipped(mix: Mix, log: Log, stored: Option<HashState>, v: nat, fullSync: bool,
                                     rounds: seq<Round>, w: nat, again: seq<Round>)
    requires AtVersion(mix, log, stored, v)
    requires var v0 := StartVersion(v, fullSync); Faithful(mix, log, v0, v0 == 0, rounds)
    requires AtVersion(mix, log, Fetch(mix, stored, fullSync, false, rounds).stored, w)
    requires Faithful(mix, log, w, w == 0, again)
    ensures var o, v0 := Fetch(mix, stored, fullSync, false, rounds), StartVersion(v, fullSync);
      var o' := Fetch(mix, o.stored, false, false, again);
      && o.requests != [] && v0 <= o.covered <= w <= o'.covered <= |log|
      && (o.covered < w <==> o.result.Err? && !StoresNothing(LastRound(o, rounds)))
      && Delivered(log, v0, rounds, o) && Delivered(log, w, again, o')
      && (v0 > 0 ==> o.applied == Flatten(log[v0..o.covered]))
      && (w > 0 ==> o'.applied == Flatten(log[w..o'.covered]))
  {
    var v0 := StartVersion(v, fullSync);
    var o := Fetch(mix, stored, fullSync, false, rounds);
    var u := SyncFollowsServer(mix, log, stored, v, fullSync, rounds);
    SameVersion(mix, log, o.stored, u, w);
    var _ := SyncFollowsServer(mix, log, o.stored, w, false, again);
    if v0 > 0 { IncrementalDelivers(log, v0, rounds, o, mix); }
    if w > 0 { IncrementalDelivers(log, w, again, Fetch(mix, o.stored, false, false, again), mix); }
  }

  lemma SameVersion(mix: Mix, log: Log, stored: Option<HashState>, u: nat, w: nat)
    requires AtVersion(mix, log, stored, u) && AtVersion(mix, log, stored, w)
    ensures u == w
  {
    StateAtHasVersion(mix, log, u);
    StateAtHasVersion(mix, log, w);
  }

  lemma IncrementalDelivers(log: Log, v: nat, rounds: seq<Round>, o: Outcome, mix: Mix)
    requires Faithful(mix, log, v, false, rounds) && Delivered(log, v, rounds, o) && v <= o.covered <= |log|
    ensures o.applied == Flatten(log[v..o.covered])
  {
    LaterDelivered(log, v, rounds, o);
  }

  /** A first sync can lose its snapshot: it is stored, the patch after it cannot be read, the retry goes on from it. */
  lemma SnapshotCanBeSkipped(mix: Mix)
    ensures var log := [[10], [20]];
      var s1 := Patch(1, [10], StateAt(mix, log, 1), true, None);
      var p2 := Patch(2, [20], StateAt(mix, log, 2), true, None);
      var o := Fetch(mix, None, true, false,
                     [Answered(PatchList(Some(s1), [p2.(keyKnown := false)], false), 2, true)]);
      var o' := Fetch(mix, o.stored, false, false, [Answered(PatchList(None, [p2], false), 2, true)]);
      && o.result == Err(DecodeFailed(KeyMissing)) && o.applied == []
      && o'.result == Ok(StateAt(mix, log, 2)) && o'.applied == [20]
  {
    var log := [[10], [20]];
    var t1, t2 := StateAt(mix, log, 1), StateAt(mix, log, 2);
    var s1, p2 := Patch(1, [10], t1, true, None), Patch(2, [20], t2, true, None);
    var bad := p2.(keyKnown := false);
    assert DecodeOne(mix, EMPTY, s1) == Ok(t1) && DecodeOne(mix, t1, p2) == Ok(t2);
    assert Items(PatchList(Some(s1), [bad], false)) == [s1, bad] && [s1, bad][1..] == [bad];
    assert Decode(mix, Some(t1), [bad]) == Decoded(Some(t1), [], Some(KeyMissing));
    assert Decode(mix, None, [s1, bad]) == Decoded(Some(t1), [10] + [], Some(KeyMissing));
    assert Decode(mix, Some(t1), [p2]) == Decoded(Some(t2), [20] + [], None);
  }

  /** One such run: patch 2 is stored, patch 3 lacks its key; the retry hands over patch 3 only. */
  lemma MutationsCanBeSkipped(mix: Mix)
    ensures var log := [[10], [20], [30]];
      var p2 := Patch(2, [20], StateAt(mix, log, 2), true, None);
      var p3 := Patch(3, [30], StateAt(mix, log, 3), true, None);
      var o := Fetch(mix, Some(StateAt(mix, log, 1)), false, false,
                     [Answered(PatchList(None, [p2, p3.(keyKnown := false)], false), 3, true)]);
      var o' := Fetch(mix, o.stored, false, false, [Answered(PatchList(None, [p3], false), 3, true)]);
      && o.result == Err(DecodeFailed(KeyMissing)) && o.applied == []
      && o'.result == Ok(StateAt(mix, log, 3)) && o'.applied == [30]
  {
    var log := [[10], [20], [30]];
    var s1, s2, s3 := StateAt(mix, log, 1), StateAt(mix, log, 2), StateAt(mix, log, 3);
    var p2, p3 := Patch(2, [20], s2, true, None), Patch(3, [30], s3, true, None);
    var bad := p3.(keyKnown := false);
    assert DecodeOne(mix, s1, p2) == Ok(s2) && DecodeOne(mix, s2, p3) == Ok(s3);
    assert [p2, bad][1..] == [bad];
    assert Decode(mix, Some(s2), [bad]) == Decoded(Some(s2), [], Some(KeyMissing));
    assert Decode(mix, Some(s1), [p2, bad]) == Decoded(Some(s2), [20] + [], Some(KeyMissing));
    assert Decode(mix, Some(s2), [p3]) == Decoded(Some(s3), [30] + [], None);
  }

  // ---------- patches out of order ----------

  /** The hash tells apart every history of mutations, and none leads back to the empty state. */
  ghost predicate CollisionFree(mix: Mix) {
    && (forall h, ms, h', ms' :: mix(h, ms) == mix(h', ms') ==> h == h' && ms == ms')
    && (forall h, ms :: mix(h, ms) != EMPTY.hash)
  }

  lemma {:induction false} HashTellsVersion(mix: Mix, log: Log, a: nat, b: nat)
    requires CollisionFree(mix) && a <= |log| && b <= |log|
    requires StateAt(mix, log, a).hash == StateAt(mix, log, b).hash
    ensures a == b
  {
    if a > 0 && b > 0 { HashTellsVersion(mix, log, a - 1, b - 1); }
  }

  /** Whatever signed patch arrives, it is accepted only as the next one, with the log's mutations. */
  lemma AcceptedIsNext(mix: Mix, log: Log, v: nat, p: Patch)
    requires CollisionFree(mix) && v <= |log| && Genuine(mix, log, p)
    requires DecodeOne(mix, StateAt(mix, log, v), p).Ok?
    ensures p.version == v + 1 && p.mutations == log[v]
    ensures DecodeOne(mix, StateAt(mix, log, v), p) == Ok(StateAt(mix, log, v + 1))
  {
    HashTellsVersion(mix, log, v, p.version - 1);
  }

  /** From a state of the log, only the log's next patch leads to a state of the log. */
  ghost predicate TellsPatches(mix: Mix, log: Log) {
    forall a, b, ms | 0 < a <= |log| && 0 < b <= |log| ::
      mix(StateAt(mix, log, a).hash, ms) == StateAt(mix, log, b).hash ==> b == a + 1 && ms == log[a]
  }

  lemma CollisionFreeTells(mix: Mix, log: Log)
    requires CollisionFree(mix)
    ensures TellsPatches(mix, log)
    ensures forall p :: IsSnapshot(mix, log, p) ==> p.version == 1 && p.mutations == log[0]
  {
    forall a, b, ms | 0 < a <= |log| && 0 < b <= |log|
                      && mix(StateAt(mix, log, a).hash, ms) == StateAt(mix, log, b).hash
      ensures b == a + 1 && ms == log[a]
    {
      HashTellsVersion(mix, log, a, b - 1);
    }
    forall p | IsSnapshot(mix, log, p) ensures p.version == 1 && p.mutations == log[0] {
      HashTellsVersion(mix, log, 0, p.version - 1);
    }
  }

  /**
    Mutations that lead from version v of the log to version w: the log's own, except that from the
    empty state a first item, such as a snapshot, may lead to the state of any version at once.
   */
  ghost predicate Leads(mix: Mix, log: Log, v: nat, first: Option<Patch>, mutations: seq<Mutation>, w: nat) {
    if v > 0 then v <= w <= |log| && mutations == Flatten(log[v..w])
    else if w == 0 then mutations == []
    else
      && first.Some? && IsSnapshot(mix, log, first.value) && first.value.version <= w <= |log|
      && mutations == first.value.mutations + Flatten(log[first.value.version..w])
  }

  lemma LeadsNowhere(mix: Mix, log: Log, v: nat, first: Option<Patch>)
    requires v <= |log|
    ensures Leads(mix, log, v, first, [], v)
  {
    assert log[v..v] == [];
  }

  lemma LeadsOn(mix: Mix, log: Log, a: nat, first: Option<Patch>, ms: seq<Mutation>, b: nat, second: Option<Patch>,
                ms': seq<Mutation>, c: nat)
    requires Leads(mix, log, a, first, ms, b) && Leads(mix, log, b, second, ms', c)
    ensures Leads(mix, log, a, if b == 0 then second else first, ms + ms', c)
  {
    if a > 0 {
      FlattenJoins(log, a, b, c);
    } else if b > 0 {
      FlattenJoins(log, first.value.version, b, c);
      Associative(first.value.mutations, Flatten(log[first.value.version..b]), Flatten(log[b..c]));
    } else {
      assert [] + ms' == ms';
    }
  }

  /** One accepted item. */
  lemma AcceptedLeads(mix: Mix, log: Log, stored: Option<HashState>, v: nat, p: Patch)
    requires TellsPatches(mix, log) && AtVersion(mix, log, stored, v) && Genuine(mix, log, p)
    requires DecodeOne(mix, Load(stored), p).Ok?
    ensures DecodeOne(mix, Load(stored), p).value == StateAt(mix, log, p.version)
    ensures Leads(mix, log, v, Some(p), p.mutations, p.version)
  {
    StateAtHasVersion(mix, log, v);
    if v == 0 {
      assert log[p.version..p.version] == [];
      assert p.mutations + [] == p.mutations;
    } else {
      FlattenHead(log, v, 1);
      assert log[v + 1..v + 1] == [];
      assert log[v] + [] == log[v];
    }
  }

  lemma {:induction false} DecodedIsTheLog(mix: Mix, log: Log, stored: Option<HashState>, v: nat, items: seq<Patch>)
    returns (w: nat, first: Option<Patch>)
    requires TellsPatches(mix, log) && AtVersion(mix, log, stored, v)
    requires forall p <- items :: Genuine(mix, log, p)
    ensures var d := Decode(mix, stored, items);
      v <= w && AtVersion(mix, log, d.stored, w) && Leads(mix, log, v, first, d.mutations, w)
    decreases |items|
  {
    w, first := v, None;
    LeadsNowhere(mix, log, v, None);
    if items != [] && DecodeOne(mix, Load(stored), items[0]).Ok? {
      var p := items[0];
      assert p in items;
      AcceptedLeads(mix, log, stored, v, p);
      var next := Some(StateAt(mix, log, p.version));
      w, first := DecodedIsTheLog(mix, log, next, p.version, items[1..]);
      LeadsOn(mix, log, v, Some(p), p.mutations, p.version, first, Decode(mix, next, items[1..]).mutations, w);
      first := Some(p);
    }
  }

  lemma RoundIsTheLog(mix: Mix, log: Log, stored: Option<HashState>, v: nat, want: bool, round: Round)
    returns (w: nat, first: Option<Patch>)
    requires TellsPatches(mix, log) && AtVersion(mix, log, stored, v) && GenuineRound(mix, log, round)
    ensures var d := OneRound(mix, stored, want, round);
      && v <= w && AtVersion(mix, log, d.stored, w)
      && if d.error.None? then Leads(mix, log, v, first, d.mutations, w) else d.mutations == []
  {
    w, first := v, None;
    LeadsNowhere(mix, log, v, None);
    if round.Answered? && OneRound(mix, stored, want, round) == ApplyPatches(mix, stored, round.list, round.collects) {
      w, first := DecodedIsTheLog(mix, log, stored, v, Items(round.list));
    }
  }

  lemma {:induction false} RoundsAreTheLog(mix: Mix, log: Log, stored: Option<HashState>, v: nat, want: bool,
                                           rounds: seq<Round>)
    returns (w: nat, first: Option<Patch>)
    requires TellsPatches(mix, log) && AtVersion(mix, log, stored, v)
    requires forall r <- rounds :: GenuineRound(mix, log, r)
    ensures var o := Rounds(mix, stored, want, rounds);
      && v <= o.covered <= w && AtVersion(mix, log, o.stored, w)
      && Leads(mix, log, v, first, o.applied, o.covered)
    decreases |rounds|
  {
    StateAtHasVersion(mix, log, v);
    LeadsNowhere(mix, log, v, None);
    var round := RoundAt(rounds, 0);
    w, first := RoundIsTheLog(mix, log, stored, v, want, round);
    StateAtHasVersion(mix, log, w);
    var d := OneRound(mix, stored, want, round);
    if d.error.None? && round.list.hasMore {
      var middle, rest, second := w, Rounds(mix, d.stored, false, rounds[1..]), first;
      w, second := RoundsAreTheLog(mix, log, d.stored, middle, false, rounds[1..]);
      LeadsOn(mix, log, v, first, d.mutations, middle, second, rest.applied, rest.covered);
      first := if middle == 0 then second else first;
    } else if d.error.Some? {
      first := None;
    }
  }

  /**
    A sync, full or not, with any server that has only signed snapshots and patches to send, in any
    order, repeated, with gaps or altered.  When the hash tells the log's patches apart, the mutations
    handed over are the log's next ones in order, after a first item that by itself leads to a true
    state when the sync starts from nothing; and the state stored is the log's at the version reached.
   */
  lemma HandedOverIsTheLog(mix: Mix, log: Log, stored: Option<HashState>, v: nat, fullSync: bool, rounds: seq<Round>)
    returns (w: nat, first: Option<Patch>)
    requires TellsPatches(mix, log) && AtVersion(mix, log, stored, v)
    requires forall r <- rounds :: GenuineRound(mix, log, r)
    ensures var o, v0 := Fetch(mix, stored, fullSync, false, rounds), StartVersion(v, fullSync);
      && v0 <= o.covered <= w && AtVersion(mix, log, o.stored, w)
      && Leads(mix, log, v0, first, o.applied, o.covered)
  {
    var start := if fullSync then None else stored;
    StateAtHasVersion(mix, log, v);
    w, first := RoundsAreTheLog(mix, log, start, StartVersion(v, fullSync), start.None?, rounds);
  }

  /** Under a hash without collisions it is the log alone, from nothing as well. */
  lemma HandedOverIsOnlyTheLog(mix: Mix, log: Log, stored: Option<HashState>, v: nat, fullSync: bool,
                               rounds: seq<Round>)
    requires CollisionFree(mix) && AtVersion(mix, log, stored, v)
    requires forall r <- rounds :: GenuineRound(mix, log, r)
    ensures var o, v0 := Fetch(mix, stored, fullSync, false, rounds), StartVersion(v, fullSync);
      v0 <= o.covered <= |log| && o.applied == Flatten(log[v0..o.covered])
  {
    var o, v0 := Fetch(mix, stored, fullSync, false, rounds), StartVersion(v, fullSync);
    CollisionFreeTells(mix, log);
    var w, first := HandedOverIsTheLog(mix, log, stored, v, fullSync, rounds);
    if v0 == 0 && o.covered > 0 {
      FlattenHead(log, 0, o.covered);
    } else {
      assert log[v0..v0] == [];
    }
  }
}
