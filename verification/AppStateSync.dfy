/**
  Fetching app state: the server keeps an append-only log of patches, the client keeps the version
  and hash it has applied.  Every decoded patch is stored at once, so a sync that fails half way
  keeps what it already has.

  Decoding is taken by contract: a patch or a snapshot is accepted exactly when its key is known,
  the state it leads to is the one that was signed, and its records decode.  The hash is any
  function of the previous hash and the mutations.
 */
module AppStateSync {
  import opened Prelude

  type Mutation = nat
  type Hash = nat
  type Mix = (Hash, seq<Mutation>) -> Hash

  datatype HashState = HashState(version: nat, hash: Hash)

  const EMPTY := HashState(0, 0)

  datatype DecodeError = KeyMissing | Mismatch | Undecodable

  /** A patch or a snapshot; `trouble` is what decoding its records would run into. */
  datatype Patch = Patch(version: nat, mutations: seq<Mutation>, signed: HashState, keyKnown: bool,
                         trouble: Option<DecodeError>)

  datatype PatchList = PatchList(snapshot: Option<Patch>, patches: seq<Patch>, hasMore: bool)

  /**
    What the environment does in one round: the request fails, or the server answers, having `head`
    patches at that moment.  `collects` is whether the store updates of the round succeed.
   */
  datatype Round = Unanswered | Answered(list: PatchList, head: nat, collects: bool)

  datatype Request = Request(version: nat, snapshot: bool)

  datatype Failure =
    | CorruptVersion
    | FetchFailed
    | UnexpectedSnapshot
    | NonEmptyState
    | DecodeFailed(error: DecodeError)
    | CollectFailed

  // ---------- decoding ----------

  function DecodeOne(mix: Mix, state: HashState, p: Patch): Result<HashState, DecodeError> {
    var next := HashState(p.version, mix(state.hash, p.mutations));
    if !p.keyKnown then Err(KeyMissing)
    else if next != p.signed then Err(Mismatch)
    else if p.trouble.Some? then Err(p.trouble.value)
    else Ok(next)
  }

  /** The stored version and hash; no row is version 0 with the zero hash. */
  function Load(stored: Option<HashState>): HashState {
    if stored.Some? then stored.value else EMPTY
  }

  datatype Decoded = Decoded(stored: Option<HashState>, mutations: seq<Mutation>, error: Option<DecodeError>)

  /** Each item is stored before the next one is looked at; an error keeps the items before it. */
  function Decode(mix: Mix, stored: Option<HashState>, items: seq<Patch>): Decoded
    decreases |items|
  {
    if items == [] then Decoded(stored, [], None)
    else match DecodeOne(mix, Load(stored), items[0])
      case Err(e) => Decoded(stored, [], Some(e))
      case Ok(next) =>
        var rest := Decode(mix, Some(next), items[1..]);
        rest.(mutations := items[0].mutations + rest.mutations)
  }

  function Items(list: PatchList): seq<Patch> {
    if list.snapshot.Some? then [list.snapshot.value] + list.patches else list.patches
  }

  datatype Applied = Applied(stored: Option<HashState>, mutations: seq<Mutation>, error: Option<Failure>)

  /** Decoding a response and then updating the stores; an error hands over no mutations. */
  function ApplyPatches(mix: Mix, stored: Option<HashState>, list: PatchList, collects: bool): Applied {
    var d := Decode(mix, stored, Items(list));
    if d.error.Some? then Applied(d.stored, [], Some(DecodeFailed(d.error.value)))
    else if !collects then Applied(d.stored, [], Some(CollectFailed))
    else Applied(d.stored, d.mutations, None)
  }

  // ---------- the fetch loop ----------

  /** `applied` lists the mutations of the completed rounds, `covered` the version they reach. */
  datatype Outcome = Outcome(requests: seq<Request>, stored: Option<HashState>, applied: seq<Mutation>,
                             covered: nat, result: Result<HashState, Failure>)

  /** What the loop body does with one response, guards first. */
  function OneRound(mix: Mix, stored: Option<HashState>, want: bool, round: Round): (d: Applied)
    ensures round.Unanswered? ==> d.error.Some?
  {
    if round.Unanswered? then Applied(stored, [], Some(FetchFailed))
    else if !want && round.list.snapshot.Some? then Applied(stored, [], Some(UnexpectedSnapshot))
    else if round.list.snapshot.Some? && Load(stored) != EMPTY then Applied(stored, [], Some(NonEmptyState))
    else ApplyPatches(mix, stored, round.list, round.collects)
  }

  /** The rounds of one sync; a script that runs out is a server that stops answering. */
  function Rounds(mix: Mix, stored: Option<HashState>, want: bool, rounds: seq<Round>): Outcome
    decreases |rounds|
  {
    var round := if rounds == [] then Unanswered else rounds[0];
    var d := OneRound(mix, stored, want, round);
    var asked := [Request(Load(stored).version, want)];
    if d.error.Some? then Outcome(asked, d.stored, [], Load(stored).version, Err(d.error.value))
    else if !round.list.hasMore then
      Outcome(asked, d.stored, d.mutations, Load(d.stored).version, Ok(Load(d.stored)))
    else After(asked, d.mutations, Rounds(mix, d.stored, false, rounds[1..]))
  }

  /** An outcome preceded by earlier rounds. */
  function After(requests: seq<Request>, applied: seq<Mutation>, rest: Outcome): Outcome {
    rest.(requests := requests + rest.requests, applied := applied + rest.applied)
  }

  lemma AfterTwice(r1: seq<Request>, a1: seq<Mutation>, r2: seq<Request>, a2: seq<Mutation>, o: Outcome)
    ensures After(r1, a1, After(r2, a2, o)) == After(r1 + r2, a1 + a2, o)
  {
    Associative(r1, r2, o.requests);
    Associative(a1, a2, o.applied);
  }

  function Fetch(mix: Mix, stored: Option<HashState>, fullSync: bool, onlyIfNotSynced: bool,
                 rounds: seq<Round>): Outcome
  {
    var start := if fullSync then None else stored;
    if start.Some? && start.value.version == 0 then Outcome([], start, [], 0, Err(CorruptVersion))
    else if start.Some? && onlyIfNotSynced then Outcome([], start, [], start.value.version, Ok(start.value))
    else Rounds(mix, start, start.None?, rounds)
  }

  function RoundAt(rounds: seq<Round>, i: nat): Round {
    if i < |rounds| then rounds[i] else Unanswered
  }

  /** Where the loop stands in an outcome: what it has done so far, and the rounds still to come. */
  ghost predicate Ahead(o: Outcome, asked: seq<Request>, taken: seq<Mutation>, mix: Mix,
                        stored: Option<HashState>, want: bool, rounds: seq<Round>, i: nat, more: bool)
  {
    && i <= |rounds|
    && o == if more then After(asked, taken, Rounds(mix, stored, want, rounds[i..]))
            else Outcome(asked, stored, taken, Load(stored).version, Ok(Load(stored)))
  }

  /** Unfolding one round behind the rounds already done. */
  lemma OneMoreRound(o: Outcome, asked: seq<Request>, taken: seq<Mutation>, mix: Mix,
                     stored: Option<HashState>, want: bool, rounds: seq<Round>, i: nat)
    requires Ahead(o, asked, taken, mix, stored, want, rounds, i, true)
    ensures var d := OneRound(mix, stored, want, RoundAt(rounds, i));
      var asked', taken' := asked + [Request(Load(stored).version, want)], taken + d.mutations;
      if d.error.Some? then o == Outcome(asked', d.stored, taken', Load(stored).version, Err(d.error.value))
      else i < |rounds| && Ahead(o, asked', taken', mix, d.stored, false, rounds, i + 1, rounds[i].list.hasMore)
  {
    var d := OneRound(mix, stored, want, RoundAt(rounds, i));
    if d.error.None? && rounds[i].list.hasMore {
      assert rounds[i..][1..] == rounds[i + 1..];
      AfterTwice(asked, taken, [Request(Load(stored).version, want)], d.mutations,
                 Rounds(mix, d.stored, false, rounds[i + 1..]));
    }
  }

  /** The events of a sync are dispatched only when all of it succeeded. */
  function EventsOf(o: Outcome, fullSync: bool, emitOnFullSync: bool): seq<Mutation> {
    if o.result.Ok? && (!fullSync || emitOnFullSync) then o.applied else []
  }

  // ---------- the client ----------

  class Client {
    const mix: Mix
    const emitOnFullSync: bool
    var stored: Option<HashState>
    var requests: seq<Request>
    var collected: seq<Mutation>

    constructor (mix: Mix, emitOnFullSync: bool)
      ensures this.mix == mix && this.emitOnFullSync == emitOnFullSync
      ensures stored == None && requests == [] && collected == []
    {
      this.mix := mix;
      this.emitOnFullSync := emitOnFullSync;
      stored := None;
      requests := [];
      collected := [];
    }

    method DecodePatches(list: PatchList) returns (mutations: seq<Mutation>, error: Option<DecodeError>)
      modifies this`stored
      ensures Decoded(stored, mutations, error) == Decode(mix, old(stored), Items(list))
    {
      var items := Items(list);
      mutations := [];
      for i := 0 to |items|
        invariant Decode(mix, stored, items[i..]).(mutations := mutations + Decode(mix, stored, items[i..]).mutations)
               == Decode(mix, old(stored), items)
      {
        assert items[i..][1..] == items[i + 1..];
        var next := DecodeOne(mix, Load(stored), items[i]);
        if next.Err? {
          return mutations, Some(next.error);
        }
        Associative(mutations, items[i].mutations, Decode(mix, Some(next.value), items[i + 1..]).mutations);
        stored := Some(next.value);
        mutations := mutations + items[i].mutations;
      }
      error := None;
    }

    method ApplyAppStatePatches(list: PatchList, collects: bool)
      returns (mutations: seq<Mutation>, error: Option<Failure>)
      modifies this`stored, this`collected
      ensures Applied(stored, mutations, error) == ApplyPatches(mix, old(stored), list, collects)
      ensures collected == old(collected) + mutations
    {
      var decoded, problem := DecodePatches(list);
      if problem.Some? {
        return [], Some(DecodeFailed(problem.value));
      }
      if !collects {
        return [], Some(CollectFailed);
      }
      collected := collected + decoded;
      return decoded, None;
    }

    method FetchAppState(fullSync: bool, onlyIfNotSynced: bool, rounds: seq<Round>)
      returns (result: Result<HashState, Failure>, events: seq<Mutation>)
      modifies this
      ensures var o := Fetch(mix, old(stored), fullSync, onlyIfNotSynced, rounds);
        && stored == o.stored
        && requests == old(requests) + o.requests
        && collected == old(collected) + o.applied
        && result == o.result
        && events == EventsOf(o, fullSync || old(stored).None?, emitOnFullSync)
    {
      if fullSync {
        stored := None;
      }
      if stored.Some? && stored.value.version == 0 {
        return Err(CorruptVersion), [];
      }
      if stored.Some? && onlyIfNotSynced {
        return Ok(stored.value), [];
      }
      ghost var asked, taken, covered;
      result, events, asked, taken, covered := FetchRounds(stored.None?, rounds);
    }

    /** One pass of the loop of FetchAppState. */
    method FetchRound(want: bool, round: Round) returns (mutations: seq<Mutation>, error: Option<Failure>)
      modifies this
      ensures Applied(stored, mutations, error) == OneRound(mix, old(stored), want, round)
      ensures requests == old(requests) + [Request(Load(old(stored)).version, want)]
      ensures collected == old(collected) + mutations
    {
      var state := Load(stored);
      requests := requests + [Request(state.version, want)];
      if round.Unanswered? {
        return [], Some(FetchFailed);
      } else if !want && round.list.snapshot.Some? {
        return [], Some(UnexpectedSnapshot);
      } else if round.list.snapshot.Some? && state != EMPTY {
        return [], Some(NonEmptyState);
      }
      mutations, error := ApplyAppStatePatches(round.list, round.collects);
    }

    /** The loop of FetchAppState; `full` is a sync from version 0. */
    method FetchRounds(full: bool, rounds: seq<Round>)
      returns (result: Result<HashState, Failure>, events: seq<Mutation>,
               ghost asked: seq<Request>, ghost taken: seq<Mutation>, ghost covered: nat)
      modifies this
      ensures Rounds(mix, old(stored), full, rounds) == Outcome(asked, stored, taken, covered, result)
      ensures requests == old(requests) + asked && collected == old(collected) + taken
      ensures result.Ok? ==> events == if !full || emitOnFullSync then taken else []
      ensures result.Err? ==> events == []
    {
      ghost var o, requests0, collected0 := Rounds(mix, stored, full, rounds), requests, collected;
      asked, taken, events := [], [], [];
      var hasMore, want, i: nat := true, full, 0;
      while hasMore
        invariant requests == requests0 + asked && collected == collected0 + taken
        invariant Ahead(o, asked, taken, mix, stored, want, rounds, i, hasMore)
        invariant events == if !full || emitOnFullSync then taken else []
        decreases |rounds| - i, hasMore
      {
        ghost var request := [Request(Load(stored).version, want)];
        covered := Load(stored).version;
        OneMoreRound(o, asked, taken, mix, stored, want, rounds, i);
        var round := RoundAt(rounds, i);
        var mutations, error := FetchRound(want, round);
        Associative(requests0, asked, request);
        Associative(collected0, taken, mutations);
        asked, taken := asked + request, taken + mutations;
        if error.Some? {
          return Err(error.value), [], asked, taken, covered;
        }
        if !full || emitOnFullSync {
          events := events + mutations;
        }
        want := false;
        hasMore := round.list.hasMore;
        i := i + 1;
      }
      return Ok(Load(stored)), events, asked, taken, Load(stored).version;
    }
  }
}
