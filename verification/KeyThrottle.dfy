/**
  Requesting missing app state keys: the client records when it last asked for each key and asks
  again only once more than 24 hours have passed.  Times are in nanoseconds on a clock that never
  goes back; time 0 is Go's zero time, which no real clock reading is.
 */
module KeyThrottle {

  type KeyId = string
  type Time = nat

  const DAY: nat := 24 * 3600 * 1000000000

  type Requests = map<KeyId, Time>

  function LastRequest(requests: Requests, key: KeyId): Time {
    if key in requests then requests[key] else 0
  }

  predicate Due(requests: Requests, key: KeyId, now: Time) {
    LastRequest(requests, key) == 0 || LastRequest(requests, key) + DAY < now
  }

  /** The keys of one call that are asked for, and the record afterwards, one missing key at a time. */
  function Asked(requests: Requests, missing: seq<KeyId>, now: Time): seq<KeyId> {
    if missing == [] then []
    else
      var front, key := missing[..|missing| - 1], missing[|missing| - 1];
      var asked := Asked(requests, front, now);
      if Due(Recorded(requests, front, now), key, now) then asked + [key] else asked
  }

  function Recorded(requests: Requests, missing: seq<KeyId>, now: Time): Requests {
    if missing == [] then requests
    else
      var front, key := missing[..|missing| - 1], missing[|missing| - 1];
      var recorded := Recorded(requests, front, now);
      if Due(recorded, key, now) then recorded[key := now] else recorded
  }

  class Client {
    var appStateKeyRequests: Requests

    constructor ()
      ensures appStateKeyRequests == map[]
    {
      appStateKeyRequests := map[];
    }

    method RequestMissingAppStateKeys(rawKeyIds: seq<KeyId>, now: Time) returns (filtered: seq<KeyId>)
      modifies this
      ensures filtered == Asked(old(appStateKeyRequests), rawKeyIds, now)
      ensures appStateKeyRequests == Recorded(old(appStateKeyRequests), rawKeyIds, now)
    {
      filtered := [];
      for i := 0 to |rawKeyIds|
        invariant filtered == Asked(old(appStateKeyRequests), rawKeyIds[..i], now)
        invariant appStateKeyRequests == Recorded(old(appStateKeyRequests), rawKeyIds[..i], now)
      {
        var key := rawKeyIds[i];
        assert rawKeyIds[..i + 1][..i] == rawKeyIds[..i];
        var last := LastRequest(appStateKeyRequests, key);
        if last == 0 || last + DAY < now {
          appStateKeyRequests := appStateKeyRequests[key := now];
          filtered := filtered + [key];
        }
      }
      assert rawKeyIds[..|rawKeyIds|] == rawKeyIds;
    }
  }

  // ---------- one call ----------

  predicate NoDuplicates(keys: seq<KeyId>) {
    forall i, j | 0 <= i < j < |keys| :: keys[i] != keys[j]
  }

  /**
    A call asks for exactly the missing keys that were due before it, each once however often the
    list repeats it, and records exactly those with the time of the call.
   */
  lemma {:induction false} OneCall(requests: Requests, missing: seq<KeyId>, now: Time, key: KeyId)
    requires now > 0
    ensures key in Asked(requests, missing, now) <==> key in missing && Due(requests, key, now)
    ensures LastRequest(Recorded(requests, missing, now), key)
         == if key in missing && Due(requests, key, now) then now else LastRequest(requests, key)
    ensures NoDuplicates(Asked(requests, missing, now))
  {
    if missing != [] {
      var front, last := missing[..|missing| - 1], missing[|missing| - 1];
      assert missing == front + [last];
      OneCall(requests, front, now, key);
      OneCall(requests, front, now, last);
    }
  }

  // ---------- runs ----------

  datatype Call = Call(missing: seq<KeyId>, now: Time)

  predicate Monotone(calls: seq<Call>) {
    && (forall i | 0 <= i < |calls| :: calls[i].now > 0)
    && (forall i, j | 0 <= i < j < |calls| :: calls[i].now <= calls[j].now)
  }

  function RecordAfter(calls: seq<Call>): Requests {
    if calls == [] then map[]
    else Recorded(RecordAfter(calls[..|calls| - 1]), calls[|calls| - 1].missing, calls[|calls| - 1].now)
  }

  /** What call i of a run asks for. */
  function AskedBy(calls: seq<Call>, i: nat): seq<KeyId>
    requires i < |calls|
  {
    Asked(RecordAfter(calls[..i]), calls[i].missing, calls[i].now)
  }

  /** The record of a key is the time of the last call that asked for it, or none. */
  lemma {:induction false} RecordIsLastAsked(calls: seq<Call>, key: KeyId) returns (last: int)
    requires Monotone(calls)
    ensures -1 <= last < |calls|
    ensures last >= 0 ==> key in AskedBy(calls, last) && LastRequest(RecordAfter(calls), key) == calls[last].now
    ensures last == -1 ==> LastRequest(RecordAfter(calls), key) == 0
    ensures forall i | last < i < |calls| :: key !in AskedBy(calls, i)
  {
    if calls == [] { return -1; }
    var n := |calls| - 1;
    var front := calls[..n];
    last := RecordIsLastAsked(front, key);
    OneCall(RecordAfter(front), calls[n].missing, calls[n].now, key);
    forall i | 0 <= i < n ensures AskedBy(calls, i) == AskedBy(front, i) {
      assert calls[..i] == front[..i];
    }
    if key in AskedBy(calls, n) { last := n; }
  }

  /** Two requests for the same key are strictly more than 24 hours apart. */
  lemma RequestsAreADayApart(calls: seq<Call>, i: nat, j: nat, key: KeyId)
    requires Monotone(calls) && i < j < |calls|
    requires key in AskedBy(calls, i) && key in AskedBy(calls, j)
    ensures calls[i].now + DAY < calls[j].now
  {
    var before := calls[..j];
    var last := RecordIsLastAsked(before, key);
    OneCall(RecordAfter(before), calls[j].missing, calls[j].now, key);
    assert before[..i] == calls[..i];
    assert key in AskedBy(before, i);
    assert i <= last;
  }

  /** A missing key is asked for unless it was asked for within the last 24 hours. */
  lemma MissingKeyIsAskedFor(calls: seq<Call>, j: nat, key: KeyId)
    requires Monotone(calls) && j < |calls| && key in calls[j].missing
    ensures key in AskedBy(calls, j) <==>
            forall i | 0 <= i < j :: key in AskedBy(calls, i) ==> calls[i].now + DAY < calls[j].now
    ensures NoDuplicates(AskedBy(calls, j))
  {
    var before := calls[..j];
    var last := RecordIsLastAsked(before, key);
    OneCall(RecordAfter(before), calls[j].missing, calls[j].now, key);
    forall i | 0 <= i < j ensures AskedBy(before, i) == AskedBy(calls, i) {
      assert before[..i] == calls[..i];
    }
    if last >= 0 {
      assert key in AskedBy(calls, last);
    }
  }
}
