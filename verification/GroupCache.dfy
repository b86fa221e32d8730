/**
  The cached member list of a group, kept up to date by change notifications: a join is appended
  unless it is listed already, a leave overwrites its first occurrence with the last member and drops
  the last slot.
 */
module GroupCache {
  import opened Prelude

  type Jid = string

  // ---------- one change ----------

  function AddIfAbsent(members: seq<Jid>, jid: Jid): seq<Jid> {
    if jid in members then members else members + [jid]
  }

  function Joined(members: seq<Jid>, join: seq<Jid>): seq<Jid> {
    if join == [] then members
    else AddIfAbsent(Joined(members, join[..|join| - 1]), join[|join| - 1])
  }

  /** The first occurrence, or the length when there is none. */
  function IndexOf(members: seq<Jid>, jid: Jid): (i: nat)
    ensures i <= |members| && (i < |members| ==> members[i] == jid)
    ensures forall k | 0 <= k < i :: members[k] != jid
  {
    if members == [] || members[0] == jid then 0 else 1 + IndexOf(members[1..], jid)
  }

  function SwapRemove(members: seq<Jid>, jid: Jid): seq<Jid> {
    var i := IndexOf(members, jid);
    if i == |members| then members
    else members[i := members[|members| - 1]][..|members| - 1]
  }

  function Left(members: seq<Jid>, leave: seq<Jid>): seq<Jid> {
    if leave == [] then members
    else SwapRemove(Left(members, leave[..|leave| - 1]), leave[|leave| - 1])
  }

  function Changed(members: seq<Jid>, join: seq<Jid>, leave: seq<Jid>): seq<Jid> {
    Left(Joined(members, join), leave)
  }

  class GroupMeta {
    var members: seq<Jid>

    constructor (members: seq<Jid>)
      ensures this.members == members
    {
      this.members := members;
    }

    /** The search of the inner loops. */
    method Find(jid: Jid) returns (i: nat)
      ensures i == IndexOf(members, jid)
    {
      i := 0;
      while i < |members| && members[i] != jid
        invariant i <= |members| && forall k | 0 <= k < i :: members[k] != jid
      {
        i := i + 1;
      }
    }

    method Join(join: seq<Jid>)
      modifies this
      ensures members == Joined(old(members), join)
    {
      for k := 0 to |join|
        invariant members == Joined(old(members), join[..k])
      {
        assert join[..k + 1][..k] == join[..k];
        var i := Find(join[k]);
        if i == |members| {
          members := members + [join[k]];
        }
      }
      assert join[..|join|] == join;
    }

    method Leave(leave: seq<Jid>)
      modifies this
      ensures members == Left(old(members), leave)
    {
      for k := 0 to |leave|
        invariant members == Left(old(members), leave[..k])
      {
        assert leave[..k + 1][..k] == leave[..k];
        var i := Find(leave[k]);
        if i < |members| {
          members := members[i := members[|members| - 1]];
          members := members[..|members| - 1];
        }
      }
      assert leave[..|leave|] == leave;
    }
  }

  class Client {
    var groupCache: map<Jid, GroupMeta>

    constructor ()
      ensures groupCache == map[]
    {
      groupCache := map[];
    }

    /** No two groups share an object. */
    ghost predicate Valid()
      reads this
    {
      forall g, h | g in groupCache && h in groupCache && g != h :: groupCache[g] != groupCache[h]
    }

    ghost function Cached(): map<Jid, seq<Jid>>
      reads this, groupCache.Values
    {
      map g | g in groupCache :: groupCache[g].members
    }

    method CacheGroupInfo(group: Jid, participants: seq<Jid>)
      requires Valid()
      modifies this
      ensures Valid() && Cached() == Apply(old(Cached()), Cache(group, participants))
    {
      var meta := new GroupMeta(participants);
      groupCache := groupCache[group := meta];
    }

    method UpdateGroupParticipantCache(group: Jid, join: seq<Jid>, leave: seq<Jid>)
      requires Valid()
      modifies groupCache.Values
      ensures Cached() == Apply(old(Cached()), Change(group, join, leave))
    {
      if |join| == 0 && |leave| == 0 {
        assert forall g <- groupCache :: Changed(groupCache[g].members, join, leave) == groupCache[g].members;
        return;
      }
      if group !in groupCache {
        return;
      }
      groupCache[group].Join(join);
      groupCache[group].Leave(leave);
    }
  }

  // ---------- what a change comes to ----------

  predicate NoDuplicates(members: seq<Jid>) {
    forall i, j | 0 <= i < j < |members| :: members[i] != members[j]
  }

  function SetOf(members: seq<Jid>): set<Jid> {
    set j | j in members
  }

  lemma {:induction false} JoinedIs(members: seq<Jid>, join: seq<Jid>)
    ensures SetOf(Joined(members, join)) == SetOf(members) + SetOf(join)
    ensures NoDuplicates(members) ==> NoDuplicates(Joined(members, join))
  {
    if join != [] {
      var front, last := join[..|join| - 1], join[|join| - 1];
      JoinedIs(members, front);
      assert join == front + [last];
      assert SetOf(AddIfAbsent(Joined(members, front), last)) == SetOf(Joined(members, front)) + {last};
    } else {
      assert SetOf(join) == {};
    }
  }

  lemma SwapRemoveShape(a: seq<Jid>, jid: Jid, b: seq<Jid>)
    requires IndexOf(a + [jid] + b, jid) == |a|
    ensures SwapRemove(a + [jid] + b, jid) == if b == [] then a else a + [b[|b| - 1]] + b[..|b| - 1]
  {}

  lemma SwapRemoveParts(a: seq<Jid>, jid: Jid, b: seq<Jid>)
    ensures multiset(a + [jid] + b) - multiset{jid} == multiset(a) + multiset(b)
    ensures b != [] ==> multiset(a + [b[|b| - 1]] + b[..|b| - 1]) == multiset(a) + multiset(b)
  {
    if b != [] {
      assert b == b[..|b| - 1] + [b[|b| - 1]];
    }
  }

  /** Swap-remove takes out one occurrence, whichever list it starts from. */
  lemma SwapRemoveCount(members: seq<Jid>, jid: Jid)
    ensures multiset(SwapRemove(members, jid)) == multiset(members) - multiset{jid}
  {
    var i := IndexOf(members, jid);
    if i == |members| {
      assert jid !in members;
    } else {
      var a, b := members[..i], members[i + 1..];
      assert members == a + [jid] + b;
      SwapRemoveShape(a, jid, b);
      SwapRemoveParts(a, jid, b);
    }
  }

  lemma MinusTwice<T>(a: multiset<T>, b: multiset<T>, c: multiset<T>)
    ensures a - b - c == a - (b + c)
  {}

  lemma LeaveOneMore(members: seq<Jid>, front: seq<Jid>, last: Jid)
    requires multiset(Left(members, front)) == multiset(members) - multiset(front)
    ensures multiset(SwapRemove(Left(members, front), last)) == multiset(members) - multiset(front + [last])
  {
    SwapRemoveCount(Left(members, front), last);
    MinusTwice(multiset(members), multiset(front), multiset{last});
  }

  /** For any list at all: each leave takes out one occurrence, if there is one left. */
  lemma {:induction false} LeftCount(members: seq<Jid>, leave: seq<Jid>)
    ensures multiset(Left(members, leave)) == multiset(members) - multiset(leave)
  {
    if leave != [] {
      var front, last := leave[..|leave| - 1], leave[|leave| - 1];
      LeftCount(members, front);
      LeaveOneMore(members, front, last);
      assert leave == front + [last];
    }
  }

  lemma {:induction false} DuplicateFreeCounts(members: seq<Jid>, j: Jid)
    requires NoDuplicates(members)
    ensures multiset(members)[j] <= 1
  {
    if members != [] {
      var front, last := members[..|members| - 1], members[|members| - 1];
      assert members == front + [last];
      DuplicateFreeCounts(front, j);
      assert last !in front;
    }
  }

  lemma {:induction false} CountsDuplicateFree(members: seq<Jid>)
    requires forall j :: multiset(members)[j] <= 1
    ensures NoDuplicates(members)
  {
    if members != [] {
      var front, last := members[..|members| - 1], members[|members| - 1];
      assert members == front + [last];
      assert forall j :: multiset(front)[j] <= multiset(members)[j];
      CountsDuplicateFree(front);
      assert multiset(members)[last] == multiset(front)[last] + 1;
      assert last !in multiset(front);
    }
  }

  /** A duplicate-free list stays so and, as a set, is (members and joins) without the leaves. */
  lemma ChangedIs(members: seq<Jid>, join: seq<Jid>, leave: seq<Jid>)
    requires NoDuplicates(members)
    ensures NoDuplicates(Changed(members, join, leave))
    ensures SetOf(Changed(members, join, leave)) == SetOf(members) + SetOf(join) - SetOf(leave)
  {
    var joined := Joined(members, join);
    JoinedIs(members, join);
    LeftCount(joined, leave);
    forall j ensures multiset(joined)[j] <= 1 { DuplicateFreeCounts(joined, j); }
    CountsDuplicateFree(Left(joined, leave));
    forall j ensures j in Left(joined, leave) <==> j in joined && j !in leave {
      assert j in Left(joined, leave) <==> j in multiset(Left(joined, leave));
    }
  }

  /**
    From any list: a leaving member is gone exactly when it is listed no more often than it leaves,
    so a list with duplicates can keep a member that left.
   */
  lemma LeaverIsGoneExactly(members: seq<Jid>, join: seq<Jid>, leave: seq<Jid>, jid: Jid)
    ensures jid in Changed(members, join, leave)
       <==> multiset(leave)[jid] < multiset(Joined(members, join))[jid]
  {
    LeftCount(Joined(members, join), leave);
    assert jid in Changed(members, join, leave) <==> jid in multiset(Changed(members, join, leave));
  }

  // ---------- runs ----------

  datatype Event =
    | Cache(group: Jid, participants: seq<Jid>)
    | Change(group: Jid, join: seq<Jid>, leave: seq<Jid>)

  function Apply(cache: map<Jid, seq<Jid>>, e: Event): map<Jid, seq<Jid>> {
    match e
    case Cache(g, participants) => cache[g := participants]
    case Change(g, join, leave) => if g in cache then cache[g := Changed(cache[g], join, leave)] else cache
  }

  function Run(cache: map<Jid, seq<Jid>>, events: seq<Event>): map<Jid, seq<Jid>> {
    if events == [] then cache
    else Apply(Run(cache, events[..|events| - 1]), events[|events| - 1])
  }

  /** The members of a group as a set, by the events alone. */
  function Members(before: Option<set<Jid>>, g: Jid, events: seq<Event>): Option<set<Jid>> {
    if events == [] then before
    else
      var members := Members(before, g, events[..|events| - 1]);
      match events[|events| - 1]
      case Cache(h, participants) => if h == g then Some(SetOf(participants)) else members
      case Change(h, join, leave) =>
        if h == g && members.Some? then Some(members.value + SetOf(join) - SetOf(leave)) else members
  }

  function AsSet(cache: map<Jid, seq<Jid>>, g: Jid): Option<set<Jid>> {
    if g in cache then Some(SetOf(cache[g])) else None
  }

  ghost predicate AllDuplicateFree(cache: map<Jid, seq<Jid>>) {
    forall g <- cache :: NoDuplicates(cache[g])
  }

  /**
    Over any run of events, with whatever duplicates and overlaps in the joins and leaves, every
    cached list stays duplicate-free and is the set that the events describe.
   */
  lemma {:induction false} CacheFollowsEvents(cache: map<Jid, seq<Jid>>, events: seq<Event>, g: Jid)
    requires AllDuplicateFree(cache)
    requires forall e <- events :: e.Cache? ==> NoDuplicates(e.participants)
    ensures AllDuplicateFree(Run(cache, events))
    ensures AsSet(Run(cache, events), g) == Members(AsSet(cache, g), g, events)
  {
    if events != [] {
      var front, e := events[..|events| - 1], events[|events| - 1];
      CacheFollowsEvents(cache, front, g);
      assert e in events;
      var was := Run(cache, front);
      if e.Change? && e.group in was {
        ChangedIs(was[e.group], e.join, e.leave);
      }
    }
  }
}
