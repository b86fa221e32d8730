/**
  The cached device lists and the notifications that change them.  A cache entry is a slice header
  over an array; appending writes into spare room of the same array, deleting moves elements down
  in place and clears the tail, so a header that was stored earlier can have its array shifted
  underneath it.  The arrays are real arrays here, so that this can be told.
 */
module DeviceCache {
  import opened Prelude

  /** A user at a server, and one of its devices. */
  datatype Jid = Jid(user: string, server: string, device: nat)

  // types.EmptyJID, which a cleared slot holds
  const EMPTY: Jid := Jid("", "", 0)

  function ToNonAD(j: Jid): Jid {
    j.(device := 0)
  }

  /** JID.IsEmpty looks at the server only. */
  predicate IsEmpty(j: Jid) {
    j.server == ""
  }

  datatype Entry = Entry(devices: array<Jid>, len: nat, dhash: string)

  /** What a reader of the cache sees in an entry. */
  datatype Devices = Devices(list: seq<Jid>, dhash: string)

  datatype Tag = Add | Remove | Update | Unknown

  /** A child of a device notification; an absent device_lid_hash reads as "". */
  datatype Child = Child(tag: Tag, hash: string, lidHash: string, jid: Jid, lid: Option<Jid>)

  // ---------- slices ----------

  predicate Fits(e: Entry) {
    e.len <= e.devices.Length
  }

  function List(e: Entry): seq<Jid>
    requires Fits(e)
    reads e.devices
  {
    e.devices[..e.len]
  }

  function Without(list: seq<Jid>, jid: Jid): (r: seq<Jid>)
    ensures |r| <= |list|
  {
    if list == [] then []
    else
      var front, last := Without(list[..|list| - 1], jid), list[|list| - 1];
      if last == jid then front else front + [last]
  }

  function Cleared(n: nat): (r: seq<Jid>)
    ensures |r| == n
  {
    seq(n, _ => EMPTY)
  }

  /** append: in place while there is room, else into a larger array. */
  method Append(e: Entry, jid: Jid) returns (r: Entry)
    requires Fits(e)
    modifies e.devices
    ensures Fits(r) && List(r) == old(List(e)) + [jid] && r.dhash == e.dhash
    ensures if e.len < e.devices.Length then r.devices == e.devices else fresh(r.devices)
    ensures forall k | 0 <= k < e.devices.Length && k != e.len :: e.devices[k] == old(e.devices[k])
  {
    if e.len < e.devices.Length {
      e.devices[e.len] := jid;
      return Entry(e.devices, e.len + 1, e.dhash);
    }
    var larger := new Jid[2 * e.len + 1];
    for i := 0 to e.len
      invariant larger[..i] == e.devices[..i]
      invariant e.devices[..] == old(e.devices[..])
    {
      larger[i] := e.devices[i];
    }
    larger[e.len] := jid;
    return Entry(larger, e.len + 1, e.dhash);
  }

  /** Moves the elements other than `jid` to the front, in order. */
  method Compact(a: array<Jid>, len: nat, jid: Jid) returns (n: nat)
    requires len <= a.Length
    modifies a
    ensures n <= len && a[..n] == Without(old(a[..len]), jid)
    ensures forall k | len <= k < a.Length :: a[k] == old(a[k])
  {
    ghost var was := a[..len];
    n := 0;
    for i := 0 to len
      invariant n <= i && a[..n] == Without(was[..i], jid)
      invariant forall k | n <= k < len :: a[k] == was[k]
      invariant forall k | len <= k < a.Length :: a[k] == old(a[k])
    {
      assert was[..i + 1][..i] == was[..i];
      if a[i] != jid {
        a[n] := a[i];
        n := n + 1;
      }
    }
    assert was[..len] == was;
  }

  method Clear(a: array<Jid>, from: nat, to: nat)
    requires from <= to <= a.Length
    modifies a
    ensures a[..to] == old(a[..from]) + Cleared(to - from)
    ensures forall k | to <= k < a.Length :: a[k] == old(a[k])
  {
    for i := from to to
      invariant forall k | 0 <= k < from :: a[k] == old(a[k])
      invariant forall k | from <= k < i :: a[k] == EMPTY
      invariant forall k | to <= k < a.Length :: a[k] == old(a[k])
    {
      a[i] := EMPTY;
    }
  }

  /** slices.DeleteFunc with equality: keeps the others in order, clears the slots that fall free. */
  method Delete(e: Entry, jid: Jid) returns (r: Entry)
    requires Fits(e)
    modifies e.devices
    ensures Fits(r) && r.devices == e.devices && r.dhash == e.dhash
    ensures List(r) == Without(old(List(e)), jid)
    ensures e.devices[..e.len] == List(r) + Cleared(e.len - r.len)
    ensures forall k | e.len <= k < e.devices.Length :: e.devices[k] == old(e.devices[k])
  {
    var n := Compact(e.devices, e.len, jid);
    Clear(e.devices, n, e.len);
    r := Entry(e.devices, n, e.dhash);
    assert e.devices[..n] == e.devices[..e.len][..n];
  }

  // ---------- the phone-number entry, on values ----------

  predicate Changes(c: Child) {
    c.tag.Add? || c.tag.Remove?
  }

  function Folded(list: seq<Jid>, tag: Tag, jid: Jid): seq<Jid> {
    match tag
    case Add => list + [jid]
    case Remove => Without(list, jid)
    case Update => list
    case Unknown => list
  }

  /** The device list after the children so far, whether or not the cache still has an entry. */
  function FoldAll(list: seq<Jid>, children: seq<Child>): seq<Jid> {
    if children == [] then list
    else
      var last := children[|children| - 1];
      Folded(FoldAll(list, children[..|children| - 1]), last.tag, last.jid)
  }

  /** The cached list after the children. */
  function PnEntry(hash: seq<Jid> -> string, list: seq<Jid>, children: seq<Child>): Option<seq<Jid>> {
    if children == [] then Some(list)
    else
      var last := children[|children| - 1];
      var folded := FoldAll(list, children);
      if Changes(last) then (if hash(folded) == last.hash then Some(folded) else None)
      else if last.tag.Update? then None
      else PnEntry(hash, list, children[..|children| - 1])
  }

  // ---------- the LID entry, on values ----------

  function LidFolded(list: seq<Jid>, child: Child): seq<Jid> {
    if Changes(child) && child.lid.Some? then Folded(list, child.tag, child.lid.value) else list
  }

  function FoldLids(list: seq<Jid>, children: seq<Child>): seq<Jid> {
    if children == [] then list
    else
      LidFolded(FoldLids(list, children[..|children| - 1]), children[|children| - 1])
  }

  /** The LID entry is checked only by children that carry both a device LID and its hash. */
  predicate ChecksLid(c: Child) {
    Changes(c) && c.lid.Some? && c.lidHash != ""
  }

  /** A removal that shortens the LID list without a hash to check the result against. */
  predicate Unchecked(c: Child) {
    c.tag.Remove? && c.lid.Some? && c.lidHash == ""
  }

  function AsDevices(list: Option<seq<Jid>>, dhash: string): Option<Devices> {
    if list.Some? then Some(Devices(list.value, dhash)) else None
  }

  function ListOf(devices: Option<Devices>): Option<seq<Jid>> {
    if devices.Some? then Some(devices.value.list) else None
  }

  function LidEntry(hash: seq<Jid> -> string, cached: Option<seq<Jid>>, children: seq<Child>): Option<seq<Jid>> {
    if children == [] then cached
    else
      var last := children[|children| - 1];
      var folded := FoldLids(if cached.Some? then cached.value else [], children);
      if ChecksLid(last) then (if hash(folded) == last.lidHash then Some(folded) else None)
      else LidEntry(hash, cached, children[..|children| - 1])
  }

  /** The children after the last one that checked the LID entry. */
  function Suffix(children: seq<Child>): seq<Child> {
    if children == [] || ChecksLid(children[|children| - 1]) then []
    else Suffix(children[..|children| - 1]) + [children[|children| - 1]]
  }

  /** The first n slots of an array that holds a list and cleared slots behind it. */
  function Window(list: seq<Jid>, n: nat): (w: seq<Jid>)
    ensures |w| == n
  {
    if n <= |list| then list[..n] else list + Cleared(n - |list|)
  }

  /** The local LID list, whether the cached header still shares its array, and what that header shows. */
  datatype View = View(list: seq<Jid>, shared: bool, seen: seq<Jid>)

  /** An add beyond the capacity moves the local list away; anything else happens under the cached header. */
  function Moved(v: View, capacity: nat, tag: Tag, jid: Jid): View {
    var list := Folded(v.list, tag, jid);
    if !v.shared || (tag.Add? && |v.list| >= capacity) then View(list, false, v.seen)
    else View(list, true, Window(list, |v.seen|))
  }

  function LidMoved(v: View, capacity: nat, c: Child): View {
    if Changes(c) && c.lid.Some? then Moved(v, capacity, c.tag, c.lid.value) else v
  }

  /** What a stored LID list looks like after children that do not check it. */
  function LidView(list: seq<Jid>, capacity: nat, children: seq<Child>): View {
    if children == [] then View(list, true, list)
    else LidMoved(LidView(list, capacity, children[..|children| - 1]), capacity, children[|children| - 1])
  }

  lemma SuffixOf(front: seq<Child>, last: Child)
    ensures Suffix(front + [last]) == if ChecksLid(last) then [] else Suffix(front) + [last]
  {
    assert (front + [last])[..|front|] == front;
  }

  /** The two local lists and whether the cache has the two entries, after some children. */
  datatype Locals = Locals(pn: seq<Jid>, pnCached: bool, lid: View, lidCached: bool, base: seq<Jid>, capacity: nat)

  /** They are what the children say, from the lists at the start on. */
  ghost predicate Follows(hash: seq<Jid> -> string, list: seq<Jid>, lids: Option<seq<Jid>>, children: seq<Child>,
                          l: Locals)
  {
    && l.pn == FoldAll(list, children)
    && PnEntry(hash, list, children) == (if l.pnCached then Some(l.pn) else None)
    && l.lid == LidView(l.base, l.capacity, Suffix(children))
    && l.lid.list == FoldLids(if lids.Some? then lids.value else [], children)
    && LidEntry(hash, lids, children) == (if l.lidCached then Some(l.base) else None)
  }

  /** What one child makes of them; `known` is whether the notification names a LID to check. */
  ghost predicate OneStep(hash: seq<Jid> -> string, l: Locals, c: Child, l': Locals) {
    && l'.pn == Folded(l.pn, c.tag, c.jid)
    && (l'.pnCached <==> if Changes(c) then hash(l'.pn) == c.hash else l.pnCached && !c.tag.Update?)
    && l'.lid.list == LidFolded(l.lid.list, c)
    && if ChecksLid(c) then
         && l'.base == l'.lid.list && l'.lid == View(l'.base, true, l'.base)
         && (l'.lidCached <==> hash(l'.base) == c.lidHash)
       else
         && l'.base == l.base && l'.capacity == l.capacity && l'.lidCached == l.lidCached
         && l'.lid == LidMoved(l.lid, l.capacity, c)
  }

  lemma FollowsOneMore(hash: seq<Jid> -> string, list: seq<Jid>, lids: Option<seq<Jid>>, children: seq<Child>,
                       l: Locals, c: Child, l': Locals)
    requires Follows(hash, list, lids, children, l) && OneStep(hash, l, c, l')
    ensures Follows(hash, list, lids, children + [c], l')
  {
    var more := children + [c];
    assert more[..|more| - 1] == children;
    SuffixOf(children, c);
    if !ChecksLid(c) {
      var suffix := Suffix(children) + [c];
      assert suffix[..|suffix| - 1] == Suffix(children);
    }
  }

  lemma FollowsNext(hash: seq<Jid> -> string, list: seq<Jid>, lids: Option<seq<Jid>>, children: seq<Child>, i: nat,
                    l: Locals, l': Locals)
    requires i < |children| && Follows(hash, list, lids, children[..i], l) && OneStep(hash, l, children[i], l')
    ensures Follows(hash, list, lids, children[..i + 1], l')
  {
    FollowsOneMore(hash, list, lids, children[..i], l, children[i], l');
    assert children[..i + 1] == children[..i] + [children[i]];
  }

  // ---------- the local lists ----------

  ghost predicate Tracked(e: Entry, local: Entry, v: View)
    reads e.devices, local.devices
  {
    && Fits(e) && Fits(local)
    && v.list == List(local) && v.seen == List(e) && (v.shared <==> e.devices == local.devices)
    && (v.shared ==> v.seen == Window(v.list, |v.seen|))
  }

  method Change(e: Entry, tag: Tag, jid: Jid) returns (r: Entry)
    requires Fits(e) && (tag.Add? || tag.Remove?)
    modifies e.devices
    ensures Fits(r) && List(r) == Folded(old(List(e)), tag, jid) && r.dhash == e.dhash
    ensures if tag.Add? && e.len >= e.devices.Length then fresh(r.devices) else r.devices == e.devices
    ensures tag.Add? ==> forall k | 0 <= k < e.devices.Length && k != e.len :: e.devices[k] == old(e.devices[k])
    ensures tag.Remove? ==> e.devices[..e.len] == List(r) + Cleared(e.len - r.len)
    ensures tag.Remove? ==> forall k | e.len <= k < e.devices.Length :: e.devices[k] == old(e.devices[k])
  {
    if tag.Add? {
      r := Append(e, jid);
    } else {
      r := Delete(e, jid);
    }
  }

  /** A change of the local LID list, and what it does to a header stored earlier. */
  method ChangeLid(local: Entry, tag: Tag, jid: Jid, ghost e: Entry, ghost v: View) returns (r: Entry)
    requires Tracked(e, local, v) && (tag.Add? || tag.Remove?)
    modifies local.devices
    ensures Fits(r) && List(r) == Folded(old(List(local)), tag, jid) && r.dhash == local.dhash
    ensures r.devices == local.devices || fresh(r.devices)
    ensures Tracked(e, r, Moved(v, e.devices.Length, tag, jid))
  {
    r := Change(local, tag, jid);
    ghost var w := Moved(v, e.devices.Length, tag, jid);
    if v.shared {
      forall k | 0 <= k < e.len ensures e.devices[k] == w.seen[k] {
        if tag.Remove? && k < local.len {
          assert e.devices[k] == local.devices[..local.len][k];
        } else if k < local.len {
          assert old(e.devices[k]) == old(List(local))[k];
        }
        assert old(e.devices[k]) == v.seen[k];
      }
    }
  }

  method ChangeLists(cached: Entry, cachedLid: Entry, child: Child, ghost e: Entry, ghost v: View)
    returns (cached': Entry, cachedLid': Entry)
    requires Fits(cached) && Tracked(e, cachedLid, v)
    requires cached.devices != cachedLid.devices && cached.devices != e.devices
    modifies cached.devices, cachedLid.devices
    ensures Fits(cached') && cached'.devices != cachedLid'.devices && cached'.devices != e.devices
    ensures cached'.devices == cached.devices || fresh(cached'.devices)
    ensures cachedLid'.devices == cachedLid.devices || fresh(cachedLid'.devices)
    ensures cached'.dhash == cached.dhash && cachedLid'.dhash == cachedLid.dhash
    ensures List(cached') == Folded(old(List(cached)), child.tag, child.jid)
    ensures !Changes(child) ==> cached' == cached
    ensures Tracked(e, cachedLid', LidMoved(v, e.devices.Length, child))
  {
    cached', cachedLid' := cached, cachedLid;
    if Changes(child) {
      cached' := Change(cached, child.tag, child.jid);
      if child.lid.Some? {
        cachedLid' := ChangeLid(cachedLid, child.tag, child.lid.value, e, v);
      }
    }
  }

  // ---------- the client ----------

  class Client {
    const hash: seq<Jid> -> string
    var cache: map<Jid, Entry>

    constructor (hash: seq<Jid> -> string)
      ensures this.hash == hash && cache == map[] && Valid()
    {
      this.hash := hash;
      cache := map[];
    }

    /** Every header fits its array, and no two entries share one. */
    ghost predicate Valid()
      reads this
    {
      && (forall j <- cache :: Fits(cache[j]))
      && (forall j, k | j in cache && k in cache && j != k :: cache[j].devices != cache[k].devices)
    }

    function Arrays(j: Jid): set<object>
      reads this
    {
      if j in cache then {cache[j].devices} else {}
    }

    /** What looking the user up gives. */
    function Lookup(j: Jid): Option<Devices>
      requires j in cache ==> Fits(cache[j])
      reads this, Arrays(j)
    {
      if j in cache then Some(Devices(List(cache[j]), cache[j].dhash)) else None
    }

    /** Keeps the changed list when its hash is the announced one, and drops the entry otherwise. */
    method Check(j: Jid, e: Entry, expected: string)
      requires Fits(e)
      modifies this
      ensures cache == if hash(List(e)) == expected then old(cache)[j := e] else old(cache) - {j}
    {
      if hash(List(e)) == expected {
        cache := cache[j := e];
      } else {
        cache := cache - {j};
      }
    }

    /** The local header of `j` is shared with no other entry. */
    ghost predicate Owns(j: Option<Jid>, e: Entry)
      reads this
    {
      Fits(e) && forall k | k in cache && Some(k) != j :: cache[k].devices != e.devices
    }

    /** The local lists and the cache share arrays only key by key. */
    ghost predicate Separate(from: Jid, lid: Option<Jid>, cached: Entry, cachedLid: Entry)
      reads this
    {
      && Valid() && lid != Some(from)
      && Owns(Some(from), cached) && Owns(lid, cachedLid) && cached.devices != cachedLid.devices
    }

    /** The two hash checks after an add or a remove; a drop of the entry after an update. */
    method Settle(from: Jid, lid: Option<Jid>, cached: Entry, cachedLid: Entry, child: Child)
      requires Separate(from, lid, cached, cachedLid)
      requires !Changes(child) && from in cache ==> cache[from] == cached
      modifies this
      ensures Separate(from, lid, cached, cachedLid)
      ensures from in cache ==> cache[from] == cached
      ensures from in cache <==> if Changes(child) then hash(List(cached)) == child.hash
                                 else from in old(cache) && !child.tag.Update?
      ensures forall j | j != from && Some(j) != lid :: j in cache <==> j in old(cache)
      ensures forall j | j != from && Some(j) != lid && j in cache :: cache[j] == old(cache[j])
      ensures lid.Some? && ChecksLid(child) ==> (lid.value in cache <==> hash(List(cachedLid)) == child.lidHash)
      ensures lid.Some? && ChecksLid(child) && lid.value in cache ==> cache[lid.value] == cachedLid
      ensures lid.Some? && !ChecksLid(child) ==>
        && (lid.value in cache <==> lid.value in old(cache))
        && (lid.value in cache ==> cache[lid.value] == old(cache[lid.value]))
    {
      if Changes(child) {
        Check(from, cached, child.hash);
        if lid.Some? && child.lid.Some? && child.lidHash != "" {
          Check(lid.value, cachedLid, child.lidHash);
        }
      } else if child.tag.Update? {
        cache := cache - {from};
      }
    }

    /**
      One child.  The header `e` is the stored LID entry, if there is one, and `v` what it shows over
      the array that the local list may share with it.
     */
    method HandleChild(from: Jid, lid: Option<Jid>, cached: Entry, cachedLid: Entry, child: Child,
                       ghost e: Entry, ghost v: View)
      returns (cached': Entry, cachedLid': Entry, ghost e': Entry, ghost v': View)
      requires Separate(from, lid, cached, cachedLid) && (from in cache ==> cache[from] == cached)
      requires Tracked(e, cachedLid, v) && e.devices != cached.devices && e.dhash == cachedLid.dhash
      requires lid.Some? && lid.value in cache ==> cache[lid.value] == e
      modifies this, cached.devices, cachedLid.devices
      ensures Separate(from, lid, cached', cachedLid') && (from in cache ==> cache[from] == cached')
      ensures Tracked(e', cachedLid', v') && e'.devices != cached'.devices && e'.dhash == cachedLid'.dhash
      ensures lid.Some? && lid.value in cache ==> cache[lid.value] == e'
      ensures from in cache <==> if Changes(child) then hash(List(cached')) == child.hash
                                 else from in old(cache) && !child.tag.Update?
      ensures forall j | j != from && Some(j) != lid :: j in cache <==> j in old(cache)
      ensures forall j | j != from && Some(j) != lid && j in cache :: cache[j] == old(cache[j])
      ensures cached'.devices == cached.devices || fresh(cached'.devices)
      ensures cachedLid'.devices == cachedLid.devices || fresh(cachedLid'.devices)
      ensures cached'.dhash == cached.dhash && cachedLid'.dhash == cachedLid.dhash
      ensures List(cached') == Folded(old(List(cached)), child.tag, child.jid)
      ensures v'.list == LidFolded(v.list, child)
      ensures ChecksLid(child) ==> v' == View(v'.list, true, v'.list)
      ensures ChecksLid(child) && lid.Some? ==> (lid.value in cache <==> hash(v'.list) == child.lidHash)
      ensures !ChecksLid(child) ==> e' == e && v' == LidMoved(v, e.devices.Length, child)
      ensures !ChecksLid(child) && lid.Some? ==> (lid.value in cache <==> lid.value in old(cache))
    {
      cached', cachedLid' := ChangeLists(cached, cachedLid, child, e, v);
      e', v' := e, LidMoved(v, e.devices.Length, child);
      Settle(from, lid, cached', cachedLid', child);
      if ChecksLid(child) {
        e', v' := cachedLid', View(v'.list, true, v'.list);
      }
    }

    /** The loop over the children of a notification for a cached user. */
    method HandleChildren(from: Jid, lid: Option<Jid>, cached: Entry, cachedLid: Entry, children: seq<Child>)
      requires Separate(from, lid, cached, cachedLid) && from in cache && cache[from] == cached
      requires lid.Some? ==> if lid.value in cache then cache[lid.value] == cachedLid else cachedLid.len == 0
      modifies this, cached.devices, cachedLid.devices
      ensures Valid()
      ensures forall j | j != from && Some(j) != lid :: j in cache <==> j in old(cache)
      ensures forall j | j != from && Some(j) != lid && j in cache :: cache[j] == old(cache[j])
      ensures Lookup(from) == AsDevices(PnEntry(hash, old(List(cached)), children), cached.dhash)
      ensures lid.Some? ==>
        LidShows(lid.value, LidEntry(hash, ListOf(old(Lookup(lid.value))), children), cachedLid.dhash, children)
    {
      ghost var cache0, list0, lids0 := cache, List(cached), List(cachedLid);
      ghost var lid0 := if lid.Some? then ListOf(Lookup(lid.value)) else Some(lids0);
      var pn, ln := cached, cachedLid;
      ghost var e := cachedLid;
      ghost var l := Locals(list0, true, View(lids0, true, lids0), lid0.Some?, lids0, e.devices.Length);
      assert children[..0] == [];
      for i := 0 to |children|
        invariant Separate(from, lid, pn, ln) && (from in cache ==> cache[from] == pn)
        invariant Tracked(e, ln, l.lid) && e.devices != pn.devices && e.dhash == ln.dhash == cachedLid.dhash
        invariant lid.Some? && lid.value in cache ==> cache[lid.value] == e
        invariant forall j | j != from && Some(j) != lid :: j in cache <==> j in cache0
        invariant forall j | j != from && Some(j) != lid && j in cache :: cache[j] == cache0[j]
        invariant pn.devices == cached.devices || fresh(pn.devices)
        invariant ln.devices == cachedLid.devices || fresh(ln.devices)
        invariant pn.dhash == cached.dhash
        invariant l.pn == List(pn) && l.pnCached == (from in cache) && l.capacity == e.devices.Length
        invariant lid.Some? ==> l.lidCached == (lid.value in cache)
        invariant Follows(hash, list0, lid0, children[..i], l)
      {
        ghost var v, known := l.lid, l.lidCached;
        var child := children[i];
        pn, ln, e, v := HandleChild(from, lid, pn, ln, child, e, v);
        if ChecksLid(child) {
          known := hash(v.list) == child.lidHash;
        }
        ghost var l' := Locals(List(pn), from in cache, v, known, if ChecksLid(child) then v.list else l.base,
                               e.devices.Length);
        FollowsNext(hash, list0, lid0, children, i, l, l');
        l := l';
      }
      assert children[..|children|] == children;
    }

    /** The LID entry holds the given list, as its header shows it after the unchecked children. */
    ghost predicate LidShows(lid: Jid, list: Option<seq<Jid>>, dhash: string, children: seq<Child>)
      requires lid in cache ==> Fits(cache[lid])
      reads this, Arrays(lid)
    {
      if list.None? then Lookup(lid) == None
      else lid in cache && Lookup(lid) == Some(Devices(
             LidView(list.value, cache[lid].devices.Length, Suffix(children)).seen, dhash))
    }

    method HandleDeviceNotification(from: Jid, lid: Option<Jid>, children: seq<Child>)
      requires Valid() && lid != Some(from)
      modifies this, Arrays(from), if lid.Some? then Arrays(lid.value) else {}
      ensures Valid()
      ensures forall j | j != from && Some(j) != lid :: Lookup(j) == old(Lookup(j))
      ensures old(Lookup(from)).None? ==> forall j :: Lookup(j) == old(Lookup(j))
      ensures old(Lookup(from)).Some? ==>
        var was := old(Lookup(from)).value;
        Lookup(from) == AsDevices(PnEntry(hash, was.list, children), was.dhash)
      ensures old(Lookup(from)).Some? && lid.Some? ==>
        var was := old(Lookup(lid.value));
        LidShows(lid.value, LidEntry(hash, ListOf(was), children), if was.Some? then was.value.dhash else "", children)
    {
      if from !in cache {
        return;
      }
      var cachedLid: Entry;
      if lid.Some? && lid.value in cache {
        cachedLid := cache[lid.value];
      } else {
        var none := new Jid[0];
        cachedLid := Entry(none, 0, "");
      }
      HandleChildren(from, lid, cache[from], cachedLid, children);
    }

    method FromList(list: seq<Jid>, dhash: string) returns (e: Entry)
      ensures Fits(e) && List(e) == list && e.dhash == dhash && fresh(e.devices)
    {
      var a := new Jid[|list|](i requires 0 <= i < |list| => list[i]);
      assert a[..|list|] == list;
      return Entry(a, |list|, dhash);
    }

    /** A new entry over an array of its own. */
    method Replace(j: Jid, list: seq<Jid>, dhash: string)
      requires Valid()
      modifies this
      ensures Valid() && Lookup(j) == Some(Devices(list, dhash))
      ensures forall k | k != j :: Lookup(k) == old(Lookup(k))
    {
      var e := FromList(list, dhash);
      cache := cache[j := e];
    }

    method OwnLists(children: seq<OwnChild>, alt: Jid) returns (list: seq<Jid>, altList: seq<Jid>)
      ensures list == OwnList(children) && altList == OnUser(list, alt)
    {
      list, altList := [], [];
      for i := 0 to |children|
        invariant list == OwnList(children[..i]) && altList == OnUser(list, alt)
      {
        assert children[..i + 1][..i] == children[..i];
        if children[i].isDevice && !IsEmpty(children[i].jid) {
          list := list + [children[i].jid];
          altList := altList + [alt.(device := children[i].jid.device)];
        }
      }
      assert children[..|children|] == children;
    }

    /**
      `ownId` and `ownLid` are without a device.  A list whose hash is not the announced one drops
      both own entries; otherwise both are replaced, each with the hash of its own list.
     */
    method HandleOwnDevicesNotification(ownId: Jid, ownLid: Jid, fromJid: Jid, dhash: string, children: seq<OwnChild>)
      requires Valid() && ownId == ToNonAD(ownId) && ownLid == ToNonAD(ownLid)
      modifies this
      ensures Valid()
      ensures var from, list := ToNonAD(fromJid), OwnList(children);
        if IsEmpty(ownId) || (from != ownId && from != ownLid) then cache == old(cache)
        else if hash(list) != dhash then cache == old(cache) - {ownId, ownLid}
        else
          var alt := if from == ownId then ownLid else ownId;
          && Lookup(alt) == Some(Devices(OnUser(list, alt), hash(OnUser(list, alt))))
          && (from != alt ==> Lookup(from) == Some(Devices(list, hash(list))))
          && forall j | j != from && j != alt :: Lookup(j) == old(Lookup(j))
    {
      if IsEmpty(ownId) {
        return;
      }
      var from, alt := ToNonAD(fromJid), ownId;
      if from == ownId {
        alt := ownLid;
      } else if from != ownLid {
        return;
      }
      var list, altList := OwnLists(children, alt);
      if hash(list) != dhash {
        cache := cache - {ownId, ownLid};
      } else {
        Replace(from, list, dhash);
        Replace(alt, altList, hash(altList));
      }
    }
  }

  // ---------- what the notifications come to ----------

  /**
    The last child that is an add, a remove or an update decides the phone-number entry: an update
    drops it, anything else keeps the folded list exactly when it hashes to the announced hash.
   */
  lemma {:induction false} LastChildDecides(hash: seq<Jid> -> string, list: seq<Jid>, children: seq<Child>, k: nat)
    requires k < |children| && !children[k].tag.Unknown?
    requires forall i | k < i < |children| :: children[i].tag.Unknown?
    ensures var folded := FoldAll(list, children);
      PnEntry(hash, list, children)
      == if Changes(children[k]) && hash(folded) == children[k].hash then Some(folded) else None
  {
    var n := |children| - 1;
    if k < n {
      LastChildDecides(hash, list, children[..n], k);
    }
  }

  lemma {:induction false} UnknownChildrenDecideNothing(hash: seq<Jid> -> string, list: seq<Jid>, children: seq<Child>)
    requires forall c <- children :: c.tag.Unknown?
    ensures PnEntry(hash, list, children) == Some(list)
  {
    if children != [] {
      assert children[|children| - 1] in children;
      UnknownChildrenDecideNothing(hash, list, children[..|children| - 1]);
    }
  }

  /** Hashing sorts the devices first, so equal hashes stand for equal lists up to order. */
  ghost predicate HashesDevices(hash: seq<Jid> -> string) {
    forall a, b :: hash(a) == hash(b) ==> multiset(a) == multiset(b)
  }

  /** A phone-number entry that survives holds the devices that the server announced, and no others. */
  lemma KeptListIsTheServers(hash: seq<Jid> -> string, list: seq<Jid>, children: seq<Child>, k: nat, server: seq<Jid>)
    requires HashesDevices(hash)
    requires k < |children| && !children[k].tag.Unknown? && children[k].hash == hash(server)
    requires forall i | k < i < |children| :: children[i].tag.Unknown?
    ensures var entry := PnEntry(hash, list, children);
      entry.Some? ==> multiset(entry.value) == multiset(server)
  {
    LastChildDecides(hash, list, children, k);
  }

  lemma {:induction false} WithoutIs(list: seq<Jid>, jid: Jid, j: Jid)
    ensures j in Without(list, jid) <==> j in list && j != jid
  {
    if list != [] {
      assert list == list[..|list| - 1] + [list[|list| - 1]];
      WithoutIs(list[..|list| - 1], jid, j);
    }
  }

  /** A device is in the folded list exactly when the last child that adds or removes it adds it. */
  lemma {:induction false} FoldedDevices(list: seq<Jid>, children: seq<Child>, j: Jid)
    ensures j in FoldAll(list, children) <==> LastAdds(children, j, j in list)
  {
    if children != [] {
      var front, last := children[..|children| - 1], children[|children| - 1];
      FoldedDevices(list, front, j);
      WithoutIs(FoldAll(list, front), last.jid, j);
    }
  }

  predicate LastAdds(children: seq<Child>, j: Jid, before: bool) {
    if children == [] then before
    else
      var last := children[|children| - 1];
      if Changes(last) && last.jid == j then last.tag.Add? else LastAdds(children[..|children| - 1], j, before)
  }

  // ---------- when the LID entry is right ----------

  /** No child of the list checks the LID entry, so its device LIDs come without a hash. */
  predicate Loose(children: seq<Child>) {
    forall c <- children :: !ChecksLid(c)
  }

  lemma {:induction false} SuffixIsLoose(children: seq<Child>)
    ensures Loose(Suffix(children))
  {
    if children != [] && !ChecksLid(children[|children| - 1]) {
      SuffixIsLoose(children[..|children| - 1]);
    }
  }

  /** No unchecked removal names a device of the list. */
  predicate SparesList(list: seq<Jid>, children: seq<Child>) {
    forall c <- children :: Unchecked(c) ==> c.lid.value !in list
  }

  lemma {:induction false} WithoutKeepsFront(a: seq<Jid>, b: seq<Jid>, jid: Jid)
    requires jid !in a
    ensures a <= Without(a + b, jid)
  {
    if b == [] {
      assert a + b == a;
      WithoutAbsent(a, jid);
    } else {
      assert (a + b)[..|a + b| - 1] == a + b[..|b| - 1];
      WithoutKeepsFront(a, b[..|b| - 1], jid);
    }
  }

  lemma {:induction false} WithoutAbsent(a: seq<Jid>, jid: Jid)
    requires jid !in a
    ensures Without(a, jid) == a
  {
    if a != [] { WithoutAbsent(a[..|a| - 1], jid); }
  }

  /** Removals of other devices and adds, wherever they end up, leave the stored list as it shows. */
  lemma {:induction false} SparedListIsRight(list: seq<Jid>, capacity: nat, children: seq<Child>)
    requires Loose(children) && SparesList(list, children)
    ensures var v := LidView(list, capacity, children); v.seen == list && list <= v.list
  {
    if children != [] {
      var front, last := children[..|children| - 1], children[|children| - 1];
      assert last in children;
      SparedListIsRight(list, capacity, front);
      var v := LidView(list, capacity, front);
      if Unchecked(last) {
        assert v.list == list + v.list[|list|..];
        WithoutKeepsFront(list, v.list[|list|..], last.lid.value);
      }
    }
  }

  /** In particular when every removal with a device LID is checked. */
  lemma CheckedRemovalsAreRight(list: seq<Jid>, capacity: nat, children: seq<Child>)
    requires forall c <- children :: !Unchecked(c)
    ensures LidView(list, capacity, Suffix(children)).seen == list
  {
    SuffixIsLoose(children);
    SuffixIsPart(children);
    SparedListIsRight(list, capacity, Suffix(children));
  }

  lemma {:induction false} SuffixIsPart(children: seq<Child>)
    ensures forall c <- Suffix(children) :: c in children
  {
    if children != [] { SuffixIsPart(children[..|children| - 1]); }
  }

  predicate NoAdds(children: seq<Child>) {
    forall c <- children :: c.tag.Add? ==> c.lid.None?
  }

  /** Some unchecked child removes the device. */
  predicate Removes(children: seq<Child>, jid: Jid) {
    exists c <- children :: Unchecked(c) && c.lid.value == jid
  }

  lemma RemovesOf(front: seq<Child>, last: Child, jid: Jid)
    ensures Removes(front + [last], jid) <==> Removes(front, jid) || (Unchecked(last) && last.lid.value == jid)
  {
    if c :| c in front && Unchecked(c) && c.lid.value == jid {
      assert c in front + [last];
    }
    assert last in front + [last];
  }

  lemma RemovedByLast(folded: seq<Jid>, last: Child, jid: Jid)
    requires !ChecksLid(last) && (last.tag.Add? ==> last.lid.None?)
    ensures jid in LidFolded(folded, last) <==> jid in folded && !(Unchecked(last) && last.lid.value == jid)
  {
    if Unchecked(last) { WithoutIs(folded, last.lid.value, jid); }
  }

  lemma {:induction false} RemovedStayAway(list: seq<Jid>, children: seq<Child>, jid: Jid)
    requires Loose(children) && NoAdds(children)
    ensures jid in FoldLids(list, children) <==> jid in list && !Removes(children, jid)
  {
    if children != [] {
      var front, last := children[..|children| - 1], children[|children| - 1];
      assert children == front + [last] && last in children;
      RemovesOf(front, last, jid);
      RemovedStayAway(list, front, jid);
      RemovedByLast(FoldLids(list, front), last, jid);
    }
  }

  lemma {:induction false} NoAddsMovesNothing(list: seq<Jid>, capacity: nat, children: seq<Child>)
    requires NoAdds(children)
    ensures Kept(list, capacity, children) == children
  {
    if children != [] {
      assert children[|children| - 1] in children;
      NoAddsMovesNothing(list, capacity, children[..|children| - 1]);
    }
  }

  /** The children up to the first add that does not fit and moves the local list to an array of its own. */
  function Kept(list: seq<Jid>, capacity: nat, children: seq<Child>): (kept: seq<Child>)
    ensures |kept| <= |children|
  {
    if children == [] then []
    else
      var front, last := children[..|children| - 1], children[|children| - 1];
      var kept := Kept(list, capacity, front);
      if |kept| < |front| || (last.tag.Add? && last.lid.Some? && |FoldLids(list, front)| >= capacity) then kept
      else children
  }

  lemma {:induction false} KeptShows(list: seq<Jid>, capacity: nat, children: seq<Child>)
    ensures var v, kept := LidView(list, capacity, children), Kept(list, capacity, children);
      && v.list == FoldLids(list, children)
      && (v.shared <==> |kept| == |children|) && (v.shared ==> kept == children)
      && v.seen == Window(FoldLids(list, kept), |list|)
  {
    if children != [] { KeptShows(list, capacity, children[..|children| - 1]); }
  }

  /**
    Exactly when the stored LID list still shows after the last check, whatever the unchecked children
    add or remove: when it is the front of the list folded over those of them that work in its array.
   */
  lemma LidListIsRightExactly(list: seq<Jid>, capacity: nat, children: seq<Child>)
    requires EMPTY !in list
    ensures LidView(list, capacity, children).seen == list
            <==> list <= FoldLids(list, Kept(list, capacity, children))
  {
    var folded := FoldLids(list, Kept(list, capacity, children));
    KeptShows(list, capacity, children);
    if |folded| < |list| {
      assert Window(folded, |list|)[|folded|] == EMPTY;
      assert list[|folded|] in list;
    }
  }

  /** An unchecked removal need not leave a wrong entry: adding the last device again restores it. */
  lemma ReAddRestores(front: seq<Jid>, a: Jid, capacity: nat, out: Child, back: Child)
    requires a !in front && |front| < capacity
    requires Unchecked(out) && out.lid == Some(a) && back.tag.Add? && back.lid == Some(a)
    ensures !SparesList(front + [a], [out, back])
    ensures LidView(front + [a], capacity, [out, back]).seen == front + [a]
  {
    assert (front + [a])[..|front|] == front;
    WithoutAbsent(front, a);
    assert [out, back][..1] == [out] && [out][..0] == [];
    assert out in [out, back];
    assert LidView(front + [a], capacity, [out]).list == front;
  }

  /**
    As long as no unchecked child adds a device: when no unchecked removal names one of the devices.
    Otherwise that device is missing from the entry and the array is shifted underneath.
   */
  lemma LidListIsRightWithoutAdds(list: seq<Jid>, capacity: nat, children: seq<Child>)
    requires Loose(children) && NoAdds(children)
    requires forall c <- children :: Unchecked(c) ==> c.lid.value != EMPTY
    ensures LidView(list, capacity, children).seen == list <==> SparesList(list, children)
  {
    if SparesList(list, children) {
      SparedListIsRight(list, capacity, children);
    } else {
      var c :| c in children && Unchecked(c) && c.lid.value in list;
      assert Removes(children, c.lid.value);
      RemovedStayAway(list, children, c.lid.value);
      KeptShows(list, capacity, children);
      NoAddsMovesNothing(list, capacity, children);
      assert c.lid.value !in LidView(list, capacity, children).seen;
    }
  }

  lemma {:induction false} WithoutIsShorter(list: seq<Jid>, jid: Jid)
    requires jid in list
    ensures |Without(list, jid)| < |list|
  {
    var front, last := list[..|list| - 1], list[|list| - 1];
    assert list == front + [last];
    if last != jid { WithoutIsShorter(front, jid); }
  }

  /**
    An unchecked removal of a cached device leaves the LID entry with its old length over the shifted
    array: the device is gone from it and there is an empty JID at its end.
   */
  lemma ShiftedIsWrong(list: seq<Jid>, capacity: nat, c: Child)
    requires Unchecked(c) && c.lid.value in list && c.lid.value != EMPTY
    ensures var seen := LidView(list, capacity, [c]).seen;
      && |seen| == |list| && seen != list
      && c.lid.value !in seen && seen[|seen| - 1] == EMPTY
  {
    var kept := Without(list, c.lid.value);
    WithoutIs(list, c.lid.value, c.lid.value);
    WithoutIsShorter(list, c.lid.value);
    assert [c][..0] == [];
    assert LidView(list, capacity, [c]).seen == Window(kept, |list|);
  }

  /** A child that checks the LID list repairs it: what shows is the folded list or nothing. */
  lemma CheckRepairs(hash: seq<Jid> -> string, cached: Option<seq<Jid>>, children: seq<Child>, capacity: nat)
    requires children != [] && ChecksLid(children[|children| - 1])
    ensures var folded := FoldLids(if cached.Some? then cached.value else [], children);
      && LidEntry(hash, cached, children) ==
           (if hash(folded) == children[|children| - 1].lidHash then Some(folded) else None)
      && LidView(folded, capacity, Suffix(children)).seen == folded
  {}

  // ---------- own devices ----------

  datatype OwnChild = OwnChild(isDevice: bool, jid: Jid)

  function OwnList(children: seq<OwnChild>): seq<Jid> {
    if children == [] then []
    else
      var front, last := OwnList(children[..|children| - 1]), children[|children| - 1];
      if last.isDevice && !IsEmpty(last.jid) then front + [last.jid] else front
  }

  /** The own devices are those that the children name, in their order. */
  lemma {:induction false} OwnListJoins(a: seq<OwnChild>, b: seq<OwnChild>)
    ensures OwnList(a + b) == OwnList(a) + OwnList(b)
    ensures |b| == 1 ==> OwnList(b) == if b[0].isDevice && b[0].jid.server != "" then [b[0].jid] else []
  {
    if b == [] {
      assert a + b == a;
    } else {
      assert (a + b)[..|a + b| - 1] == a + b[..|b| - 1];
      OwnListJoins(a, b[..|b| - 1]);
      if |b| == 1 { assert b[..0] == []; }
    }
  }

  /** The same devices on the other of the user's two addresses. */
  function OnUser(list: seq<Jid>, alt: Jid): (r: seq<Jid>)
    ensures |r| == |list|
    ensures forall i | 0 <= i < |list| :: r[i] == Jid(alt.user, alt.server, list[i].device)
  {
    seq(|list|, i requires 0 <= i < |list| => alt.(device := list[i].device))
  }
}
