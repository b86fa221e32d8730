/**
  Applying decoded mutations to the stores.  A full sync of the contact collection filters the
  contacts out of the mutation list in place, inserts them in one go and dispatches the rest;
  otherwise every mutation is dispatched in order.
 */
module AppStateContacts {
  import opened Prelude

  type Jid = string

  datatype Operation = Set | Remove

  datatype Names = Names(first: string, full: string)

  const BLANK := Names("", "")

  /** The parts of an action that reach a store; getters of a missing part give the zero value. */
  datatype Action = Action(contact: Names, muted: bool, muteEnd: int, pinned: bool, archived: bool,
                           pushName: string, salt: Bytes)

  datatype Mutation = Mutation(operation: Operation, index: seq<string>, action: Action)

  datatype Contact = Contact(jid: Jid, names: Names)

  /** `mutedUntil` is in seconds, 0 for not muted and -1 for muted forever. */
  datatype Chat = Chat(mutedUntil: int, pinned: bool, archived: bool)

  const FRESH_CHAT := Chat(0, false, false)

  datatype Stores = Stores(contacts: map<Jid, Names>, chats: map<Jid, Chat>, pushName: string,
                           salt: Option<Bytes>)

  function NamesOf(contacts: map<Jid, Names>, jid: Jid): Names {
    if jid in contacts then contacts[jid] else BLANK
  }

  function ChatOf(chats: map<Jid, Chat>, jid: Jid): Chat {
    if jid in chats then chats[jid] else FRESH_CHAT
  }

  // ---------- one mutation ----------

  /** Nothing is written when the names are those already looked up. */
  function PutContactName(contacts: map<Jid, Names>, jid: Jid, names: Names): map<Jid, Names> {
    if NamesOf(contacts, jid) == names then contacts else contacts[jid := names]
  }

  /** The action's end is in milliseconds. */
  function MutedUntil(action: Action): int {
    if !action.muted then 0 else if action.muteEnd < 0 then -1 else action.muteEnd / 1000
  }

  /** An empty salt is not stored; a removal clears the salt. */
  function SaltAfter(salt: Option<Bytes>, m: Mutation): Option<Bytes> {
    if m.operation.Remove? then None else if m.action.salt == [] then salt else Some(m.action.salt)
  }

  function JidOf(parse: string -> Jid, m: Mutation): Jid {
    if |m.index| > 1 then parse(m.index[1]) else ""
  }

  function Dispatch(parse: string -> Jid, s: Stores, m: Mutation): Stores
    requires m.index != []
  {
    if m.index == ["nct_salt_sync"] then s.(salt := SaltAfter(s.salt, m))
    else if m.operation.Remove? then s
    else
      var jid := JidOf(parse, m);
      var chat := ChatOf(s.chats, jid);
      match m.index[0]
      case "mute" => s.(chats := s.chats[jid := chat.(mutedUntil := MutedUntil(m.action))])
      case "pin_v1" => s.(chats := s.chats[jid := chat.(pinned := m.action.pinned)])
      case "archive" => s.(chats := s.chats[jid := chat.(archived := m.action.archived)])
      case "contact" => s.(contacts := PutContactName(s.contacts, jid, m.action.contact))
      case "setting_pushName" => s.(pushName := m.action.pushName)
      case _ => s
  }

  predicate Indexed(ms: seq<Mutation>) {
    forall m <- ms :: m.index != []
  }

  function DispatchAll(parse: string -> Jid, s: Stores, ms: seq<Mutation>): Stores
    requires Indexed(ms)
  {
    if ms == [] then s else Dispatch(parse, DispatchAll(parse, s, ms[..|ms| - 1]), ms[|ms| - 1])
  }

  // ---------- the filter and the bulk insert ----------

  predicate IsContact(m: Mutation)
    requires m.index != []
  {
    m.index[0] == "contact" && |m.index| > 1
  }

  function Rest(ms: seq<Mutation>): (rest: seq<Mutation>)
    requires Indexed(ms)
    ensures Indexed(rest)
  {
    if ms == [] then []
    else if IsContact(ms[|ms| - 1]) then Rest(ms[..|ms| - 1])
    else Rest(ms[..|ms| - 1]) + [ms[|ms| - 1]]
  }

  function Contacts(parse: string -> Jid, ms: seq<Mutation>): seq<Contact>
    requires Indexed(ms)
  {
    if ms == [] then []
    else
      var front, last := Contacts(parse, ms[..|ms| - 1]), ms[|ms| - 1];
      if IsContact(last) then front + [Contact(parse(last.index[1]), last.action.contact)] else front
  }

  function PutAll(contacts: map<Jid, Names>, entries: seq<Contact>): map<Jid, Names> {
    if entries == [] then contacts
    else PutAll(contacts, entries[..|entries| - 1])[entries[|entries| - 1].jid := entries[|entries| - 1].names]
  }

  function Bulk(parse: string -> Jid, s: Stores, ms: seq<Mutation>): Stores
    requires Indexed(ms)
  {
    DispatchAll(parse, s.(contacts := PutAll(s.contacts, Contacts(parse, ms))), Rest(ms))
  }

  lemma RestOf(front: seq<Mutation>, last: Mutation)
    requires Indexed(front + [last])
    ensures Rest(front + [last]) == if IsContact(last) then Rest(front) else Rest(front) + [last]
  {
    assert (front + [last])[..|front|] == front;
  }

  lemma ContactsOf(parse: string -> Jid, front: seq<Mutation>, last: Mutation)
    requires Indexed(front + [last])
    ensures Contacts(parse, front + [last]) == if IsContact(last)
              then Contacts(parse, front) + [Contact(parse(last.index[1]), last.action.contact)]
              else Contacts(parse, front)
  {
    assert (front + [last])[..|front|] == front;
  }

  lemma {:induction false} FilterLosesNothing(parse: string -> Jid, ms: seq<Mutation>)
    requires Indexed(ms)
    ensures |Rest(ms)| + |Contacts(parse, ms)| == |ms|
  {
    if ms != [] { FilterLosesNothing(parse, ms[..|ms| - 1]); }
  }

  lemma {:induction false} FilterExtends(parse: string -> Jid, ms: seq<Mutation>, k: nat)
    requires Indexed(ms) && k <= |ms|
    ensures Indexed(ms[..k]) && Rest(ms[..k]) <= Rest(ms) && Contacts(parse, ms[..k]) <= Contacts(parse, ms)
    decreases |ms|
  {
    if k < |ms| {
      assert ms[..|ms| - 1][..k] == ms[..k];
      FilterExtends(parse, ms[..|ms| - 1], k);
    } else {
      assert ms[..k] == ms;
    }
  }

  /**
    The filter is an order-preserving partition: each mutation ends up in exactly one of the two
    lists, at the position given by how many of its kind come before it.
   */
  lemma FilterKeepsOrder(parse: string -> Jid, ms: seq<Mutation>, k: nat)
    requires Indexed(ms) && k < |ms|
    ensures |Rest(ms)| + |Contacts(parse, ms)| == |ms|
    ensures var i, j := |Rest(ms[..k])|, |Contacts(parse, ms[..k])|;
      if IsContact(ms[k]) then
        j < |Contacts(parse, ms)| && Contacts(parse, ms)[j] == Contact(parse(ms[k].index[1]), ms[k].action.contact)
      else
        i < |Rest(ms)| && Rest(ms)[i] == ms[k]
  {
    FilterLosesNothing(parse, ms);
    FilterExtends(parse, ms, k + 1);
    assert ms[..k + 1] == ms[..k] + [ms[k]];
    RestOf(ms[..k], ms[k]);
    ContactsOf(parse, ms[..k], ms[k]);
  }

  // ---------- the bulk path against the per-mutation path ----------

  /** Every chat setting, the push name and the salt agree, and so does every looked-up name. */
  ghost predicate SameNames(a: Stores, b: Stores) {
    SameBesidesContacts(a, b) && forall jid :: NamesOf(a.contacts, jid) == NamesOf(b.contacts, jid)
  }

  predicate SameBesidesContacts(a: Stores, b: Stores) {
    a.chats == b.chats && a.pushName == b.pushName && a.salt == b.salt
  }

  predicate SetsName(parse: string -> Jid, m: Mutation, jid: Jid)
    requires m.index != []
  {
    m.index[0] == "contact" && m.operation.Set? && JidOf(parse, m) == jid
  }

  /** The names written last for a JID when every mutation is dispatched. */
  function LastSet(parse: string -> Jid, ms: seq<Mutation>, jid: Jid): Option<Names>
    requires Indexed(ms)
  {
    if ms == [] then None
    else if SetsName(parse, ms[|ms| - 1], jid) then Some(ms[|ms| - 1].action.contact)
    else LastSet(parse, ms[..|ms| - 1], jid)
  }

  /** The names of the last filtered entry for a JID, whatever its operation. */
  function LastEntry(parse: string -> Jid, ms: seq<Mutation>, jid: Jid): Option<Names>
    requires Indexed(ms)
  {
    if ms == [] then None
    else if IsContact(ms[|ms| - 1]) && JidOf(parse, ms[|ms| - 1]) == jid then Some(ms[|ms| - 1].action.contact)
    else LastEntry(parse, ms[..|ms| - 1], jid)
  }

  /** What the bulk path writes last: the unfiltered rest is dispatched after the insert. */
  function LastBulk(parse: string -> Jid, ms: seq<Mutation>, jid: Jid): Option<Names>
    requires Indexed(ms)
  {
    var rest := LastSet(parse, Rest(ms), jid);
    if rest.Some? then rest else LastEntry(parse, ms, jid)
  }

  function Else(o: Option<Names>, names: Names): Names {
    if o.Some? then o.value else names
  }

  lemma DispatchKeepsSame(parse: string -> Jid, s: Stores, t: Stores, m: Mutation)
    requires m.index != [] && SameBesidesContacts(s, t)
    ensures SameBesidesContacts(Dispatch(parse, s, m), Dispatch(parse, t, m))
    ensures IsContact(m) ==> SameBesidesContacts(s, Dispatch(parse, t, m))
  {}

  lemma DispatchOf(parse: string -> Jid, s: Stores, front: seq<Mutation>, last: Mutation)
    requires Indexed(front + [last])
    ensures DispatchAll(parse, s, front + [last]) == Dispatch(parse, DispatchAll(parse, s, front), last)
  {
    assert (front + [last])[..|front|] == front;
  }

  lemma {:induction false} RestAgreesBesidesContacts(parse: string -> Jid, s: Stores, t: Stores, ms: seq<Mutation>)
    requires Indexed(ms) && SameBesidesContacts(s, t)
    ensures SameBesidesContacts(DispatchAll(parse, s, Rest(ms)), DispatchAll(parse, t, ms))
  {
    if ms != [] {
      var front, last := ms[..|ms| - 1], ms[|ms| - 1];
      RestAgreesBesidesContacts(parse, s, t, front);
      assert ms == front + [last];
      RestOf(front, last);
      DispatchOf(parse, t, front, last);
      DispatchKeepsSame(parse, DispatchAll(parse, s, Rest(front)), DispatchAll(parse, t, front), last);
      if !IsContact(last) { DispatchOf(parse, s, Rest(front), last); }
    }
  }

  lemma {:induction false} DispatchedNames(parse: string -> Jid, s: Stores, ms: seq<Mutation>, jid: Jid)
    requires Indexed(ms)
    ensures NamesOf(DispatchAll(parse, s, ms).contacts, jid)
         == Else(LastSet(parse, ms, jid), NamesOf(s.contacts, jid))
  {
    if ms != [] {
      DispatchedNames(parse, s, ms[..|ms| - 1], jid);
    }
  }

  lemma {:induction false} InsertedNames(parse: string -> Jid, contacts: map<Jid, Names>, ms: seq<Mutation>, jid: Jid)
    requires Indexed(ms)
    ensures NamesOf(PutAll(contacts, Contacts(parse, ms)), jid)
         == Else(LastEntry(parse, ms, jid), NamesOf(contacts, jid))
  {
    if ms != [] {
      var front, last := ms[..|ms| - 1], ms[|ms| - 1];
      InsertedNames(parse, contacts, front, jid);
      if IsContact(last) {
        var cs := Contacts(parse, ms);
        assert cs[..|cs| - 1] == Contacts(parse, front);
      } else {
        assert Contacts(parse, ms) == Contacts(parse, front);
      }
    }
  }

  lemma BulkNames(parse: string -> Jid, s: Stores, ms: seq<Mutation>, jid: Jid)
    requires Indexed(ms)
    ensures NamesOf(Bulk(parse, s, ms).contacts, jid)
         == Else(LastBulk(parse, ms, jid), NamesOf(s.contacts, jid))
  {
    var inserted := s.(contacts := PutAll(s.contacts, Contacts(parse, ms)));
    DispatchedNames(parse, inserted, Rest(ms), jid);
    InsertedNames(parse, s.contacts, ms, jid);
  }

  /** For every JID the two paths write the same names last. */
  ghost predicate Agreed(parse: string -> Jid, ms: seq<Mutation>)
    requires Indexed(ms)
  {
    forall jid :: LastBulk(parse, ms, jid) == LastSet(parse, ms, jid)
  }

  lemma AgreedNames(parse: string -> Jid, s: Stores, ms: seq<Mutation>)
    requires Indexed(ms) && Agreed(parse, ms)
    ensures SameNames(Bulk(parse, s, ms), DispatchAll(parse, s, ms))
  {
    RestAgreesBesidesContacts(parse, s.(contacts := PutAll(s.contacts, Contacts(parse, ms))), s, ms);
    forall jid ensures NamesOf(Bulk(parse, s, ms).contacts, jid) == NamesOf(DispatchAll(parse, s, ms).contacts, jid) {
      BulkNames(parse, s, ms, jid);
      DispatchedNames(parse, s, ms, jid);
    }
  }

  /** Where the last writes differ, some contact store tells the two paths apart by a looked-up name. */
  lemma NamesDiffer(parse: string -> Jid, s: Stores, ms: seq<Mutation>, jid: Jid) returns (t: Stores)
    requires Indexed(ms) && LastBulk(parse, ms, jid) != LastSet(parse, ms, jid)
    ensures SameBesidesContacts(s, t)
    ensures !SameNames(Bulk(parse, t, ms), DispatchAll(parse, t, ms))
  {
    var bulk, single := LastBulk(parse, ms, jid), LastSet(parse, ms, jid);
    var taken := if bulk.Some? then bulk.value else single.value;
    t := s.(contacts := map[jid := Names("x" + taken.first, "")]);
    assert ("x" + taken.first) != taken.first by {
      assert |"x" + taken.first| == |taken.first| + 1;
    }
    BulkNames(parse, t, ms, jid);
    DispatchedNames(parse, t, ms, jid);
    assert NamesOf(Bulk(parse, t, ms).contacts, jid) != NamesOf(DispatchAll(parse, t, ms).contacts, jid);
  }

  /** The two paths leave the same looked-up names in every store exactly for the agreed lists. */
  lemma NamesAgreeExactly(parse: string -> Jid, ms: seq<Mutation>)
    requires Indexed(ms)
    ensures Agreed(parse, ms) <==> forall s :: SameNames(Bulk(parse, s, ms), DispatchAll(parse, s, ms))
  {
    if Agreed(parse, ms) {
      forall s ensures SameNames(Bulk(parse, s, ms), DispatchAll(parse, s, ms)) {
        AgreedNames(parse, s, ms);
      }
    } else {
      var jid :| LastBulk(parse, ms, jid) != LastSet(parse, ms, jid);
      var _ := NamesDiffer(parse, Stores(map[], map[], "", None), ms, jid);
    }
  }

  // ---------- rows ----------

  /** Some dispatched mutation sets names for the JID that are not blank, so it writes a row. */
  predicate WritesRow(parse: string -> Jid, ms: seq<Mutation>, jid: Jid)
    requires Indexed(ms)
  {
    exists m <- ms :: SetsName(parse, m, jid) && m.action.contact != BLANK
  }

  lemma WritesRowOf(parse: string -> Jid, front: seq<Mutation>, last: Mutation, jid: Jid)
    requires Indexed(front + [last])
    ensures Indexed(front)
    ensures WritesRow(parse, front + [last], jid) <==>
      WritesRow(parse, front, jid) || (SetsName(parse, last, jid) && last.action.contact != BLANK)
  {
    assert forall m <- front :: m in front + [last];
    assert last in front + [last];
  }

  /** Setting blank names for an unknown contact writes nothing. */
  lemma DispatchedRow(parse: string -> Jid, s: Stores, m: Mutation, jid: Jid)
    requires m.index != []
    ensures jid in Dispatch(parse, s, m).contacts <==>
      jid in s.contacts || (SetsName(parse, m, jid) && m.action.contact != BLANK)
  {}

  lemma {:induction false} DispatchedRows(parse: string -> Jid, s: Stores, ms: seq<Mutation>, jid: Jid)
    requires Indexed(ms)
    ensures jid in DispatchAll(parse, s, ms).contacts <==> jid in s.contacts || WritesRow(parse, ms, jid)
  {
    if ms != [] {
      var front, last := ms[..|ms| - 1], ms[|ms| - 1];
      DispatchedRows(parse, s, front, jid);
      DispatchedRow(parse, DispatchAll(parse, s, front), last, jid);
      WritesRowOf(parse, front, last, jid);
      DispatchOf(parse, s, front, last);
      assert ms == front + [last];
    }
  }

  lemma PutAllOf(contacts: map<Jid, Names>, entries: seq<Contact>, last: Contact)
    ensures PutAll(contacts, entries + [last]) == PutAll(contacts, entries)[last.jid := last.names]
  {
    assert (entries + [last])[..|entries|] == entries;
  }

  lemma LastEntryOf(parse: string -> Jid, front: seq<Mutation>, last: Mutation, jid: Jid)
    requires Indexed(front + [last])
    ensures Indexed(front)
    ensures LastEntry(parse, front + [last], jid) ==
      if IsContact(last) && JidOf(parse, last) == jid then Some(last.action.contact)
      else LastEntry(parse, front, jid)
  {
    assert (front + [last])[..|front|] == front;
  }

  /** The bulk insert writes a row for every entry, whatever its names. */
  lemma {:induction false} InsertedRows(parse: string -> Jid, contacts: map<Jid, Names>, ms: seq<Mutation>, jid: Jid)
    requires Indexed(ms)
    ensures jid in PutAll(contacts, Contacts(parse, ms)) <==> jid in contacts || LastEntry(parse, ms, jid).Some?
  {
    if ms != [] {
      var front, last := ms[..|ms| - 1], ms[|ms| - 1];
      InsertedRows(parse, contacts, front, jid);
      InsertedRowsOf(parse, contacts, front, last, jid);
      assert ms == front + [last];
    }
  }

  lemma InsertedRowsOf(parse: string -> Jid, contacts: map<Jid, Names>, front: seq<Mutation>, last: Mutation, jid: Jid)
    requires Indexed(front + [last]) && Indexed(front)
    requires jid in PutAll(contacts, Contacts(parse, front)) <==>
      jid in contacts || LastEntry(parse, front, jid).Some?
    ensures jid in PutAll(contacts, Contacts(parse, front + [last])) <==>
      jid in contacts || LastEntry(parse, front + [last], jid).Some?
  {
    ContactsOf(parse, front, last);
    LastEntryOf(parse, front, last, jid);
    if IsContact(last) {
      PutAllOf(contacts, Contacts(parse, front), Contact(parse(last.index[1]), last.action.contact));
    }
  }

  lemma {:induction false} RowsOfTheRest(parse: string -> Jid, ms: seq<Mutation>, jid: Jid)
    requires Indexed(ms)
    ensures WritesRow(parse, Rest(ms), jid) ==> WritesRow(parse, ms, jid)
    ensures WritesRow(parse, ms, jid) ==> WritesRow(parse, Rest(ms), jid) || LastEntry(parse, ms, jid).Some?
  {
    if ms != [] {
      var front, last := ms[..|ms| - 1], ms[|ms| - 1];
      assert ms == front + [last];
      RowsOfTheRest(parse, front, jid);
      RestOf(front, last);
      WritesRowOf(parse, front, last, jid);
      if !IsContact(last) { WritesRowOf(parse, Rest(front), last, jid); }
    }
  }

  /** Every JID with a filtered entry has names set for it that are not blank. */
  ghost predicate RowsAgree(parse: string -> Jid, ms: seq<Mutation>)
    requires Indexed(ms)
  {
    forall jid :: LastEntry(parse, ms, jid).Some? ==> WritesRow(parse, ms, jid)
  }

  lemma BulkRows(parse: string -> Jid, s: Stores, ms: seq<Mutation>, jid: Jid)
    requires Indexed(ms)
    ensures jid in Bulk(parse, s, ms).contacts <==>
      jid in s.contacts || LastEntry(parse, ms, jid).Some? || WritesRow(parse, ms, jid)
  {
    var inserted := s.(contacts := PutAll(s.contacts, Contacts(parse, ms)));
    DispatchedRows(parse, inserted, Rest(ms), jid);
    InsertedRows(parse, s.contacts, ms, jid);
    RowsOfTheRest(parse, ms, jid);
  }

  lemma RowsAgreeExactly(parse: string -> Jid, ms: seq<Mutation>)
    requires Indexed(ms)
    ensures RowsAgree(parse, ms) <==>
      forall s :: Bulk(parse, s, ms).contacts.Keys == DispatchAll(parse, s, ms).contacts.Keys
  {
    if RowsAgree(parse, ms) {
      forall s ensures Bulk(parse, s, ms).contacts.Keys == DispatchAll(parse, s, ms).contacts.Keys {
        SameRows(parse, s, ms);
      }
    } else {
      var jid :| LastEntry(parse, ms, jid).Some? && !WritesRow(parse, ms, jid);
      var s := Stores(map[], map[], "", None);
      BulkRows(parse, s, ms, jid);
      DispatchedRows(parse, s, ms, jid);
      assert jid in Bulk(parse, s, ms).contacts.Keys && jid !in DispatchAll(parse, s, ms).contacts.Keys;
    }
  }

  lemma SameRows(parse: string -> Jid, s: Stores, ms: seq<Mutation>)
    requires Indexed(ms) && RowsAgree(parse, ms)
    ensures Bulk(parse, s, ms).contacts.Keys == DispatchAll(parse, s, ms).contacts.Keys
  {
    forall jid ensures jid in Bulk(parse, s, ms).contacts <==> jid in DispatchAll(parse, s, ms).contacts {
      BulkRows(parse, s, ms, jid);
      DispatchedRows(parse, s, ms, jid);
    }
  }

  // ---------- chat settings, push name and salt ----------

  /** The last mutation that sets the named setting of a chat. */
  function LastFor(parse: string -> Jid, name: string, ms: seq<Mutation>, jid: Jid): Option<Mutation>
    requires Indexed(ms)
  {
    if ms == [] then None
    else
      var m := ms[|ms| - 1];
      if m.operation.Set? && m.index[0] == name && jid == (if |m.index| > 1 then parse(m.index[1]) else "") then Some(m)
      else LastFor(parse, name, ms[..|ms| - 1], jid)
  }

  /** The last mutation that sets the named setting of the account. */
  function LastNamed(name: string, ms: seq<Mutation>): Option<Mutation>
    requires Indexed(ms)
  {
    if ms == [] then None
    else if ms[|ms| - 1].operation.Set? && ms[|ms| - 1].index[0] == name then Some(ms[|ms| - 1])
    else LastNamed(name, ms[..|ms| - 1])
  }

  /** The last mutation that stores or removes the salt; an empty one does neither. */
  function LastSalt(ms: seq<Mutation>): Option<Mutation>
    requires Indexed(ms)
  {
    if ms == [] then None
    else
      var m := ms[|ms| - 1];
      if m.index == ["nct_salt_sync"] && (m.operation.Remove? || m.action.salt != []) then Some(m)
      else LastSalt(ms[..|ms| - 1])
  }

  /** A chat is muted until the action's end in whole seconds, forever, or not at all. */
  predicate MutedBy(action: Action, until: int) {
    if !action.muted then until == 0
    else if action.muteEnd < 0 then until == -1
    else until * 1000 <= action.muteEnd < until * 1000 + 1000
  }

  ghost predicate MuteFollows(parse: string -> Jid, s: Stores, ms: seq<Mutation>, jid: Jid, t: Stores)
    requires Indexed(ms)
  {
    var last := LastFor(parse, "mute", ms, jid);
    if last.Some? then MutedBy(last.value.action, ChatOf(t.chats, jid).mutedUntil)
    else ChatOf(t.chats, jid).mutedUntil == ChatOf(s.chats, jid).mutedUntil
  }

  ghost predicate PinFollows(parse: string -> Jid, s: Stores, ms: seq<Mutation>, jid: Jid, t: Stores)
    requires Indexed(ms)
  {
    var last := LastFor(parse, "pin_v1", ms, jid);
    ChatOf(t.chats, jid).pinned == if last.Some? then last.value.action.pinned else ChatOf(s.chats, jid).pinned
  }

  ghost predicate ArchiveFollows(parse: string -> Jid, s: Stores, ms: seq<Mutation>, jid: Jid, t: Stores)
    requires Indexed(ms)
  {
    var last := LastFor(parse, "archive", ms, jid);
    ChatOf(t.chats, jid).archived == if last.Some? then last.value.action.archived else ChatOf(s.chats, jid).archived
  }

  ghost predicate AccountFollows(s: Stores, ms: seq<Mutation>, t: Stores)
    requires Indexed(ms)
  {
    var pushName, salt := LastNamed("setting_pushName", ms), LastSalt(ms);
    && t.pushName == (if pushName.Some? then pushName.value.action.pushName else s.pushName)
    && t.salt == if salt.None? then s.salt
                 else if salt.value.operation.Remove? then None else Some(salt.value.action.salt)
  }

  /** After the mutations, each setting in `t` is what the last one about it says, or what it was in `s`. */
  ghost predicate SettingsFollow(parse: string -> Jid, s: Stores, ms: seq<Mutation>, jid: Jid, t: Stores)
    requires Indexed(ms)
  {
    && MuteFollows(parse, s, ms, jid, t) && PinFollows(parse, s, ms, jid, t)
    && ArchiveFollows(parse, s, ms, jid, t) && AccountFollows(s, ms, t)
  }

  lemma MuteFollowsOne(parse: string -> Jid, s: Stores, front: seq<Mutation>, last: Mutation, jid: Jid, t: Stores)
    requires Indexed(front + [last]) && Indexed(front) && MuteFollows(parse, s, front, jid, t)
    ensures MuteFollows(parse, s, front + [last], jid, Dispatch(parse, t, last))
  {
    assert (front + [last])[..|front|] == front;
  }

  lemma PinFollowsOne(parse: string -> Jid, s: Stores, front: seq<Mutation>, last: Mutation, jid: Jid, t: Stores)
    requires Indexed(front + [last]) && Indexed(front) && PinFollows(parse, s, front, jid, t)
    ensures PinFollows(parse, s, front + [last], jid, Dispatch(parse, t, last))
  {
    assert (front + [last])[..|front|] == front;
  }

  lemma ArchiveFollowsOne(parse: string -> Jid, s: Stores, front: seq<Mutation>, last: Mutation, jid: Jid, t: Stores)
    requires Indexed(front + [last]) && Indexed(front) && ArchiveFollows(parse, s, front, jid, t)
    ensures ArchiveFollows(parse, s, front + [last], jid, Dispatch(parse, t, last))
  {
    assert (front + [last])[..|front|] == front;
  }

  lemma AccountFollowsOne(parse: string -> Jid, s: Stores, front: seq<Mutation>, last: Mutation, t: Stores)
    requires Indexed(front + [last]) && Indexed(front) && AccountFollows(s, front, t)
    ensures AccountFollows(s, front + [last], Dispatch(parse, t, last))
  {
    assert (front + [last])[..|front|] == front;
  }

  lemma SettingsFollowOne(parse: string -> Jid, s: Stores, front: seq<Mutation>, last: Mutation, jid: Jid, t: Stores)
    requires Indexed(front + [last]) && Indexed(front) && SettingsFollow(parse, s, front, jid, t)
    ensures SettingsFollow(parse, s, front + [last], jid, Dispatch(parse, t, last))
  {
    MuteFollowsOne(parse, s, front, last, jid, t);
    PinFollowsOne(parse, s, front, last, jid, t);
    ArchiveFollowsOne(parse, s, front, last, jid, t);
    AccountFollowsOne(parse, s, front, last, t);
  }

  /** Dispatched one by one. */
  lemma {:induction false} DispatchedSettings(parse: string -> Jid, s: Stores, ms: seq<Mutation>, jid: Jid)
    requires Indexed(ms)
    ensures SettingsFollow(parse, s, ms, jid, DispatchAll(parse, s, ms))
  {
    if ms != [] {
      var front, last := ms[..|ms| - 1], ms[|ms| - 1];
      DispatchedSettings(parse, s, front, jid);
      SettingsFollowOne(parse, s, front, last, jid, DispatchAll(parse, s, front));
      assert ms == front + [last];
    }
  }

  /** And with the contacts inserted in bulk. */
  lemma BulkSettings(parse: string -> Jid, s: Stores, ms: seq<Mutation>, jid: Jid)
    requires Indexed(ms)
    ensures SettingsFollow(parse, s, ms, jid, Bulk(parse, s, ms))
  {
    DispatchedSettings(parse, s, ms, jid);
    RestAgreesBesidesContacts(parse, s.(contacts := PutAll(s.contacts, Contacts(parse, ms))), s, ms);
  }

  // ---------- when the two paths leave the same stores ----------

  lemma BulkRefines(parse: string -> Jid, s: Stores, ms: seq<Mutation>)
    requires Indexed(ms) && Agreed(parse, ms) && RowsAgree(parse, ms)
    ensures Bulk(parse, s, ms) == DispatchAll(parse, s, ms)
  {
    AgreedNames(parse, s, ms);
    SameRows(parse, s, ms);
    var bulk, single := Bulk(parse, s, ms).contacts, DispatchAll(parse, s, ms).contacts;
    forall jid <- bulk ensures bulk[jid] == single[jid] {
      assert jid in single.Keys;
      assert NamesOf(bulk, jid) == NamesOf(single, jid);
    }
    assert bulk == single;
  }

  /**
    From every store, the bulk path leaves the same rows, names, chat settings, push name and salt as
    the per-mutation path, exactly for the lists in which both write the same names last for each JID
    and every JID with a filtered entry has names set for it that are not blank.
   */
  lemma BulkRefinesExactly(parse: string -> Jid, ms: seq<Mutation>)
    requires Indexed(ms)
    ensures Agreed(parse, ms) && RowsAgree(parse, ms) <==>
      forall s :: Bulk(parse, s, ms) == DispatchAll(parse, s, ms)
  {
    if Agreed(parse, ms) && RowsAgree(parse, ms) {
      forall s ensures Bulk(parse, s, ms) == DispatchAll(parse, s, ms) {
        BulkRefines(parse, s, ms);
      }
    } else if !Agreed(parse, ms) {
      var jid :| LastBulk(parse, ms, jid) != LastSet(parse, ms, jid);
      var t := NamesDiffer(parse, Stores(map[], map[], "", None), ms, jid);
      assert Bulk(parse, t, ms) != DispatchAll(parse, t, ms);
    } else {
      RowsAgreeExactly(parse, ms);
      var t :| Bulk(parse, t, ms).contacts.Keys != DispatchAll(parse, t, ms).contacts.Keys;
      assert Bulk(parse, t, ms) != DispatchAll(parse, t, ms);
    }
  }

  /** A contact entry without a JID that is dispatched sets the names of the empty JID. */
  predicate ShortSets(ms: seq<Mutation>, jid: Jid)
    requires Indexed(ms)
  {
    jid == "" && exists m <- ms :: m.index == ["contact"] && m.operation.Set?
  }

  /** The last entry for a JID that the filter takes out. */
  function LastContact(parse: string -> Jid, ms: seq<Mutation>, jid: Jid): Option<Mutation>
    requires Indexed(ms)
  {
    if ms == [] then None
    else if IsContact(ms[|ms| - 1]) && JidOf(parse, ms[|ms| - 1]) == jid then Some(ms[|ms| - 1])
    else LastContact(parse, ms[..|ms| - 1], jid)
  }

  /** The last filtered entry sets the names, or removes a contact while repeating the names last set. */
  predicate EndsInSet(parse: string -> Jid, ms: seq<Mutation>, jid: Jid)
    requires Indexed(ms)
  {
    var last := LastContact(parse, ms, jid);
    last.Some? && last.value.operation.Remove? ==> LastSet(parse, ms, jid) == Some(last.value.action.contact)
  }

  lemma {:induction false} LastWrites(parse: string -> Jid, ms: seq<Mutation>, jid: Jid)
    requires Indexed(ms) && !ShortSets(ms, jid)
    ensures LastSet(parse, Rest(ms), jid) == None
    ensures var last := LastContact(parse, ms, jid);
      && LastEntry(parse, ms, jid) == (if last.Some? then Some(last.value.action.contact) else None)
      && (last.None? ==> LastSet(parse, ms, jid) == None)
      && (last.Some? && last.value.operation.Set? ==>
            LastSet(parse, ms, jid) == Some(last.value.action.contact))
  {
    if ms != [] {
      var front, last := ms[..|ms| - 1], ms[|ms| - 1];
      assert ms == front + [last];
      if last.index[0] == "contact" && |last.index| == 1 {
        assert last.index == ["contact"];
      }
      LastWrites(parse, front, jid);
      RestOf(front, last);
      if !IsContact(last) {
        assert Rest(ms)[..|Rest(ms)| - 1] == Rest(front);
      }
    }
  }

  /**
    The two paths write the same names last, JID by JID, exactly when the last filtered entry is no
    removal with other names than the last set, unless an entry without a JID is dispatched for it;
    then exactly when that entry's names are the ones set last of all.
   */
  lemma AgreedExactly(parse: string -> Jid, ms: seq<Mutation>)
    requires Indexed(ms)
    ensures Agreed(parse, ms) <==> forall jid ::
      if ShortSets(ms, jid) then LastSet(parse, Rest(ms), jid) == LastSet(parse, ms, jid)
      else EndsInSet(parse, ms, jid)
  {
    forall jid ensures LastBulk(parse, ms, jid) == LastSet(parse, ms, jid) <==>
        if ShortSets(ms, jid) then LastSet(parse, Rest(ms), jid) == LastSet(parse, ms, jid)
        else EndsInSet(parse, ms, jid)
    {
      if ShortSets(ms, jid) {
        ShortIsDispatched(parse, ms, jid);
      } else {
        LastWrites(parse, ms, jid);
      }
    }
  }

  lemma {:induction false} ShortIsDispatched(parse: string -> Jid, ms: seq<Mutation>, jid: Jid)
    requires Indexed(ms) && ShortSets(ms, jid)
    ensures LastSet(parse, Rest(ms), jid).Some?
  {
    var front, last := ms[..|ms| - 1], ms[|ms| - 1];
    assert ms == front + [last];
    RestOf(front, last);
    if !(last.index == ["contact"] && last.operation.Set?) {
      ShortIsDispatched(parse, front, jid);
    }
    if !IsContact(last) {
      assert Rest(ms)[..|Rest(ms)| - 1] == Rest(front);
    }
  }

  /** The lists of a snapshot: every contact entry names a JID and sets it. */
  predicate ContactsAreSet(ms: seq<Mutation>)
    requires Indexed(ms)
  {
    forall m <- ms :: m.index[0] == "contact" ==> |m.index| > 1 && m.operation.Set?
  }

  lemma {:induction false} SetContactsAgree(parse: string -> Jid, ms: seq<Mutation>, jid: Jid)
    requires Indexed(ms) && ContactsAreSet(ms)
    ensures LastSet(parse, Rest(ms), jid) == None
    ensures LastEntry(parse, ms, jid) == LastSet(parse, ms, jid)
  {
    if ms != [] {
      var front, last := ms[..|ms| - 1], ms[|ms| - 1];
      assert last in ms;
      SetContactsAgree(parse, front, jid);
      if IsContact(last) {
        assert Rest(ms) == Rest(front);
      } else {
        assert Rest(ms)[..|Rest(ms)| - 1] == Rest(front);
      }
    }
  }

  /**
    Lists whose contact entries all set a named JID: looked-up names always agree, and the stores are
    the same from every store exactly when no JID has blank names set for it only.
   */
  lemma BulkRefinesSets(parse: string -> Jid, ms: seq<Mutation>)
    requires Indexed(ms) && ContactsAreSet(ms)
    ensures forall s :: SameNames(Bulk(parse, s, ms), DispatchAll(parse, s, ms))
    ensures RowsAgree(parse, ms) <==> forall s :: Bulk(parse, s, ms) == DispatchAll(parse, s, ms)
  {
    forall jid ensures LastBulk(parse, ms, jid) == LastSet(parse, ms, jid) {
      SetContactsAgree(parse, ms, jid);
    }
    NamesAgreeExactly(parse, ms);
    BulkRefinesExactly(parse, ms);
  }

  /** An unknown contact set with blank names gets a row from the bulk insert and none from dispatch. */
  lemma BlankSetDiffers(parse: string -> Jid)
    ensures var s := Stores(map[], map[], "", None);
      var ms := [Mutation(Set, ["contact", "a"], Action(BLANK, false, 0, false, false, "", []))];
      && ContactsAreSet(ms)
      && Bulk(parse, s, ms).contacts == map[parse("a") := BLANK]
      && DispatchAll(parse, s, ms).contacts == map[]
  {
    var m := Mutation(Set, ["contact", "a"], Action(BLANK, false, 0, false, false, "", []));
    assert [m][..0] == [];
    assert [] + [m] == [m];
    RestOf([], m);
    ContactsOf(parse, [], m);
    var entries := Contacts(parse, [m]);
    assert entries == [] + [Contact(parse("a"), BLANK)] && entries[..0] == [];
    assert PutAll(map[], entries) == map[parse("a") := BLANK];
  }

  /** A removed contact keeps its names when dispatched, and has them overwritten by the bulk insert. */
  lemma RemovalDiffers(parse: string -> Jid, names: Names)
    requires names != BLANK
    ensures var s := Stores(map[parse("a") := names], map[], "", None);
      var ms := [Mutation(Remove, ["contact", "a"], Action(BLANK, false, 0, false, false, "", []))];
      && NamesOf(DispatchAll(parse, s, ms).contacts, parse("a")) == names
      && NamesOf(Bulk(parse, s, ms).contacts, parse("a")) == BLANK
  {
    var s := Stores(map[parse("a") := names], map[], "", None);
    var m := Mutation(Remove, ["contact", "a"], Action(BLANK, false, 0, false, false, "", []));
    assert [m][..0] == [];
    BulkNames(parse, s, [m], parse("a"));
    DispatchedNames(parse, s, [m], parse("a"));
    assert Rest([m]) == [];
  }

  /** An entry without a JID stays behind for dispatch, so it overtakes a filtered one that parses to nothing. */
  lemma ShortEntryDiffers(parse: string -> Jid, s: Stores, a: Action, b: Action)
    requires parse("") == "" && a.contact != b.contact
    ensures var ms := [Mutation(Set, ["contact"], a), Mutation(Set, ["contact", ""], b)];
      && NamesOf(DispatchAll(parse, s, ms).contacts, "") == b.contact
      && NamesOf(Bulk(parse, s, ms).contacts, "") == a.contact
  {
    var short, long := Mutation(Set, ["contact"], a), Mutation(Set, ["contact", ""], b);
    assert [short][..0] == [] && [short, long] == [short] + [long] && [short, long][..1] == [short];
    RestOf([short], long);
    RestOf([], short);
    assert [] + [short] == [short];
    BulkNames(parse, s, [short, long], "");
    DispatchedNames(parse, s, [short, long], "");
  }

  // ---------- the client's methods ----------

  class Client {
    const parse: string -> Jid
    const emitOnFullSync: bool
    var stores: Stores

    constructor (parse: string -> Jid, emitOnFullSync: bool)
      ensures this.parse == parse && this.emitOnFullSync == emitOnFullSync
      ensures stores == Stores(map[], map[], "", None)
    {
      this.parse := parse;
      this.emitOnFullSync := emitOnFullSync;
      stores := Stores(map[], map[], "", None);
    }

    /** Overwrites the front of the array it reads; the tail keeps what it held. */
    method FilterContacts(mutations: array<Mutation>) returns (n: nat, contacts: seq<Contact>)
      requires Indexed(mutations[..])
      modifies mutations
      ensures n <= mutations.Length && mutations[..n] == Rest(old(mutations[..]))
      ensures contacts == Contacts(parse, old(mutations[..]))
      ensures mutations[n..] == old(mutations[n..])
    {
      ghost var ms := mutations[..];
      n, contacts := 0, [];
      for i := 0 to mutations.Length
        invariant n <= i
        invariant mutations[..n] == Rest(ms[..i]) && contacts == Contacts(parse, ms[..i])
        invariant mutations[n..] == ms[n..]
      {
        var m := mutations[i];
        assert m == mutations[n..][i - n] == ms[n..][i - n] == ms[i];
        assert ms[..i + 1] == ms[..i] + [m];
        RestOf(ms[..i], m);
        ContactsOf(parse, ms[..i], m);
        if IsContact(m) {
          contacts := contacts + [Contact(parse(m.index[1]), m.action.contact)];
        } else {
          assert mutations[n + 1..] == mutations[n..][1..];
          mutations[n] := m;
          n := n + 1;
        }
      }
      assert ms[..mutations.Length] == ms;
    }

    method PutAllContactNames(contacts: seq<Contact>)
      modifies this
      ensures stores == old(stores).(contacts := PutAll(old(stores).contacts, contacts))
    {
      for i := 0 to |contacts|
        invariant stores == old(stores).(contacts := PutAll(old(stores).contacts, contacts[..i]))
      {
        assert contacts[..i + 1][..i] == contacts[..i];
        stores := stores.(contacts := stores.contacts[contacts[i].jid := contacts[i].names]);
      }
      assert contacts[..|contacts|] == contacts;
    }

    /** `unblock` is the contact collection; `inserts` whether the bulk insert succeeds. */
    method CollectEventsToDispatch(unblock: bool, mutations: array<Mutation>, fullSync: bool, inserts: bool)
      returns (ok: bool)
      requires Indexed(mutations[..])
      modifies this, mutations
      ensures var bulk := unblock && fullSync && !emitOnFullSync;
        && ok == (bulk ==> inserts)
        && stores == if !ok then old(stores)
                     else if bulk then Bulk(parse, old(stores), old(mutations[..]))
                     else DispatchAll(parse, old(stores), old(mutations[..]))
    {
      var n := mutations.Length;
      if unblock && fullSync && !emitOnFullSync {
        var contacts;
        n, contacts := FilterContacts(mutations);
        if !inserts {
          return false;
        }
        PutAllContactNames(contacts);
      } else {
        assert mutations[..n] == mutations[..];
      }
      DispatchFirst(mutations, n);
      return true;
    }

    /** The dispatch loop over the first n mutations. */
    method DispatchFirst(mutations: array<Mutation>, n: nat)
      requires n <= mutations.Length && Indexed(mutations[..n])
      modifies this
      ensures stores == DispatchAll(parse, old(stores), mutations[..n])
    {
      ghost var ms := mutations[..n];
      for i := 0 to n
        invariant stores == DispatchAll(parse, old(stores), ms[..i])
      {
        assert ms[..i + 1][..i] == ms[..i];
        stores := Dispatch(parse, stores, mutations[i]);
      }
      assert ms[..n] == ms;
    }
  }
}
