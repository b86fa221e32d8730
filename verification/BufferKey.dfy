/**
  The key under which a decrypted event is buffered: SHA-256 over the ciphertext, then a NUL and
  each extra part, then two NULs.  SHA-256 is taken to be collision-free, so that the preimage
  itself stands for the key.
 */
module BufferKey {
  import opened Prelude
  import JidText

  const NUL: byte := 0

  // The ASCII strings "prekey", "normal" and "senderkey".
  const PREKEY: Bytes := [112, 114, 101, 107, 101, 121]
  const NORMAL: Bytes := [110, 111, 114, 109, 97, 108]
  const SENDERKEY: Bytes := [115, 101, 110, 100, 101, 114, 107, 101, 121]

  datatype Payload =
    | Direct(ciphertext: Bytes, isPreKey: bool, sender: Bytes)
    | Group(ciphertext: Bytes, chat: Bytes, sender: Bytes)

  function ExtraParts(p: Payload): seq<Bytes> {
    match p
    case Direct(_, isPreKey, sender) => [if isPreKey then PREKEY else NORMAL, sender]
    case Group(_, chat, sender) => [SENDERKEY, chat, sender]
  }

  /** What the hasher is fed before the two closing NULs. */
  function Body(ciphertext: Bytes, parts: seq<Bytes>): Bytes {
    if parts == [] then ciphertext
    else Body(ciphertext, parts[..|parts| - 1]) + [NUL] + parts[|parts| - 1]
  }

  function Preimage(p: Payload): Bytes {
    Body(p.ciphertext, ExtraParts(p)) + [NUL, NUL]
  }

  /** The hasher loop of bufferedDecrypt: one Write per piece. */
  method HashInput(ciphertext: Bytes, extraHashData: seq<Bytes>) returns (written: Bytes)
    ensures written == Body(ciphertext, extraHashData) + [NUL, NUL]
  {
    written := ciphertext;
    for i := 0 to |extraHashData|
      invariant written == Body(ciphertext, extraHashData[..i])
    {
      written := written + [NUL];
      written := written + extraHashData[i];
      assert extraHashData[..i + 1][..i] == extraHashData[..i];
    }
    assert extraHashData[..|extraHashData|] == extraHashData;
    written := written + [NUL, NUL];
  }

  /** JID strings never contain a NUL byte. */
  predicate WellFormed(p: Payload) {
    NUL !in p.sender && (p.Group? ==> NUL !in p.chat)
  }

  /** Two byte strings with a last NUL-free field split there in only one way. */
  lemma SplitLast(a: Bytes, x: Bytes, b: Bytes, y: Bytes)
    requires a + [NUL] + x == b + [NUL] + y
    requires NUL !in x && NUL !in y
    ensures a == b && x == y
  {
    var s := a + [NUL] + x;
    assert s == b + [NUL] + y;
    assert s[|a|] == NUL && s[|b|] == NUL;
    assert forall i :: |a| < i < |s| ==> s[i] == x[i - |a| - 1];
    assert forall i :: |b| < i < |s| ==> s[i] == y[i - |b| - 1];
    assert a == s[..|a|] && b == s[..|b|];
    assert x == s[|a| + 1..] && y == s[|b| + 1..];
  }

  /** The fields of a payload, read off the preimage from the right. */
  function Kind(p: Payload): Bytes {
    if p.Group? then p.chat else if p.isPreKey then PREKEY else NORMAL
  }

  function Rest(p: Payload): Bytes {
    if p.Group? then p.ciphertext + [NUL] + SENDERKEY else p.ciphertext
  }

  lemma BodyOf(ciphertext: Bytes, front: seq<Bytes>, last: Bytes)
    ensures Body(ciphertext, front + [last]) == Body(ciphertext, front) + [NUL] + last
  {
    assert (front + [last])[..|front|] == front;
  }

  lemma PreimageLayout(p: Payload)
    ensures Preimage(p) == (Rest(p) + [NUL] + Kind(p) + [NUL] + p.sender) + [NUL, NUL]
  {
    if p.Group? {
      BodyOf(p.ciphertext, [], SENDERKEY);
      BodyOf(p.ciphertext, [SENDERKEY], p.chat);
      BodyOf(p.ciphertext, [SENDERKEY, p.chat], p.sender);
      assert [] + [SENDERKEY] == [SENDERKEY] && [SENDERKEY] + [p.chat] == [SENDERKEY, p.chat];
      assert ExtraParts(p) == [SENDERKEY, p.chat] + [p.sender];
    } else {
      BodyOf(p.ciphertext, [], Kind(p));
      BodyOf(p.ciphertext, [Kind(p)], p.sender);
      assert [] + [Kind(p)] == [Kind(p)];
      assert ExtraParts(p) == [Kind(p)] + [p.sender];
    }
  }

  /** A group payload and a direct one that look the same to the hasher. */
  predicate Confusable(g: Payload, d: Payload) {
    && g.Group? && d.Direct?
    && g.sender == d.sender
    && g.chat == (if d.isPreKey then PREKEY else NORMAL)
    && d.ciphertext == g.ciphertext + [NUL] + SENDERKEY
  }

  /** Exactly when two payloads share a buffer key, over all ciphertexts and NUL-free JIDs. */
  lemma SameKeyExactly(p: Payload, q: Payload)
    requires WellFormed(p) && WellFormed(q)
    ensures Preimage(p) == Preimage(q) <==> p == q || Confusable(p, q) || Confusable(q, p)
  {
    PreimageLayout(p);
    PreimageLayout(q);
    if Preimage(p) == Preimage(q) {
      var x, y := Rest(p) + [NUL] + Kind(p) + [NUL] + p.sender, Rest(q) + [NUL] + Kind(q) + [NUL] + q.sender;
      assert x == (x + [NUL, NUL])[..|x|] && y == (y + [NUL, NUL])[..|y|];
      SplitLast(Rest(p) + [NUL] + Kind(p), p.sender, Rest(q) + [NUL] + Kind(q), q.sender);
      SplitLast(Rest(p), Kind(p), Rest(q), Kind(q));
      assert PREKEY[0] != NORMAL[0];
      if p.Group? && q.Group? {
        SplitLast(p.ciphertext, SENDERKEY, q.ciphertext, SENDERKEY);
      }
    }
  }

  predicate PlainChat(p: Payload) {
    p.Group? ==> p.chat != PREKEY && p.chat != NORMAL
  }

  /** The key is injective unless a group is literally called "prekey" or "normal". */
  lemma KeyIsInjective(p: Payload, q: Payload)
    requires WellFormed(p) && WellFormed(q) && PlainChat(p) && PlainChat(q)
    requires Preimage(p) == Preimage(q)
    ensures p == q
  {
    SameKeyExactly(p, q);
  }

  /** Without that condition a direct message can carry the key of a group message. */
  lemma KeyIsNotAlwaysInjective()
    ensures exists p, q :: WellFormed(p) && WellFormed(q) && p != q && Preimage(p) == Preimage(q)
  {
    var g := Group([], PREKEY, [64]);
    var d := Direct([] + [NUL] + SENDERKEY, true, [64]);
    SameKeyExactly(g, d);
  }

  // ---------- the chats that reach the hasher ----------

  // The ASCII strings "g.us" and "broadcast".
  const GROUP_SERVER: Bytes := [103, 46, 117, 115]
  const BROADCAST_SERVER: Bytes := [98, 114, 111, 97, 100, 99, 97, 115, 116]

  /** Only a chat on the group or the broadcast server is a group. */
  predicate IsGroup(j: JidText.Jid) {
    j.server == GROUP_SERVER || j.server == BROADCAST_SERVER
  }

  lemma GroupChatIsPlain(j: JidText.Jid)
    requires IsGroup(j)
    ensures JidText.String(j) != PREKEY && JidText.String(j) != NORMAL
  {
    var s := JidText.String(j);
    assert s[|s| - 1] == j.server[|j.server| - 1];
  }

  /** A direct payload, or a group payload whose chat is a group's JID. */
  ghost predicate Received(p: Payload) {
    p.Group? ==> exists j :: IsGroup(j) && p.chat == JidText.String(j)
  }

  /** For the payloads that the code hashes, the key is injective without any condition on names. */
  lemma ReceivedKeyIsInjective(p: Payload, q: Payload)
    requires WellFormed(p) && WellFormed(q) && Received(p) && Received(q)
    requires Preimage(p) == Preimage(q)
    ensures p == q
  {
    ReceivedIsPlain(p);
    ReceivedIsPlain(q);
    KeyIsInjective(p, q);
  }

  lemma ReceivedIsPlain(p: Payload)
    requires Received(p)
    ensures PlainChat(p)
  {
    if p.Group? {
      var j :| IsGroup(j) && p.chat == JidText.String(j);
      GroupChatIsPlain(j);
    }
  }
}
