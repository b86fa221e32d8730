/**
  Votes, reactions and edits encrypted under the secret of the message they refer to.  The key is
  derived from the message ID, the original sender, the modifying sender and the use case run
  together in one string; the receiver tries the sender named by the message key first and the one
  it stored with the secret second.

  HKDF (section 2 of RFC 5869) and AES-GCM are symbolic: a key is the secret and the info it was
  derived from, and a sealed payload opens under exactly the key, nonce and additional data that
  sealed it.
 */
module MsgSecret {
  import opened Prelude

  datatype Jid = Jid(user: string, agent: nat, device: nat, server: string, integrator: nat)

  const EMPTY := Jid("", 0, 0, "", 0)

  // types.DefaultUserServer and types.HiddenUserServer
  const USER_SERVER := "s.whatsapp.net"
  const LID_SERVER := "lid"

  function ToNonAD(j: Jid): Jid {
    Jid(j.user, 0, 0, j.server, j.integrator)
  }

  /** The string form of a JID without agent and device. */
  function PlainString(j: Jid): string {
    if j.user != "" then j.user + "@" + j.server else j.server
  }

  datatype UseCase =
    | Unnamed
    | PollVote
    | Reaction
    | Comment
    | ReportToken
    | EventResponse
    | EventEdit
    | MessageEdit
    | PollEdit
    | PollAddOption
    | BotMsg

  function Name(u: UseCase): string {
    match u
    case Unnamed => ""
    case PollVote => "Poll Vote"
    case Reaction => "Enc Reaction"
    case Comment => "Enc Comment"
    case ReportToken => "Report Token"
    case EventResponse => "Event Response"
    case EventEdit => "Event Edit"
    case MessageEdit => "Message Edit"
    case PollEdit => "Poll Edit"
    case PollAddOption => "Poll Add Option"
    case BotMsg => "Bot Message"
  }

  datatype Key = Hkdf(secret: Bytes, info: string)

  datatype Payload = Sealed(key: Key, iv: Bytes, additional: string, plaintext: Bytes) | Garbage(bytes: Bytes)

  function Open(key: Key, iv: Bytes, payload: Payload, additional: string): Option<Bytes> {
    if payload.Sealed? && payload.key == key && payload.iv == iv && payload.additional == additional
    then Some(payload.plaintext) else None
  }

  // ---------- keys ----------

  function Info(u: UseCase, sender: Jid, id: string, origSender: Jid): string {
    id + PlainString(ToNonAD(origSender)) + PlainString(ToNonAD(sender)) + Name(u)
  }

  function GenerateKey(u: UseCase, sender: Jid, id: string, origSender: Jid, secret: Bytes): Key {
    Hkdf(secret, Info(u, sender, id, origSender))
  }

  predicate Bound(u: UseCase) {
    u.PollVote? || u.EventResponse? || u.Unnamed?
  }

  /** Only some use cases bind the ID and the modifying sender as additional data. */
  function Additional(u: UseCase, sender: Jid, id: string): string {
    if Bound(u) then id + "\0" + PlainString(ToNonAD(sender)) else ""
  }

  // ---------- the original sender ----------

  datatype MessageKey = MessageKey(fromMe: bool, remote: string, participant: string, id: string)

  datatype Incoming = Incoming(chat: Jid, sender: Jid)

  datatype Error = BadSender | NotLoggedIn | SecretNotFound | NotDecrypted

  type Parse = string -> Option<Jid>

  predicate IsUser(j: Jid) {
    j.server == USER_SERVER || j.server == LID_SERVER
  }

  function OrigSender(parse: Parse, msg: Incoming, key: MessageKey): Result<Jid, Error> {
    if key.fromMe then Ok(msg.sender)
    else if IsUser(msg.chat) then
      match parse(key.remote)
      case Some(sender) => Ok(sender)
      case None => Err(BadSender)
    else
      match parse(key.participant)
      case Some(sender) => if IsUser(sender) then Ok(sender) else Err(BadSender)
      case None => Err(BadSender)
  }

  // ---------- encrypting and decrypting ----------

  datatype Secret = Secret(key: Bytes, sender: Jid)

  /** Stored by chat, sender and message ID, the JIDs without agent and device. */
  type SecretStore = map<(Jid, Jid, string), Secret>

  function GetSecret(store: SecretStore, chat: Jid, sender: Jid, id: string): Option<Secret> {
    var k := (ToNonAD(chat), ToNonAD(sender), id);
    if k in store then Some(store[k]) else None
  }

  datatype Encrypted = Encrypted(payload: Payload, iv: Bytes)

  function Encrypt(store: SecretStore, ownId: Jid, chat: Jid, origSender: Jid, id: string, u: UseCase,
                   plaintext: Bytes, iv: Bytes): Result<Encrypted, Error>
  {
    if ownId.server == "" then Err(NotLoggedIn)
    else match GetSecret(store, chat, origSender, id)
      case None => Err(SecretNotFound)
      case Some(s) =>
        var key := GenerateKey(u, ownId, id, s.sender, s.key);
        Ok(Encrypted(Sealed(key, iv, Additional(u, ownId, id), plaintext), iv))
  }

  function TryOpen(u: UseCase, sender: Jid, id: string, origSender: Jid, secret: Bytes, e: Encrypted): Option<Bytes> {
    Open(GenerateKey(u, sender, id, origSender, secret), e.iv, e.payload, Additional(u, sender, id))
  }

  function Decrypt(parse: Parse, store: SecretStore, msg: Incoming, u: UseCase, e: Encrypted, key: MessageKey)
    : Result<Bytes, Error>
  {
    match OrigSender(parse, msg, key)
    case Err(error) => Err(error)
    case Ok(origSender) =>
      match GetSecret(store, msg.chat, origSender, key.id)
      case None => Err(SecretNotFound)
      case Some(s) =>
        var first := TryOpen(u, msg.sender, key.id, origSender, s.key, e);
        if first.Some? then Ok(first.value)
        else if origSender == s.sender then Err(NotDecrypted)
        else
          var second := TryOpen(u, msg.sender, key.id, s.sender, s.key, e);
          if second.Some? then Ok(second.value) else Err(NotDecrypted)
  }

  // ---------- who is taken for the original sender ----------

  /**
    The message key names the sender: the user behind the message itself when it is from the same user,
    the remote JID in a user chat, and the participant, who must be a user, anywhere else.
   */
  ghost predicate NamesSender(parse: Parse, msg: Incoming, key: MessageKey, sender: Jid) {
    if key.fromMe then sender == msg.sender
    else if msg.chat.server in {"s.whatsapp.net", "lid"} then parse(key.remote) == Some(sender)
    else parse(key.participant) == Some(sender) && sender.server in {"s.whatsapp.net", "lid"}
  }

  /** Decryption is refused for its sender exactly when the key names none. */
  lemma BadSenderExactly(parse: Parse, store: SecretStore, msg: Incoming, u: UseCase, e: Encrypted, key: MessageKey)
    ensures Decrypt(parse, store, msg, u, e, key) == Err(BadSender) <==>
      && !key.fromMe
      && if msg.chat.server in {"s.whatsapp.net", "lid"} then parse(key.remote).None?
         else parse(key.participant).None?
              || parse(key.participant).value.server !in {"s.whatsapp.net", "lid"}
  {}

  // ---------- round trip ----------

  predicate SameUser(a: Jid, b: Jid) {
    ToNonAD(a) == ToNonAD(b)
  }

  /**
    Both sides hold the same secret for a message, the receiver looking it up under the given sender,
    and the sender stored by the encrypter is, up to agent and device, either that one or the one that
    the receiver stored.
   */
  ghost predicate ShareSecret(mine: SecretStore, theirs: SecretStore, chat: Jid, origSender: Jid, msg: Incoming,
                              sender: Jid, id: string)
  {
    var s, t := GetSecret(mine, chat, origSender, id), GetSecret(theirs, msg.chat, sender, id);
    && s.Some? && t.Some? && s.value.key == t.value.key
    && (SameUser(s.value.sender, sender) || SameUser(s.value.sender, t.value.sender))
  }

  /**
    The encrypter is the sender the receiver sees, and both share the secret under the sender that the
    message key names: then the receiver gets the plaintext, for every use case.
   */
  lemma RoundTrip(parse: Parse, mine: SecretStore, theirs: SecretStore, ownId: Jid, chat: Jid, origSender: Jid,
                  u: UseCase, plaintext: Bytes, iv: Bytes, msg: Incoming, key: MessageKey, sender: Jid)
    requires ownId.server != "" && SameUser(ownId, msg.sender)
    requires NamesSender(parse, msg, key, sender)
    requires ShareSecret(mine, theirs, chat, origSender, msg, sender, key.id)
    ensures var e := Encrypt(mine, ownId, chat, origSender, key.id, u, plaintext, iv);
      e.Ok? && Decrypt(parse, theirs, msg, u, e.value, key) == Ok(plaintext)
  {}

  /** In a group, a payload about the message of the named participant opens, whatever the remote JID says. */
  lemma GroupRoundTrip(parse: Parse, mine: SecretStore, theirs: SecretStore, ownId: Jid, chat: Jid, origSender: Jid,
                       u: UseCase, plaintext: Bytes, iv: Bytes, msg: Incoming, remote: string, participant: string,
                       id: string, author: Jid)
    requires ownId.server != "" && SameUser(ownId, msg.sender) && msg.chat.server == "g.us"
    requires parse(participant) == Some(author) && author.server in {"s.whatsapp.net", "lid"}
    requires ShareSecret(mine, theirs, chat, origSender, msg, author, id)
    ensures var e := Encrypt(mine, ownId, chat, origSender, id, u, plaintext, iv);
      e.Ok? && Decrypt(parse, theirs, msg, u, e.value, MessageKey(false, remote, participant, id)) == Ok(plaintext)
  {
    RoundTrip(parse, mine, theirs, ownId, chat, origSender, u, plaintext, iv, msg,
              MessageKey(false, remote, participant, id), author);
  }

  /** In a user chat, about the message of the remote JID, whatever the participant says. */
  lemma ChatRoundTrip(parse: Parse, mine: SecretStore, theirs: SecretStore, ownId: Jid, chat: Jid, origSender: Jid,
                      u: UseCase, plaintext: Bytes, iv: Bytes, msg: Incoming, remote: string, participant: string,
                      id: string, author: Jid)
    requires ownId.server != "" && SameUser(ownId, msg.sender) && msg.chat.server in {"s.whatsapp.net", "lid"}
    requires parse(remote) == Some(author)
    requires ShareSecret(mine, theirs, chat, origSender, msg, author, id)
    ensures var e := Encrypt(mine, ownId, chat, origSender, id, u, plaintext, iv);
      e.Ok? && Decrypt(parse, theirs, msg, u, e.value, MessageKey(false, remote, participant, id)) == Ok(plaintext)
  {
    RoundTrip(parse, mine, theirs, ownId, chat, origSender, u, plaintext, iv, msg,
              MessageKey(false, remote, participant, id), author);
  }

  /** About a message of the same user, in any chat and whatever both fields say. */
  lemma OwnRoundTrip(parse: Parse, mine: SecretStore, theirs: SecretStore, ownId: Jid, chat: Jid, origSender: Jid,
                     u: UseCase, plaintext: Bytes, iv: Bytes, msg: Incoming, remote: string, participant: string,
                     id: string)
    requires ownId.server != "" && SameUser(ownId, msg.sender)
    requires ShareSecret(mine, theirs, chat, origSender, msg, msg.sender, id)
    ensures var e := Encrypt(mine, ownId, chat, origSender, id, u, plaintext, iv);
      e.Ok? && Decrypt(parse, theirs, msg, u, e.value, MessageKey(true, remote, participant, id)) == Ok(plaintext)
  {
    RoundTrip(parse, mine, theirs, ownId, chat, origSender, u, plaintext, iv, msg,
              MessageKey(true, remote, participant, id), msg.sender);
  }

  /**
    Exactly when a payload decrypts: it was sealed under the stored secret with the additional data
    the receiver computes, and its info string is the one of either candidate sender, the one that the
    message key names or the one that is stored.
   */
  lemma DecryptsExactly(parse: Parse, store: SecretStore, msg: Incoming, u: UseCase, e: Encrypted, key: MessageKey,
                        sender: Jid, s: Secret, plaintext: Bytes)
    requires NamesSender(parse, msg, key, sender)
    requires GetSecret(store, msg.chat, sender, key.id) == Some(s)
    ensures var voter := PlainString(ToNonAD(msg.sender));
      Decrypt(parse, store, msg, u, e, key) == Ok(plaintext) <==>
      exists from | from in {sender, s.sender} ::
        e.payload == Sealed(Hkdf(s.key, key.id + PlainString(ToNonAD(from)) + voter + Name(u)), e.iv,
                            if u in {PollVote, EventResponse, Unnamed} then key.id + "\0" + voter else "", plaintext)
  {}

  // ---------- what the strings pin down ----------

  predicate NulFree(s: string) {
    forall c <- s :: c != '\0'
  }

  /** Bound use cases pin the ID and the modifying sender, so a vote cannot pass for another voter's. */
  lemma AdditionalPinsSender(u: UseCase, a: Jid, id: string, b: Jid, id': string)
    requires u in {PollVote, EventResponse, Unnamed} && NulFree(id) && NulFree(id')
    requires Additional(u, a, id) == Additional(u, b, id')
    ensures id == id' && PlainString(ToNonAD(a)) == PlainString(ToNonAD(b))
  {
    var x, y := Additional(u, a, id), Additional(u, b, id');
    assert x[|id|] == '\0' && y[|id'|] == '\0';
    assert forall i | 0 <= i < |id| :: x[i] == id[i] && id[i] in id;
    assert forall i | 0 <= i < |id'| :: y[i] == id'[i] && id'[i] in id';
    assert |id| == |id'|;
    assert id == x[..|id|] == y[..|id|] == id';
    assert PlainString(ToNonAD(a)) == x[|id| + 1..];
    assert PlainString(ToNonAD(b)) == y[|id| + 1..];
  }

  /** What decrypts as a bound use case was sealed by the sender the receiver sees, for that message. */
  lemma VoteIsAttributed(parse: Parse, mine: SecretStore, theirs: SecretStore, ownId: Jid, chat: Jid, origSender: Jid,
                         id: string, u: UseCase, plaintext: Bytes, iv: Bytes, msg: Incoming, key: MessageKey)
    requires u in {PollVote, EventResponse, Unnamed} && NulFree(id) && NulFree(key.id)
    requires var e := Encrypt(mine, ownId, chat, origSender, id, u, plaintext, iv);
      e.Ok? && Decrypt(parse, theirs, msg, u, e.value, key).Ok?
    ensures id == key.id && PlainString(ToNonAD(ownId)) == PlainString(ToNonAD(msg.sender))
    ensures Decrypt(parse, theirs, msg, u, Encrypt(mine, ownId, chat, origSender, id, u, plaintext, iv).value, key)
         == Ok(plaintext)
  {
    AdditionalPinsSender(u, ownId, id, msg.sender, key.id);
  }

  /** The other use cases pin the modifying sender once the original sender is known. */
  lemma InfoPinsSender(u: UseCase, a: Jid, b: Jid, id: string, origSender: Jid)
    requires Info(u, a, id, origSender) == Info(u, b, id, origSender)
    ensures PlainString(ToNonAD(a)) == PlainString(ToNonAD(b))
  {
    var front := id + PlainString(ToNonAD(origSender));
    var x, y := PlainString(ToNonAD(a)), PlainString(ToNonAD(b));
    assert front + x + Name(u) == front + y + Name(u);
    assert |x| == |y|;
    assert x == (front + x + Name(u))[|front|..|front| + |x|];
    assert y == (front + y + Name(u))[|front|..|front| + |y|];
  }

  /** A payload sealed for one use is never taken for another about the same message. */
  lemma InfoPinsUse(u: UseCase, v: UseCase, sender: Jid, id: string, origSender: Jid)
    requires Info(u, sender, id, origSender) == Info(v, sender, id, origSender)
    ensures u == v
  {
    var front := id + PlainString(ToNonAD(origSender)) + PlainString(ToNonAD(sender));
    assert Name(u) == (front + Name(u))[|front|..] == (front + Name(v))[|front|..] == Name(v);
    NamesDiffer(u, v);
  }

  lemma NamesDiffer(u: UseCase, v: UseCase)
    requires Name(u) == Name(v)
    ensures u == v
  {
    if |Name(u)| == 9 { assert Name(u)[8] == Name(v)[8] && Name(u)[0] == Name(v)[0]; }
    if |Name(u)| > 6 { assert Name(u)[5] == Name(v)[5] && Name(u)[0] == Name(v)[0] && Name(u)[1] == Name(v)[1]; }
  }

  /** The run-together inputs are not: different IDs and original senders can give one key. */
  lemma InfoIsNotInjective(u: UseCase, sender: Jid)
    ensures var a, b := Jid("12", 0, 0, LID_SERVER, 0), Jid("2", 0, 0, LID_SERVER, 0);
      Info(u, sender, "A", a) == Info(u, sender, "A1", b)
  {}
}
