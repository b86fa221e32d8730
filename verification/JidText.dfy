/** The string form of a JID and its parser, over the bytes of Go's strings. */
module JidText {
  import opened Prelude

  const PLUS: byte := 43
  const MINUS: byte := 45
  const DOT: byte := 46
  const ZERO: byte := 48
  const COLON: byte := 58
  const AT: byte := 64

  datatype Jid = Jid(user: Bytes, agent: nat, device: nat, integrator: nat, server: Bytes)

  /** An agent is an unsigned byte, a device and an integrator have 16 bits. */
  predicate Fits(j: Jid) {
    j.agent < 256 && j.device < 0x1_0000 && j.integrator < 0x1_0000
  }

  // ---------- strings ----------

  /** strings.Split with a separator of one byte. */
  function Split(s: Bytes, sep: byte): (parts: seq<Bytes>)
    ensures |parts| >= 1
  {
    if s == [] then [[]]
    else
      var rest := Split(s[1..], sep);
      if s[0] == sep then [[]] + rest else [[s[0]] + rest[0]] + rest[1..]
  }

  lemma {:induction false} PartsHaveNone(s: Bytes, sep: byte)
    ensures forall i | 0 <= i < |Split(s, sep)| :: sep !in Split(s, sep)[i]
  {
    if s != [] { PartsHaveNone(s[1..], sep); }
  }

  lemma {:induction false} SplitNone(s: Bytes, sep: byte)
    requires sep !in s
    ensures Split(s, sep) == [s]
  {
    if s != [] {
      SplitNone(s[1..], sep);
      assert s == [s[0]] + s[1..];
    }
  }

  lemma {:induction false} SplitAt(a: Bytes, sep: byte, b: Bytes)
    requires sep !in a
    ensures Split(a + [sep] + b, sep) == [a] + Split(b, sep)
  {
    var s := a + [sep] + b;
    if a == [] {
      assert s[1..] == b;
    } else {
      assert s[1..] == a[1..] + [sep] + b;
      SplitAt(a[1..], sep, b);
      assert a == [a[0]] + a[1..];
    }
  }

  // ---------- numbers ----------

  predicate IsDigit(b: byte) {
    48 <= b <= 57
  }

  predicate AllDigits(s: Bytes) {
    s != [] && forall b <- s :: IsDigit(b)
  }

  function Value(s: Bytes): nat
    requires forall b <- s :: IsDigit(b)
  {
    if s == [] then 0
    else
      assert IsDigit(s[|s| - 1]);
      10 * Value(s[..|s| - 1]) + (s[|s| - 1] as int - 48)
  }

  /** strconv.Atoi: an optional sign, at least one digit, and a value of 64 bits. */
  function Atoi(s: Bytes): Option<int> {
    var signed := s != [] && (s[0] == PLUS || s[0] == MINUS);
    var digits := if signed then s[1..] else s;
    if !AllDigits(digits) then None
    else
      var n: int := if signed && s[0] == MINUS then 0 - Value(digits) else Value(digits) as int;
      if -0x8000_0000_0000_0000 <= n < 0x8000_0000_0000_0000 then Some(n) else None
  }

  function Itoa(n: nat): Bytes {
    if n < 10 then [(48 + n) as byte] else Itoa(n / 10) + [(48 + n % 10) as byte]
  }

  lemma {:induction false} ItoaIsDigits(n: nat)
    ensures AllDigits(Itoa(n)) && Value(Itoa(n)) == n
  {
    if n >= 10 {
      ItoaIsDigits(n / 10);
      var s := Itoa(n);
      assert s[..|s| - 1] == Itoa(n / 10);
    } else {
      assert Itoa(n)[..0] == [];
    }
  }

  lemma AtoiUndoesItoa(n: nat)
    requires n < 0x8000_0000_0000_0000
    ensures Atoi(Itoa(n)) == Some(n)
  {
    ItoaIsDigits(n);
    assert Itoa(n)[0] in Itoa(n);
  }

  // ---------- JIDs ----------

  /** What precedes the server; nothing when there is no user either. */
  function UserPart(j: Jid): Bytes {
    if j.agent > 0 then j.user + [DOT] + (Itoa(j.agent) + [COLON] + Itoa(j.device))
    else if j.device > 0 then j.user + [COLON] + Itoa(j.device)
    else j.user
  }

  function String(j: Jid): Bytes {
    if j.agent == 0 && j.device == 0 && j.user == [] then j.server else UserPart(j) + [AT] + j.server
  }

  /** Numbers are cut to the width of their field. */
  function ParseAgentAndDevice(user: Bytes, server: Bytes, ad: Bytes): Option<Jid> {
    var parts := Split(ad, COLON);
    if |parts| > 2 then None
    else match Atoi(parts[0])
      case None => None
      case Some(agent) =>
        if |parts| == 1 then Some(Jid(user, agent % 256, 0, 0, server))
        else match Atoi(parts[1])
          case None => None
          case Some(device) => Some(Jid(user, agent % 256, device % 0x1_0000, 0, server))
  }

  function ParseUser(user: Bytes, server: Bytes): Option<Jid> {
    if DOT in user then
      var parts := Split(user, DOT);
      if |parts| != 2 then None else ParseAgentAndDevice(parts[0], server, parts[1])
    else if COLON in user then
      var parts := Split(user, COLON);
      if |parts| != 2 then None
      else match Atoi(parts[1])
        case None => None
        case Some(device) => Some(Jid(parts[0], 0, device % 0x1_0000, 0, server))
    else Some(Jid(user, 0, 0, 0, server))
  }

  /** Whatever follows a second "@" is ignored. */
  function ParseJid(s: Bytes): Option<Jid> {
    var parts := Split(s, AT);
    if |parts| == 1 then Some(Jid([], 0, 0, 0, parts[0])) else ParseUser(parts[0], parts[1])
  }

  /** The JIDs that their string stands for. */
  predicate Plain(j: Jid) {
    && j.integrator == 0
    && AT !in j.user && AT !in j.server && DOT !in j.user && (j.agent == 0 ==> COLON !in j.user)
  }

  lemma NumbersArePlain(n: nat)
    ensures AT !in Itoa(n) && DOT !in Itoa(n) && COLON !in Itoa(n)
  {
    ItoaIsDigits(n);
  }

  lemma ParsesAgent(j: Jid)
    requires Fits(j) && Plain(j) && j.agent > 0
    ensures AT !in UserPart(j) && ParseUser(UserPart(j), j.server) == Some(j)
  {
    var ad := Itoa(j.agent) + [COLON] + Itoa(j.device);
    NumbersArePlain(j.agent);
    NumbersArePlain(j.device);
    SplitAt(j.user, DOT, ad);
    SplitNone(ad, DOT);
    SplitAt(Itoa(j.agent), COLON, Itoa(j.device));
    SplitNone(Itoa(j.device), COLON);
    AtoiUndoesItoa(j.agent);
    AtoiUndoesItoa(j.device);
    assert UserPart(j)[|j.user|] == DOT;
  }

  lemma ParsesDevice(j: Jid)
    requires Fits(j) && Plain(j) && j.agent == 0 && j.device > 0
    ensures AT !in UserPart(j) && ParseUser(UserPart(j), j.server) == Some(j)
  {
    NumbersArePlain(j.device);
    SplitAt(j.user, COLON, Itoa(j.device));
    SplitNone(Itoa(j.device), COLON);
    AtoiUndoesItoa(j.device);
    assert UserPart(j)[|j.user|] == COLON;
  }

  lemma ParsesUserPart(j: Jid)
    requires Fits(j) && Plain(j)
    ensures AT !in UserPart(j) && ParseUser(UserPart(j), j.server) == Some(j)
  {
    if j.agent > 0 {
      ParsesAgent(j);
    } else if j.device > 0 {
      ParsesDevice(j);
    }
  }

  lemma StringOfPlainParses(j: Jid)
    requires Fits(j) && Plain(j)
    ensures ParseJid(String(j)) == Some(j)
  {
    SplitNone(j.server, AT);
    if j.agent > 0 || j.device > 0 || j.user != [] {
      ParsesUserPart(j);
      SplitAt(UserPart(j), AT, j.server);
    }
  }

  /** What the parser gives never needs its separators escaped. */
  lemma ParsedIsSeparated(user: Bytes, server: Bytes)
    requires AT !in user && AT !in server && ParseUser(user, server).Some?
    ensures var j := ParseUser(user, server).value;
      && j.integrator == 0 && AT !in j.server && DOT !in j.user
      && (forall b <- j.user :: b in user) && (DOT !in user ==> COLON !in j.user)
  {
    PartsHaveNone(user, DOT);
    PartsHaveNone(user, COLON);
    FirstPartIsFront(user, DOT);
    FirstPartIsFront(user, COLON);
  }

  lemma {:induction false} FirstPartIsFront(s: Bytes, sep: byte)
    ensures Split(s, sep)[0] <= s
  {
    if s != [] { FirstPartIsFront(s[1..], sep); }
  }

  lemma ParsedIsPlain(j: Jid)
    requires Fits(j) && ParseJid(String(j)) == Some(j)
    ensures Plain(j)
  {
    var s := String(j);
    var parts := Split(s, AT);
    PartsHaveNone(s, AT);
    if |parts| > 1 {
      ParsedIsSeparated(parts[0], parts[1]);
      if j.agent == 0 { NoDotBefore(j); }
    }
  }

  /** Without an agent the string has no dot before the server that the user does not have. */
  lemma NoDotBefore(j: Jid)
    requires j.agent == 0 && DOT !in j.user && AT !in j.user && AT !in j.server && |Split(String(j), AT)| > 1
    ensures DOT !in Split(String(j), AT)[0]
  {
    NumbersArePlain(j.device);
    if j.device > 0 || j.user != [] {
      SplitAt(UserPart(j), AT, j.server);
    } else {
      SplitNone(j.server, AT);
    }
  }

  /**
    The string of a JID can be parsed, and gives the JID back, exactly when it has no integrator, no
    "@" in user or server, no dot in its user, and without an agent no colon there either.
   */
  lemma ParseUndoesStringExactly(j: Jid)
    requires Fits(j)
    ensures ParseJid(String(j)) == Some(j) <==>
      && j.integrator == 0 && AT !in j.user && AT !in j.server && DOT !in j.user
      && (j.agent == 0 ==> COLON !in j.user)
  {
    if Plain(j) {
      StringOfPlainParses(j);
    } else if ParseJid(String(j)) == Some(j) {
      ParsedIsPlain(j);
    }
  }

  /** So no two such JIDs have one string. */
  lemma StringIsInjective(i: Jid, j: Jid)
    requires Fits(i) && Fits(j) && Plain(i) && Plain(j) && String(i) == String(j)
    ensures i == j
  {
    StringOfPlainParses(i);
    StringOfPlainParses(j);
  }

  /** What was parsed and is printed again parses to the same JID, unless its agent was cut to zero. */
  lemma ReparsesExactly(s: Bytes)
    requires ParseJid(s).Some?
    ensures var j := ParseJid(s).value;
      ParseJid(String(j)) == Some(j) <==> j.agent > 0 || COLON !in j.user
  {
    var parts, j := Split(s, AT), ParseJid(s).value;
    PartsHaveNone(s, AT);
    if |parts| > 1 { ParsedIsSeparated(parts[0], parts[1]); }
    ParseUndoesStringExactly(j);
  }

  /** Such a string exists: the agent reads as zero, and the user holds a colon. */
  lemma ReparseCanFail()
    ensures var s := [97, COLON, 98, DOT, ZERO, AT, 99];
      ParseJid(s) == Some(Jid([97, COLON, 98], 0, 0, 0, [99]))
      && ParseJid(String(ParseJid(s).value)) != ParseJid(s)
  {
    var user, s := [97, COLON, 98], [97, COLON, 98, DOT, ZERO, AT, 99];
    assert s == (user + [DOT] + [ZERO]) + [AT] + [99];
    SplitAt(user + [DOT] + [ZERO], AT, [99]);
    SplitNone([99], AT);
    SplitAt(user, DOT, [ZERO]);
    SplitNone([ZERO], DOT);
    SplitNone([ZERO], COLON);
    assert Itoa(0) == [ZERO];
    AtoiUndoesItoa(0);
    assert (user + [DOT] + [ZERO])[3] == DOT;
    assert user[1] == COLON;
    ReparsesExactly(s);
  }
}
