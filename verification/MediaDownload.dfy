/**
  Downloading a media file: the form that keeps everything in memory, and the form that streams into
  a file, retries by seeking back, and decrypts in place.  The file has a cursor and may hold bytes
  from before or from failed attempts.

  SHA-256, the media HMAC and AES are functions of the parameters; the server and the clock are a
  list of attempts, one for each request.
 */
module MediaDownload {
  import opened Prelude
  import opened CbcFile

  const HMAC_LENGTH: nat := 10

  const ATTEMPTS: nat := 5

  /** What a download is for; `checksum` and the media key are nil for unencrypted media. */
  datatype Media = Media(checksum: Option<Bytes>, hasKey: bool, iv: Bytes, length: int, plainHash: Bytes,
                         warnings: bool, sha: Bytes -> Bytes, hmac: Bytes -> Bytes, open: Open)

  ghost predicate Sound(m: Media) {
    && (forall b :: |m.sha(b)| == 32)
    && (forall b :: |m.hmac(b)| == HMAC_LENGTH)
    && OpensBlocks(m.open)
  }

  /**
    A failed request or a body that breaks off: worth a retry, final for every host (403, 404, 410,
    a cancelled context), or neither.
   */
  datatype NetError = Transient | Gone | Fatal

  /**
    One request: it fails, or a body arrives, whole when `broken` is None.  `allocate` is the content
    length that the file is grown to first, `cancel` whether the wait before the next try is cut off.
   */
  datatype Attempt =
    | Refused(error: NetError, cancel: bool)
    | Body(bytes: Bytes, allocate: nat, broken: Option<NetError>, cancel: bool)

  datatype Error =
    | Network(error: NetError)
    | Cancelled
    | TooShort
    | BadEncHash
    | BadMac
    | BadCiphertext
    | BadLength
    | BadPlainHash

  const SILENT := Refused(Fatal, false)

  function At(attempts: seq<Attempt>): Attempt {
    if attempts == [] then SILENT else attempts[0]
  }

  function Next(attempts: seq<Attempt>): seq<Attempt> {
    if attempts == [] then [] else attempts[1..]
  }

  predicate Retries(e: Error) {
    e == Network(Transient)
  }

  // ---------- in memory ----------

  datatype Fetched = Fetched(file: Bytes, mac: Option<Bytes>)

  function FetchOnce(m: Media, a: Attempt): Result<Fetched, Error> {
    if a.Refused? then Err(Network(a.error))
    else if a.broken.Some? then Err(Network(a.broken.value))
    else if m.checksum.None? then Ok(Fetched(a.bytes, None))
    else if |a.bytes| <= HMAC_LENGTH then Err(TooShort)
    else if |m.checksum.value| == 32 && m.sha(a.bytes) != m.checksum.value then Err(BadEncHash)
    else
      var n := |a.bytes| - HMAC_LENGTH;
      Ok(Fetched(a.bytes[..n], Some(a.bytes[n..])))
  }

  /** The last of the retries hands its error on. */
  function FetchWithRetries(m: Media, attempts: seq<Attempt>, left: nat): Result<Fetched, Error>
    requires left > 0
    decreases left
  {
    var r := FetchOnce(m, At(attempts));
    if r.Ok? || !Retries(r.error) then r
    else if At(attempts).cancel then Err(Cancelled)
    else if left == 1 then r
    else FetchWithRetries(m, Next(attempts), left - 1)
  }

  predicate IsPlain(m: Media, mac: Option<Bytes>) {
    !m.hasKey && m.checksum.None? && mac.None?
  }

  function Warned(m: Media, data: Bytes, hashRequired: bool): Result<Bytes, Error> {
    if !m.warnings then Ok(data)
    else if m.length >= 0 && |data| != m.length then Err(BadLength)
    else if (hashRequired || |m.plainHash| == 32) && m.sha(data) != m.plainHash then Err(BadPlainHash)
    else Ok(data)
  }

  function Download(m: Media, attempts: seq<Attempt>): Result<Bytes, Error> {
    var r := FetchWithRetries(m, attempts, ATTEMPTS);
    if r.Err? then Err(r.error)
    else if IsPlain(m, r.value.mac) then Ok(r.value.file)
    else if r.value.mac != Some(m.hmac(r.value.file)) then Err(BadMac)
    else
      var plain := Decrypt(m.open, m.iv, r.value.file);
      if plain.None? then Err(BadCiphertext) else Warned(m, plain.value, false)
  }

  // ---------- into a file ----------

  datatype Disk = Disk(content: Bytes, cursor: nat)

  datatype Stored = Stored(disk: Disk, result: Result<Option<Bytes>, Error>)

  function StoreOnce(m: Media, d: Disk, a: Attempt): Stored {
    if a.Refused? then Stored(d, Err(Network(a.error)))
    else
      var size := |a.bytes|;
      var written := Overlay(Allocated(d.content, a.allocate), d.cursor, a.bytes);
      var after := Disk(written, d.cursor + size);
      if a.broken.Some? then Stored(after, Err(Network(a.broken.value)))
      else if m.checksum.None? then Stored(after, Ok(None))
      else if size <= HMAC_LENGTH then Stored(after, Err(TooShort))
      else if |m.checksum.value| == 32 && m.sha(a.bytes) != m.checksum.value then Stored(after, Err(BadEncHash))
      else
        var n := size - HMAC_LENGTH;
        assert |written| >= size;
        Stored(after.(content := written[..n]), Ok(Some(written[n..size])))
  }

  /** Each retry starts from the beginning of the file; after the last one the Seek has hidden the error. */
  function StoreWithRetries(m: Media, d: Disk, attempts: seq<Attempt>, left: nat): Stored
    decreases left
  {
    if left == 0 then Stored(d, Ok(None))
    else
      var r := StoreOnce(m, d, At(attempts));
      if r.result.Ok? || !Retries(r.result.error) then r
      else
        var rewound := r.disk.(cursor := 0);
        if At(attempts).cancel then Stored(rewound, Err(Cancelled))
        else StoreWithRetries(m, rewound, Next(attempts), left - 1)
  }

  datatype Saved = Saved(disk: Disk, error: Option<Error>)

  /** From the MAC check on; `content` is the downloaded ciphertext. */
  function Finish(m: Media, content: Bytes, mac: Option<Bytes>): Saved {
    if mac != Some(m.hmac(content)) then Saved(Disk(content, |content|), Some(BadMac))
    else
      var d := InPlace(m.open, m.iv, content);
      if !d.ok then Saved(Disk(d.content, d.cursor), Some(BadCiphertext))
      else
        var w := Warned(m, d.content, true);
        var cursor := if m.warnings && w != Err(BadLength) then |d.content| else d.cursor;
        Saved(Disk(d.content, cursor), if w.Ok? then None else Some(w.error))
  }

  function DownloadToFile(m: Media, d: Disk, attempts: seq<Attempt>): Saved {
    var r := StoreWithRetries(m, d, attempts, ATTEMPTS);
    if r.result.Err? then Saved(r.disk, Some(r.result.error))
    else if IsPlain(m, r.result.value) then Saved(r.disk, None)
    else Finish(m, r.disk.content, r.result.value)
  }

  // ---------- several hosts ----------

  /** Errors after which no other host is tried. */
  predicate Final(e: Error) {
    e in {BadLength, BadPlainHash, Cancelled, Network(Gone)}
  }

  function DownloadFromHosts(m: Media, hosts: seq<seq<Attempt>>): Result<Bytes, Error> {
    if hosts == [] then Ok([])
    else
      var r := Download(m, hosts[0]);
      if r.Ok? || Final(r.error) || |hosts| == 1 then r else DownloadFromHosts(m, hosts[1..])
  }

  /** The cursor stays where the host before left it. */
  function DownloadFromHostsToFile(m: Media, d: Disk, hosts: seq<seq<Attempt>>): Saved
    decreases |hosts|
  {
    if hosts == [] then Saved(d, None)
    else
      var s := DownloadToFile(m, d, hosts[0]);
      if s.error.None? || Final(s.error.value) || |hosts| == 1 then s
      else DownloadFromHostsToFile(m, s.disk, hosts[1..])
  }

  // ---------- the client's methods ----------

  ghost function DiskOf(file: File): Disk
    reads file
  {
    Disk(file.content, file.cursor)
  }

  class Downloader {
    const m: Media

    constructor (m: Media)
      ensures this.m == m
    {
      this.m := m;
    }

    method DownloadMedia(a: Attempt) returns (r: Result<Bytes, Error>)
      ensures r == if a.Refused? then Err(Network(a.error))
                   else if a.broken.Some? then Err(Network(a.broken.value)) else Ok(a.bytes)
    {
      if a.Refused? {
        return Err(Network(a.error));
      }
      r := if a.broken.Some? then Err(Network(a.broken.value)) else Ok(a.bytes);
    }

    method DownloadEncryptedMedia(a: Attempt, checksum: Bytes) returns (r: Result<Fetched, Error>)
      requires m.checksum == Some(checksum)
      ensures r == FetchOnce(m, a)
    {
      var data := DownloadMedia(a);
      if data.Err? {
        return Err(data.error);
      } else if |data.value| <= HMAC_LENGTH {
        return Err(TooShort);
      }
      var n := |data.value| - HMAC_LENGTH;
      if |checksum| == 32 && m.sha(data.value) != checksum {
        return Err(BadEncHash);
      }
      return Ok(Fetched(data.value[..n], Some(data.value[n..])));
    }

    method DownloadWithRetries(attempts: seq<Attempt>) returns (r: Result<Fetched, Error>)
      ensures r == FetchWithRetries(m, attempts, ATTEMPTS)
    {
      var rest := attempts;
      r := Ok(Fetched([], None));
      for retryNum := 0 to ATTEMPTS
        invariant retryNum < ATTEMPTS ==>
          FetchWithRetries(m, rest, ATTEMPTS - retryNum) == FetchWithRetries(m, attempts, ATTEMPTS)
        invariant retryNum == ATTEMPTS ==> r == FetchWithRetries(m, attempts, ATTEMPTS)
      {
        if m.checksum.None? {
          var data := DownloadMedia(At(rest));
          r := if data.Ok? then Ok(Fetched(data.value, None)) else Err(data.error);
        } else {
          r := DownloadEncryptedMedia(At(rest), m.checksum.value);
        }
        if r.Ok? || !Retries(r.error) {
          return;
        }
        if At(rest).cancel {
          return Err(Cancelled);
        }
        rest := Next(rest);
      }
    }

    method DownloadAndDecrypt(attempts: seq<Attempt>) returns (r: Result<Bytes, Error>)
      ensures r == Download(m, attempts)
    {
      var fetched := DownloadWithRetries(attempts);
      if fetched.Err? {
        return Err(fetched.error);
      }
      var data, mac := fetched.value.file, fetched.value.mac;
      if !m.hasKey && m.checksum.None? && mac.None? {
        return Ok(data);
      } else if mac != Some(m.hmac(data)) {
        return Err(BadMac);
      }
      var plain := Decrypt(m.open, m.iv, data);
      if plain.None? {
        return Err(BadCiphertext);
      }
      if m.warnings {
        if m.length >= 0 && |plain.value| != m.length {
          return Err(BadLength);
        } else if |m.plainHash| == 32 && m.sha(plain.value) != m.plainHash {
          return Err(BadPlainHash);
        }
      }
      return Ok(plain.value);
    }

    method DownloadMediaToFile(a: Attempt, file: File) returns (size: nat, error: Option<Error>)
      modifies file
      ensures if a.Refused? then DiskOf(file) == old(DiskOf(file)) && error == Some(Network(a.error)) else
        && DiskOf(file) == Disk(Overlay(Allocated(old(file.content), a.allocate), old(file.cursor), a.bytes),
                                old(file.cursor) + |a.bytes|)
        && size == |a.bytes|
        && error == if a.broken.Some? then Some(Network(a.broken.value)) else None
    {
      if a.Refused? {
        return 0, Some(Network(a.error));
      }
      file.Allocate(a.allocate);
      file.Write(a.bytes);
      return |a.bytes|, if a.broken.Some? then Some(Network(a.broken.value)) else None;
    }

    method DownloadEncryptedMediaToFile(a: Attempt, checksum: Bytes, file: File)
      returns (r: Result<Option<Bytes>, Error>)
      requires m.checksum == Some(checksum)
      modifies file
      ensures Stored(DiskOf(file), r) == StoreOnce(m, old(DiskOf(file)), a)
    {
      var size, error := DownloadMediaToFile(a, file);
      if error.Some? {
        return Err(error.value);
      } else if size <= HMAC_LENGTH {
        return Err(TooShort);
      } else if |checksum| == 32 && m.sha(a.bytes) != checksum {
        return Err(BadEncHash);
      }
      var mac := file.content[size - HMAC_LENGTH..size];
      file.Truncate(size - HMAC_LENGTH);
      return Ok(Some(mac));
    }

    method DownloadWithRetriesToFile(attempts: seq<Attempt>, file: File) returns (r: Result<Option<Bytes>, Error>)
      modifies file
      ensures Stored(DiskOf(file), r) == StoreWithRetries(m, old(DiskOf(file)), attempts, ATTEMPTS)
    {
      var rest := attempts;
      r := Ok(None);
      for retryNum := 0 to ATTEMPTS
        invariant StoreWithRetries(m, DiskOf(file), rest, ATTEMPTS - retryNum)
               == StoreWithRetries(m, old(DiskOf(file)), attempts, ATTEMPTS)
        invariant retryNum == ATTEMPTS ==> r == Ok(None)
      {
        if m.checksum.None? {
          var _, error := DownloadMediaToFile(At(rest), file);
          r := if error.Some? then Err(error.value) else Ok(None);
        } else {
          r := DownloadEncryptedMediaToFile(At(rest), m.checksum.value, file);
        }
        if r.Ok? || !Retries(r.error) {
          return;
        }
        file.SeekStart();
        r := Ok(None);
        if At(rest).cancel {
          return Err(Cancelled);
        }
        rest := Next(rest);
      }
    }

    method ValidateMediaFile(file: File, mac: Option<Bytes>) returns (ok: bool)
      modifies file`cursor
      ensures ok == (mac == Some(m.hmac(file.content))) && file.cursor == |file.content|
    {
      file.SeekStart();
      var data := file.ReadRest();
      assert data == file.content;
      ok := mac == Some(m.hmac(data));
    }

    method DownloadAndDecryptToFile(attempts: seq<Attempt>, file: File) returns (error: Option<Error>)
      requires OpensBlocks(m.open)
      modifies file
      ensures Saved(DiskOf(file), error) == DownloadToFile(m, old(DiskOf(file)), attempts)
    {
      var r := DownloadWithRetriesToFile(attempts, file);
      if r.Err? {
        return Some(r.error);
      } else if !m.hasKey && m.checksum.None? && r.value.None? {
        return None;
      }
      error := FinishFile(r.value, file);
    }

    /** The host loop; `hosts` holds the attempts at each of them. */
    method DownloadMediaWithPathToFile(hosts: seq<seq<Attempt>>, file: File) returns (error: Option<Error>)
      requires OpensBlocks(m.open)
      modifies file
      ensures Saved(DiskOf(file), error) == DownloadFromHostsToFile(m, old(DiskOf(file)), hosts)
    {
      error := None;
      for i := 0 to |hosts|
        invariant DownloadFromHostsToFile(m, DiskOf(file), hosts[i..])
               == DownloadFromHostsToFile(m, old(DiskOf(file)), hosts)
        invariant i == |hosts| ==> error == None
      {
        assert hosts[i..][1..] == hosts[i + 1..];
        error := DownloadAndDecryptToFile(hosts[i], file);
        if error.None? || Final(error.value) || i >= |hosts| - 1 {
          return;
        }
      }
    }

    /** The MAC check, the decryption in place and the warnings. */
    method FinishFile(mac: Option<Bytes>, file: File) returns (error: Option<Error>)
      requires OpensBlocks(m.open)
      modifies file
      ensures Saved(DiskOf(file), error) == Finish(m, old(file.content), mac)
    {
      var valid := ValidateMediaFile(file, mac);
      if !valid {
        return Some(BadMac);
      }
      file.SeekStart();
      var ok := DecryptFile(m.open, m.iv, file);
      if !ok {
        return Some(BadCiphertext);
      }
      if m.warnings {
        if m.length >= 0 && |file.content| != m.length {
          return Some(BadLength);
        }
        file.SeekStart();
        var data := file.ReadRest();
        assert data == file.content;
        if m.sha(data) != m.plainHash {
          return Some(BadPlainHash);
        }
      }
      return None;
    }
  }

  // ---------- encrypted media from one host ----------

  /** From the start of the file, one attempt stores what it would return in memory. */
  lemma AttemptsAgree(m: Media, d: Disk, a: Attempt)
    requires m.checksum.Some? && d.cursor == 0
    ensures var f, s := FetchOnce(m, a), StoreOnce(m, d, a);
      match f
      case Err(e) => s.result == Err(e)
      case Ok(v) => s.result == Ok(v.mac) && s.disk.content == v.file && v.file != [] && v.mac.Some?
  {
    if a.Body? {
      var written := Overlay(Allocated(d.content, a.allocate), 0, a.bytes);
      if |a.bytes| > HMAC_LENGTH {
        var n := |a.bytes| - HMAC_LENGTH;
        assert written[..|a.bytes|] == a.bytes;
        assert written[..n] == a.bytes[..n];
        assert written[n..|a.bytes|] == a.bytes[n..];
      }
    }
  }

  /** The loops agree, but for the error that the Seek after a fifth transient failure hides. */
  lemma {:induction false} RetriesAgree(m: Media, d: Disk, attempts: seq<Attempt>, left: nat)
    requires m.checksum.Some? && d.cursor == 0 && left > 0
    ensures var f, s := FetchWithRetries(m, attempts, left), StoreWithRetries(m, d, attempts, left);
      match f
      case Err(e) => s.result == if Retries(e) then Ok(None) else Err(e)
      case Ok(v) => s.result == Ok(v.mac) && s.disk.content == v.file && v.file != [] && v.mac.Some?
    decreases left
  {
    AttemptsAgree(m, d, At(attempts));
    var s := StoreOnce(m, d, At(attempts));
    if s.result.Err? && Retries(s.result.error) && !At(attempts).cancel {
      if left > 1 {
        RetriesAgree(m, s.disk.(cursor := 0), Next(attempts), left - 1);
      }
    }
  }

  /** What the download leaves in the file and returns is what the form in memory has fetched. */
  ghost predicate FetchesAlike(m: Media, d: Disk, attempts: seq<Attempt>) {
    var f, s := FetchWithRetries(m, attempts, ATTEMPTS), StoreWithRetries(m, d, attempts, ATTEMPTS);
    match f
    case Err(e) => s.result == if Retries(e) then Ok(None) else Err(e)
    case Ok(v) => s.result == Ok(v.mac) && s.disk.content == v.file && v.file != [] && v.mac.Some?
  }

  /** Success, bytes and errors of both forms, with exhausted retries read as a bad MAC. */
  predicate SameOutcome(m: Media, mem: Result<Bytes, Error>, saved: Saved) {
    && (saved.error.None? <==> mem.Ok? && (m.warnings ==> |m.plainHash| == 32))
    && (saved.error.None? ==> saved.disk.content == mem.value)
    && (mem.Ok? && saved.error.Some? ==> saved.error == Some(BadPlainHash))
    && (mem.Err? ==> saved.error == Some(if Retries(mem.error) then BadMac else mem.error))
  }

  lemma AlikeFetchesEndAlike(m: Media, d: Disk, attempts: seq<Attempt>)
    requires Sound(m) && m.checksum.Some? && FetchesAlike(m, d, attempts)
    ensures SameOutcome(m, Download(m, attempts), DownloadToFile(m, d, attempts))
  {
    var f := FetchWithRetries(m, attempts, ATTEMPTS);
    if f.Ok? {
      InPlaceDecrypts(m.open, m.iv, f.value.file);
    }
  }

  /**
    For encrypted media and a file whose cursor is at its start, whatever the file held and however
    the attempts go: the file form succeeds exactly when the form in memory does, given a plaintext
    hash of 32 bytes or no warnings, and then the file holds the same bytes and nothing else.  The
    errors agree too, except that exhausted retries read as a bad MAC.
   */
  lemma FileRefinesMemory(m: Media, d: Disk, attempts: seq<Attempt>)
    requires Sound(m) && m.checksum.Some? && d.cursor == 0
    ensures var mem, saved := Download(m, attempts), DownloadToFile(m, d, attempts);
      && (saved.error.None? <==> mem.Ok? && (m.warnings ==> |m.plainHash| == 32))
      && (saved.error.None? ==> saved.disk.content == mem.value)
      && (mem.Ok? && saved.error.Some? ==> saved.error == Some(BadPlainHash))
      && (mem.Err? ==> saved.error == Some(if Retries(mem.error) then BadMac else mem.error))
  {
    RetriesAgree(m, d, attempts, ATTEMPTS);
    AlikeFetchesEndAlike(m, d, attempts);
  }

  /** With a media key but no hash to ask for, both forms always fail: there is no MAC to check. */
  lemma KeyWithoutChecksumFails(m: Media, d: Disk, attempts: seq<Attempt>)
    requires m.checksum.None? && m.hasKey
    ensures Download(m, attempts).Err? && DownloadToFile(m, d, attempts).error.Some?
  {
    NoChecksumNoMac(m, d, attempts, ATTEMPTS);
  }

  lemma {:induction false} NoChecksumNoMac(m: Media, d: Disk, attempts: seq<Attempt>, left: nat)
    requires m.checksum.None? && left > 0
    ensures var f, s := FetchWithRetries(m, attempts, left), StoreWithRetries(m, d, attempts, left);
      && (f.Ok? ==> f.value.mac.None?) && (s.result.Ok? ==> s.result.value.None?)
      && (s.result.Ok? <==> f.Ok? || Retries(f.error))
      && (s.result.Err? ==> f == Err(s.result.error))
    decreases left
  {
    var s := StoreOnce(m, d, At(attempts));
    if s.result.Err? && Retries(s.result.error) && !At(attempts).cancel {
      if left > 1 { NoChecksumNoMac(m, s.disk.(cursor := 0), Next(attempts), left - 1); }
    }
  }

  // ---------- unencrypted media ----------

  function Max(a: nat, b: nat): nat {
    if a < b then b else a
  }

  /** How long the file gets over the attempts. */
  function Longest(n: nat, attempts: seq<Attempt>, left: nat): nat
    decreases left
  {
    if left == 0 then n
    else match At(attempts)
      case Refused(e, cancel) => if e.Transient? && !cancel then Longest(n, Next(attempts), left - 1) else n
      case Body(bytes, allocate, broken, cancel) =>
        var n' := Max(Max(n, allocate), |bytes|);
        if broken == Some(Transient) && !cancel then Longest(n', Next(attempts), left - 1) else n'
  }

  lemma PlainAttempt(m: Media, d: Disk, a: Attempt)
    requires m.checksum.None? && d.cursor == 0 && a.Body?
    ensures var content := StoreOnce(m, d, a).disk.content;
      |content| == Max(Max(|d.content|, a.allocate), |a.bytes|) && a.bytes <= content
  {}

  lemma {:induction false} PlainRetries(m: Media, d: Disk, attempts: seq<Attempt>, left: nat)
    requires m.checksum.None? && d.cursor == 0 && left > 0
    ensures var f, s := FetchWithRetries(m, attempts, left), StoreWithRetries(m, d, attempts, left);
      f.Ok? ==> f.value.file <= s.disk.content && |s.disk.content| == Longest(|d.content|, attempts, left)
    decreases left
  {
    var a := At(attempts);
    if a.Body? { PlainAttempt(m, d, a); }
    var s := StoreOnce(m, d, a);
    if s.result.Err? && Retries(s.result.error) && !a.cancel && left > 1 {
      PlainRetries(m, s.disk.(cursor := 0), Next(attempts), left - 1);
    }
  }

  /**
    Unencrypted media: the file form also reports success when all five attempts fail with a
    transient error, and after a real success the file holds the same bytes exactly when it never
    was longer than they are.
   */
  lemma PlainDownloadExactly(m: Media, d: Disk, attempts: seq<Attempt>)
    requires m.checksum.None? && !m.hasKey && d.cursor == 0
    ensures var mem, saved := Download(m, attempts), DownloadToFile(m, d, attempts);
      && (saved.error.None? <==> mem.Ok? || Retries(mem.error))
      && (mem.Ok? ==> mem.value <= saved.disk.content)
      && (mem.Ok? ==>
            (saved.disk.content == mem.value <==> Longest(|d.content|, attempts, ATTEMPTS) <= |mem.value|))
  {
    NoChecksumNoMac(m, d, attempts, ATTEMPTS);
    PlainRetries(m, d, attempts, ATTEMPTS);
  }
}
