/**
  Encrypting media for an upload, in memory and as a stream that may overwrite the file it reads, and
  exactly which bodies a download of it accepts.
 */
module MediaUpload {
  import opened Prelude
  import opened CbcFile
  import opened MediaDownload

  // ---------- encryption ----------

  /** One block sealed under the block before it (or the IV). */
  type Seal = (Bytes, Bytes) -> Bytes

  /** The block cipher and its inverse. */
  ghost predicate Inverts(open: Open, seal: Seal) {
    forall prev, block | |block| == BLOCK :: |seal(prev, block)| == BLOCK && open(prev, seal(prev, block)) == block
  }

  function CbcSeal(seal: Seal, prev: Bytes, data: Bytes): Bytes
    decreases |data|
  {
    if |data| < BLOCK then []
    else seal(prev, data[..BLOCK]) + CbcSeal(seal, seal(prev, data[..BLOCK]), data[BLOCK..])
  }

  /** The last block sealed, which the next one is chained to. */
  function SealChain(seal: Seal, prev: Bytes, data: Bytes): Bytes
    decreases |data|
  {
    if |data| < BLOCK then prev else SealChain(seal, seal(prev, data[..BLOCK]), data[BLOCK..])
  }

  function PadLength(n: nat): (k: nat)
    ensures 1 <= k <= BLOCK && (n + k) % BLOCK == 0
  {
    BLOCK - n % BLOCK
  }

  /** Always at least one byte of padding, each holding how many there are. */
  function Padding(n: nat): (r: Bytes)
    ensures |r| == PadLength(n)
  {
    seq(PadLength(n), _ => PadLength(n) as byte)
  }

  function Encrypt(seal: Seal, iv: Bytes, plain: Bytes): Bytes {
    CbcSeal(seal, iv, plain + Padding(|plain|))
  }

  lemma {:induction false} SealLength(open: Open, seal: Seal, prev: Bytes, data: Bytes)
    requires Inverts(open, seal) && |data| % BLOCK == 0
    ensures |CbcSeal(seal, prev, data)| == |data|
    decreases |data|
  {
    if |data| >= BLOCK { SealLength(open, seal, seal(prev, data[..BLOCK]), data[BLOCK..]); }
  }

  lemma {:induction false} OpensSealed(open: Open, seal: Seal, prev: Bytes, data: Bytes)
    requires Inverts(open, seal) && |data| % BLOCK == 0
    ensures Cbc(open, prev, CbcSeal(seal, prev, data)) == data
    decreases |data|
  {
    if |data| >= BLOCK {
      var first := seal(prev, data[..BLOCK]);
      var sealed := CbcSeal(seal, prev, data);
      SealLength(open, seal, prev, data);
      assert sealed[..BLOCK] == first && sealed[BLOCK..] == CbcSeal(seal, first, data[BLOCK..]);
      OpensSealed(open, seal, first, data[BLOCK..]);
      assert data == data[..BLOCK] + data[BLOCK..];
    }
  }

  /** Decryption undoes encryption, in memory and in place, for every plaintext. */
  lemma DecryptUndoesEncrypt(open: Open, seal: Seal, iv: Bytes, plain: Bytes)
    requires OpensBlocks(open) && Inverts(open, seal)
    ensures Decrypt(open, iv, Encrypt(seal, iv, plain)) == Some(plain)
    ensures InPlace(open, iv, Encrypt(seal, iv, plain)).ok
    ensures InPlace(open, iv, Encrypt(seal, iv, plain)).content == plain
  {
    var padded, sealed := plain + Padding(|plain|), Encrypt(seal, iv, plain);
    SealLength(open, seal, iv, padded);
    OpensSealed(open, seal, iv, padded);
    assert padded[..|padded| - PadLength(|plain|)] == plain;
    InPlaceDecrypts(open, iv, sealed);
  }

  /** Encrypting chunk by chunk, each chained to the one before. */
  lemma {:induction false} SealJoins(open: Open, seal: Seal, prev: Bytes, a: Bytes, b: Bytes)
    requires Inverts(open, seal) && |a| % BLOCK == 0
    ensures CbcSeal(seal, prev, a + b) == CbcSeal(seal, prev, a) + CbcSeal(seal, SealChain(seal, prev, a), b)
    ensures SealChain(seal, prev, a + b) == SealChain(seal, SealChain(seal, prev, a), b)
    decreases |a|
  {
    if a == [] {
      assert a + b == b;
    } else {
      var next := seal(prev, a[..BLOCK]);
      assert (a + b)[..BLOCK] == a[..BLOCK] && (a + b)[BLOCK..] == a[BLOCK..] + b;
      SealJoins(open, seal, next, a[BLOCK..], b);
      Associative(next, CbcSeal(seal, next, a[BLOCK..]), CbcSeal(seal, SealChain(seal, next, a[BLOCK..]), b));
    }
  }

  // ---------- what is uploaded ----------

  /** The ciphertext and its MAC. */
  function Sealed(m: Media, seal: Seal, plain: Bytes): Bytes {
    var ciphertext := Encrypt(seal, m.iv, plain);
    ciphertext + m.hmac(ciphertext)
  }

  /** The media message made from an upload carries its hashes and length. */
  ghost predicate Describes(m: Media, seal: Seal, plain: Bytes) {
    && m.checksum == Some(m.sha(Sealed(m, seal, plain)))
    && m.plainHash == m.sha(plain) && m.length == |plain|
  }

  // ---------- the stream ----------

  /** The first bytes of the plaintext have been read, and stand encrypted in the target. */
  predicate Streamed(seal: Seal, iv: Bytes, plain: Bytes, target: Bytes, hashed: Bytes, prev: Bytes,
                     ciphertext: Bytes, hasMore: bool, content: Bytes)
  {
    && hashed <= plain && content == Overlay(target, 0, ciphertext)
    && if hasMore then
         && |hashed| % BLOCK == 0 && |ciphertext| == |hashed|
         && ciphertext == CbcSeal(seal, iv, hashed) && prev == SealChain(seal, iv, hashed)
       else
         hashed == plain && ciphertext == Encrypt(seal, iv, plain)
  }

  /** The next chunk as it was read; a short one ends the plaintext. */
  predicate IsChunk(plain: Bytes, at: nat, chunk: Bytes, full: bool) {
    && at <= |plain| && chunk <= plain[at..]
    && if full then |chunk| == BUFFER else |chunk| < BUFFER && at + |chunk| == |plain|
  }

  /** The last chunk carries the padding. */
  function PaddedChunk(at: nat, chunk: Bytes, full: bool): Bytes {
    if full then chunk else chunk + Padding(at + |chunk|)
  }

  lemma {:induction false} PaddedIsWhole(at: nat, chunk: Bytes, full: bool)
    requires at % BLOCK == 0 && (full ==> |chunk| == BUFFER)
    ensures |PaddedChunk(at, chunk, full)| % BLOCK == 0
  {}

  lemma {:induction false} SealGrows(open: Open, seal: Seal, iv: Bytes, hashed: Bytes, padded: Bytes, ciphertext: Bytes,
                                     prev: Bytes, sealed: Bytes)
    requires Inverts(open, seal) && |hashed| % BLOCK == 0 && |padded| % BLOCK == 0
    requires ciphertext == CbcSeal(seal, iv, hashed) && prev == SealChain(seal, iv, hashed)
    requires sealed == CbcSeal(seal, prev, padded)
    ensures |sealed| == |padded| && CbcSeal(seal, iv, hashed + padded) == ciphertext + sealed
    ensures SealChain(seal, iv, hashed + padded) == SealChain(seal, prev, padded)
  {
    SealJoins(open, seal, iv, hashed, padded);
    SealLength(open, seal, prev, padded);
  }

  /** One pass of the loop on values. */
  lemma {:induction false} StreamStep(open: Open, seal: Seal, iv: Bytes, plain: Bytes, target: Bytes, hashed: Bytes,
                                      prev: Bytes, ciphertext: Bytes, content: Bytes, chunk: Bytes, full: bool,
                                      padded: Bytes, sealed: Bytes)
    requires Inverts(open, seal) && Streamed(seal, iv, plain, target, hashed, prev, ciphertext, true, content)
    requires IsChunk(plain, |hashed|, chunk, full) && padded == PaddedChunk(|hashed|, chunk, full)
    requires sealed == CbcSeal(seal, prev, padded)
    ensures Streamed(seal, iv, plain, target, hashed + chunk, SealChain(seal, prev, padded), ciphertext + sealed, full,
                     Overlay(content, |hashed|, sealed))
  {
    PaddedIsWhole(|hashed|, chunk, full);
    SealGrows(open, seal, iv, hashed, padded, ciphertext, prev, sealed);
    OverlayGrows(target, ciphertext, sealed);
    ChunkJoins(plain, hashed, chunk, full);
  }

  lemma ChunkJoins(plain: Bytes, hashed: Bytes, chunk: Bytes, full: bool)
    requires hashed <= plain && IsChunk(plain, |hashed|, chunk, full)
    ensures hashed + chunk <= plain
    ensures full ==> hashed + PaddedChunk(|hashed|, chunk, full) == hashed + chunk
    ensures !full ==> hashed + chunk == plain
    ensures !full ==> hashed + PaddedChunk(|hashed|, chunk, full) == plain + Padding(|plain|)
  {
    assert plain == hashed + plain[|hashed|..];
    if !full {
      assert chunk == plain[|hashed|..];
      Associative(hashed, chunk, Padding(|plain|));
    }
  }

  lemma {:induction false} OverlayGrows(target: Bytes, a: Bytes, b: Bytes)
    ensures Overlay(Overlay(target, 0, a), |a|, b) == Overlay(target, 0, a + b)
  {
    if a == [] {
      assert a + b == b;
    } else if b == [] {
      assert a + b == a;
    } else {
      OverlaysAtOnce(target, a);
      OverlaysAtOnce(target, a + b);
      var once := Overlay(target, 0, a);
      assert once[..|a|] == a;
      if |once| > |a| + |b| {
        assert once[|a| + |b|..] == target[|a| + |b|..];
      }
    }
  }

  lemma OverlaysAtOnce(target: Bytes, a: Bytes)
    requires a != []
    ensures Overlay(target, 0, a) == a + if |a| <= |target| then target[|a|..] else []
  {
    assert target[..0] + a == a;
  }

  /** What has not been read is untouched, even if it stands behind the bytes written to the same file. */
  lemma UnreadStays(seal: Seal, iv: Bytes, plain: Bytes, target: Bytes, hashed: Bytes, prev: Bytes, ciphertext: Bytes,
                    content: Bytes)
    requires Streamed(seal, iv, plain, target, hashed, prev, ciphertext, true, content) && target == plain
    ensures |content| == |plain| && content[|hashed|..] == plain[|hashed|..]
  {
    if ciphertext != [] { OverlaysAtOnce(target, ciphertext); }
  }

  /** The next bytes of the plaintext, at the cursor of the file that still holds them. */
  method ReadChunk(file: File, ghost plain: Bytes) returns (chunk: Bytes, full: bool)
    requires file.cursor <= |plain| == |file.content| && file.content[file.cursor..] == plain[file.cursor..]
    modifies file`cursor
    ensures IsChunk(plain, old(file.cursor), chunk, full) && file.cursor == old(file.cursor) + |chunk|
  {
    var left := |file.content| - file.cursor;
    full := left >= BUFFER;
    chunk := file.ReadFull(if full then BUFFER else left);
    ghost var at := old(file.cursor);
    assert chunk == file.content[at..][..|chunk|];
  }

  /** One pass of the loop: the next chunk is encrypted and written where it was read from. */
  method EncryptChunk(m: Media, seal: Seal, plaintext: File, target: File, hashed: Bytes, prev: Bytes,
                      ghost ciphertext: Bytes, ghost plain: Bytes, ghost target0: Bytes)
    returns (chunk: Bytes, sealed: Bytes, next: Bytes, full: bool)
    requires Inverts(m.open, seal)
    requires Streamed(seal, m.iv, plain, target0, hashed, prev, ciphertext, true, target.content)
    requires plaintext.cursor == |hashed|
    requires if plaintext == target then plain == target0 else plaintext.content == plain
    modifies plaintext, target
    ensures Streamed(seal, m.iv, plain, target0, hashed + chunk, next, ciphertext + sealed, full, target.content)
    ensures plaintext.cursor == |hashed| + |chunk| && (full ==> |chunk| == BUFFER)
    ensures plaintext != target ==> plaintext.content == plain
  {
    if plaintext == target { UnreadStays(seal, m.iv, plain, target0, hashed, prev, ciphertext, target.content); }
    chunk, full := ReadChunk(plaintext, plain);
    var padded := PaddedChunk(|hashed|, chunk, full);
    sealed, next := CbcSeal(seal, prev, padded), SealChain(seal, prev, padded);
    StreamStep(m.open, seal, m.iv, plain, target0, hashed, prev, ciphertext, target.content, chunk, full, padded,
               sealed);
    target.WriteAt(sealed, |hashed|);
  }

  /** The loop; `hashed` is all that was read. */
  method EncryptChunks(m: Media, seal: Seal, plaintext: File, target: File)
    returns (hashed: Bytes, ciphertext: Bytes)
    requires Inverts(m.open, seal) && plaintext.cursor == 0
    modifies plaintext, target
    ensures hashed == old(plaintext.content) && ciphertext == Encrypt(seal, m.iv, hashed)
    ensures target.content == Overlay(old(target.content), 0, ciphertext)
    ensures plaintext != target ==> plaintext.content == old(plaintext.content)
  {
    ghost var plain, target0 := plaintext.content, target.content;
    var prev, hasMore := m.iv, true;
    hashed, ciphertext := [], [];
    while hasMore
      invariant Streamed(seal, m.iv, plain, target0, hashed, prev, ciphertext, hasMore, target.content)
      invariant plaintext.cursor == |hashed|
      invariant if plaintext == target then plain == target0 else plaintext.content == plain
      decreases |plain| - |hashed|, hasMore
    {
      var chunk, sealed;
      chunk, sealed, prev, hasMore :=
        EncryptChunk(m, seal, plaintext, target, hashed, prev, ciphertext, plain, target0);
      hashed, ciphertext := hashed + chunk, ciphertext + sealed;
    }
  }

  /**
    Encrypts a file into another one or into itself, and closes it with the MAC.  The bytes of the
    target beyond what was written stay.
   */
  method EncryptStream(m: Media, seal: Seal, plaintext: File, target: File)
    returns (plainHash: Bytes, checksum: Bytes, size: nat, total: nat)
    requires Inverts(m.open, seal) && plaintext.cursor == 0
    modifies plaintext, target
    ensures var plain, sealed := old(plaintext.content), Sealed(m, seal, old(plaintext.content));
      && target.content == Overlay(old(target.content), 0, sealed)
      && (plaintext != target ==> plaintext.content == plain)
      && plainHash == m.sha(plain) && checksum == m.sha(sealed)
      && size == |plain| && total == |sealed|
  {
    var hashed, ciphertext := EncryptChunks(m, seal, plaintext, target);
    var mac := m.hmac(ciphertext);
    OverlayGrows(old(target.content), ciphertext, mac);
    target.WriteAt(mac, |ciphertext|);
    plainHash, checksum := m.sha(hashed), m.sha(ciphertext + mac);
    size, total := |hashed|, |ciphertext| + |mac|;
  }

  // ---------- which bodies a download accepts ----------

  /** The request that decides: the first that does not fail in a way worth a retry, within five. */
  predicate DecidedBy(attempts: seq<Attempt>, k: nat) {
    && k < |attempts| && k < 5
    && (forall i | 0 <= i < k :: Passing(attempts[i]))
    && attempts[k].Body? && attempts[k].broken.None?
  }

  /** A request that fails in a way worth a retry, and the wait after it is not cut off. */
  predicate Passing(a: Attempt) {
    !a.cancel && (a == Refused(Transient, false) || (a.Body? && a.broken == Some(Transient)))
  }

  /** What a body must be for the download to give the data. */
  ghost predicate Authentic(m: Media, body: Bytes, data: Bytes)
    requires m.checksum.Some?
  {
    && |body| > 10
    && (|m.checksum.value| == 32 ==> m.sha(body) == m.checksum.value)
    && var ciphertext, mac := body[..|body| - 10], body[|body| - 10..];
    && mac == m.hmac(ciphertext)
    && Decrypt(m.open, m.iv, ciphertext) == Some(data)
    && (m.warnings && m.length >= 0 ==> |data| == m.length)
    && (m.warnings && |m.plainHash| == 32 ==> m.sha(data) == m.plainHash)
  }

  lemma {:induction false} FetchDecided(m: Media, attempts: seq<Attempt>, k: nat, left: nat)
    requires k < left && k < |attempts| && attempts[k].Body? && attempts[k].broken.None?
    requires m.checksum.Some? && forall i | 0 <= i < k :: Passing(attempts[i])
    ensures FetchWithRetries(m, attempts, left) == FetchOnce(m, attempts[k])
    decreases k
  {
    if k > 0 {
      assert Passing(attempts[0]);
      FetchDecided(m, attempts[1..], k - 1, left - 1);
    }
  }

  lemma {:induction false} FetchedIsDecided(m: Media, attempts: seq<Attempt>, left: nat) returns (k: nat)
    requires m.checksum.Some? && left > 0 && FetchWithRetries(m, attempts, left).Ok?
    ensures k < left && k < |attempts| && attempts[k].Body? && attempts[k].broken.None?
    ensures forall i | 0 <= i < k :: Passing(attempts[i])
    decreases left
  {
    if FetchOnce(m, At(attempts)).Ok? {
      k := 0;
    } else {
      k := FetchedIsDecided(m, Next(attempts), left - 1);
      k := k + 1;
    }
  }

  lemma DecidedDownload(m: Media, attempts: seq<Attempt>, k: nat, data: Bytes)
    requires m.checksum.Some? && DecidedBy(attempts, k)
    ensures Download(m, attempts) == Ok(data) <==> Authentic(m, attempts[k].bytes, data)
  {
    FetchDecided(m, attempts, k, ATTEMPTS);
  }

  /**
    Encrypted media: a download gives the data exactly when one of the first five requests, after
    failures worth a retry only, delivers a whole body that is long enough, has the announced hash, is
    closed by its own MAC, decrypts to the data, and agrees with the announced length and hash.
   */
  lemma DownloadsExactly(m: Media, attempts: seq<Attempt>, data: Bytes)
    requires m.checksum.Some?
    ensures Download(m, attempts) == Ok(data) <==>
      exists k | 0 <= k < |attempts| :: DecidedBy(attempts, k) && Authentic(m, attempts[k].bytes, data)
  {
    if Download(m, attempts) == Ok(data) {
      var k := FetchedIsDecided(m, attempts, ATTEMPTS);
      DecidedDownload(m, attempts, k, data);
      assert DecidedBy(attempts, k);
    }
    forall k: nat | k < |attempts| && DecidedBy(attempts, k) && Authentic(m, attempts[k].bytes, data)
      ensures Download(m, attempts) == Ok(data)
    {
      DecidedDownload(m, attempts, k, data);
    }
  }

  /** The first check that a deciding body fails names the error. */
  lemma FirstFailedCheckIsNamed(m: Media, attempts: seq<Attempt>, k: nat)
    requires m.checksum.Some? && DecidedBy(attempts, k)
    ensures var r, body := Download(m, attempts), attempts[k].bytes;
      && (r == Err(TooShort) <==> |body| <= 10)
      && (|body| > 10 ==>
            var ciphertext, mac := body[..|body| - 10], body[|body| - 10..];
            var plain := Decrypt(m.open, m.iv, ciphertext);
            var known := |m.checksum.value| == 32 ==> m.sha(body) == m.checksum.value;
            var genuine := mac == m.hmac(ciphertext);
            && (r == Err(BadEncHash) <==> !known)
            && (r == Err(BadMac) <==> known && !genuine)
            && (r == Err(BadCiphertext) <==> known && genuine && plain.None?)
            && (known && genuine && plain.Some? ==>
                  var sized := m.length >= 0 ==> |plain.value| == m.length;
                  && (r == Err(BadLength) <==> m.warnings && !sized)
                  && (r == Err(BadPlainHash) <==>
                        m.warnings && sized && |m.plainHash| == 32 && m.sha(plain.value) != m.plainHash)))
  {
    FetchDecided(m, attempts, k, ATTEMPTS);
  }

  /**
    What was uploaded is what a download gives, in memory and in a file, whatever the file held and
    however often the first requests fail in a way worth a retry.
   */
  lemma UploadedIsDownloaded(m: Media, seal: Seal, plain: Bytes, d: Disk, attempts: seq<Attempt>, k: nat)
    requires Sound(m) && Inverts(m.open, seal) && Describes(m, seal, plain)
    requires DecidedBy(attempts, k) && attempts[k].bytes == Sealed(m, seal, plain)
    requires d.cursor == 0
    ensures Download(m, attempts) == Ok(plain)
    ensures DownloadToFile(m, d, attempts).error.None? && DownloadToFile(m, d, attempts).disk.content == plain
  {
    var ciphertext, body := Encrypt(seal, m.iv, plain), Sealed(m, seal, plain);
    SealLength(m.open, seal, m.iv, plain + Padding(|plain|));
    DecryptUndoesEncrypt(m.open, seal, m.iv, plain);
    assert body[..|body| - 10] == ciphertext && body[|body| - 10..] == m.hmac(ciphertext);
    assert Authentic(m, body, plain);
    DecidedDownload(m, attempts, k, plain);
    FileRefinesMemory(m, d, attempts);
  }
}
