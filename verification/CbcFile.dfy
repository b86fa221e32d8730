/**
  A file with a cursor, and AES-CBC decryption of it in place: read a chunk at the cursor, decrypt
  it with the chaining value left by the chunk before, write it back where it came from, and cut the
  padding off the end.  It gives what decrypting the whole ciphertext in memory gives.
 */
module CbcFile {
  import opened Prelude

  const BLOCK := 16

  const BUFFER := 32 * 1024

  // ---------- files ----------

  function Zeros(n: nat): (z: Bytes)
    ensures |z| == n
  {
    seq(n, _ => 0)
  }

  /** Writing `bytes` at an offset; a gap before them reads as zeros. */
  function Overlay(content: Bytes, at: nat, bytes: Bytes): (r: Bytes)
    ensures |r| >= |bytes| && |r| >= |content|
    ensures bytes != [] && at <= |content| ==> |r| == if at + |bytes| > |content| then at + |bytes| else |content|
  {
    if bytes == [] then content
    else
      var front := if at <= |content| then content[..at] else content + Zeros(at - |content|);
      var tail := if at + |bytes| <= |content| then content[at + |bytes|..] else [];
      front + bytes + tail
  }

  class File {
    var content: Bytes
    var cursor: nat

    constructor (content: Bytes)
      ensures this.content == content && cursor == 0
    {
      this.content := content;
      cursor := 0;
    }

    method Write(bytes: Bytes)
      modifies this
      ensures content == Overlay(old(content), old(cursor), bytes) && cursor == old(cursor) + |bytes|
    {
      content := Overlay(content, cursor, bytes);
      cursor := cursor + |bytes|;
    }

    method WriteAt(bytes: Bytes, at: nat)
      modifies this`content
      ensures content == Overlay(old(content), at, bytes)
    {
      content := Overlay(content, at, bytes);
    }

    method SeekStart()
      modifies this`cursor
      ensures cursor == 0
    {
      cursor := 0;
    }

    /** io.ReadFull at the cursor. */
    method ReadFull(n: nat) returns (bytes: Bytes)
      requires cursor + n <= |content|
      modifies this`cursor
      ensures bytes == content[old(cursor)..old(cursor) + n] && cursor == old(cursor) + n
    {
      bytes := content[cursor..cursor + n];
      cursor := cursor + n;
    }

    /** io.Copy from the cursor to the end. */
    method ReadRest() returns (bytes: Bytes)
      modifies this`cursor
      ensures bytes == if old(cursor) <= |content| then content[old(cursor)..] else []
      ensures cursor == if old(cursor) <= |content| then |content| else old(cursor)
    {
      bytes := [];
      if cursor <= |content| {
        bytes := content[cursor..];
        cursor := |content|;
      }
    }

    method Truncate(n: nat)
      modifies this`content
      ensures content == if n <= |old(content)| then old(content)[..n] else old(content) + Zeros(n - |old(content)|)
    {
      content := if n <= |content| then content[..n] else content + Zeros(n - |content|);
    }

    /** fallocate: the file is at least n bytes long afterwards. */
    method Allocate(n: nat)
      modifies this`content
      ensures content == Allocated(old(content), n)
    {
      content := Allocated(content, n);
    }
  }

  function Allocated(content: Bytes, n: nat): Bytes {
    if n <= |content| then content else content + Zeros(n - |content|)
  }

  // ---------- decryption of a whole ciphertext ----------

  /** One block opened under the block before it (or the IV). */
  type Open = (Bytes, Bytes) -> Bytes

  ghost predicate OpensBlocks(open: Open) {
    forall prev, block :: |open(prev, block)| == BLOCK
  }

  function Cbc(open: Open, prev: Bytes, data: Bytes): Bytes
    decreases |data|
  {
    if |data| < BLOCK then [] else open(prev, data[..BLOCK]) + Cbc(open, data[..BLOCK], data[BLOCK..])
  }

  /** The chaining value after some whole blocks. */
  function Chain(prev: Bytes, data: Bytes): Bytes
    decreases |data|
  {
    if |data| < BLOCK then prev else Chain(data[..BLOCK], data[BLOCK..])
  }

  lemma {:induction false} CbcLength(open: Open, prev: Bytes, data: Bytes)
    requires OpensBlocks(open) && |data| % BLOCK == 0
    ensures |Cbc(open, prev, data)| == |data|
    decreases |data|
  {
    if |data| >= BLOCK { CbcLength(open, data[..BLOCK], data[BLOCK..]); }
  }

  /** Decrypting chunk by chunk, each under the chaining value of the one before. */
  lemma {:induction false} CbcJoins(open: Open, prev: Bytes, a: Bytes, b: Bytes)
    requires |a| % BLOCK == 0
    ensures Cbc(open, prev, a + b) == Cbc(open, prev, a) + Cbc(open, Chain(prev, a), b)
    ensures Chain(prev, a + b) == Chain(Chain(prev, a), b)
    decreases |a|
  {
    if a == [] {
      assert a + b == b;
    } else {
      assert (a + b)[..BLOCK] == a[..BLOCK] && (a + b)[BLOCK..] == a[BLOCK..] + b;
      CbcJoins(open, a[..BLOCK], a[BLOCK..], b);
    }
  }

  /** Cutting off as many bytes as the last byte says. */
  function Unpad(data: Bytes): Option<Bytes>
    requires data != []
  {
    var pad := data[|data| - 1] as nat;
    if pad > |data| then None else Some(data[..|data| - pad])
  }

  function Decrypt(open: Open, iv: Bytes, data: Bytes): Option<Bytes> {
    if data == [] || |data| % BLOCK != 0 then None
    else
      var plain := Cbc(open, iv, data);
      if plain == [] then None else Unpad(plain)
  }

  // ---------- decryption in place ----------

  lemma OneMoreChunk(open: Open, iv: Bytes, data: Bytes, i: nat, n: nat)
    requires OpensBlocks(open) && i + n <= |data| && i % BLOCK == 0 && n % BLOCK == 0
    ensures var prev, chunk := Chain(iv, data[..i]), data[i..i + n];
      && Cbc(open, iv, data[..i + n]) == Cbc(open, iv, data[..i]) + Cbc(open, prev, chunk)
      && Chain(iv, data[..i + n]) == Chain(prev, chunk)
      && |Cbc(open, prev, chunk)| == n
      && |Cbc(open, iv, data[..i])| == i
  {
    assert data[..i + n] == data[..i] + data[i..i + n];
    CbcJoins(open, iv, data[..i], data[i..i + n]);
    CbcLength(open, iv, data[..i]);
    CbcLength(open, Chain(iv, data[..i]), data[i..i + n]);
  }

  lemma UnreadChunk(done: Bytes, data: Bytes, n: nat)
    requires |done| + n <= |data|
    ensures (done + data[|done|..])[|done|..|done| + n] == data[|done|..|done| + n]
  {}

  lemma OverwriteChunk(done: Bytes, data: Bytes, plain: Bytes)
    requires |done| + |plain| <= |data|
    ensures Overlay(done + data[|done|..], |done|, plain) == (done + plain) + data[|done| + |plain|..]
  {
    var content := done + data[|done|..];
    if plain == [] {
      assert done + plain == done;
    } else {
      assert content[..|done|] == done;
      assert content[|done| + |plain|..] == data[|done| + |plain|..];
    }
  }

  function ChunkSize(size: nat, i: nat): (n: nat)
    requires i < size && size % BLOCK == 0 && i % BLOCK == 0
    ensures 0 < n && i + n <= size && n % BLOCK == 0 && (i + n) % BLOCK == 0
  {
    var buffer := if size < BUFFER then size else BUFFER;
    if i + buffer > size then size - i else buffer
  }

  /** The last byte, 0 when there is none. */
  function LastOf(data: Bytes): byte {
    if data == [] then 0 else data[|data| - 1]
  }

  /** Part of the file is decrypted, the rest still holds ciphertext. */
  predicate Partway(open: Open, iv: Bytes, data: Bytes, done: Bytes, prev: Bytes, content: Bytes) {
    && |done| <= |data| && |done| % BLOCK == 0
    && done == Cbc(open, iv, data[..|done|])
    && prev == Chain(iv, data[..|done|])
    && content == done + data[|done|..]
  }

  /** One pass of the loop on values. */
  lemma ChunkStep(open: Open, iv: Bytes, data: Bytes, done: Bytes, prev: Bytes, content: Bytes, n: nat)
    requires OpensBlocks(open) && Partway(open, iv, data, done, prev, content)
    requires |done| + n <= |data| && n % BLOCK == 0 && n > 0
    ensures |content| == |data|
    ensures var chunk := content[|done|..|done| + n];
      var plain := Cbc(open, prev, chunk);
      && |plain| == n && LastOf(done + plain) == plain[n - 1]
      && Partway(open, iv, data, done + plain, Chain(prev, chunk), Overlay(content, |done|, plain))
  {
    UnreadChunk(done, data, n);
    OneMoreChunk(open, iv, data, |done|, n);
    OverwriteChunk(done, data, Cbc(open, prev, data[|done|..|done| + n]));
  }

  lemma WholeFile(open: Open, iv: Bytes, data: Bytes, done: Bytes, prev: Bytes, content: Bytes)
    requires Partway(open, iv, data, done, prev, content)
    ensures |done| == |data| ==> content == done == Cbc(open, iv, data)
  {
    if |done| == |data| {
      assert data[..|done|] == data && data[|done|..] == [];
    }
  }

  /** The loop of DecryptFile; `last` is the last byte written, 0 for an empty file. */
  method DecryptChunks(open: Open, iv: Bytes, file: File) returns (last: byte)
    requires OpensBlocks(open) && file.cursor == 0 && |file.content| % BLOCK == 0
    modifies file
    ensures file.content == Cbc(open, iv, old(file.content)) && |file.content| == |old(file.content)|
    ensures file.cursor == |file.content|
    ensures last == LastOf(file.content)
  {
    var size := |file.content|;
    ghost var data, done := file.content, [];
    var written, prev := 0, iv;
    last := 0;
    assert data[..0] == [] && [] + data[0..] == data;
    while written < size
      invariant Partway(open, iv, data, done, prev, file.content)
      invariant file.cursor == written == |done| <= size
      invariant last == LastOf(done)
    {
      var n := ChunkSize(size, written);
      ChunkStep(open, iv, data, done, prev, file.content, n);
      var chunk := file.ReadFull(n);
      var plain := Cbc(open, prev, chunk);
      file.WriteAt(plain, written);
      done := done + plain;
      prev := Chain(prev, chunk);
      written := written + n;
      last := plain[n - 1];
    }
    WholeFile(open, iv, data, done, prev, file.content);
  }

  datatype Decrypted = Decrypted(ok: bool, content: Bytes, cursor: nat)

  /** The file after DecryptFile, which an error leaves as far as it got. */
  function InPlace(open: Open, iv: Bytes, data: Bytes): Decrypted {
    if |data| % BLOCK != 0 then Decrypted(false, data, 0)
    else
      var out := Cbc(open, iv, data);
      var pad := if out == [] then 0 else out[|out| - 1] as nat;
      if pad > |out| then Decrypted(false, out, |data|) else Decrypted(true, out[..|out| - pad], |data|)
  }

  /** Decrypting in place succeeds on the same ciphertexts as in memory, and with the same bytes. */
  lemma InPlaceDecrypts(open: Open, iv: Bytes, data: Bytes)
    requires OpensBlocks(open) && data != []
    ensures var d, plain := InPlace(open, iv, data), Decrypt(open, iv, data);
      d.ok == plain.Some? && (d.ok ==> d.content == plain.value)
  {
    if |data| % BLOCK == 0 { CbcLength(open, iv, data); }
  }

  method DecryptFile(open: Open, iv: Bytes, file: File) returns (ok: bool)
    requires OpensBlocks(open) && file.cursor == 0
    modifies file
    ensures Decrypted(ok, file.content, file.cursor) == InPlace(open, iv, old(file.content))
  {
    var size := |file.content|;
    if size % BLOCK != 0 {
      return false;
    }
    CbcLength(open, iv, file.content);
    var last := DecryptChunks(open, iv, file);
    if last as nat > size {
      return false;
    }
    file.Truncate(size - last as nat);
    return true;
  }
}
