/**
  Downloading from several hosts in turn.  The file form hands the same file on from host to host
  without seeking back, so the first attempt at a host writes wherever the host before left the
  cursor.
 */
module MediaHosts {
  import opened Prelude
  import opened CbcFile
  import opened MediaDownload

  // ---------- one host, from any cursor ----------

  /** The first attempt at a host delivers the whole file. */
  predicate FirstIsFetched(m: Media, attempts: seq<Attempt>) {
    FetchOnce(m, At(attempts)).Ok?
  }

  /** The slots that are read back as the body after writing it at the cursor. */
  function Overlaid(d: Disk, a: Attempt): (x: Bytes)
    requires a.Body?
    ensures |x| == |a.bytes|
  {
    Overlay(Allocated(d.content, a.allocate), d.cursor, a.bytes)[..|a.bytes|]
  }

  /** Nothing else is read back in place of a body delivered by the first attempt. */
  predicate Clean(m: Media, d: Disk, attempts: seq<Attempt>) {
    d.cursor == 0 || !FirstIsFetched(m, attempts) || Overlaid(d, At(attempts)) == At(attempts).bytes
  }

  /** The HMAC tells other bytes apart from the body they are read in place of. */
  predicate TellsApart(m: Media, d: Disk, attempts: seq<Attempt>) {
    FirstIsFetched(m, attempts) && m.checksum.Some? && Overlaid(d, At(attempts)) != At(attempts).bytes ==>
      var x := Overlaid(d, At(attempts));
      var n := |x| - HMAC_LENGTH;
      m.hmac(x[..n]) != x[n..]
  }

  lemma FirstFetched(m: Media, d: Disk, attempts: seq<Attempt>)
    requires m.checksum.Some? && FirstIsFetched(m, attempts)
    ensures var x, n := Overlaid(d, At(attempts)), |At(attempts).bytes| - HMAC_LENGTH;
      && n > 0
      && StoreWithRetries(m, d, attempts, ATTEMPTS)
         == Stored(Disk(x[..n], d.cursor + |x|), Ok(Some(x[n..])))
      && FetchWithRetries(m, attempts, ATTEMPTS)
         == Ok(Fetched(At(attempts).bytes[..n], Some(At(attempts).bytes[n..])))
  {
    var a := At(attempts);
    var written := Overlay(Allocated(d.content, a.allocate), d.cursor, a.bytes);
    var n := |a.bytes| - HMAC_LENGTH;
    assert written[..|a.bytes|][..n] == written[..n];
    assert written[..|a.bytes|][n..] == written[n..|a.bytes|];
  }

  lemma FirstFails(m: Media, d: Disk, attempts: seq<Attempt>)
    requires m.checksum.Some? && !FirstIsFetched(m, attempts)
    ensures FetchesAlike(m, d, attempts)
  {
    var s := StoreOnce(m, d, At(attempts));
    assert s.result == Err(FetchOnce(m, At(attempts)).error);
    if Retries(s.result.error) && !At(attempts).cancel {
      RetriesAgree(m, s.disk.(cursor := 0), Next(attempts), ATTEMPTS - 1);
    }
  }

  lemma CleanHostAgrees(m: Media, d: Disk, attempts: seq<Attempt>)
    requires Sound(m) && m.checksum.Some? && Clean(m, d, attempts)
    ensures SameOutcome(m, Download(m, attempts), DownloadToFile(m, d, attempts))
  {
    if d.cursor == 0 {
      RetriesAgree(m, d, attempts, ATTEMPTS);
    } else if !FirstIsFetched(m, attempts) {
      FirstFails(m, d, attempts);
    } else {
      FirstFetched(m, d, attempts);
    }
    AlikeFetchesEndAlike(m, d, attempts);
  }

  lemma UncleanHostFails(m: Media, d: Disk, attempts: seq<Attempt>)
    requires m.checksum.Some? && !Clean(m, d, attempts) && TellsApart(m, d, attempts)
    ensures var saved := DownloadToFile(m, d, attempts);
      saved.error == Some(BadMac) && saved.disk.cursor > 0
  {
    FirstFetched(m, d, attempts);
    var x := Overlaid(d, At(attempts));
    var n := |x| - HMAC_LENGTH;
    WrongMac(m, x[..n], Some(x[n..]));
  }

  lemma WrongMac(m: Media, content: Bytes, mac: Option<Bytes>)
    requires mac != Some(m.hmac(content))
    ensures Finish(m, content, mac) == Saved(Disk(content, |content|), Some(BadMac))
  {}

  /**
    From any file and any cursor: a host that succeeds in memory succeeds with the same bytes in the
    file form exactly when the first attempt does not deliver the file, or the cursor is at the
    start, or what is read back in place of the body is the body.
   */
  lemma HostAgreesExactly(m: Media, d: Disk, attempts: seq<Attempt>)
    requires Sound(m) && m.checksum.Some? && (m.warnings ==> |m.plainHash| == 32)
    requires TellsApart(m, d, attempts) && Download(m, attempts).Ok?
    ensures var saved := DownloadToFile(m, d, attempts);
      && (saved.error.None? <==> Clean(m, d, attempts))
      && (saved.error.None? ==> saved.disk.content == Download(m, attempts).value)
      && (saved.error.Some? ==> saved.error == Some(BadMac))
  {
    if Clean(m, d, attempts) {
      CleanHostAgrees(m, d, attempts);
    } else {
      UncleanHostFails(m, d, attempts);
    }
  }

  // ---------- where a host leaves the cursor ----------

  /** Another attempt follows the first. */
  predicate GoesOn(m: Media, attempts: seq<Attempt>, left: nat) {
    var f := FetchOnce(m, At(attempts));
    left > 1 && f.Err? && Retries(f.error) && !At(attempts).cancel
  }

  /** The last attempt that a host is asked for. */
  function LastAttempt(m: Media, attempts: seq<Attempt>, left: nat): Attempt {
    if GoesOn(m, attempts, left) then LastAttempt(m, Next(attempts), left - 1) else At(attempts)
  }

  function SizeOf(a: Attempt): nat {
    if a.Body? then |a.bytes| else 0
  }

  /** No attempt writes or preallocates anything. */
  predicate WritesNothing(m: Media, attempts: seq<Attempt>, left: nat) {
    && (At(attempts).Body? ==> At(attempts).bytes == [] && At(attempts).allocate == 0)
    && (GoesOn(m, attempts, left) ==> WritesNothing(m, Next(attempts), left - 1))
  }

  lemma {:induction false} RetryLeaves(m: Media, d: Disk, attempts: seq<Attempt>, left: nat)
    requires m.checksum.Some? && left > 0 && FetchWithRetries(m, attempts, left).Err?
    ensures var f, s := FetchWithRetries(m, attempts, left), StoreWithRetries(m, d, attempts, left);
      && (s.disk.content == [] <==> d.content == [] && WritesNothing(m, attempts, left))
      && s.disk.cursor ==
           if Retries(f.error) || f.error == Cancelled then 0
           else if GoesOn(m, attempts, left) then SizeOf(LastAttempt(m, attempts, left))
           else d.cursor + SizeOf(At(attempts))
    decreases left
  {
    var s := StoreOnce(m, d, At(attempts));
    assert s.result == Err(FetchOnce(m, At(attempts)).error);
    if GoesOn(m, attempts, left) {
      RetryLeaves(m, s.disk.(cursor := 0), Next(attempts), left - 1);
    }
  }

  /**
    The attempts, with the cursor they start from and whether the file is empty, that leave the
    cursor of a failed host at the start: only refusals or empty bodies count, except that a
    ciphertext of a wrong length is noticed before it is read.
   */
  predicate LeftAtStart(m: Media, cursor: nat, empty: bool, attempts: seq<Attempt>) {
    match FetchWithRetries(m, attempts, ATTEMPTS)
    case Err(e) =>
      if Retries(e) then empty && WritesNothing(m, attempts, ATTEMPTS)
      else if e == Cancelled then true
      else (GoesOn(m, attempts, ATTEMPTS) || cursor == 0) && SizeOf(LastAttempt(m, attempts, ATTEMPTS)) == 0
    case Ok(v) => v.mac == Some(m.hmac(v.file)) && |v.file| % BLOCK != 0
  }

  lemma LeftAtStartExactly(m: Media, d: Disk, attempts: seq<Attempt>)
    requires Sound(m) && m.checksum.Some? && Clean(m, d, attempts)
    requires Download(m, attempts).Err? && !Final(Download(m, attempts).error)
    ensures DownloadToFile(m, d, attempts).disk.cursor == 0
       <==> LeftAtStart(m, d.cursor, d.content == [], attempts)
  {
    var f := FetchWithRetries(m, attempts, ATTEMPTS);
    if f.Err? {
      ErrLeavesStart(m, d, attempts);
    } else {
      OkLeavesStart(m, d, attempts);
    }
  }

  lemma ErrLeavesStart(m: Media, d: Disk, attempts: seq<Attempt>)
    requires m.checksum.Some? && FetchWithRetries(m, attempts, ATTEMPTS).Err?
    ensures DownloadToFile(m, d, attempts).disk.cursor == 0
       <==> LeftAtStart(m, d.cursor, d.content == [], attempts)
    ensures DownloadToFile(m, d, attempts).disk.content == []
       <==> d.content == [] && WritesNothing(m, attempts, ATTEMPTS)
  {
    RetryLeaves(m, d, attempts, ATTEMPTS);
    var f := FetchWithRetries(m, attempts, ATTEMPTS);
    if d.cursor == 0 || FirstIsFetched(m, attempts) {
      RetriesAgree(m, d.(cursor := 0), attempts, ATTEMPTS);
    }
    if FirstIsFetched(m, attempts) {
      FirstFetched(m, d, attempts);
    } else {
      FirstFails(m, d, attempts);
    }
  }

  lemma OkLeavesStart(m: Media, d: Disk, attempts: seq<Attempt>)
    requires Sound(m) && m.checksum.Some? && Clean(m, d, attempts)
    requires FetchWithRetries(m, attempts, ATTEMPTS).Ok?
    requires Download(m, attempts).Err? && !Final(Download(m, attempts).error)
    ensures DownloadToFile(m, d, attempts).disk.cursor == 0
       <==> LeftAtStart(m, d.cursor, d.content == [], attempts)
    ensures LeftAtStart(m, d.cursor, d.content == [], attempts) ==> DownloadToFile(m, d, attempts).disk.content != []
  {
    if d.cursor == 0 {
      RetriesAgree(m, d, attempts, ATTEMPTS);
    } else if FirstIsFetched(m, attempts) {
      FirstFetched(m, d, attempts);
    } else {
      FirstFails(m, d, attempts);
    }
    var file := FetchWithRetries(m, attempts, ATTEMPTS).value.file;
    if |file| % BLOCK == 0 {
      CbcLength(m.open, m.iv, file);
    }
  }

  // ---------- hosts one after the other ----------

  /** By the attempts alone: every host that is given up on leaves the cursor at the start. */
  predicate LeavesStart(m: Media, empty: bool, hosts: seq<seq<Attempt>>) {
    |hosts| > 1 ==>
      var mem := Download(m, hosts[0]);
      mem.Err? && !Final(mem.error) ==>
        LeftAtStart(m, 0, empty, hosts[0]) && LeavesStart(m, EmptyAfter(m, empty, hosts[0]), hosts[1..])
  }

  predicate EmptyAfter(m: Media, empty: bool, attempts: seq<Attempt>) {
    FetchWithRetries(m, attempts, ATTEMPTS).Err? && empty && WritesNothing(m, attempts, ATTEMPTS)
  }

  lemma {:induction false} HostsRefineMemory(m: Media, d: Disk, hosts: seq<seq<Attempt>>)
    requires Sound(m) && m.checksum.Some? && hosts != []
    requires d.cursor == 0 && LeavesStart(m, d.content == [], hosts)
    ensures SameOutcome(m, DownloadFromHosts(m, hosts), DownloadFromHostsToFile(m, d, hosts))
    decreases |hosts|
  {
    CleanHostAgrees(m, d, hosts[0]);
    var mem, s := Download(m, hosts[0]), DownloadToFile(m, d, hosts[0]);
    if mem.Err? && !Final(mem.error) && |hosts| > 1 {
      LeftAtStartExactly(m, d, hosts[0]);
      if FetchWithRetries(m, hosts[0], ATTEMPTS).Err? {
        ErrLeavesStart(m, d, hosts[0]);
      } else {
        OkLeavesStart(m, d, hosts[0]);
      }
      HostsRefineMemory(m, s.disk, hosts[1..]);
    }
  }

  /** The host whose result the form in memory returns. */
  function Deciding(m: Media, hosts: seq<seq<Attempt>>): (k: nat)
    requires hosts != []
    ensures k < |hosts|
  {
    var mem := Download(m, hosts[0]);
    if mem.Ok? || Final(mem.error) || |hosts| == 1 then 0 else 1 + Deciding(m, hosts[1..])
  }

  /** The file as the file form finds it at host k. */
  function DiskAt(m: Media, d: Disk, hosts: seq<seq<Attempt>>, k: nat): Disk
    requires k < |hosts|
    decreases k
  {
    if k == 0 then d else DiskAt(m, DownloadToFile(m, d, hosts[0]).disk, hosts[1..], k - 1)
  }

  /** At every host up to k the HMAC tells the bytes read back apart from the body. */
  predicate ToldApart(m: Media, d: Disk, hosts: seq<seq<Attempt>>, k: nat)
    requires k < |hosts|
  {
    forall j | 0 <= j <= k :: TellsApart(m, DiskAt(m, d, hosts, j), hosts[j])
  }

  /** A host that the form in memory gives up on is given up on by the file form. */
  lemma GivesUpToo(m: Media, d: Disk, attempts: seq<Attempt>)
    requires Sound(m) && m.checksum.Some? && TellsApart(m, d, attempts)
    requires Download(m, attempts).Err? && !Final(Download(m, attempts).error)
    ensures var error := DownloadToFile(m, d, attempts).error; error.Some? && !Final(error.value)
  {
    if Clean(m, d, attempts) {
      CleanHostAgrees(m, d, attempts);
    } else {
      UncleanHostFails(m, d, attempts);
    }
  }

  lemma ToldApartAfter(m: Media, d: Disk, hosts: seq<seq<Attempt>>, k: nat)
    requires 0 < k < |hosts| && ToldApart(m, d, hosts, k)
    ensures TellsApart(m, d, hosts[0])
    ensures ToldApart(m, DownloadToFile(m, d, hosts[0]).disk, hosts[1..], k - 1)
  {
    var next, rest := DownloadToFile(m, d, hosts[0]).disk, hosts[1..];
    assert DiskAt(m, d, hosts, 0) == d;
    forall j | 0 <= j <= k - 1 ensures TellsApart(m, DiskAt(m, next, rest, j), rest[j]) {
      assert DiskAt(m, d, hosts, j + 1) == DiskAt(m, next, rest, j);
    }
  }

  lemma {:induction false} ReachesDeciding(m: Media, d: Disk, hosts: seq<seq<Attempt>>)
    requires Sound(m) && m.checksum.Some? && (m.warnings ==> |m.plainHash| == 32)
    requires hosts != [] && ToldApart(m, d, hosts, Deciding(m, hosts))
    ensures var k := Deciding(m, hosts);
      && DownloadFromHosts(m, hosts) == Download(m, hosts[k])
      && DownloadFromHostsToFile(m, d, hosts) == DownloadFromHostsToFile(m, DiskAt(m, d, hosts, k), hosts[k..])
    decreases |hosts|
  {
    var k := Deciding(m, hosts);
    if k == 0 {
      assert hosts[0..] == hosts;
    } else {
      ToldApartAfter(m, d, hosts, k);
      GivesUpToo(m, d, hosts[0]);
      ReachesDeciding(m, DownloadToFile(m, d, hosts[0]).disk, hosts[1..]);
      assert hosts[k..] == hosts[1..][k - 1..];
    }
  }

  /**
    Exactly when the file form does what the form in memory does at the host that decides there: when
    nothing else is read back in place of a body that its first attempt delivers.  Otherwise it fails
    with a bad MAC at that host, and goes on to the next one if there is one.
   */
  lemma HostsAgreeExactly(m: Media, d: Disk, hosts: seq<seq<Attempt>>)
    requires Sound(m) && m.checksum.Some? && (m.warnings ==> |m.plainHash| == 32)
    requires hosts != [] && ToldApart(m, d, hosts, Deciding(m, hosts))
    ensures var mem, saved, k := DownloadFromHosts(m, hosts), DownloadFromHostsToFile(m, d, hosts), Deciding(m, hosts);
      var at := DiskAt(m, d, hosts, k);
      && (Clean(m, at, hosts[k]) ==> SameOutcome(m, mem, saved))
      && (!Clean(m, at, hosts[k]) && k == |hosts| - 1 ==> saved.error == Some(BadMac))
      && (!Clean(m, at, hosts[k]) && k < |hosts| - 1 ==>
            saved == DownloadFromHostsToFile(m, DownloadToFile(m, at, hosts[k]).disk, hosts[k + 1..]))
      && (mem.Ok? && k == |hosts| - 1 ==> (saved.error.None? <==> Clean(m, at, hosts[k])))
  {
    ReachesDeciding(m, d, hosts);
    DecidesAt(m, hosts);
    var k := Deciding(m, hosts);
    var at, rest := DiskAt(m, d, hosts, k), hosts[k..];
    assert rest[0] == hosts[k] && rest[1..] == hosts[k + 1..];
    if Clean(m, at, hosts[k]) {
      CleanHostDecides(m, at, rest);
    } else {
      UncleanHostDecides(m, at, rest);
    }
  }

  lemma CleanHostDecides(m: Media, d: Disk, hosts: seq<seq<Attempt>>)
    requires Sound(m) && m.checksum.Some? && (m.warnings ==> |m.plainHash| == 32)
    requires hosts != [] && Clean(m, d, hosts[0])
    requires Download(m, hosts[0]).Ok? || Final(Download(m, hosts[0]).error) || |hosts| == 1
    ensures SameOutcome(m, Download(m, hosts[0]), DownloadFromHostsToFile(m, d, hosts))
  {
    CleanHostAgrees(m, d, hosts[0]);
  }

  lemma UncleanHostDecides(m: Media, d: Disk, hosts: seq<seq<Attempt>>)
    requires m.checksum.Some? && hosts != [] && !Clean(m, d, hosts[0]) && TellsApart(m, d, hosts[0])
    ensures var saved := DownloadFromHostsToFile(m, d, hosts);
      if |hosts| == 1 then saved.error == Some(BadMac)
      else saved == DownloadFromHostsToFile(m, DownloadToFile(m, d, hosts[0]).disk, hosts[1..])
  {
    UncleanHostFails(m, d, hosts[0]);
  }

  lemma {:induction false} DecidesAt(m: Media, hosts: seq<seq<Attempt>>)
    requires hosts != []
    ensures var k := Deciding(m, hosts);
      var mem := Download(m, hosts[k]);
      mem.Ok? || Final(mem.error) || k == |hosts| - 1
  {
    if Deciding(m, hosts) > 0 { DecidesAt(m, hosts[1..]); }
  }

  // ---------- such a run ----------

  lemma RejectedBodyStays(m: Media, stale: Bytes)
    requires m.checksum.Some? && |m.checksum.value| == 32 && m.sha(stale) != m.checksum.value
    requires |stale| > HMAC_LENGTH
    ensures var bad := [Body(stale, 0, None, false)];
      Download(m, bad) == Err(BadEncHash)
      && DownloadToFile(m, Disk([], 0), bad) == Saved(Disk(stale, |stale|), Some(BadEncHash))
  {
    assert Overlay([], 0, stale) == stale;
    assert StoreOnce(m, Disk([], 0), Body(stale, 0, None, false)) == Stored(Disk(stale, |stale|), Err(BadEncHash));
  }

  lemma WrittenBehind(m: Media, stale: Bytes, good: Bytes)
    requires m.checksum == Some(m.sha(good)) && HMAC_LENGTH < |good| <= |stale|
    requires var n := |good| - HMAC_LENGTH; stale[n..|good|] != m.hmac(stale[..n])
    ensures DownloadToFile(m, Disk(stale, |stale|), [Body(good, 0, None, false)]).error == Some(BadMac)
  {
    var n, fine := |good| - HMAC_LENGTH, Body(good, 0, None, false);
    assert Overlay(stale, |stale|, good) == stale + good;
    assert (stale + good)[..n] == stale[..n] && (stale + good)[n..|good|] == stale[n..|good|];
    var s := StoreOnce(m, Disk(stale, |stale|), fine);
    assert s.result == Ok(Some(stale[n..|good|])) && s.disk.content == stale[..n];
  }

  /**
    Otherwise the next host writes behind what the last one left: when that is at least as long, the
    MAC is read from it and checked against it, and a download that works in memory fails.
   */
  lemma HostsShareTheCursor(m: Media, stale: Bytes, good: Bytes)
    requires m.checksum == Some(m.sha(good)) && |m.sha(good)| == 32 && m.sha(stale) != m.sha(good)
    requires HMAC_LENGTH < |good| <= |stale|
    requires var n := |good| - HMAC_LENGTH; stale[n..|good|] != m.hmac(stale[..n])
    requires Download(m, [Body(good, 0, None, false)]).Ok?
    ensures var hosts := [[Body(stale, 0, None, false)], [Body(good, 0, None, false)]];
      && DownloadFromHosts(m, hosts).Ok?
      && DownloadFromHostsToFile(m, Disk([], 0), hosts).error == Some(BadMac)
  {
    RejectedBodyStays(m, stale);
    WrittenBehind(m, stale, good);
    var hosts := [[Body(stale, 0, None, false)], [Body(good, 0, None, false)]];
    assert hosts[1..] == [[Body(good, 0, None, false)]];
  }
}
