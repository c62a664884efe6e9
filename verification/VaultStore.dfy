/** Receiving a backup into the vault: reserve, copy into a private directory, verify, publish. */
module VaultStore {
  import opened Common
  import opened Vault
  import opened VaultCapacity
  import Retention

  const RECEIPT_RESERVATION := 4096

  datatype Header = Header(id: string, archiveSize: int, archiveSha: Digest, manifestSize: int, manifestSha: Digest) {
    predicate Valid() {
      Retention.ValidBackupId(id) && archiveSize > 0 && manifestSize > 0
    }

    function Candidate(): int {
      archiveSize + manifestSize + RECEIPT_RESERVATION
    }
  }

  datatype StoreError =
    | InvalidHeader | LimitExceeded | FloorBreached | AlreadyExists | IoError
    | TrailingBytes | DigestDiffers | BindingInvalid | ReceiptTooLarge

  /** One upload: its header, the bytes that follow it, the receipt it would get, and whether the
      manifest binds the archive. */
  datatype Upload = Upload(header: Header, stream: string, receipt: string, bindingOk: bool) {
    /** Everything the vault checks about the contents. */
    predicate Genuine() {
      && header.Valid()
      && |stream| == header.archiveSize + header.manifestSize
      && Sha256(Archive()) == header.archiveSha && Sha256(Manifest()) == header.manifestSha
      && bindingOk && |receipt| <= RECEIPT_RESERVATION
    }

    function Archive(): string {
      if 0 <= header.archiveSize <= |stream| then stream[..header.archiveSize] else stream
    }

    function Manifest(): string {
      if 0 <= header.archiveSize <= |stream| then stream[header.archiveSize..] else ""
    }

    function Stored(): Dir {
      map[Payload := Archive()][FileName.Manifest := Manifest()][Receipt := receipt]
    }
  }

  /** What may go wrong in the file system, and how a failed upload is cleaned up. */
  datatype StoreFaults = StoreFaults(
    preflight: bool, mkdir: bool, cuts: seq<nat>, archive: Fault, manifest: Fault, verify: bool, receipt: Fault,
    completion: bool, rename: bool, cleanup: Cleanup)
  {
    predicate None() {
      && !preflight && !mkdir && !verify && !completion && !rename
      && archive.failAt.None? && manifest.failAt.None? && receipt.failAt.None?
    }
  }

  /** The checks between copying and the receipt. */
  function Verdict(u: Upload): Option<StoreError> {
    if |u.stream| > u.header.archiveSize + u.header.manifestSize then Some(TrailingBytes)
    else if Sha256(u.Archive()) != u.header.archiveSha || Sha256(u.Manifest()) != u.header.manifestSha then
      Some(DigestDiffers)
    else if !u.bindingOk then Some(BindingInvalid)
    else if |u.receipt| > RECEIPT_RESERVATION then Some(ReceiptTooLarge)
    else None
  }

  /** Fill the private directory. On success it holds exactly the stored files; it never exceeds the
      reservation, however far the upload gets. */
  method Fill(dir: WorkDir, u: Upload, faults: StoreFaults) returns (r: Option<StoreError>)
    requires u.header.Valid() && dir.files == map[] && dir.history == [map[]]
    modifies dir
    ensures r.None? ==> u.Genuine() && dir.files == u.Stored()
    ensures u.Genuine() && faults.None() ==> r.None?
    ensures AllUpTo(dir.history, u.header.Candidate()) && DirBytes(dir.files) <= u.header.Candidate()
  {
    EmptyDirBytes();
    ghost var bytes, d, h := u.header.Candidate(), dir.files, dir.history;
    var a, m := u.header.archiveSize, u.header.manifestSize;
    var ok := dir.CopyExact(Payload, u.stream, a, faults.cuts, faults.archive);
    AddingUpTo(h, dir.history, d, Payload, a, bytes);
    if !ok {
      LeftBytes(dir.files, d, Payload, u.stream[..Min(a, |u.stream|)], faults.archive.stuck);
      return Some(IoError);
    }
    BytesWith(d, Payload, u.stream[..a]);
    d, h := dir.files, dir.history;
    ok := dir.CopyExact(FileName.Manifest, u.stream[a..], m, faults.cuts, faults.manifest);
    AddingUpTo(h, dir.history, d, FileName.Manifest, m, bytes);
    if !ok {
      LeftBytes(dir.files, d, FileName.Manifest, u.stream[a..][..Min(m, |u.stream[a..]|)], faults.manifest.stuck);
      return Some(IoError);
    }
    BytesWith(d, FileName.Manifest, u.stream[a..][..m]);
    r := if faults.verify then Some(IoError) else Verdict(u);
    if r.Some? {
      return;
    }
    assert u.stream[a..][..m] == u.stream[a..];
    d, h := dir.files, dir.history;
    ok := dir.WriteNew(Receipt, u.receipt, faults.receipt);
    AddingUpTo(h, dir.history, d, Receipt, |u.receipt|, bytes);
    if !ok {
      LeftBytes(dir.files, d, Receipt, u.receipt, faults.receipt.stuck);
      return Some(IoError);
    }
    BytesWith(d, Receipt, u.receipt);
  }

  /** The three files of a stored backup: the stream, cut where the header says, with the sizes and digests
      that the header promises, and a receipt of at most 4096 bytes. */
  predicate StoredFiles(u: Upload, d: Dir) {
    && d.Keys == {Payload, FileName.Manifest, Receipt}
    && d[Payload] + d[FileName.Manifest] == u.stream
    && |d[Payload]| == u.header.archiveSize > 0 && |d[FileName.Manifest]| == u.header.manifestSize > 0
    && Sha256(d[Payload]) == u.header.archiveSha && Sha256(d[FileName.Manifest]) == u.header.manifestSha
    && d[Receipt] == u.receipt && |u.receipt| <= 4096 && u.bindingOk
  }

  lemma {:induction false} GenuineStored(u: Upload)
    requires u.Genuine()
    ensures StoredFiles(u, u.Stored())
  {
    assert u.Archive() + u.Manifest() == u.stream;
  }

  ghost predicate Acceptable(v: Vault, s: Snapshot, u: Upload, tmp: string) {
    && u.Genuine() && Reserved(v, s, u.header.Candidate())
    && u.header.id !in s.backups && tmp !in s.incoming
  }

  /** None of the new states has other attestations. */
  ghost predicate KeepsKnownGood(knownGood: map<string, Dir>, past: seq<Snapshot>, trace: seq<Snapshot>) {
    past <= trace && forall i :: |past| <= i < |trace| ==> trace[i].knownGood == knownGood
  }

  lemma {:induction false} UploadKeepsKnownGood(base: Snapshot, w: Where, dirs: seq<Dir>, past: seq<Snapshot>,
                                                before: seq<Snapshot>)
    requires w.InIncoming? && KeepsKnownGood(base.knownGood, past, before)
    ensures KeepsKnownGood(base.knownGood, past, before + Shots(base, w, dirs))
  {
  }

  lemma {:induction false} AppendKeepsKnownGood(base: Snapshot, past: seq<Snapshot>, before: seq<Snapshot>, t: Snapshot)
    requires KeepsKnownGood(base.knownGood, past, before) && t.knownGood == base.knownGood
    ensures KeepsKnownGood(base.knownGood, past, before + [t])
  {
  }

  /** The checks before anything is written. */
  method Preflight(v: Vault, u: Upload, tmp: string, faults: StoreFaults) returns (r: Option<StoreError>)
    ensures r.None? <==>
      && u.header.Valid() && !faults.preflight && Reserved(v, v.Now(), u.header.Candidate())
      && u.header.id !in v.backups && !faults.mkdir && tmp !in v.incoming
  {
    if !u.header.Valid() {
      return Some(InvalidHeader);
    }
    if faults.preflight {
      return Some(IoError);
    }
    var candidate := u.header.Candidate();
    var current := LogicalBytes(v);
    if current + candidate > MAX_VAULT_BYTES {
      return Some(LimitExceeded);
    }
    if v.disk - current - candidate < MINIMUM_FREE_BYTES {
      return Some(FloorBreached);
    }
    if u.header.id in v.backups {
      return Some(AlreadyExists);
    }
    if faults.mkdir || tmp in v.incoming {
      return Some(IoError);
    }
    return None;
  }

  /** The completion check, which the reservation makes redundant, and the rename. */
  method PublishStored(v: Vault, u: Upload, w: Where, dir: WorkDir, faults: StoreFaults, ghost base: Snapshot,
                       ghost past: seq<Snapshot>)
    returns (r: Option<StoreError>)
    requires w.InIncoming? && v.Now() == Put(base, w, dir.files) && Absent(base, w) && u.header.id !in base.backups
    requires DirBytes(dir.files) <= u.header.Candidate() && Reserved(v, base, u.header.Candidate())
    requires Safe(v, base, past, v.trace)
    modifies v`incoming, v`backups, v`trace
    ensures r.None? <==> !faults.completion && !faults.rename
    ensures r.None? ==> Safe(v, base, past, v.trace) && v.Within(v.Now()) && KeepsStored(base, v.Now())
    ensures r.None? ==> v.Now() == base.(backups := base.backups[u.header.id := dir.files])
    ensures r.None? ==> v.trace == old(v.trace) + [v.Now()]
    ensures r.Some? ==> v.Now() == old(v.Now()) && v.trace == old(v.trace)
  {
    if faults.completion {
      return Some(IoError);
    }
    var completed := LogicalBytes(v);
    ReservationCovers(v, base, w, dir.files, u.header.Candidate());
    assert completed <= MAX_VAULT_BYTES && v.disk - completed >= MINIMUM_FREE_BYTES;
    if faults.rename {
      return Some(IoError);
    }
    ghost var before := v.trace;
    v.Publish(w, u.header.id, base, dir.files);
    PublishedWithin(v, base, u.header.id, dir.files, u.header.Candidate());
    SafeAppend(v, base, past, before, [v.Now()]);
    return None;
  }

  /** Store an upload under the vault's lock. Whatever fails and whenever, every state the vault goes
      through stays within its limits and keeps all that was stored before; a success adds exactly
      the upload under a new id; a failure whose cleanup completes changes nothing. */
  method Store(v: Vault, u: Upload, tmp: string, faults: StoreFaults) returns (r: Option<StoreError>)
    modifies v
    ensures Safe(v, old(v.Now()), old(v.trace), v.trace)
    ensures v.Now() == old(v.Now()) || (v.Within(v.Now()) && KeepsStored(old(v.Now()), v.Now()))
    ensures r.None? ==> u.Genuine() && u.header.id !in old(v.backups)
    ensures r.None? ==> v.Now() == old(v.Now()).(backups := old(v.backups)[u.header.id := u.Stored()])
    ensures r.None? ==> StoredFiles(u, v.backups[u.header.id])
    ensures r.Some? && faults.cleanup.removed ==> v.Now() == old(v.Now())
    ensures r.Some? ==> v.Now() == old(v.Now()).(incoming := v.incoming)
    ensures KeepsKnownGood(old(v.knownGood), old(v.trace), v.trace)
    ensures Acceptable(v, old(v.Now()), u, tmp) && faults.None() ==> r.None?
  {
    r := Preflight(v, u, tmp, faults);
    if r.Some? {
      return;
    }
    ghost var base, past := v.Now(), v.trace;
    var w := InIncoming(tmp);
    var dir := new WorkDir();
    r := Fill(dir, u, faults);
    v.Show(w, dir, base, 0);
    Shown(v, base, w, dir.history, 0, u.header.Candidate(), past, past);
    UploadKeepsKnownGood(base, w, dir.history[0..], past, past);
    ghost var shown := v.trace;
    if r.None? {
      r := PublishStored(v, u, w, dir, faults, base, past);
      if r.None? {
        AppendKeepsKnownGood(base, past, shown, v.Now());
        GenuineStored(u);
        return;
      }
    }
    ghost var n := |dir.history|;
    Discard(v, w, dir, faults.cleanup, base, past, u.header.Candidate());
    UploadKeepsKnownGood(base, w, dir.history[n..], past, shown);
    AppendKeepsKnownGood(base, past, shown + Shots(base, w, dir.history[n..]), base);
    ghost var all := shown + Shots(base, w, dir.history[n..]);
    assert v.trace == all + [base] || v.trace == all;
  }
}
