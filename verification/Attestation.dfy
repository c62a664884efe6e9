/** Known-good attestations: the create-only commit protocol and the loader that accepts only its
    completed result. */
module Attestation {
  import opened Common
  import opened Vault
  import opened VaultCapacity
  import Retention

  const INCOMPLETE_MARKER := "known-good attestation in progress\n"

  /** The three evidence files of a restore drill. */
  datatype Sources = Sources(validation: string, restore: string, business: string)

  /** What the evidence establishes about a backup. */
  datatype Binding = Binding(restoreId: string, targetIdentity: string, evidence: string)

  datatype Document = Document(attestedAt: string, binding: Binding)

  /** The parts that are not modelled further: the validation of the evidence against the stored backup,
      the JSON codec, and the timestamp syntax. */
  datatype Env = Env(
    validate: (string, Dir, Sources) -> Option<Binding>,
    encode: Document -> string, decode: string -> Option<Document>,
    validTimestamp: string -> bool)

  ghost predicate Invertible(env: Env) {
    forall a :: env.decode(env.encode(a)) == Some(a)
  }

  /** Evidence is valid only for a backup that is in the vault. */
  function Validate(env: Env, backups: map<string, Dir>, id: string, s: Sources): Option<Binding> {
    if id in backups then env.validate(id, backups[id], s) else None
  }

  // ---- Loading -----------------------------------------------------------------------------------

  datatype LoadError = InvalidInventory | Unreadable | InvalidSources | InvalidBinding
  datatype Loaded = Loaded(document: Document, digest: Digest)

  const INVENTORY := {AttestationJson, Validation, RestoreSummary, BusinessSummary}

  function Load(env: Env, backups: map<string, Dir>, id: string, d: Dir): Result<Loaded, LoadError> {
    if d.Keys != INVENTORY then Err(InvalidInventory)
    else
      var a := env.decode(d[AttestationJson]);
      var b := Validate(env, backups, id, Sources(d[Validation], d[RestoreSummary], d[BusinessSummary]));
      if a.None? then Err(Unreadable)
      else if b.None? then Err(InvalidSources)
      else if !env.validTimestamp(a.value.attestedAt) || a.value != Document(a.value.attestedAt, b.value) then
        Err(InvalidBinding)
      else Ok(Loaded(a.value, Sha256(d[AttestationJson])))
  }

  // ---- Creating ----------------------------------------------------------------------------------

  /** The directory of a completed attestation. */
  function Complete(env: Env, s: Sources, a: Document): Dir {
    map[Validation := s.validation][RestoreSummary := s.restore][BusinessSummary := s.business]
       [AttestationJson := env.encode(a)]
  }

  /** Loading a completed attestation gives back what was attested, with the digest of its file. */
  lemma {:induction false} LoadComplete(env: Env, backups: map<string, Dir>, id: string, s: Sources, a: Document)
    requires Invertible(env) && Validate(env, backups, id, s) == Some(a.binding) && env.validTimestamp(a.attestedAt)
    ensures Load(env, backups, id, Complete(env, s, a)) == Ok(Loaded(a, Sha256(env.encode(a))))
  {
  }

  /** Contents that the loader rejects whatever the files say: the marker is still there, or the
      attestation is not there yet. */
  predicate Unfinished(d: Dir) {
    Marker in d || AttestationJson !in d
  }

  lemma {:induction false} UnfinishedRejected(env: Env, backups: map<string, Dir>, id: string, d: Dir)
    requires Unfinished(d)
    ensures Load(env, backups, id, d) == Err(InvalidInventory)
  {
  }

  datatype AttestError = SourcesInvalid | TimestampInvalid | OverLimit | UnderFloor | Exists | WriteFailed | Changed

  datatype Sizes = Sizes(validation: nat, restore: nat, business: nat)

  /** The evidence may change at any time: `seen` is what was validated, `sizes` what was reserved for it
      afterwards, and `found` what was copied. */
  datatype Request = Request(id: string, attestedAt: string, seen: Sources, sizes: Sizes, found: Sources)

  datatype AttestFaults = AttestFaults(
    preflight: bool, mkdir: bool, cuts: seq<nat>, marker: Fault, validation: Fault, restore: Fault, business: Fault,
    verify: bool, attestation: Fault, peak: bool, unlink: bool, completion: bool, cleanup: Cleanup)
  {
    predicate None() { BeforeCommit() && !completion }

    /** Nothing fails up to and including the removal of the marker. */
    predicate BeforeCommit() {
      && !preflight && !mkdir && !verify && !peak && !unlink && marker.failAt.None? && validation.failAt.None?
      && restore.failAt.None? && business.failAt.None? && attestation.failAt.None?
    }

    /** No truncated attestation file stays behind. */
    predicate Whole() { attestation.failAt.Some? ==> !attestation.stuck }
  }

  function Reservation(env: Env, z: Sizes, a: Document): nat {
    z.validation + z.restore + z.business + |INCOMPLETE_MARKER| + |env.encode(a)|
  }

  predicate SameSizes(z: Sizes, s: Sources) {
    z.validation == |s.validation| && z.restore == |s.restore| && z.business == |s.business|
  }

  /** The directory between the last write and the removal of the marker. */
  function Marked(s: Sources): Dir {
    map[Marker := INCOMPLETE_MARKER][Validation := s.validation][RestoreSummary := s.restore]
       [BusinessSummary := s.business]
  }

  lemma {:induction false} MarkedComplete(env: Env, s: Sources, a: Document)
    ensures Marked(s)[AttestationJson := env.encode(a)] - {Marker} == Complete(env, s, a)
    ensures AttestationJson !in Marked(s)
  {
  }

  ghost predicate AllUnfinished(dirs: seq<Dir>) {
    forall i :: 0 <= i < |dirs| ==> Unfinished(dirs[i])
  }

  lemma {:induction false} AddingUnfinished(before: seq<Dir>, after: seq<Dir>, d: Dir, name: FileName, size: nat)
    requires AllUnfinished(before) && before <= after
    requires forall i :: |before| <= i < |after| ==> Adding(after[i], d, name, size)
    requires Marker in d || (AttestationJson !in d && name != AttestationJson)
    ensures AllUnfinished(after)
  {
  }

  /** Copy one evidence file behind the marker, if it still has the size that was reserved for it. */
  method CopyOne(dir: WorkDir, name: FileName, size: nat, found: string, cuts: seq<nat>, fault: Fault, ghost bytes: int)
    returns (r: Option<AttestError>)
    requires name !in dir.files && Marker in dir.files && DirBytes(dir.files) + size <= bytes
    requires AllUpTo(dir.history, bytes) && AllUnfinished(dir.history)
    modifies dir
    ensures r.None? ==> size == |found| && dir.files == old(dir.files)[name := found]
    ensures r.None? ==> DirBytes(dir.files) == old(DirBytes(dir.files)) + size
    ensures r.Some? ==> dir.files == old(dir.files) || Left(dir.files, old(dir.files), name, found, fault.stuck)
    ensures DirBytes(dir.files) <= old(DirBytes(dir.files)) + size
    ensures fault.failAt.None? && size == |found| ==> r.None?
    ensures AllUpTo(dir.history, bytes) && AllUnfinished(dir.history)
  {
    if |found| != size {
      return Some(Changed);
    }
    ghost var d, h := dir.files, dir.history;
    var ok := dir.CopyExact(name, found, |found|, cuts, fault);
    AddingUpTo(h, dir.history, d, name, |found|, bytes);
    AddingUnfinished(h, dir.history, d, name, |found|);
    assert found[..|found|] == found;
    if ok {
      BytesWith(d, name, found);
      return None;
    }
    LeftBytes(dir.files, d, name, found, fault.stuck);
    return Some(WriteFailed);
  }

  function EvidenceBytes(z: Sizes): nat {
    |INCOMPLETE_MARKER| + z.validation + z.restore + z.business
  }

  /** Write the marker. */
  method WriteMarker(dir: WorkDir, fault: Fault, ghost bytes: int) returns (ok: bool)
    requires dir.files == map[] && dir.history == [map[]] && |INCOMPLETE_MARKER| <= bytes
    modifies dir
    ensures ok <==> fault.failAt.None?
    ensures ok ==> dir.files == map[Marker := INCOMPLETE_MARKER] && DirBytes(dir.files) == |INCOMPLETE_MARKER|
    ensures AttestationJson !in dir.files && DirBytes(dir.files) <= |INCOMPLETE_MARKER|
    ensures AllUpTo(dir.history, bytes) && AllUnfinished(dir.history)
  {
    EmptyDirBytes();
    ghost var d, h := dir.files, dir.history;
    ok := dir.WriteNew(Marker, INCOMPLETE_MARKER, fault);
    AddingUpTo(h, dir.history, d, Marker, |INCOMPLETE_MARKER|, bytes);
    AddingUnfinished(h, dir.history, d, Marker, |INCOMPLETE_MARKER|);
    if ok {
      BytesWith(d, Marker, INCOMPLETE_MARKER);
    } else {
      LeftBytes(dir.files, d, Marker, INCOMPLETE_MARKER, fault.stuck);
    }
  }

  /** Write the marker, then copy the three evidence files behind it. */
  method CopyEvidence(dir: WorkDir, req: Request, faults: AttestFaults, ghost bytes: int)
    returns (r: Option<AttestError>)
    requires dir.files == map[] && dir.history == [map[]]
    requires EvidenceBytes(req.sizes) <= bytes
    modifies dir
    ensures r.None? ==> SameSizes(req.sizes, req.found) && dir.files == Marked(req.found)
    ensures SameSizes(req.sizes, req.found) && faults.BeforeCommit() ==> r.None?
    ensures AttestationJson !in dir.files
    ensures DirBytes(dir.files) <= EvidenceBytes(req.sizes)
    ensures AllUpTo(dir.history, bytes) && AllUnfinished(dir.history)
  {
    var sizes, found := req.sizes, req.found;
    var ok := WriteMarker(dir, faults.marker, bytes);
    if !ok {
      return Some(WriteFailed);
    }
    r := CopyOne(dir, Validation, sizes.validation, found.validation, faults.cuts, faults.validation, bytes);
    if r.Some? {
      return;
    }
    r := CopyOne(dir, RestoreSummary, sizes.restore, found.restore, faults.cuts, faults.restore, bytes);
    if r.Some? {
      return;
    }
    r := CopyOne(dir, BusinessSummary, sizes.business, found.business, faults.cuts, faults.business, bytes);
  }

  /** The attestation file is absent, or is there behind the marker and all the evidence, in full unless
      a truncated file could not be removed. */
  predicate Written(env: Env, s: Sources, a: Document, whole: bool, d: Dir) {
    AttestationJson in d ==>
      && d == Marked(s)[AttestationJson := d[AttestationJson]] && d[AttestationJson] <= env.encode(a)
      && (whole ==> d[AttestationJson] == env.encode(a))
  }

  /** Everything up to and including attestation.json; the marker is still in place. */
  method FillMarked(dir: WorkDir, env: Env, backups: map<string, Dir>, req: Request, a: Document, faults: AttestFaults)
    returns (r: Option<AttestError>)
    requires dir.files == map[] && dir.history == [map[]]
    requires Validate(env, backups, req.id, req.seen) == Some(a.binding)
    modifies dir
    ensures r.None? ==> Validate(env, backups, req.id, req.found) == Some(a.binding)
    ensures r.None? ==> dir.files == Marked(req.found)[AttestationJson := env.encode(a)]
    ensures Written(env, req.found, a, faults.Whole(), dir.files)
    ensures Copyable(env, backups, req) && faults.BeforeCommit() ==> r.None?
    ensures AllUpTo(dir.history, Reservation(env, req.sizes, a)) && AllUnfinished(dir.history)
    ensures DirBytes(dir.files) <= Reservation(env, req.sizes, a)
  {
    ghost var bytes := Reservation(env, req.sizes, a);
    r := CopyEvidence(dir, req, faults, bytes);
    if r.Some? {
      return;
    }
    var copies := Sources(dir.files[Validation], dir.files[RestoreSummary], dir.files[BusinessSummary]);
    var copied := Validate(env, backups, req.id, copies);
    if faults.verify || copied != Some(a.binding) {
      return Some(Changed);
    }
    ghost var d, h := dir.files, dir.history;
    var ok := dir.WriteNew(AttestationJson, env.encode(a), faults.attestation);
    AddingUpTo(h, dir.history, d, AttestationJson, |env.encode(a)|, bytes);
    AddingUnfinished(h, dir.history, d, AttestationJson, |env.encode(a)|);
    if !ok {
      LeftBytes(dir.files, d, AttestationJson, env.encode(a), faults.attestation.stuck);
      return Some(WriteFailed);
    }
    BytesWith(d, AttestationJson, env.encode(a));
  }

  /** The evidence that is copied has the reserved sizes and validates as it did at first. */
  predicate Copyable(env: Env, backups: map<string, Dir>, req: Request) {
    && SameSizes(req.sizes, req.found)
    && Validate(env, backups, req.id, req.found) == Validate(env, backups, req.id, req.seen)
  }

  // ---- What can be loaded ------------------------------------------------------------------------

  /** The contents of a completed attestation, or of one whose file was cut short and could not be
      removed again. */
  predicate Finished(env: Env, s: Sources, a: Document, whole: bool, d: Dir) {
    && AttestationJson in d && d == Complete(env, s, a)[AttestationJson := d[AttestationJson]]
    && d[AttestationJson] <= env.encode(a) && (whole ==> d == Complete(env, s, a))
  }

  /** The loader accepts no contents of the directory other than finished ones. */
  ghost predicate OnlyFinished(env: Env, backups: map<string, Dir>, id: string, s: Sources, a: Document, whole: bool,
                               dirs: seq<Dir>)
  {
    forall i :: 0 <= i < |dirs| ==> (Load(env, backups, id, dirs[i]).Ok? ==> Finished(env, s, a, whole, dirs[i]))
  }

  lemma {:induction false} UnfinishedOnlyFinished(env: Env, backups: map<string, Dir>, id: string, s: Sources,
                                                  a: Document, whole: bool, dirs: seq<Dir>)
    requires AllUnfinished(dirs)
    ensures OnlyFinished(env, backups, id, s, a, whole, dirs)
  {
  }

  /** Removing files one by one can only uncover a finished attestation, never another part of it. */
  lemma {:induction false} ShrunkOnlyFinished(env: Env, backups: map<string, Dir>, id: string, s: Sources,
                                              a: Document, whole: bool, d: Dir, e: Dir)
    requires Written(env, s, a, whole, d) || d == Complete(env, s, a)
    requires Shrunk(e, d)
    ensures Load(env, backups, id, e).Ok? ==> Finished(env, s, a, whole, e)
  {
    if e.Keys == INVENTORY {
      assert e == Complete(env, s, a)[AttestationJson := e[AttestationJson]];
    }
  }

  /** The text of an attestation file decodes to a document for the same evidence. */
  predicate Readable(env: Env, a: Document, text: string) {
    var b := env.decode(text);
    b.Some? && b.value.binding == a.binding && env.validTimestamp(b.value.attestedAt)
  }

  /** What is left when the removal of a written directory stops early loads exactly when the marker, and
      nothing else, has gone and the text of the attestation, cut short or not, is readable. Its restore
      id and target identity are then those that were being attested; the full text gives the document
      itself. */
  lemma {:induction false} ResidueLoads(env: Env, backups: map<string, Dir>, id: string, s: Sources, a: Document,
                                        text: string, e: Dir)
    requires Validate(env, backups, id, s) == Some(a.binding) && text <= env.encode(a)
    requires Shrunk(e, Marked(s)[AttestationJson := text])
    ensures Load(env, backups, id, e).Ok? <==> e.Keys == INVENTORY && Readable(env, a, text)
    ensures var r := Load(env, backups, id, e);
      r.Ok? ==> r.value.document.binding == a.binding && r.value.digest == Sha256(text)
    ensures e.Keys == INVENTORY && text == env.encode(a) && Invertible(env) && env.validTimestamp(a.attestedAt) ==>
      Load(env, backups, id, e) == Ok(Loaded(a, Sha256(env.encode(a))))
  {
    if e.Keys == INVENTORY {
      assert Sources(e[Validation], e[RestoreSummary], e[BusinessSummary]) == s && e[AttestationJson] == text;
    }
  }

  /** What the retention planner sees of the attestation of one backup. */
  function SeenOf(env: Env, s: Snapshot, id: string): Option<Retention.Attestation> {
    if id !in s.knownGood then None else Seen(Load(env, s.backups, id, s.knownGood[id]))
  }

  function Seen(r: Result<Loaded, LoadError>): Option<Retention.Attestation> {
    match r
    case Err(_) => None
    case Ok(l) =>
      var b := l.document.binding;
      Some(Retention.Attestation(b.restoreId, b.targetIdentity, l.digest.preimage))
  }

  function Attested(env: Env, s: Snapshot): Retention.Attestations {
    map id | id in s.knownGood && SeenOf(env, s, id).Some? :: SeenOf(env, s, id).value
  }

  lemma {:induction false} SeenElsewhere(env: Env, base: Snapshot, id: string, e: Dir, k: string)
    ensures SeenOf(env, Put(base, InKnownGood(id), e), k) ==
            if k == id then Seen(Load(env, base.backups, id, e)) else SeenOf(env, base, k)
  {
  }

  /** An attestation does not load without its backup. */
  lemma {:induction false} SeenWithBackup(env: Env, s: Snapshot, id: string)
    ensures SeenOf(env, s, id).Some? ==> id in s.backups
  {
  }

  /** A new attestation appears to the planner all at once: as long as its directory does not load,
      the planner sees what it saw before; once it does, one entry more. */
  lemma {:induction false} PlannerSeesCommit(env: Env, base: Snapshot, id: string, e: Dir)
    requires id !in base.knownGood
    ensures var t, r := Put(base, InKnownGood(id), e), Load(env, base.backups, id, e);
      if r.Err? then Attested(env, t) == Attested(env, base)
      else
        var binding := r.value.document.binding;
        var entry := Retention.Attestation(binding.restoreId, binding.targetIdentity, r.value.digest.preimage);
        Attested(env, t) == Attested(env, base)[id := entry]
  {
    var t, entry := Put(base, InKnownGood(id), e), Seen(Load(env, base.backups, id, e));
    forall k ensures Lookup(Attested(env, t), k) == if k == id then entry else Lookup(Attested(env, base), k) {
      AttestedElsewhere(env, base, id, e, k);
    }
    OneMore(Attested(env, base), Attested(env, t), id, entry);
  }

  lemma {:induction false} AttestedElsewhere(env: Env, base: Snapshot, id: string, e: Dir, k: string)
    ensures Lookup(Attested(env, Put(base, InKnownGood(id), e)), k) ==
            if k == id then Seen(Load(env, base.backups, id, e)) else Lookup(Attested(env, base), k)
  {
    AttestedAt(env, Put(base, InKnownGood(id), e), k);
    AttestedAt(env, base, k);
    SeenElsewhere(env, base, id, e, k);
  }

  function Lookup(m: Retention.Attestations, k: string): Option<Retention.Attestation> {
    if k in m then Some(m[k]) else None
  }

  lemma {:induction false} OneMore(m: Retention.Attestations, m': Retention.Attestations, id: string,
                                   entry: Option<Retention.Attestation>)
    requires id !in m && forall k :: Lookup(m', k) == if k == id then entry else Lookup(m, k)
    ensures m' == if entry.Some? then m[id := entry.value] else m
  {
    assert forall k :: k in m' <==> Lookup(m', k).Some?;
    assert forall k :: k in m <==> Lookup(m, k).Some?;
  }

  lemma {:induction false} AttestedAt(env: Env, s: Snapshot, id: string)
    ensures Lookup(Attested(env, s), id) == SeenOf(env, s, id)
  {
  }

  /** What the planner is given: the attestations that load, each with the restore id, the target identity
      and the digest of the document that loads. */
  lemma {:induction false} AttestedExactly(env: Env, s: Snapshot, id: string)
    ensures id in Attested(env, s) <==> id in s.knownGood && Load(env, s.backups, id, s.knownGood[id]).Ok?
    ensures id in Attested(env, s) ==>
      var entry, loaded := Attested(env, s)[id], Load(env, s.backups, id, s.knownGood[id]).value;
      && entry.restoreId == loaded.document.binding.restoreId
      && entry.targetIdentity == loaded.document.binding.targetIdentity
      && Sha256(entry.digest) == loaded.digest
  {
    AttestedAt(env, s, id);
  }

  /** When an attestation loads, and as what: its four files are there and no other, its backup is in the
      vault, and its document is the one that the three evidence files validate to for that backup. */
  lemma {:induction false} LoadExactly(env: Env, backups: map<string, Dir>, id: string, d: Dir, document: Document,
                                       digest: Digest)
    ensures Load(env, backups, id, d) == Ok(Loaded(document, digest)) <==>
      && d.Keys == {AttestationJson, Validation, RestoreSummary, BusinessSummary}
      && id in backups
      && env.decode(d[AttestationJson]) == Some(document)
      && env.validate(id, backups[id], Sources(d[Validation], d[RestoreSummary], d[BusinessSummary])) ==
         Some(document.binding)
      && env.validTimestamp(document.attestedAt)
      && digest == Sha256(d[AttestationJson])
  {
  }

  /** The attestation of `id` in the vault `s` loads as `loaded`. */
  predicate LoadsAs(env: Env, s: Snapshot, id: string, loaded: Loaded) {
    && id in s.backups && id in s.knownGood
    && Load(env, s.backups, id, s.knownGood[id]) == Ok(loaded)
  }

  /** A crash that leaves the vault in state `t` leaves the backups and the other attestations alone, and
      nothing for `id` that loads except a finished attestation. */
  ghost predicate CrashSafe(env: Env, base: Snapshot, req: Request, a: Document, whole: bool, t: Snapshot) {
    && t.backups == base.backups
    && (forall id :: id in t.knownGood && id != req.id ==>
          id in base.knownGood && t.knownGood[id] == base.knownGood[id])
    && (req.id in t.knownGood && Load(env, t.backups, req.id, t.knownGood[req.id]).Ok? ==>
          Finished(env, req.found, a, whole, t.knownGood[req.id]))
  }

  ghost predicate AllCrashSafe(env: Env, base: Snapshot, req: Request, a: Document, whole: bool, past: seq<Snapshot>,
                               trace: seq<Snapshot>)
  {
    && past <= trace
    && forall i :: |past| <= i < |trace| ==> CrashSafe(env, base, req, a, whole, trace[i])
  }

  lemma {:induction false} CrashSafeShots(env: Env, base: Snapshot, req: Request, a: Document, whole: bool,
                                          dirs: seq<Dir>, past: seq<Snapshot>, before: seq<Snapshot>)
    requires OnlyFinished(env, base.backups, req.id, req.found, a, whole, dirs)
    requires AllCrashSafe(env, base, req, a, whole, past, before)
    ensures AllCrashSafe(env, base, req, a, whole, past, before + Shots(base, InKnownGood(req.id), dirs))
  {
    var shots := Shots(base, InKnownGood(req.id), dirs);
    forall i | 0 <= i < |shots| ensures CrashSafe(env, base, req, a, whole, shots[i]) {
      assert shots[i] == Put(base, InKnownGood(req.id), dirs[i]);
    }
  }

  lemma {:induction false} CrashSafeDiscard(env: Env, base: Snapshot, req: Request, a: Document, whole: bool, d: Dir,
                                            before: seq<Dir>, after: seq<Dir>, past: seq<Snapshot>,
                                            shown: seq<Snapshot>, removed: bool)
    requires Written(env, req.found, a, whole, d) || d == Complete(env, req.found, a)
    requires before <= after && req.id !in base.knownGood
    requires forall i :: |before| <= i < |after| ==> Shrunk(after[i], d)
    requires AllCrashSafe(env, base, req, a, whole, past, shown)
    ensures AllCrashSafe(env, base, req, a, whole, past,
              shown + Shots(base, InKnownGood(req.id), after[|before|..]) + if removed then [base] else [])
  {
    var dirs := after[|before|..];
    forall i | 0 <= i < |dirs|
      ensures Load(env, base.backups, req.id, dirs[i]).Ok? ==> Finished(env, req.found, a, whole, dirs[i])
    {
      assert dirs[i] == after[|before| + i];
      ShrunkOnlyFinished(env, base.backups, req.id, req.found, a, whole, d, dirs[i]);
    }
    CrashSafeShots(env, base, req, a, whole, dirs, past, shown);
    assert CrashSafe(env, base, req, a, whole, base);
    var all := shown + Shots(base, InKnownGood(req.id), dirs);
    assert all + [] == all;
  }

  // ---- The operation -----------------------------------------------------------------------------

  /** The document an accepted request is attested with. */
  function DocumentOf(env: Env, backups: map<string, Dir>, req: Request): Option<Document> {
    match Validate(env, backups, req.id, req.seen)
    case None => None
    case Some(binding) => Some(Document(req.attestedAt, binding))
  }

  ghost predicate Attestable(v: Vault, s: Snapshot, env: Env, req: Request) {
    && DocumentOf(env, s.backups, req).Some? && env.validTimestamp(req.attestedAt) && Copyable(env, s.backups, req)
    && Reserved(v, s, Reservation(env, req.sizes, DocumentOf(env, s.backups, req).value))
    && req.id !in s.knownGood
  }

  /** The vault with the completed attestation. */
  function Committed(env: Env, s: Snapshot, req: Request, a: Document): Snapshot {
    s.(knownGood := s.knownGood[req.id := Complete(env, req.found, a)])
  }

  /** The evidence that was found and the document it validates to are on record for the backup; nothing
      else has changed. */
  ghost predicate Recorded(env: Env, before: Snapshot, now: Snapshot, req: Request, a: Document) {
    && a.attestedAt == req.attestedAt && req.id in before.backups && req.id !in before.knownGood
    && env.validate(req.id, before.backups[req.id], req.found) == Some(a.binding)
    && now == before.(knownGood := before.knownGood[req.id := map[
         Validation := req.found.validation, RestoreSummary := req.found.restore,
         BusinessSummary := req.found.business, AttestationJson := env.encode(a)]])
  }

  lemma {:induction false} LoadedRecorded(env: Env, before: Snapshot, req: Request, a: Document)
    requires Some(a) == DocumentOf(env, before.backups, req) && req.id !in before.knownGood
    requires Load(env, before.backups, req.id, Complete(env, req.found, a)).Ok? && Invertible(env)
    ensures Recorded(env, before, Committed(env, before, req, a), req, a)
  {
  }

  /** The checks before anything is written. */
  method Preflight(v: Vault, env: Env, req: Request, faults: AttestFaults) returns (r: Result<Document, AttestError>)
    ensures r.Ok? <==>
      && DocumentOf(env, v.backups, req).Some? && env.validTimestamp(req.attestedAt) && !faults.preflight
      && Reserved(v, v.Now(), Reservation(env, req.sizes, DocumentOf(env, v.backups, req).value))
      && req.id !in v.knownGood && !faults.mkdir
    ensures r.Ok? ==> Some(r.value) == DocumentOf(env, v.backups, req)
  {
    var document := DocumentOf(env, v.backups, req);
    if document.None? {
      return Err(SourcesInvalid);
    }
    if !env.validTimestamp(req.attestedAt) {
      return Err(TimestampInvalid);
    }
    if faults.preflight {
      return Err(WriteFailed);
    }
    var reservation := Reservation(env, req.sizes, document.value);
    var current := LogicalBytes(v);
    if current + reservation > MAX_VAULT_BYTES {
      return Err(OverLimit);
    }
    if v.disk - current - reservation < MINIMUM_FREE_BYTES {
      return Err(UnderFloor);
    }
    if req.id in v.knownGood {
      return Err(Exists);
    }
    if faults.mkdir {
      return Err(WriteFailed);
    }
    return Ok(document.value);
  }

  /** One attestation under way: the vault before it, with its trace, and what is being attested. */
  datatype Session = Session(env: Env, base: Snapshot, past: seq<Snapshot>, req: Request, a: Document, whole: bool) {
    function Where(): Where { InKnownGood(req.id) }

    function Bytes(): nat { Reservation(env, req.sizes, a) }
  }

  /** Every state since the beginning has been within the limits and safe to crash in. */
  ghost predicate Sound(v: Vault, x: Session, trace: seq<Snapshot>) {
    && Safe(v, x.base, x.past, trace)
    && AllCrashSafe(x.env, x.base, x.req, x.a, x.whole, x.past, trace)
  }

  /** The vault shows the directory, which is within its reservation. */
  ghost predicate Shows(v: Vault, x: Session, dir: WorkDir)
    reads v, dir
  {
    && v.Now() == Put(x.base, x.Where(), dir.files) && Absent(x.base, x.Where())
    && Reserved(v, x.base, x.Bytes()) && DirBytes(dir.files) <= x.Bytes() && AllUpTo(dir.history, x.Bytes())
  }

  lemma {:induction false} ShowSound(v: Vault, x: Session, dirs: seq<Dir>, before: seq<Snapshot>)
    requires Reserved(v, x.base, x.Bytes()) && Absent(x.base, x.Where()) && AllUpTo(dirs, x.Bytes())
    requires OnlyFinished(x.env, x.base.backups, x.req.id, x.req.found, x.a, x.whole, dirs)
    requires Sound(v, x, before)
    ensures Sound(v, x, before + Shots(x.base, x.Where(), dirs))
  {
    ReservationCoversAll(v, x.base, x.Where(), dirs, x.Bytes());
    SafeAppend(v, x.base, x.past, before, Shots(x.base, x.Where(), dirs));
    CrashSafeShots(x.env, x.base, x.req, x.a, x.whole, dirs, x.past, before);
  }

  /** Create a known-good attestation under the vault's lock. Every state on the way is within the
      vault's limits, keeps all that was stored, and is safe to crash in. A success adds a directory
      that loads as exactly what was attested; a failure whose cleanup completes changes nothing, even
      when it comes after the commit, which is then taken back. */
  method Attest(v: Vault, env: Env, req: Request, faults: AttestFaults) returns (r: Result<Document, AttestError>)
    requires Invertible(env)
    modifies v
    ensures Safe(v, old(v.Now()), old(v.trace), v.trace)
    ensures v.Now() == old(v.Now()) || (v.Within(v.Now()) && KeepsStored(old(v.Now()), v.Now()))
    ensures DocumentOf(env, old(v.backups), req).None? || req.id in old(v.knownGood) ==>
      v.Now() == old(v.Now()) && v.trace == old(v.trace)
    ensures var a := DocumentOf(env, old(v.backups), req);
      a.Some? && req.id !in old(v.knownGood) ==>
        && AllCrashSafe(env, old(v.Now()), req, a.value, faults.Whole(), old(v.trace), v.trace)
        && CrashSafe(env, old(v.Now()), req, a.value, faults.Whole(), v.Now())
    ensures r.Ok? ==> Some(r.value) == DocumentOf(env, old(v.backups), req) && req.id !in old(v.knownGood)
    ensures r.Ok? ==> v.Now() == Committed(env, old(v.Now()), req, r.value)
    ensures r.Ok? ==> Recorded(env, old(v.Now()), v.Now(), req, r.value)
    ensures r.Ok? ==>
      Load(env, v.backups, req.id, v.knownGood[req.id]) == Ok(Loaded(r.value, Sha256(env.encode(r.value))))
    ensures r.Err? && faults.cleanup.removed ==> v.Now() == old(v.Now())
    ensures r.Err? ==> v.Now() == old(v.Now()).(knownGood := v.knownGood)
    ensures Attestable(v, old(v.Now()), env, req) && faults.BeforeCommit() ==>
      && (r.Ok? <==> !faults.completion)
      && (var committed := Committed(env, old(v.Now()), req, DocumentOf(env, old(v.backups), req).value);
          exists i :: |old(v.trace)| <= i < |v.trace| && v.trace[i] == committed)
  {
    r := Preflight(v, env, req, faults);
    if r.Err? {
      return;
    }
    var a := r.value;
    ghost var x := Session(env, v.Now(), v.trace, req, a, faults.Whole());
    var dir := new WorkDir();
    var failed := Construct(v, x, dir, env, req, a, faults);
    if failed.None? {
      LoadedRecorded(env, x.base, req, a);
      return;
    }
    TakeBack(v, x, dir, faults.cleanup, req.id);
    return Err(failed.value);
  }

  /** Write the directory and commit it. */
  method Construct(v: Vault, ghost x: Session, dir: WorkDir, env: Env, req: Request, a: Document, faults: AttestFaults)
    returns (r: Option<AttestError>)
    requires x == Session(env, v.Now(), v.trace, req, a, faults.Whole()) && Invertible(env)
    requires Some(a) == DocumentOf(env, v.backups, req) && env.validTimestamp(a.attestedAt)
    requires req.id !in v.knownGood && Reserved(v, v.Now(), x.Bytes()) && dir.files == map[] && dir.history == [map[]]
    modifies v`incoming, v`knownGood, v`trace, dir
    ensures Shows(v, x, dir) && Sound(v, x, v.trace)
    ensures Written(env, req.found, a, x.whole, dir.files) || dir.files == Complete(env, req.found, a)
    ensures r.None? ==> CommitVisible(v, x, dir)
    ensures Copyable(env, x.base.backups, req) && faults.BeforeCommit() ==>
      (r.None? <==> !faults.completion) && CommitVisible(v, x, dir)
  {
    r := FillMarked(dir, env, v.backups, req, a, faults);
    v.Show(InKnownGood(req.id), dir, x.base, 0);
    assert dir.history[0..] == dir.history;
    UnfinishedOnlyFinished(env, x.base.backups, req.id, req.found, a, x.whole, dir.history);
    assert Sound(v, x, x.past);
    ShowSound(v, x, dir.history, x.past);
    if r.None? {
      r := Commit(v, x, dir, env, req, a, faults);
    }
  }

  /** The vault shows the completed attestation, which loads. */
  ghost predicate CommitVisible(v: Vault, x: Session, dir: WorkDir)
    reads v, dir
  {
    && dir.files == Complete(x.env, x.req.found, x.a) && v.Now() == Committed(x.env, x.base, x.req, x.a)
    && |v.trace| > |x.past| && v.trace[|v.trace| - 1] == v.Now()
    && v.Within(v.Now()) && KeepsStored(x.base, v.Now())
    && Load(x.env, v.backups, x.req.id, v.knownGood[x.req.id]) == Ok(Loaded(x.a, Sha256(x.env.encode(x.a))))
  }

  /** The check at the peak, the commit point, which is the removal of the marker, and the check after it.
      The reservation makes both checks redundant; they can still fail to read the vault. */
  method Commit(v: Vault, ghost x: Session, dir: WorkDir, env: Env, req: Request, a: Document, faults: AttestFaults)
    returns (r: Option<AttestError>)
    requires x.env == env && x.req == req && x.a == a
    requires Invertible(env) && env.validTimestamp(a.attestedAt)
    requires Validate(env, x.base.backups, req.id, req.found) == Some(a.binding)
    requires dir.files == Marked(req.found)[AttestationJson := env.encode(a)]
    requires Shows(v, x, dir) && Sound(v, x, v.trace)
    modifies v`incoming, v`knownGood, v`trace, dir
    ensures Shows(v, x, dir) && Sound(v, x, v.trace)
    ensures r.None? <==> !faults.peak && !faults.unlink && !faults.completion
    ensures if faults.peak || faults.unlink then dir.files == old(dir.files) else CommitVisible(v, x, dir)
  {
    if faults.peak {
      return Some(WriteFailed);
    }
    var peak := LogicalBytes(v);
    assert peak <= MAX_VAULT_BYTES && v.disk - peak >= MINIMUM_FREE_BYTES by {
      ReservationCovers(v, x.base, x.Where(), dir.files, x.Bytes());
    }
    if faults.unlink {
      return Some(WriteFailed);
    }
    RemoveMarker(v, x, dir, req.id);
    if faults.completion {
      return Some(WriteFailed);
    }
    var completed := LogicalBytes(v);
    assert completed <= MAX_VAULT_BYTES && v.disk - completed >= MINIMUM_FREE_BYTES;
    return None;
  }

  method RemoveMarker(v: Vault, ghost x: Session, dir: WorkDir, id: string)
    requires id == x.req.id && Invertible(x.env) && x.env.validTimestamp(x.a.attestedAt)
    requires Validate(x.env, x.base.backups, id, x.req.found) == Some(x.a.binding)
    requires dir.files == Marked(x.req.found)[AttestationJson := x.env.encode(x.a)]
    requires Shows(v, x, dir) && Sound(v, x, v.trace)
    modifies v`incoming, v`knownGood, v`trace, dir
    ensures Shows(v, x, dir) && Sound(v, x, v.trace) && CommitVisible(v, x, dir)
  {
    ghost var complete := Complete(x.env, x.req.found, x.a);
    assert dir.files - {Marker} == complete by { MarkedComplete(x.env, x.req.found, x.a); }
    assert DirBytes(complete) <= x.Bytes() by { ShrunkBytes(dir.files - {Marker}, dir.files); }
    assert Finished(x.env, x.req.found, x.a, x.whole, complete) by {
      CompleteFinished(x.env, x.req.found, x.a, x.whole);
    }
    Become(v, x, dir, id, dir.files - {Marker});
    LoadComplete(x.env, x.base.backups, id, x.req.found, x.a);
  }

  lemma {:induction false} CompleteFinished(env: Env, s: Sources, a: Document, whole: bool)
    ensures Finished(env, s, a, whole, Complete(env, s, a))
  {
  }

  /** The directory takes on the finished contents `e`. */
  method Become(v: Vault, ghost x: Session, dir: WorkDir, id: string, e: Dir)
    requires id == x.req.id && Shows(v, x, dir) && Sound(v, x, v.trace)
    requires DirBytes(e) <= x.Bytes() && Finished(x.env, x.req.found, x.a, x.whole, e)
    modifies v`incoming, v`knownGood, v`trace, dir
    ensures Shows(v, x, dir) && Sound(v, x, v.trace) && dir.files == e
    ensures v.trace == old(v.trace) + [v.Now()]
    ensures v.Within(v.Now()) && KeepsStored(x.base, v.Now())
  {
    ghost var n, before := |dir.history|, v.trace;
    dir.Set(e);
    v.Show(InKnownGood(id), dir, x.base, n);
    assert dir.history[n..] == [e];
    ShowSound(v, x, [e], before);
    ReservationCovers(v, x.base, x.Where(), e, x.Bytes());
  }

  /** The handler: remove the directory as far as that goes. */
  method TakeBack(v: Vault, ghost x: Session, dir: WorkDir, cleanup: Cleanup, id: string)
    requires id == x.req.id && Shows(v, x, dir) && Sound(v, x, v.trace)
    requires Written(x.env, x.req.found, x.a, x.whole, dir.files) || dir.files == Complete(x.env, x.req.found, x.a)
    modifies v`incoming, v`knownGood, v`trace, dir
    ensures Sound(v, x, v.trace) && old(v.trace) <= v.trace
    ensures CrashSafe(x.env, x.base, x.req, x.a, x.whole, v.Now())
    ensures v.Within(v.Now()) && KeepsStored(x.base, v.Now())
    ensures cleanup.removed ==> v.Now() == x.base
    ensures v.Now() == x.base.(knownGood := v.knownGood)
  {
    ghost var d, h, shown := dir.files, dir.history, v.trace;
    Discard(v, InKnownGood(id), dir, cleanup, x.base, x.past, x.Bytes());
    CrashSafeDiscard(x.env, x.base, x.req, x.a, x.whole, d, h, dir.history, x.past, shown, cleanup.removed);
    if !cleanup.removed {
      ShrunkOnlyFinished(x.env, x.base.backups, id, x.req.found, x.a, x.whole, d, dir.files);
    }
  }
}
