/** Capacity reservations: what a reservation made before writing guarantees for every later state. */
module VaultCapacity {
  import opened Common
  import opened Vault

  /** The preflight reservation of a candidate of so many bytes. */
  ghost predicate Reserved(v: Vault, s: Snapshot, bytes: int) {
    Used(s) + bytes <= MAX_VAULT_BYTES && v.disk - Used(s) - bytes >= MINIMUM_FREE_BYTES
  }

  /** A reservation covers every state in which the new directory stays within it, so the checks made
      after writing can only confirm it. */
  lemma {:induction false} ReservationCovers(v: Vault, base: Snapshot, w: Where, d: Dir, bytes: int)
    requires Reserved(v, base, bytes) && Absent(base, w) && DirBytes(d) <= bytes
    ensures v.Within(Put(base, w, d)) && KeepsStored(base, Put(base, w, d))
  {
    UsedPut(base, w, d);
    PutKeepsStored(base, w, d);
  }

  lemma {:induction false} ReservationCoversAll(v: Vault, base: Snapshot, w: Where, dirs: seq<Dir>, bytes: int)
    requires Reserved(v, base, bytes) && Absent(base, w) && AllUpTo(dirs, bytes)
    ensures forall t :: t in Shots(base, w, dirs) ==> v.Within(t) && KeepsStored(base, t)
  {
    forall i | 0 <= i < |dirs| ensures v.Within(Put(base, w, dirs[i])) && KeepsStored(base, Put(base, w, dirs[i])) {
      ReservationCovers(v, base, w, dirs[i], bytes);
    }
  }

  lemma {:induction false} PublishedWithin(v: Vault, base: Snapshot, id: string, d: Dir, bytes: int)
    requires Reserved(v, base, bytes) && id !in base.backups && DirBytes(d) <= bytes
    ensures var t := base.(backups := base.backups[id := d]); v.Within(t) && KeepsStored(base, t)
  {
    SumByInsert(base.backups, DirBytes, id, d);
  }

  /** The states an operation has gone through, given what was recorded before it. */
  ghost predicate Safe(v: Vault, base: Snapshot, past: seq<Snapshot>, trace: seq<Snapshot>) {
    && past <= trace
    && forall t :: t in trace[|past|..] ==> v.Within(t) && KeepsStored(base, t)
  }

  lemma {:induction false} SafeAppend(v: Vault, base: Snapshot, past: seq<Snapshot>, trace: seq<Snapshot>,
                                      more: seq<Snapshot>)
    requires Safe(v, base, past, trace)
    requires forall t :: t in more ==> v.Within(t) && KeepsStored(base, t)
    ensures Safe(v, base, past, trace + more)
  {
  }

  /** The states in which a directory within its reservation has been shown are safe. */
  lemma {:induction false} Shown(v: Vault, base: Snapshot, w: Where, history: seq<Dir>, from: nat, bytes: int,
              past: seq<Snapshot>, before: seq<Snapshot>)
    requires Reserved(v, base, bytes) && Absent(base, w) && from <= |history| && AllUpTo(history, bytes)
    requires Safe(v, base, past, before)
    ensures Safe(v, base, past, before + Shots(base, w, history[from..]))
  {
    assert forall i :: 0 <= i < |history[from..]| ==> history[from..][i] == history[from + i];
    ReservationCoversAll(v, base, w, history[from..], bytes);
    SafeAppend(v, base, past, before, Shots(base, w, history[from..]));
  }

  lemma {:induction false} ShrunkUpTo(before: seq<Dir>, after: seq<Dir>, d: Dir, bytes: int)
    requires AllUpTo(before, bytes) && before <= after && DirBytes(d) <= bytes
    requires forall i :: |before| <= i < |after| ==> Shrunk(after[i], d)
    ensures AllUpTo(after, bytes)
  {
    forall i | 0 <= i < |after| ensures DirBytes(after[i]) <= bytes {
      if i < |before| {
        assert after[i] == before[i];
      } else {
        ShrunkBytes(after[i], d);
      }
    }
  }

  /** Remove files of a failed upload or attestation, as far as that goes. */
  method RemoveShown(v: Vault, w: Where, dir: WorkDir, cleanup: Cleanup, ghost base: Snapshot,
                     ghost past: seq<Snapshot>, ghost bytes: int)
    requires v.Now() == Put(base, w, dir.files) && Absent(base, w)
    requires DirBytes(dir.files) <= bytes && AllUpTo(dir.history, bytes) && Reserved(v, base, bytes)
    requires Safe(v, base, past, v.trace)
    modifies v`incoming, v`knownGood, v`trace, dir
    ensures Safe(v, base, past, v.trace)
    ensures v.Now() == Put(base, w, dir.files) && Shrunk(dir.files, old(dir.files)) && DirBytes(dir.files) <= bytes
    ensures old(dir.history) <= dir.history
    ensures forall i :: |old(dir.history)| <= i < |dir.history| ==> Shrunk(dir.history[i], old(dir.files))
    ensures v.trace == old(v.trace) + Shots(base, w, dir.history[|old(dir.history)|..])
  {
    ghost var d, h, before := dir.files, dir.history, v.trace;
    dir.RemoveFiles(cleanup);
    ShrunkUpTo(h, dir.history, d, bytes);
    ShrunkBytes(dir.files, d);
    v.Show(w, dir, base, |h|);
    Shown(v, base, w, dir.history, |h|, bytes, past, before);
  }

  /** Clean up a failed upload or attestation. */
  method Discard(v: Vault, w: Where, dir: WorkDir, cleanup: Cleanup, ghost base: Snapshot, ghost past: seq<Snapshot>,
                 ghost bytes: int)
    requires v.Now() == Put(base, w, dir.files) && Absent(base, w)
    requires DirBytes(dir.files) <= bytes && AllUpTo(dir.history, bytes) && Reserved(v, base, bytes)
    requires Safe(v, base, past, v.trace)
    modifies v`incoming, v`knownGood, v`trace, dir
    ensures Safe(v, base, past, v.trace)
    ensures v.Within(v.Now()) && KeepsStored(base, v.Now())
    ensures if cleanup.removed then v.Now() == base
            else v.Now() == Put(base, w, dir.files) && Shrunk(dir.files, old(dir.files))
    ensures old(dir.history) <= dir.history
    ensures forall i :: |old(dir.history)| <= i < |dir.history| ==> Shrunk(dir.history[i], old(dir.files))
    ensures v.trace == old(v.trace) + Shots(base, w, dir.history[|old(dir.history)|..])
                       + if cleanup.removed then [base] else []
  {
    RemoveShown(v, w, dir, cleanup, base, past, bytes);
    ReservationCovers(v, base, w, dir.files, bytes);
    if cleanup.removed {
      ghost var shown := v.trace;
      v.Forget(w, base, dir.files);
      SafeAppend(v, base, past, shown, [base]);
    }
  }
}
