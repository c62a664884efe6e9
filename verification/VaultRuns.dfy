/** Whole runs of the vault: any sequence of stores and attestations under its lock, succeeding and
    failing in any way. */
module VaultRuns {
  import opened Common
  import opened Vault
  import opened VaultCapacity
  import opened VaultStore
  import opened Attestation

  datatype Operation =
    | StoreUpload(upload: Upload, tmp: string, storeFaults: StoreFaults)
    | AttestBackup(request: Request, attestFaults: AttestFaults)

  lemma {:induction false} KeepsStoredTransitive(s: Snapshot, t: Snapshot, u: Snapshot)
    requires KeepsStored(s, t) && KeepsStored(t, u)
    ensures KeepsStored(s, u)
  {
  }

  lemma {:induction false} SafeExtend(v: Vault, first: Snapshot, past: seq<Snapshot>, base: Snapshot,
                                      mid: seq<Snapshot>, trace: seq<Snapshot>)
    requires Safe(v, first, past, mid) && KeepsStored(first, base) && Safe(v, base, mid, trace)
    ensures Safe(v, first, past, trace)
  {
    forall t | t in trace[|past|..] ensures v.Within(t) && KeepsStored(first, t) {
      var i :| |past| <= i < |trace| && t == trace[i];
      if i < |mid| {
        assert t == mid[i] == mid[|past|..][i - |past|];
      } else {
        assert t == trace[|mid|..][i - |mid|];
        KeepsStoredTransitive(first, base, t);
      }
    }
  }

  lemma {:induction false} SafeLimits(v: Vault, base: Snapshot, past: seq<Snapshot>, trace: seq<Snapshot>)
    requires Safe(v, base, past, trace)
    ensures forall i :: |past| <= i < |trace| ==>
      Used(trace[i]) <= 20_000_000_000 && v.disk - Used(trace[i]) >= 5_000_000_000
  {
    forall i | |past| <= i < |trace| ensures v.Within(trace[i]) {
      assert trace[i] == trace[|past|..][i - |past|];
    }
  }

  // ---- Where attestations come from ----------------------------------------------------------------

  /** The directory is the finished attestation of this request, made for the backup it names. */
  ghost predicate MadeBy(env: Env, op: Operation, t: Snapshot, id: string)
    requires id in t.knownGood
  {
    && op.AttestBackup? && op.request.id == id
    && var a := DocumentOf(env, t.backups, op.request);
       a.Some? && Finished(env, op.request.found, a.value, op.attestFaults.Whole(), t.knownGood[id])
  }

  /** An attestation that loads and was not there at the start. */
  predicate NewlyLoaded(env: Env, first: Snapshot, t: Snapshot, id: string) {
    && id in t.knownGood && Load(env, t.backups, id, t.knownGood[id]).Ok?
    && !(id in first.knownGood && t.knownGood[id] == first.knownGood[id])
  }

  /** Every attestation that loads was there at the start or was finished by one of the operations. */
  ghost predicate Explained(env: Env, first: Snapshot, operations: seq<Operation>, t: Snapshot) {
    forall id :: NewlyLoaded(env, first, t, id) ==>
      exists i :: 0 <= i < |operations| && MadeBy(env, operations[i], t, id)
  }

  /** An attestation that was not there at the start has its backup in the vault. */
  ghost predicate Grounded(first: Snapshot, t: Snapshot) {
    forall id :: id in t.knownGood ==>
      (id in first.knownGood && t.knownGood[id] == first.knownGood[id]) || id in t.backups
  }

  ghost predicate Traced(env: Env, first: Snapshot, operations: seq<Operation>, t: Snapshot) {
    Explained(env, first, operations, t) && Grounded(first, t)
  }

  /** More backups and more operations explain no less. */
  lemma {:induction false} ExplainedLater(env: Env, first: Snapshot, operations: seq<Operation>, op: Operation,
                                          s: Snapshot, t: Snapshot)
    requires Traced(env, first, operations, s) && KeepsStored(s, t) && t.knownGood == s.knownGood
    ensures Traced(env, first, operations + [op], t)
  {
    forall id | NewlyLoaded(env, first, t, id)
      ensures exists i :: 0 <= i < |operations + [op]| && MadeBy(env, (operations + [op])[i], t, id)
    {
      assert id in s.backups && t.backups[id] == s.backups[id];
      assert NewlyLoaded(env, first, s, id);
      var i :| 0 <= i < |operations| && MadeBy(env, operations[i], s, id);
      assert MadeBy(env, (operations + [op])[i], t, id);
    }
  }

  /** A state of an attestation: the others are as before, and its own loads only when finished. */
  lemma {:induction false} ExplainedAttest(env: Env, first: Snapshot, operations: seq<Operation>, req: Request,
                                           faults: AttestFaults, s: Snapshot, a: Document, t: Snapshot)
    requires Traced(env, first, operations, s)
    requires DocumentOf(env, s.backups, req) == Some(a) && CrashSafe(env, s, req, a, faults.Whole(), t)
    requires req.id !in s.knownGood
    ensures Traced(env, first, operations + [AttestBackup(req, faults)], t)
  {
    var op := AttestBackup(req, faults);
    var all := operations + [op];
    forall id | NewlyLoaded(env, first, t, id)
      ensures exists i :: 0 <= i < |all| && MadeBy(env, all[i], t, id)
    {
      if id == req.id {
        assert MadeBy(env, all[|operations|], t, id);
      } else {
        assert NewlyLoaded(env, first, s, id);
        var i :| 0 <= i < |operations| && MadeBy(env, operations[i], s, id);
        assert MadeBy(env, all[i], t, id);
      }
    }
  }

  ghost predicate AllExplained(env: Env, first: Snapshot, operations: seq<Operation>, past: seq<Snapshot>,
                               trace: seq<Snapshot>)
  {
    past <= trace && forall i :: |past| <= i < |trace| ==> Explained(env, first, operations, trace[i])
  }

  lemma {:induction false} MoreOperations(env: Env, first: Snapshot, operations: seq<Operation>, op: Operation,
                                          t: Snapshot)
    requires Explained(env, first, operations, t)
    ensures Explained(env, first, operations + [op], t)
  {
    var all := operations + [op];
    forall id | NewlyLoaded(env, first, t, id)
      ensures exists i :: 0 <= i < |all| && MadeBy(env, all[i], t, id)
    {
      var i :| 0 <= i < |operations| && MadeBy(env, operations[i], t, id);
      assert MadeBy(env, all[i], t, id);
    }
  }

  lemma {:induction false} AllExplainedExtend(env: Env, first: Snapshot, operations: seq<Operation>, op: Operation,
                                              past: seq<Snapshot>, mid: seq<Snapshot>, trace: seq<Snapshot>)
    requires AllExplained(env, first, operations, past, mid) && mid <= trace
    requires forall i :: |mid| <= i < |trace| ==> Explained(env, first, operations + [op], trace[i])
    ensures AllExplained(env, first, operations + [op], past, trace)
  {
    forall i | |past| <= i < |trace| ensures Explained(env, first, operations + [op], trace[i]) {
      if i < |mid| {
        assert trace[i] == mid[i];
        MoreOperations(env, first, operations, op, mid[i]);
      }
    }
  }

  /** One operation of a run. */
  method Perform(v: Vault, env: Env, op: Operation, ghost first: Snapshot, ghost done: seq<Operation>)
    requires Invertible(env) && Traced(env, first, done, v.Now())
    modifies v
    ensures Safe(v, old(v.Now()), old(v.trace), v.trace)
    ensures v.Now() == old(v.Now()) || (v.Within(v.Now()) && KeepsStored(old(v.Now()), v.Now()))
    ensures Traced(env, first, done + [op], v.Now())
    ensures forall i :: |old(v.trace)| <= i < |v.trace| ==> Explained(env, first, done + [op], v.trace[i])
  {
    match op {
      case StoreUpload(upload, tmp, faults) =>
        PerformStore(v, env, op, first, done);
      case AttestBackup(request, faults) =>
        PerformAttest(v, env, op, first, done);
    }
  }

  method PerformStore(v: Vault, env: Env, op: Operation, ghost first: Snapshot, ghost done: seq<Operation>)
    requires op.StoreUpload? && Traced(env, first, done, v.Now())
    modifies v
    ensures Safe(v, old(v.Now()), old(v.trace), v.trace)
    ensures v.Now() == old(v.Now()) || (v.Within(v.Now()) && KeepsStored(old(v.Now()), v.Now()))
    ensures Traced(env, first, done + [op], v.Now())
    ensures forall i :: |old(v.trace)| <= i < |v.trace| ==> Explained(env, first, done + [op], v.trace[i])
  {
    ghost var base, past := v.Now(), v.trace;
    var _ := Store(v, op.upload, op.tmp, op.storeFaults);
    ExplainedLater(env, first, done, op, base, v.Now());
    forall i | |past| <= i < |v.trace| ensures Explained(env, first, done + [op], v.trace[i]) {
      assert v.trace[i] == v.trace[|past|..][i - |past|];
      ExplainedLater(env, first, done, op, base, v.trace[i]);
    }
  }

  method PerformAttest(v: Vault, env: Env, op: Operation, ghost first: Snapshot, ghost done: seq<Operation>)
    requires op.AttestBackup? && Invertible(env) && Traced(env, first, done, v.Now())
    modifies v
    ensures Safe(v, old(v.Now()), old(v.trace), v.trace)
    ensures v.Now() == old(v.Now()) || (v.Within(v.Now()) && KeepsStored(old(v.Now()), v.Now()))
    ensures Traced(env, first, done + [op], v.Now())
    ensures forall i :: |old(v.trace)| <= i < |v.trace| ==> Explained(env, first, done + [op], v.trace[i])
  {
    ghost var base, past, document := v.Now(), v.trace, DocumentOf(env, v.backups, op.request);
    var _ := Attest(v, env, op.request, op.attestFaults);
    if document.None? || op.request.id in base.knownGood {
      ExplainedLater(env, first, done, op, base, base);
    } else {
      ExplainedAttest(env, first, done, op.request, op.attestFaults, base, document.value, v.Now());
      forall i | |past| <= i < |v.trace| ensures Explained(env, first, done + [op], v.trace[i]) {
        ExplainedAttest(env, first, done, op.request, op.attestFaults, base, document.value, v.trace[i]);
      }
    }
  }

  /** What holds after some operations of a run that began in `first` with the trace `past`. */
  ghost predicate Reached(v: Vault, env: Env, first: Snapshot, past: seq<Snapshot>, done: seq<Operation>)
    reads v
  {
    && Safe(v, first, past, v.trace) && v.Within(v.Now()) && KeepsStored(first, v.Now())
    && Traced(env, first, done, v.Now()) && AllExplained(env, first, done, past, v.trace)
  }

  method Continue(v: Vault, env: Env, op: Operation, ghost first: Snapshot, ghost past: seq<Snapshot>,
                  ghost done: seq<Operation>)
    requires Invertible(env) && Reached(v, env, first, past, done)
    modifies v
    ensures Reached(v, env, first, past, done + [op])
  {
    ghost var base, mid := v.Now(), v.trace;
    Perform(v, env, op, first, done);
    assert Safe(v, first, past, v.trace) by { SafeExtend(v, first, past, base, mid, v.trace); }
    assert AllExplained(env, first, done + [op], past, v.trace) by {
      AllExplainedExtend(env, first, done, op, past, mid, v.trace);
    }
    assert KeepsStored(first, v.Now()) by {
      if v.Now() != base {
        KeepsStoredTransitive(first, base, v.Now());
      }
    }
  }

  /** From a vault within its limits, no run ever takes it outside them, at any moment of any
      operation; nothing that was stored or attested is ever overwritten; and every attestation that
      loads, at any moment, was there at the start or was finished by an operation of the run. */
  method Run(v: Vault, env: Env, operations: seq<Operation>)
    requires Invertible(env) && v.Within(v.Now())
    modifies v
    ensures Safe(v, old(v.Now()), old(v.trace), v.trace)
    ensures forall i :: |old(v.trace)| <= i < |v.trace| ==>
      Used(v.trace[i]) <= 20_000_000_000 && v.disk - Used(v.trace[i]) >= 5_000_000_000
    ensures v.Within(v.Now()) && KeepsStored(old(v.Now()), v.Now())
    ensures AllExplained(env, old(v.Now()), operations, old(v.trace), v.trace)
    ensures Explained(env, old(v.Now()), operations, v.Now())
  {
    ghost var first, past := v.Now(), v.trace;
    assert Reached(v, env, first, past, operations[..0]);
    for i := 0 to |operations|
      invariant Reached(v, env, first, past, operations[..i])
    {
      Continue(v, env, operations[i], first, past, operations[..i]);
      assert operations[..i + 1] == operations[..i] + [operations[i]];
    }
    assert operations[..|operations|] == operations;
    SafeLimits(v, first, past, v.trace);
  }
}
