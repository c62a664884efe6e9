/** Applying a retention plan: quarantine, record the intent, delete, record the completion. */
module Prune {
  import opened Common
  import opened Vault
  import opened Retention
  import Attestation

  // ---- Evidence ------------------------------------------------------------------------------------

  datatype Document =
    | Intent(deletionId: string, recordedAt: string, anchor: Anchor, policy: Policy,
             quarantined: set<string>, retained: set<string>, knownGood: map<string, string>)
    | Completion(deletionId: string, recordedAt: string, anchor: Anchor, intentDigest: Digest,
                 deleted: set<string>, retained: set<string>, knownGood: map<string, string>, deletedBytes: int)

  /** The JSON text of a document. */
  type Codec = Document -> string

  datatype Job = Job(deletionId: string, recordedAt: string, anchor: Anchor, policy: Policy)

  function IntentOf(plan: Plan, job: Job): Document {
    Intent(job.deletionId, job.recordedAt, job.anchor, job.policy, Ids(plan.deleting), plan.retained, plan.digests)
  }

  function CompletionOf(plan: Plan, job: Job, encode: Codec): Document {
    Completion(job.deletionId, job.recordedAt, job.anchor, Sha256(encode(IntentOf(plan, job))),
               Ids(plan.deleting), plan.retained, plan.digests, plan.deletedBytes)
  }

  function IntentFile(id: string): FileName { Named(id + ".intent.json") }

  function CompletionFile(id: string): FileName { Named(id + ".json") }

  lemma {:induction false} FilesDiffer(id: string)
    ensures IntentFile(id) != CompletionFile(id)
  {
    assert |id + ".intent.json"| != |id + ".json"|;
  }

  // ---- Quarantine ----------------------------------------------------------------------------------

  function Pick(m: map<string, Dir>, ids: set<string>): map<string, Dir> {
    map id | id in m && id in ids :: m[id]
  }

  /** The vault with the backups `moved` in quarantine instead of in place. */
  function Quarantine(base: Snapshot, pid: string, moved: set<string>): Snapshot {
    base.(backups := base.backups - moved, trash := base.trash[pid := Pick(base.backups, moved)])
  }

  lemma {:induction false} PickOne(m: map<string, Dir>, ids: set<string>, k: string)
    requires k in m
    ensures k in ids ==> Pick(m, ids) - {k} == Pick(m - {k}, ids) && m - ids == (m - {k}) - ids
    ensures k !in ids ==> (m - ids) - {k} == (m - {k}) - ids && Pick(m, ids) == Pick(m - {k}, ids)
  {
  }

  /** Moving backups about loses nothing. */
  lemma {:induction false} PickBytes(m: map<string, Dir>, ids: set<string>)
    ensures DirsBytes(m - ids) + DirsBytes(Pick(m, ids)) == DirsBytes(m)
    decreases m
  {
    if m == map[] {
      assert Pick(m, ids) == map[] && m - ids == map[];
    } else {
      var k :| k in m;
      SumByRemove(m, DirBytes, k);
      PickBytes(m - {k}, ids);
      PickOne(m, ids, k);
      if k in ids {
        SumByRemove(Pick(m, ids), DirBytes, k);
      } else {
        SumByRemove(m - ids, DirBytes, k);
      }
    }
  }

  lemma {:induction false} QuarantineBytes(base: Snapshot, pid: string, moved: set<string>)
    requires pid !in base.trash
    ensures Used(Quarantine(base, pid, moved)) == Used(base)
  {
    PickBytes(base.backups, moved);
    SumByInsert(base.trash, DirsBytes, pid, Pick(base.backups, moved));
  }

  method MakeTrash(v: Vault, pid: string)
    requires pid !in v.trash
    modifies v`trash, v`trace
    ensures v.Now() == Quarantine(old(v.Now()), pid, {}) && v.trace == old(v.trace) + [v.Now()]
  {
    v.trash := v.trash[pid := map[]];
    v.trace := v.trace + [v.Now()];
    assert Pick(v.backups, {}) == map[] && v.backups - {} == v.backups;
  }

  lemma {:induction false} Replace(m: map<string, map<string, Dir>>, k: string, a: map<string, Dir>,
                                   b: map<string, Dir>)
    ensures m[k := a][k := b] == m[k := b]
  {
  }

  lemma {:induction false} MoveOne(m: map<string, Dir>, moved: set<string>, id: string)
    requires id in m && id !in moved
    ensures (m - moved) - {id} == m - (moved + {id})
    ensures Pick(m, moved)[id := m[id]] == Pick(m, moved + {id})
    ensures (m - (moved + {id}))[id := m[id]] == m - moved
    ensures Pick(m, moved + {id}) - {id} == Pick(m, moved)
  {
  }

  /** Rename a backup into the quarantine directory. */
  method MoveOut(v: Vault, pid: string, id: string, ghost base: Snapshot, ghost moved: set<string>)
    requires v.Now() == Quarantine(base, pid, moved) && id in base.backups && id !in moved
    modifies v`backups, v`trash, v`trace
    ensures v.Now() == Quarantine(base, pid, moved + {id}) && v.trace == old(v.trace) + [v.Now()]
  {
    assert v.trash == base.trash[pid := Pick(base.backups, moved)] && v.backups == base.backups - moved;
    var directory, quarantined := v.backups[id], v.trash[pid];
    MoveOne(base.backups, moved, id);
    Replace(base.trash, pid, quarantined, quarantined[id := directory]);
    v.trash := v.trash[pid := quarantined[id := directory]];
    v.backups := v.backups - {id};
    v.trace := v.trace + [v.Now()];
  }

  /** Rename it back, if it is there and its place is free. */
  method MoveBack(v: Vault, pid: string, id: string, ghost base: Snapshot, ghost moved: set<string>)
    requires v.Now() == Quarantine(base, pid, moved + {id}) && id in base.backups && id !in moved
    modifies v`backups, v`trash, v`trace
    ensures v.Now() == Quarantine(base, pid, moved) && v.trace == old(v.trace) + [v.Now()]
  {
    assert v.trash == base.trash[pid := Pick(base.backups, moved + {id})] && v.backups == base.backups - (moved + {id});
    var quarantined := v.trash[pid];
    assert id in quarantined && id !in v.backups;
    MoveOne(base.backups, moved, id);
    Replace(base.trash, pid, quarantined, quarantined - {id});
    v.backups := v.backups[id := quarantined[id]];
    v.trash := v.trash[pid := quarantined - {id}];
    v.trace := v.trace + [v.Now()];
  }

  // ---- Deletion records ----------------------------------------------------------------------------

  /** The record `name` has been written on top of `before`, in part or in whole, or not at all. */
  predicate Recording(before: Dir, after: Dir, name: FileName) {
    after == before || (name !in before && name in after && after == before[name := after[name]])
  }

  /** Create a record; it must not exist. A failure may come after a part of it, and removes it if that
      is possible. */
  method WriteRecord(v: Vault, name: FileName, content: string, fault: Fault) returns (ok: bool)
    modifies v`deletions, v`trace
    ensures ok <==> fault.failAt.None? && name !in old(v.deletions)
    ensures v.Now() == old(v.Now()).(deletions := v.deletions)
    ensures ok ==> v.deletions == old(v.deletions)[name := content]
    ensures !ok ==> NotRecorded(old(v.deletions), v.deletions, name, content, fault.stuck)
    ensures old(v.trace) <= v.trace
    ensures forall i :: |old(v.trace)| <= i < |v.trace| ==>
      && v.trace[i] == old(v.Now()).(deletions := v.trace[i].deletions)
      && Recording(old(v.deletions), v.trace[i].deletions, name)
  {
    if name in v.deletions {
      return false;
    }
    var d := v.deletions;
    ok := fault.failAt.None?;
    SetDeletions(v, d[name := if ok then content else content[..Min(fault.failAt.value, |content|)]]);
    if !ok && !fault.stuck {
      SetDeletions(v, d);
    }
  }

  /** A failed record leaves nothing, unless a partial file could not be removed; a record that was there
      before is left alone in any case. */
  predicate NotRecorded(before: Dir, after: Dir, name: FileName, content: string, stuck: bool) {
    if name in before then after == before else Left(after, before, name, content, stuck)
  }

  lemma {:induction false} NotRecordedRecording(before: Dir, after: Dir, name: FileName, content: string, stuck: bool)
    requires NotRecorded(before, after, name, content, stuck)
    ensures Recording(before, after, name)
  {
  }

  method SetDeletions(v: Vault, d: Dir)
    modifies v`deletions, v`trace
    ensures v.Now() == old(v.Now()).(deletions := d) && v.trace == old(v.trace) + [v.Now()]
  {
    v.deletions := d;
    v.trace := v.trace + [v.Now()];
  }

  // ---- What every state of a prune satisfies ---------------------------------------------------------

  /** One prune: the vault before it, what it deletes, and the records it writes. */
  datatype Context = Context(base: Snapshot, pid: string, deleted: set<string>, intent: string, completion: string)

  /** Every backup there was is in place or in quarantine, unchanged. */
  ghost predicate Whole(c: Context, t: Snapshot) {
    forall id :: id in c.base.backups ==>
      || (id in t.backups && t.backups[id] == c.base.backups[id])
      || (c.pid in t.trash && id in t.trash[c.pid] && t.trash[c.pid][id] == c.base.backups[id])
  }

  ghost predicate IntentRecorded(c: Context, t: Snapshot) {
    && IntentFile(c.pid) !in c.base.deletions
    && IntentFile(c.pid) in t.deletions && t.deletions[IntentFile(c.pid)] == c.intent
  }

  ghost predicate Sound(c: Context, t: Snapshot) {
    && t.incoming == c.base.incoming && t.knownGood == c.base.knownGood
    // only planned backups leave their place
    && (forall id :: id in c.base.backups && id !in c.deleted ==> id in t.backups)
    && (forall id :: id in t.backups ==> id in c.base.backups && t.backups[id] == c.base.backups[id])
    // records are only added
    && (forall n :: n in c.base.deletions ==> n in t.deletions && t.deletions[n] == c.base.deletions[n])
    // nothing is destroyed before the intent is on record
    && (Whole(c, t) || IntentRecorded(c, t))
    // a completion on record has its intent on record, and its quarantine is gone
    && (CompletionFile(c.pid) in t.deletions && CompletionFile(c.pid) !in c.base.deletions ==>
          IntentRecorded(c, t) && c.pid !in t.trash)
  }

  ghost predicate AllSound(c: Context, past: seq<Snapshot>, trace: seq<Snapshot>) {
    past <= trace && forall t :: t in trace[|past|..] ==> Sound(c, t)
  }

  lemma {:induction false} AllSoundAppend(c: Context, past: seq<Snapshot>, trace: seq<Snapshot>, t: Snapshot)
    requires AllSound(c, past, trace) && Sound(c, t)
    ensures AllSound(c, past, trace + [t])
  {
  }

  lemma {:induction false} QuarantineSound(c: Context, moved: set<string>, deletions: Dir)
    requires moved <= c.deleted
    requires Recording(c.base.deletions, deletions, IntentFile(c.pid))
    ensures Sound(c, Quarantine(c.base, c.pid, moved).(deletions := deletions))
  {
    FilesDiffer(c.pid);
  }

  // ---- Moving out and back ---------------------------------------------------------------------------

  function IdSet(ids: seq<string>): set<string> { set id | id in ids }

  method MoveAllOut(v: Vault, c: Context, deleting: seq<Record>, failAt: Option<nat>, ghost past: seq<Snapshot>)
    returns (moved: seq<string>)
    requires v.Now() == Quarantine(c.base, c.pid, {}) && AllSound(c, past, v.trace)
    requires DistinctIds(deleting) && c.deleted == Ids(deleting) <= c.base.backups.Keys
    modifies v`backups, v`trash, v`trace
    ensures |moved| <= |deleting| && forall i :: 0 <= i < |moved| ==> moved[i] == deleting[i].id
    ensures failAt.None? ==> |moved| == |deleting|
    ensures v.Now() == Quarantine(c.base, c.pid, IdSet(moved)) && AllSound(c, past, v.trace)
  {
    moved := [];
    while |moved| < |deleting|
      invariant |moved| <= |deleting| && forall i :: 0 <= i < |moved| ==> moved[i] == deleting[i].id
      invariant v.Now() == Quarantine(c.base, c.pid, IdSet(moved)) && AllSound(c, past, v.trace)
      decreases |deleting| - |moved|
    {
      if failAt == Some(|moved|) {
        return;
      }
      var id := deleting[|moved|].id;
      MovedPlanned(moved + [id], deleting);
      assert id !in IdSet(moved);
      assert IdSet(moved + [id]) == IdSet(moved) + {id};
      OutOne(v, c, id, IdSet(moved), past);
      moved := moved + [id];
    }
  }

  method OutOne(v: Vault, c: Context, id: string, ghost moved: set<string>, ghost past: seq<Snapshot>)
    requires v.Now() == Quarantine(c.base, c.pid, moved) && AllSound(c, past, v.trace)
    requires id !in moved && moved + {id} <= c.deleted <= c.base.backups.Keys
    modifies v`backups, v`trash, v`trace
    ensures v.Now() == Quarantine(c.base, c.pid, moved + {id}) && AllSound(c, past, v.trace)
  {
    ghost var before := v.trace;
    MoveOut(v, c.pid, id, c.base, moved);
    QuarantineSound(c, moved + {id}, c.base.deletions);
    AllSoundAppend(c, past, before, v.Now());
  }

  lemma {:induction false} MovedPlanned(moved: seq<string>, deleting: seq<Record>)
    requires |moved| <= |deleting| && forall i :: 0 <= i < |moved| ==> moved[i] == deleting[i].id
    ensures IdSet(moved) <= Ids(deleting)
    ensures |moved| == |deleting| ==> IdSet(moved) == Ids(deleting)
  {
  }

  predicate Distinct(ids: seq<string>) {
    forall i, j :: 0 <= i < j < |ids| ==> ids[i] != ids[j]
  }

  lemma {:induction false} IdSetStep(ids: seq<string>, n: nat)
    requires Distinct(ids) && 0 < n <= |ids|
    ensures IdSet(ids[..n]) == IdSet(ids[..n - 1]) + {ids[n - 1]} && ids[n - 1] !in IdSet(ids[..n - 1])
  {
  }

  /** The quarantine of a prune that is being rolled back; `d` are the records at that time, with a partial
      intent at most. */
  ghost predicate RollingBack(c: Context, d: Dir, moved: set<string>, now: Snapshot) {
    && now == Quarantine(c.base, c.pid, moved).(deletions := d)
    && moved <= c.deleted <= c.base.backups.Keys && Recording(c.base.deletions, d, IntentFile(c.pid))
  }

  /** Undo the moves, last one first; `n` of them remain when a rename fails. */
  method UndoMoves(v: Vault, c: Context, moved: seq<string>, failAt: Option<nat>, ghost d: Dir,
                   ghost past: seq<Snapshot>)
    returns (n: nat)
    requires RollingBack(c, d, IdSet(moved), v.Now()) && AllSound(c, past, v.trace) && Distinct(moved)
    modifies v`backups, v`trash, v`trace
    ensures n <= |moved| && (failAt.None? ==> n == 0)
    ensures RollingBack(c, d, IdSet(moved[..n]), v.Now()) && AllSound(c, past, v.trace)
  {
    n := |moved|;
    assert moved[..n] == moved;
    ghost var left := IdSet(moved);
    while n > 0
      invariant 0 <= n <= |moved| && left == IdSet(moved[..n])
      invariant RollingBack(c, d, left, v.Now()) && AllSound(c, past, v.trace)
    {
      if failAt == Some(|moved| - n) {
        return;
      }
      ghost var fewer := IdSet(moved[..n - 1]);
      assert left == fewer + {moved[n - 1]} && moved[n - 1] !in fewer by { IdSetStep(moved, n); }
      BackOne(v, c, moved[n - 1], fewer, d, past);
      n, left := n - 1, fewer;
    }
  }

  method BackOne(v: Vault, c: Context, id: string, ghost moved: set<string>, ghost d: Dir, ghost past: seq<Snapshot>)
    requires RollingBack(c, d, moved + {id}, v.Now()) && AllSound(c, past, v.trace) && id !in moved
    modifies v`backups, v`trash, v`trace
    ensures RollingBack(c, d, moved, v.Now()) && AllSound(c, past, v.trace)
  {
    ghost var before := v.trace;
    MoveBack(v, c.pid, id, c.base.(deletions := d), moved);
    QuarantineSound(c, moved, d);
    AllSoundAppend(c, past, before, v.Now());
  }

  method RemoveEmptyTrash(v: Vault, c: Context, ghost d: Dir, ghost past: seq<Snapshot>)
    requires RollingBack(c, d, {}, v.Now()) && AllSound(c, past, v.trace) && c.pid !in c.base.trash
    modifies v`trash, v`trace
    ensures v.Now() == c.base.(deletions := d) && AllSound(c, past, v.trace)
  {
    ghost var before := v.trace;
    assert c.base.backups - {} == c.base.backups;
    v.trash := v.trash - {c.pid};
    assert v.trash == c.base.trash;
    v.trace := v.trace + [v.Now()];
    UnmovedSound(c, d);
    AllSoundAppend(c, past, before, v.Now());
  }

  lemma {:induction false} UnmovedSound(c: Context, d: Dir)
    requires Recording(c.base.deletions, d, IntentFile(c.pid))
    ensures Sound(c, c.base.(deletions := d))
  {
    FilesDiffer(c.pid);
  }

  /** The rollback after a failed rename or a failed intent. */
  method Rollback(v: Vault, c: Context, moved: seq<string>, failAt: Option<nat>, rmdirFails: bool, ghost d: Dir,
                  ghost past: seq<Snapshot>)
    requires RollingBack(c, d, IdSet(moved), v.Now()) && AllSound(c, past, v.trace)
    requires Distinct(moved) && c.pid !in c.base.trash
    modifies v`backups, v`trash, v`trace
    ensures AllSound(c, past, v.trace) && Whole(c, v.Now()) && v.deletions == d
    ensures failAt.None? ==> v.backups == c.base.backups
    ensures failAt.None? && !rmdirFails ==> v.Now() == c.base.(deletions := d)
  {
    var n := UndoMoves(v, c, moved, failAt, d, past);
    assert Whole(c, v.Now());
    if n == 0 {
      assert IdSet(moved[..0]) == {} && c.base.backups - {} == c.base.backups;
      if !rmdirFails {
        RemoveEmptyTrash(v, c, d, past);
      }
    }
  }

  // ---- Deleting ------------------------------------------------------------------------------------

  /** The intent is on record and `left` is what remains in quarantine. */
  function Deleting(c: Context, left: map<string, Dir>): Snapshot {
    c.base.(backups := c.base.backups - c.deleted, trash := c.base.trash[c.pid := left],
            deletions := c.base.deletions[IntentFile(c.pid) := c.intent])
  }

  /** The quarantine is gone; `deletions` are the records. */
  function Deleted(c: Context, deletions: Dir): Snapshot {
    c.base.(backups := c.base.backups - c.deleted, deletions := deletions)
  }

  function WithIntent(c: Context): Dir { c.base.deletions[IntentFile(c.pid) := c.intent] }

  lemma {:induction false} DeletingSound(c: Context, left: map<string, Dir>)
    requires IntentFile(c.pid) !in c.base.deletions
    ensures Sound(c, Deleting(c, left))
  {
    FilesDiffer(c.pid);
  }

  lemma {:induction false} DeletedSound(c: Context, deletions: Dir)
    requires IntentFile(c.pid) !in c.base.deletions && c.pid !in c.base.trash
    requires Recording(WithIntent(c), deletions, CompletionFile(c.pid))
    ensures Sound(c, Deleted(c, deletions))
  {
    FilesDiffer(c.pid);
  }

  /** The names that remain in each quarantined backup after one step of a recursive removal. */
  type Stage = map<string, set<FileName>>

  function Thin(m: map<string, Dir>, stage: Stage): map<string, Dir> {
    map id | id in m && id in stage :: Restrict(m[id], stage[id])
  }

  method DeleteTrash(v: Vault, c: Context, stages: seq<Stage>, removed: bool, ghost past: seq<Snapshot>)
    returns (ghost left: map<string, Dir>)
    requires v.Now() == Deleting(c, Pick(c.base.backups, c.deleted)) && AllSound(c, past, v.trace)
    requires IntentFile(c.pid) !in c.base.deletions && c.pid !in c.base.trash
    modifies v`trash, v`trace
    ensures AllSound(c, past, v.trace)
    ensures v.Now() == if removed then Deleted(c, WithIntent(c)) else Deleting(c, left)
  {
    left := Pick(c.base.backups, c.deleted);
    for i := 0 to |stages|
      invariant v.Now() == Deleting(c, left) && AllSound(c, past, v.trace)
    {
      left := ThinTrash(v, c, stages[i], left, past);
    }
    if removed {
      DropTrash(v, c, left, past);
    }
  }

  method ThinTrash(v: Vault, c: Context, stage: Stage, ghost before: map<string, Dir>, ghost past: seq<Snapshot>)
    returns (ghost left: map<string, Dir>)
    requires v.Now() == Deleting(c, before) && AllSound(c, past, v.trace) && IntentFile(c.pid) !in c.base.deletions
    modifies v`trash, v`trace
    ensures v.Now() == Deleting(c, left) && AllSound(c, past, v.trace)
  {
    ghost var trace := v.trace;
    left := Thin(before, stage);
    Replace(c.base.trash, c.pid, before, left);
    v.trash := v.trash[c.pid := Thin(v.trash[c.pid], stage)];
    v.trace := v.trace + [v.Now()];
    DeletingSound(c, left);
    AllSoundAppend(c, past, trace, v.Now());
  }

  method DropTrash(v: Vault, c: Context, ghost before: map<string, Dir>, ghost past: seq<Snapshot>)
    requires v.Now() == Deleting(c, before) && AllSound(c, past, v.trace)
    requires IntentFile(c.pid) !in c.base.deletions && c.pid !in c.base.trash
    modifies v`trash, v`trace
    ensures v.Now() == Deleted(c, WithIntent(c)) && AllSound(c, past, v.trace)
  {
    ghost var trace := v.trace;
    v.trash := v.trash - {c.pid};
    assert v.trash == c.base.trash;
    v.trace := v.trace + [v.Now()];
    DeletedSound(c, WithIntent(c));
    AllSoundAppend(c, past, trace, v.Now());
  }

  // ---- The whole operation -------------------------------------------------------------------------

  method RecordIntent(v: Vault, c: Context, fault: Fault, ghost past: seq<Snapshot>) returns (ok: bool)
    requires v.Now() == Quarantine(c.base, c.pid, c.deleted) && AllSound(c, past, v.trace)
    modifies v`deletions, v`trace
    ensures ok <==> fault.failAt.None? && IntentFile(c.pid) !in c.base.deletions
    ensures ok ==> v.Now() == Deleting(c, Pick(c.base.backups, c.deleted))
    ensures !ok ==> v.Now() == Quarantine(c.base, c.pid, c.deleted).(deletions := v.deletions)
    ensures !ok ==> NotRecorded(c.base.deletions, v.deletions, IntentFile(c.pid), c.intent, fault.stuck)
    ensures AllSound(c, past, v.trace)
  {
    ghost var before := v.trace;
    ok := WriteRecord(v, IntentFile(c.pid), c.intent, fault);
    forall t | t in v.trace[|past|..] ensures Sound(c, t) {
      var i :| |past| <= i < |v.trace| && v.trace[i] == t;
      if i < |before| {
        assert t == before[i] == before[|past|..][i - |past|];
      } else {
        QuarantineSound(c, c.deleted, t.deletions);
      }
    }
  }

  method RecordCompletion(v: Vault, c: Context, fault: Fault, ghost past: seq<Snapshot>) returns (ok: bool)
    requires v.Now() == Deleted(c, WithIntent(c)) && AllSound(c, past, v.trace)
    requires IntentFile(c.pid) !in c.base.deletions && c.pid !in c.base.trash
    modifies v`deletions, v`trace
    ensures ok <==> fault.failAt.None? && CompletionFile(c.pid) !in c.base.deletions
    ensures v.Now() == Deleted(c, v.deletions)
    ensures ok ==> v.deletions == WithIntent(c)[CompletionFile(c.pid) := c.completion]
    ensures !ok ==> NotRecorded(WithIntent(c), v.deletions, CompletionFile(c.pid), c.completion, fault.stuck)
    ensures AllSound(c, past, v.trace)
  {
    FilesDiffer(c.pid);
    ghost var before := v.trace;
    ok := WriteRecord(v, CompletionFile(c.pid), c.completion, fault);
    forall t | t in v.trace[|past|..] ensures Sound(c, t) {
      var i :| |past| <= i < |v.trace| && v.trace[i] == t;
      if i < |before| {
        assert t == before[i] == before[|past|..][i - |past|];
      } else {
        DeletedSound(c, t.deletions);
      }
    }
  }

  datatype PruneFaults = PruneFaults(
    mkdir: bool, moveOut: Option<nat>, intent: Fault, moveBack: Option<nat>, rmdir: bool,
    stages: seq<Stage>, removed: bool, readBack: bool, completion: Fault)
  {
    predicate None() {
      !mkdir && moveOut.None? && intent.failAt.None? && removed && !readBack && completion.failAt.None?
    }
  }

  /** The deletion id has not been used before. */
  predicate Unused(c: Context) {
    && c.pid !in c.base.trash
    && IntentFile(c.pid) !in c.base.deletions && CompletionFile(c.pid) !in c.base.deletions
  }

  datatype PruneError =
    | PlanFailed(error: PlanError) | InvalidEvidence | TrashUnavailable | RolledBack | QuarantineRemains
    | CompletionMissing

  /** The records are those of verified backups of the vault, with their logical sizes. */
  ghost predicate Listed(backups: map<string, Dir>, records: seq<Record>) {
    && Verified(records)
    && forall i :: 0 <= i < |records| ==>
         records[i].id in backups && records[i].bytes == DirBytes(backups[records[i].id])
  }

  function ContextOf(base: Snapshot, plan: Plan, job: Job, encode: Codec): Context {
    var intent, completion := IntentOf(plan, job), CompletionOf(plan, job, encode);
    Context(base, job.deletionId, Ids(plan.deleting), encode(intent), encode(completion))
  }

  /** A prune that is rolled back leaves no record, or a partial intent that could not be removed. */
  predicate NoIntent(c: Context, deletions: Dir, faults: PruneFaults) {
    || deletions == c.base.deletions
    || NotRecorded(c.base.deletions, deletions, IntentFile(c.pid), c.intent, faults.intent.stuck)
  }

  /** The result of a prune, given the plan it followed. */
  ghost predicate Outcome(c: Context, r: Result<Document, PruneError>, completion: Document, now: Snapshot,
                          faults: PruneFaults)
  {
    match r
    case Ok(document) =>
      && document == completion
      && now == Deleted(c, WithIntent(c)[CompletionFile(c.pid) := c.completion])
      && Unused(c) && IntentRecorded(c, now)
    case Err(TrashUnavailable) => now == c.base
    case Err(RolledBack) =>
      && Whole(c, now) && NoIntent(c, now.deletions, faults)
      && (faults.moveBack.None? ==> now.backups == c.base.backups)
      && (faults.moveBack.None? && !faults.rmdir ==> now == c.base.(deletions := now.deletions))
    case Err(QuarantineRemains) =>
      exists left :: now == Deleting(c, left)
    case Err(CompletionMissing) =>
      && now == Deleted(c, now.deletions)
      && (now.deletions == WithIntent(c) ||
          NotRecorded(WithIntent(c), now.deletions, CompletionFile(c.pid), c.completion, faults.completion.stuck))
    case Err(PlanFailed(_)) => false
    case Err(InvalidEvidence) => false
  }

  /** Quarantine and delete according to a plan. */
  method Apply(v: Vault, c: Context, deleting: seq<Record>, completion: Document, faults: PruneFaults)
    returns (r: Result<Document, PruneError>)
    requires c.base == v.Now() && DistinctIds(deleting) && c.deleted == Ids(deleting) <= v.backups.Keys
    modifies v`backups, v`trash, v`deletions, v`trace
    ensures AllSound(c, old(v.trace), v.trace)
    ensures Outcome(c, r, completion, v.Now(), faults)
    ensures faults.None() && Unused(c) ==> r.Ok?
  {
    if faults.mkdir || c.pid in v.trash {
      return Err(TrashUnavailable);
    }
    ghost var past := v.trace;
    MakeTrash(v, c.pid);
    QuarantineSound(c, {}, c.base.deletions);
    AllSoundAppend(c, past, past, v.Now());
    var moved := MoveAllOut(v, c, deleting, faults.moveOut, past);
    MovedPlanned(moved, deleting);
    var ok := |moved| == |deleting|;
    if ok {
      ok := RecordIntent(v, c, faults.intent, past);
    }
    if !ok {
      if v.deletions != c.base.deletions {
        NotRecordedRecording(c.base.deletions, v.deletions, IntentFile(c.pid), c.intent, faults.intent.stuck);
      }
      Rollback(v, c, moved, faults.moveBack, faults.rmdir, v.deletions, past);
      return Err(RolledBack);
    }
    r := Destroy(v, c, completion, faults, past);
  }

  /** With the intent on record: delete the quarantine and record the completion. */
  method Destroy(v: Vault, c: Context, completion: Document, faults: PruneFaults, ghost past: seq<Snapshot>)
    returns (r: Result<Document, PruneError>)
    requires v.Now() == Deleting(c, Pick(c.base.backups, c.deleted)) && AllSound(c, past, v.trace)
    requires IntentFile(c.pid) !in c.base.deletions && c.pid !in c.base.trash
    modifies v`trash, v`deletions, v`trace
    ensures AllSound(c, past, v.trace)
    ensures Outcome(c, r, completion, v.Now(), faults)
    ensures faults.None() && Unused(c) ==> r.Ok?
  {
    ghost var left := DeleteTrash(v, c, faults.stages, faults.removed, past);
    if !faults.removed {
      return Err(QuarantineRemains);
    }
    // The intent that is read back is the one that was written.
    assert v.deletions[IntentFile(c.pid)] == c.intent;
    if faults.readBack {
      return Err(CompletionMissing);
    }
    var ok := RecordCompletion(v, c, faults.completion, past);
    FilesDiffer(c.pid);
    return if ok then Ok(completion) else Err(CompletionMissing);
  }

  lemma {:induction false} PlanListed(records: seq<Record>, att: Attestations, job: Job, plan: Plan,
                                      backups: map<string, Dir>)
    requires Listed(backups, records) && PlanOf(records, att, job.anchor, job.policy) == Ok(plan)
    ensures Listed(backups, plan.deleting) && Ids(plan.deleting) <= backups.Keys
  {
    PlanShape(records, att, job.anchor, job.policy, plan);
    PermutationDistinct(records, plan.newest);
    KeepDistinct(plan.newest, plan.retained);
    MultisetMembers(plan.newest, records);
    WithoutMembers(plan.newest, plan.retained);
    forall i | 0 <= i < |plan.deleting|
      ensures plan.deleting[i].id in backups && plan.deleting[i].bytes == DirBytes(backups[plan.deleting[i].id])
      ensures plan.deleting[i].classes != {}
    {
      assert plan.deleting[i] in records;
    }
  }

  lemma {:induction false} ListedBytes(backups: map<string, Dir>, deleting: seq<Record>)
    requires Listed(backups, deleting)
    ensures DirsBytes(Pick(backups, Ids(deleting))) == SumBytes(deleting)
  {
    if deleting == [] {
      assert Pick(backups, Ids(deleting)) == map[];
    } else {
      var before, last := deleting[..|deleting| - 1], deleting[|deleting| - 1];
      assert deleting == before + [last];
      ListedBytes(backups, before);
      assert Ids(deleting) == Ids(before) + {last.id} && last.id !in Ids(before);
      MoveOne(backups, Ids(before), last.id);
      SumByInsert(Pick(backups, Ids(before)), DirBytes, last.id, backups[last.id]);
    }
  }

  /** The books balance: the deleted bytes are gone and the two records are new. */
  lemma {:induction false} DeletedBytes(c: Context, deletedBytes: int)
    requires deletedBytes == DirsBytes(Pick(c.base.backups, c.deleted))
    requires IntentFile(c.pid) !in c.base.deletions && CompletionFile(c.pid) !in c.base.deletions
    ensures Used(Deleted(c, WithIntent(c)[CompletionFile(c.pid) := c.completion])) ==
            Used(c.base) - deletedBytes + |c.intent| + |c.completion|
  {
    FilesDiffer(c.pid);
    PickBytes(c.base.backups, c.deleted);
    BytesWith(c.base.deletions, IntentFile(c.pid), c.intent);
    BytesWith(WithIntent(c), CompletionFile(c.pid), c.completion);
  }

  lemma {:induction false} SplitKeys(all: set<string>, listed: set<string>, deleted: set<string>, kept: set<string>)
    requires deleted !! kept && deleted + kept == listed <= all
    ensures deleted == all - (all - deleted) && kept == listed * (all - deleted)
  {
  }

  /** What a plan says it deletes, keeps and frees is what its application deletes, keeps and frees. */
  lemma {:induction false} PlanAccounts(backups: map<string, Dir>, records: seq<Record>, att: Attestations, job: Job,
                                        plan: Plan)
    requires Listed(backups, records) && PlanOf(records, att, job.anchor, job.policy) == Ok(plan)
    ensures var now := backups - Ids(plan.deleting);
      && Ids(plan.deleting) == backups.Keys - now.Keys
      && plan.retained == Ids(records) * now.Keys
      && plan.deletedBytes == DirsBytes(backups) - DirsBytes(now)
  {
    var deleted := Ids(plan.deleting);
    assert Ids(records) <= backups.Keys by { ListedIds(backups, records); }
    assert deleted !! plan.retained && deleted + plan.retained == Ids(records) by {
      RetentionSafe(records, att, job.anchor, job.policy, plan);
    }
    SplitKeys(backups.Keys, Ids(records), deleted, plan.retained);
    assert (backups - deleted).Keys == backups.Keys - deleted;
    assert plan.deletedBytes == DirsBytes(Pick(backups, deleted)) by {
      PlanListed(records, att, job, plan, backups);
      PlanShape(records, att, job.anchor, job.policy, plan);
      ListedBytes(backups, plan.deleting);
    }
    PickBytes(backups, deleted);
  }

  lemma {:induction false} ListedIds(backups: map<string, Dir>, records: seq<Record>)
    requires Listed(backups, records)
    ensures Ids(records) <= backups.Keys
  {
  }

  /** `n` backups of the vault whose attestations load, with the given digests, as documents that share
      neither a restore id nor a target identity. */
  ghost predicate IndependentCopies(env: Attestation.Env, s: Snapshot, digests: map<string, string>, n: int) {
    && |digests| == n
    && (forall id :: id in digests ==>
          exists l :: Attestation.LoadsAs(env, s, id, l) && l.digest == Sha256(digests[id]))
    && (forall a, b, l, m ::
          a in digests && b in digests && a != b &&
          Attestation.LoadsAs(env, s, a, l) && Attestation.LoadsAs(env, s, b, m) ==>
            && l.document.binding.restoreId != m.document.binding.restoreId
            && l.document.binding.targetIdentity != m.document.binding.targetIdentity)
  }

  /** What the planner is given for a backup is what loads for it. */
  lemma {:induction false} EntryLoads(env: Attestation.Env, s: Snapshot, id: string) returns (l: Attestation.Loaded)
    requires id in Attestation.Attested(env, s)
    ensures Attestation.LoadsAs(env, s, id, l)
    ensures forall m :: Attestation.LoadsAs(env, s, id, m) ==> m == l
    ensures var entry := Attestation.Attested(env, s)[id];
      && entry.restoreId == l.document.binding.restoreId
      && entry.targetIdentity == l.document.binding.targetIdentity
      && Sha256(entry.digest) == l.digest
  {
    Attestation.AttestedExactly(env, s, id);
    Attestation.SeenWithBackup(env, s, id);
    l := Attestation.Load(env, s.backups, id, s.knownGood[id]).value;
  }

  lemma {:induction false} EntriesIndependent(env: Attestation.Env, s: Snapshot, good: seq<Record>, a: string,
                                              b: string, l: Attestation.Loaded, m: Attestation.Loaded)
    requires Independent(good, Attestation.Attested(env, s)) && a in Ids(good) && b in Ids(good) && a != b
    requires Attestation.LoadsAs(env, s, a, l) && Attestation.LoadsAs(env, s, b, m)
    ensures l.document.binding.restoreId != m.document.binding.restoreId
    ensures l.document.binding.targetIdentity != m.document.binding.targetIdentity
  {
    var att := Attestation.Attested(env, s);
    DistinctEntries(good, att, a, b);
    assert att[a].restoreId == l.document.binding.restoreId
           && att[a].targetIdentity == l.document.binding.targetIdentity by {
      var la := EntryLoads(env, s, a);
    }
    assert att[b].restoreId == m.document.binding.restoreId
           && att[b].targetIdentity == m.document.binding.targetIdentity by {
      var lb := EntryLoads(env, s, b);
    }
  }

  lemma {:induction false} PlanCopies(env: Attestation.Env, s: Snapshot, records: seq<Record>, job: Job, plan: Plan)
    requires Listed(s.backups, records)
    requires PlanOf(records, Attestation.Attested(env, s), job.anchor, job.policy) == Ok(plan)
    ensures Independent(plan.knownGood, Attestation.Attested(env, s))
    ensures plan.digests.Keys == Ids(plan.knownGood) && |plan.digests| == job.policy.minimumKnownGood
    ensures forall id :: id in plan.digests ==>
      id in Attestation.Attested(env, s) && plan.digests[id] == Attestation.Attested(env, s)[id].digest
  {
    RetentionSafe(records, Attestation.Attested(env, s), job.anchor, job.policy, plan);
    IdsExactSize(plan.knownGood);
    assert |plan.digests| == |plan.digests.Keys|;
  }

  lemma {:induction false} PlanIndependent(env: Attestation.Env, s: Snapshot, records: seq<Record>, job: Job,
                                           plan: Plan)
    requires Listed(s.backups, records)
    requires PlanOf(records, Attestation.Attested(env, s), job.anchor, job.policy) == Ok(plan)
    ensures IndependentCopies(env, s, plan.digests, job.policy.minimumKnownGood)
  {
    PlanCopies(env, s, records, job, plan);
    forall id | id in plan.digests
      ensures exists l :: Attestation.LoadsAs(env, s, id, l) && l.digest == Sha256(plan.digests[id])
    {
      var l := EntryLoads(env, s, id);
    }
    forall a, b, l, m | a in plan.digests && b in plan.digests && a != b &&
      Attestation.LoadsAs(env, s, a, l) && Attestation.LoadsAs(env, s, b, m)
      ensures l.document.binding.restoreId != m.document.binding.restoreId
      ensures l.document.binding.targetIdentity != m.document.binding.targetIdentity
    {
      EntriesIndependent(env, s, plan.knownGood, a, b, l, m);
    }
  }

  lemma {:induction false} DistinctEntries(good: seq<Record>, att: Attestations, a: string, b: string)
    requires Independent(good, att) && a in Ids(good) && b in Ids(good) && a != b
    ensures a in att && b in att
    ensures att[a].restoreId != att[b].restoreId && att[a].targetIdentity != att[b].targetIdentity
  {
    var i :| 0 <= i < |good| && good[i].id == a;
    var j :| 0 <= j < |good| && good[j].id == b;
    assert i < j || j < i;
  }

  lemma {:induction false} LoadsAfterPrune(env: Attestation.Env, c: Context, deletions: Dir, id: string,
                                           l: Attestation.Loaded)
    requires id !in c.deleted
    ensures Attestation.LoadsAs(env, Deleted(c, deletions), id, l) <==> Attestation.LoadsAs(env, c.base, id, l)
  {
  }

  lemma {:induction false} SameCopies(env: Attestation.Env, s: Snapshot, t: Snapshot, digests: map<string, string>,
                                      n: int)
    requires IndependentCopies(env, s, digests, n)
    requires forall id, l ::
      id in digests ==> (Attestation.LoadsAs(env, t, id, l) <==> Attestation.LoadsAs(env, s, id, l))
    ensures IndependentCopies(env, t, digests, n)
  {
  }

  /** The known-good copies of a plan still load once it has been applied. */
  lemma {:induction false} IndependentAfterPrune(env: Attestation.Env, before: Snapshot, records: seq<Record>,
                                                 job: Job, plan: Plan, c: Context, deletions: Dir)
    requires Listed(before.backups, records) && c.base == before && c.deleted == Ids(plan.deleting)
    requires PlanOf(records, Attestation.Attested(env, before), job.anchor, job.policy) == Ok(plan)
    ensures IndependentCopies(env, Deleted(c, deletions), plan.digests, job.policy.minimumKnownGood)
  {
    assert IndependentCopies(env, before, plan.digests, job.policy.minimumKnownGood) by {
      PlanIndependent(env, before, records, job, plan);
    }
    assert plan.digests.Keys !! c.deleted by {
      RetentionSafe(records, Attestation.Attested(env, before), job.anchor, job.policy, plan);
    }
    forall id, l | id in plan.digests
      ensures Attestation.LoadsAs(env, Deleted(c, deletions), id, l) <==> Attestation.LoadsAs(env, before, id, l)
    {
      LoadsAfterPrune(env, c, deletions, id, l);
    }
    SameCopies(env, before, Deleted(c, deletions), plan.digests, job.policy.minimumKnownGood);
  }

  /** `text` is the record of an intent with these contents. */
  ghost predicate IntentText(encode: Codec, text: string, job: Job, quarantined: set<string>, retained: set<string>,
                             knownGood: map<string, string>)
  {
    exists intent: Document ::
      && encode(intent) == text && intent.Intent?
      && intent.deletionId == job.deletionId && intent.recordedAt == job.recordedAt
      && intent.anchor == job.anchor && intent.policy == job.policy
      && intent.quarantined == quarantined && intent.retained == retained && intent.knownGood == knownGood
  }

  /** With an invertible codec, the intent on record reads back as those contents. */
  lemma {:induction false} IntentReadsBack(encode: Codec, decode: string -> Option<Document>, text: string, job: Job,
                                           quarantined: set<string>, retained: set<string>,
                                           knownGood: map<string, string>)
    requires IntentText(encode, text, job, quarantined, retained, knownGood)
    requires forall d :: decode(encode(d)) == Some(d)
    ensures decode(text) == Some(Intent(job.deletionId, job.recordedAt, job.anchor, job.policy, quarantined, retained,
                                        knownGood))
  {
    var intent: Document :| encode(intent) == text && intent.Intent? && intent.deletionId == job.deletionId &&
      intent.recordedAt == job.recordedAt && intent.anchor == job.anchor && intent.policy == job.policy &&
      intent.quarantined == quarantined && intent.retained == retained && intent.knownGood == knownGood;
    assert decode(encode(intent)) == Some(intent);
  }

  /** The document says which backups left, which stayed, and how many bytes went. */
  ghost predicate TrueAccount(before: Snapshot, now: Snapshot, records: seq<Record>, document: Document) {
    && document.Completion?
    && document.deleted == before.backups.Keys - now.backups.Keys
    && document.retained == Ids(records) * now.backups.Keys
    && document.deletedBytes == DirsBytes(before.backups) - DirsBytes(now.backups)
    && (forall id :: id in now.backups ==> id in before.backups && now.backups[id] == before.backups[id])
    && now.incoming == before.incoming && now.knownGood == before.knownGood && now.trash == before.trash
  }

  /** The document and the intent it refers to are on record, and nothing else is new there. */
  ghost predicate OnRecord(encode: Codec, before: Dir, now: Dir, job: Job, document: Document) {
    var intent, completion := Named(job.deletionId + ".intent.json"), Named(job.deletionId + ".json");
    && document.Completion?
    && document.deletionId == job.deletionId && document.recordedAt == job.recordedAt && document.anchor == job.anchor
    && intent !in before && completion !in before && now.Keys == before.Keys + {intent, completion}
    && (forall name :: name in before ==> now[name] == before[name])
    && now[completion] == encode(document) && document.intentDigest == Sha256(now[intent])
    && IntentText(encode, now[intent], job, document.deleted, document.retained, document.knownGood)
  }

  lemma {:induction false} CompletionOnRecord(encode: Codec, before: Snapshot, plan: Plan, job: Job)
    requires Unused(ContextOf(before, plan, job, encode))
    ensures var c := ContextOf(before, plan, job, encode);
      OnRecord(encode, before.deletions, WithIntent(c)[CompletionFile(c.pid) := c.completion], job,
               CompletionOf(plan, job, encode))
  {
    FilesDiffer(job.deletionId);
    var intent := IntentOf(plan, job);
    assert IntentText(encode, encode(intent), job, Ids(plan.deleting), plan.retained, plan.digests);
  }

  lemma {:induction false} CompletionAccounts(encode: Codec, before: Snapshot, records: seq<Record>,
                                              att: Attestations, job: Job, plan: Plan, deletions: Dir)
    requires Listed(before.backups, records) && PlanOf(records, att, job.anchor, job.policy) == Ok(plan)
    ensures TrueAccount(before, Deleted(ContextOf(before, plan, job, encode), deletions), records,
                        CompletionOf(plan, job, encode))
  {
    PlanAccounts(before.backups, records, att, job, plan);
  }

  /** The intent on record names the backups that have left and those that stay. */
  ghost predicate Underway(encode: Codec, before: set<string>, now: Snapshot, records: seq<Record>, job: Job) {
    var intent := Named(job.deletionId + ".intent.json");
    && intent in now.deletions
    && exists knownGood ::
         IntentText(encode, now.deletions[intent], job, before - now.backups.Keys, Ids(records) * now.backups.Keys,
                    knownGood)
  }

  lemma {:induction false} Interrupted(encode: Codec, before: Snapshot, records: seq<Record>, att: Attestations,
                                       job: Job, plan: Plan, r: Result<Document, PruneError>, now: Snapshot,
                                       faults: PruneFaults)
    requires Listed(before.backups, records) && PlanOf(records, att, job.anchor, job.policy) == Ok(plan)
    requires r == Err(QuarantineRemains) || r == Err(CompletionMissing)
    requires Outcome(ContextOf(before, plan, job, encode), r, CompletionOf(plan, job, encode), now, faults)
    ensures Underway(encode, before.backups.Keys, now, records, job)
  {
    FilesDiffer(job.deletionId);
    PlanAccounts(before.backups, records, att, job, plan);
    var intent := IntentOf(plan, job);
    assert IntentText(encode, encode(intent), job, Ids(plan.deleting), plan.retained, plan.digests);
    assert now.deletions[IntentFile(job.deletionId)] == encode(intent);
  }

  /** A completed prune: the account is true, it is on record, and the known-good copies it names load. */
  lemma {:induction false} Completed(env: Attestation.Env, encode: Codec, before: Snapshot, records: seq<Record>,
                                     job: Job, plan: Plan, now: Snapshot, faults: PruneFaults)
    requires Listed(before.backups, records)
    requires PlanOf(records, Attestation.Attested(env, before), job.anchor, job.policy) == Ok(plan)
    requires var document := CompletionOf(plan, job, encode);
             Outcome(ContextOf(before, plan, job, encode), Ok(document), document, now, faults)
    ensures var document := CompletionOf(plan, job, encode);
      && TrueAccount(before, now, records, document)
      && OnRecord(encode, before.deletions, now.deletions, job, document)
      && IndependentCopies(env, now, document.knownGood, job.policy.minimumKnownGood)
      && Used(now) == Used(before) - document.deletedBytes + |encode(IntentOf(plan, job))| + |encode(document)|
  {
    var att, c := Attestation.Attested(env, before), ContextOf(before, plan, job, encode);
    CompletionAccounts(encode, before, records, att, job, plan, now.deletions);
    PickBytes(before.backups, c.deleted);
    DeletedBytes(c, plan.deletedBytes);
    CompletionOnRecord(encode, before, plan, job);
    IndependentAfterPrune(env, before, records, job, plan, c, now.deletions);
  }

  /** The deletion id and the timestamp that the evidence needs are valid. */
  predicate Recordable(env: Attestation.Env, job: Job) {
    ValidBackupId(job.deletionId) && env.validTimestamp(job.recordedAt)
  }

  /** Plan and prune. Whatever fails and whenever, every state the vault goes through keeps all backups
      in place or in quarantine until the intent is on record, touches only planned backups, and has
      no completion without its intent. */
  method PruneRemote(v: Vault, env: Attestation.Env, encode: Codec, records: seq<Record>, job: Job, faults: PruneFaults)
    returns (r: Result<Document, PruneError>)
    requires Listed(v.backups, records)
    modifies v`backups, v`trash, v`deletions, v`trace
    ensures var planned := PlanOf(records, Attestation.Attested(env, old(v.Now())), job.anchor, job.policy);
      && (planned.Err? ==> r == Err(PlanFailed(planned.error)) && v.Now() == old(v.Now()) && v.trace == old(v.trace))
      && (planned.Ok? && !Recordable(env, job) ==>
            r == Err(InvalidEvidence) && v.Now() == old(v.Now()) && v.trace == old(v.trace))
      && (planned.Ok? && Recordable(env, job) ==>
            var c := ContextOf(old(v.Now()), planned.value, job, encode);
            && AllSound(c, old(v.trace), v.trace)
            && Outcome(c, r, CompletionOf(planned.value, job, encode), v.Now(), faults)
            && (faults.None() && Unused(c) ==> r.Ok?)
            && (r.Ok? ==>
                  Used(v.Now()) == old(Used(v.Now())) - planned.value.deletedBytes + |c.intent| + |c.completion|))
    ensures r == Err(QuarantineRemains) || r == Err(CompletionMissing) ==>
      Underway(encode, old(v.backups).Keys, v.Now(), records, job)
    ensures r.Ok? ==> TrueAccount(old(v.Now()), v.Now(), records, r.value)
    ensures r.Ok? ==> OnRecord(encode, old(v.deletions), v.deletions, job, r.value)
    ensures r.Ok? ==> IndependentCopies(env, v.Now(), r.value.knownGood, job.policy.minimumKnownGood)
  {
    var att := Attestation.Attested(env, Snapshot(v.backups, v.incoming, v.knownGood, v.trash, v.deletions));
    var planned := PlanRemoteRetention(records, att, job.anchor, job.policy);
    if planned.Err? {
      return Err(PlanFailed(planned.error));
    }
    if !Recordable(env, job) {
      return Err(InvalidEvidence);
    }
    var plan := planned.value;
    assert DistinctIds(plan.deleting) && Ids(plan.deleting) <= v.backups.Keys by {
      PlanListed(records, att, job, plan, v.backups);
    }
    var c := ContextOf(Snapshot(v.backups, v.incoming, v.knownGood, v.trash, v.deletions), plan, job, encode);
    r := Apply(v, c, plan.deleting, CompletionOf(plan, job, encode), faults);
    if r.Ok? {
      Completed(env, encode, c.base, records, job, plan, v.Now(), faults);
    } else if r == Err(QuarantineRemains) || r == Err(CompletionMissing) {
      Interrupted(encode, c.base, records, att, job, plan, r, v.Now(), faults);
    }
  }

  /** After a completed prune the planner sees exactly the attestations whose backups are still there. */
  lemma {:induction false} AttestedAfterPrune(env: Attestation.Env, c: Context, deletions: Dir)
    ensures Attestation.Attested(env, Deleted(c, deletions)) == Attestation.Attested(env, c.base) - c.deleted
  {
    var now := Deleted(c, deletions);
    forall id
      ensures Attestation.SeenOf(env, now, id) == if id in c.deleted then None else Attestation.SeenOf(env, c.base, id)
    {
      SeenAfterPrune(env, c, deletions, id);
    }
  }

  lemma {:induction false} SeenAfterPrune(env: Attestation.Env, c: Context, deletions: Dir, id: string)
    ensures Attestation.SeenOf(env, Deleted(c, deletions), id) ==
            if id in c.deleted then None else Attestation.SeenOf(env, c.base, id)
  {
    Attestation.SeenWithBackup(env, Deleted(c, deletions), id);
    Attestation.SeenWithBackup(env, c.base, id);
  }

  /** After a completed prune the vault is at rest: the surviving records describe it, the planner sees
      the attestations of the survivors and of nothing that was deleted, and a second prune from any
      surviving anchor would delete nothing. */
  lemma {:induction false} SecondPruneDeletesNothing(env: Attestation.Env, base: Snapshot, records: seq<Record>,
                                                     job: Job, plan: Plan, encode: Codec, now: Snapshot,
                                                     anchor: Anchor)
    requires Listed(base.backups, records)
    requires PlanOf(records, Attestation.Attested(env, base), job.anchor, job.policy) == Ok(plan)
    requires var c := ContextOf(base, plan, job, encode);
             now == Deleted(c, WithIntent(c)[CompletionFile(c.pid) := c.completion])
    requires ValidAnchor(anchor) && VerifiedAnchor(Keep(records, plan.retained), anchor)
    ensures Listed(now.backups, Keep(records, plan.retained))
    ensures Attestation.Attested(env, now) == Attestation.Attested(env, base) - Ids(plan.deleting)
    ensures var again := PlanOf(Keep(records, plan.retained), Attestation.Attested(env, now), anchor, job.policy);
            again.Ok? && again.value.deleting == [] && again.value.retained == plan.retained &&
            again.value.knownGood == plan.knownGood && again.value.digests == plan.digests
  {
    var c := ContextOf(base, plan, job, encode);
    var before, after := Attestation.Attested(env, base), Attestation.Attested(env, now);
    AttestedAfterPrune(env, c, now.deletions);
    assert Ids(plan.deleting) !! plan.retained by { RetentionSafe(records, before, job.anchor, job.policy, plan); }
    RetentionIdempotent(records, before, job.anchor, job.policy, plan, Keep(records, plan.retained), anchor, after);
    SurvivorsListed(base.backups, records, plan.retained, Ids(plan.deleting));
  }

  lemma {:induction false} SurvivorsListed(backups: map<string, Dir>, records: seq<Record>, kept: set<string>,
                                           deleted: set<string>)
    requires Listed(backups, records) && kept !! deleted
    ensures Listed(backups - deleted, Keep(records, kept))
  {
    var survivors := Keep(records, kept);
    KeepDistinct(records, kept);
    KeepMembers(records, kept);
    forall i | 0 <= i < |survivors|
      ensures survivors[i].classes != {} && survivors[i].id in backups - deleted
      ensures survivors[i].bytes == DirBytes(backups[survivors[i].id])
    {
      assert survivors[i] in survivors;
    }
  }

  /** The attestation of a deleted backup stops loading, so the planner sees fewer attestations exactly when
      one of them belonged to a deleted backup. */
  lemma {:induction false} AttestationsSurviveIff(env: Attestation.Env, c: Context, deletions: Dir)
    ensures Attestation.Attested(env, Deleted(c, deletions)) == Attestation.Attested(env, c.base) <==>
            Attestation.Attested(env, c.base).Keys !! c.deleted
  {
    AttestedAfterPrune(env, c, deletions);
    var before := Attestation.Attested(env, c.base);
    if before.Keys !! c.deleted {
      assert before - c.deleted == before;
    } else {
      var id :| id in before && id in c.deleted;
      assert id !in before - c.deleted;
    }
  }
}
