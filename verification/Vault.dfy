/** The backup vault as a set of directories of files, and the file operations its protocols are
    built from. Every change of a file or directory is recorded, so that a contract can speak about
    every intermediate state, that is, about a crash at any point. */
module Vault {
  import opened Common

  const MAX_VAULT_BYTES := 20_000_000_000
  const MINIMUM_FREE_BYTES := 5_000_000_000

  /** The files of a stored backup (payload.tar.age, manifest.json, receipt.json), of a known-good
      directory (.incomplete, vault-validation.json, restore-summary.json, business-summary.json,
      attestation.json), and deletion records, which are named after the deletion. */
  datatype FileName =
    | Payload | Manifest | Receipt
    | Marker | Validation | RestoreSummary | BusinessSummary | AttestationJson
    | Named(text: string)

  /** File name to contents; the length of the contents is the file's logical size. */
  type Dir = map<FileName, string>

  /** SHA-256, as if it had no collisions. */
  datatype Digest = Sha256(preimage: string)

  datatype Snapshot = Snapshot(
    backups: map<string, Dir>, incoming: map<string, Dir>, knownGood: map<string, Dir>,
    trash: map<string, map<string, Dir>>, deletions: Dir)

  // ---- Sizes -------------------------------------------------------------------------------------

  function Length(content: string): nat { |content| }

  ghost function DirBytes(d: Dir): nat { SumBy(d, Length) }

  ghost function DirsBytes(m: map<string, Dir>): nat { SumBy(m, DirBytes) }

  /** The logical bytes of all files of the vault. */
  ghost function Used(s: Snapshot): nat {
    DirsBytes(s.backups) + DirsBytes(s.incoming) + DirsBytes(s.knownGood) +
    SumBy(s.trash, DirsBytes) + DirBytes(s.deletions)
  }

  // ---- A directory under construction --------------------------------------------------------------

  datatype Where = InIncoming(name: string) | InKnownGood(name: string)

  function DirsAt(s: Snapshot, w: Where): map<string, Dir> {
    if w.InIncoming? then s.incoming else s.knownGood
  }

  function Put(s: Snapshot, w: Where, d: Dir): Snapshot {
    if w.InIncoming? then s.(incoming := s.incoming[w.name := d])
    else s.(knownGood := s.knownGood[w.name := d])
  }

  predicate Absent(s: Snapshot, w: Where) {
    w.name !in DirsAt(s, w)
  }

  lemma {:induction false} UsedPut(s: Snapshot, w: Where, d: Dir)
    requires Absent(s, w)
    ensures Used(Put(s, w, d)) == Used(s) + DirBytes(d)
  {
    SumByInsert(DirsAt(s, w), DirBytes, w.name, d);
  }

  lemma {:induction false} PutPut(s: Snapshot, w: Where, d: Dir, e: Dir)
    ensures Put(Put(s, w, d), w, e) == Put(s, w, e)
  {
    assert DirsAt(s, w)[w.name := d][w.name := e] == DirsAt(s, w)[w.name := e];
  }

  /** Everything that `s` has stored is still there, unchanged, in `t`. */
  ghost predicate KeepsStored(s: Snapshot, t: Snapshot) {
    && (forall id :: id in s.backups ==> id in t.backups && t.backups[id] == s.backups[id])
    && (forall id :: id in s.knownGood ==> id in t.knownGood && t.knownGood[id] == s.knownGood[id])
    && t.trash == s.trash && t.deletions == s.deletions
  }

  lemma {:induction false} PutKeepsStored(s: Snapshot, w: Where, d: Dir)
    requires Absent(s, w)
    ensures KeepsStored(s, Put(s, w, d))
  {
  }

  lemma {:induction false} InsertThenRemove(m: map<string, Dir>, k: string, d: Dir)
    requires k !in m
    ensures m[k := d] - {k} == m
  {
  }

  lemma {:induction false} BytesWith(d: Dir, name: FileName, content: string)
    requires name !in d
    ensures DirBytes(d[name := content]) == DirBytes(d) + |content|
  {
    SumByInsert(d, Length, name, content);
  }

  lemma {:induction false} EmptyDirBytes()
    ensures DirBytes(map[]) == 0
  {
  }

  /** What a removal that stops early leaves behind. */
  function Restrict(d: Dir, names: set<FileName>): Dir {
    map name | name in d && name in names :: d[name]
  }

  lemma {:induction false} ShrunkBytes(e: Dir, d: Dir)
    requires Shrunk(e, d)
    ensures DirBytes(e) <= DirBytes(d)
    decreases d
  {
    if e != map[] {
      var k :| k in e;
      SumByRemove(e, Length, k);
      SumByRemove(d, Length, k);
      ShrunkBytes(e - {k}, d - {k});
    }
  }

  /** Contents of a directory while file `name` is being added to `d`. */
  predicate Adding(e: Dir, d: Dir, name: FileName, size: nat) {
    e == d || (name in e && e == d[name := e[name]] && |e[name]| <= size)
  }

  /** Contents of a directory while it is being removed. */
  predicate Shrunk(e: Dir, d: Dir) {
    forall name :: name in e ==> name in d && e[name] == d[name]
  }

  /** The states in which `w` holds one directory after the other and nothing else changes. */
  function Shots(base: Snapshot, w: Where, dirs: seq<Dir>): (t: seq<Snapshot>)
    ensures |t| == |dirs|
  {
    seq(|dirs|, i requires 0 <= i < |dirs| => Put(base, w, dirs[i]))
  }

  /** How writing a file goes: after how many blocks or bytes it fails, if it does, and whether the
      handler that removes the partial file fails too and leaves it behind. */
  datatype Fault = Fault(failAt: Option<nat>, stuck: bool)

  /** What a failed write of `content` to the new file `name` leaves of the directory `d`. */
  predicate Left(e: Dir, d: Dir, name: FileName, content: string, stuck: bool) {
    if stuck then name in e && e == d[name := e[name]] && e[name] <= content else e == d
  }

  /** How a recursive removal goes: the names left after each of its steps, and whether it got to
      the end or gave up (its errors are ignored). */
  datatype Cleanup = Cleanup(stages: seq<set<FileName>>, removed: bool)

  /** A private directory of the vault. `history` holds everything it has contained, in order. */
  class WorkDir {
    var files: Dir
    ghost var history: seq<Dir>

    constructor ()
      ensures files == map[] && history == [map[]]
    {
      files := map[];
      history := [map[]];
    }

    method Set(d: Dir)
      modifies this
      ensures files == d && history == old(history) + [d]
    {
      files := d;
      history := history + [d];
    }

    /** Copy `size` bytes of a stream into a new file, block by block, and flush it. The blocks are what
        the stream delivers. On failure the file is removed again, if that is possible. */
    method CopyExact(name: FileName, stream: string, size: nat, cuts: seq<nat>, fault: Fault)
      returns (ok: bool)
      requires name !in files
      modifies this
      ensures ok ==> size <= |stream| && files == old(files)[name := stream[..size]]
      ensures !ok ==> Left(files, old(files), name, stream[..Min(size, |stream|)], fault.stuck)
      ensures fault.failAt.None? && size <= |stream| ==> ok
      ensures old(history) <= history
      ensures forall i :: |old(history)| <= i < |history| ==> Adding(history[i], old(files), name, size)
    {
      var d, done, blocks := files, 0, 0;
      Set(d[name := stream[..0]]);
      while done < size
        invariant 0 <= done <= size && done <= |stream|
        invariant files == d[name := stream[..done]]
        invariant old(history) <= history
        invariant forall i :: |old(history)| <= i < |history| ==> Adding(history[i], d, name, size)
        decreases size - done
      {
        var available := Min(size - done, |stream| - done);
        var block := if blocks >= |cuts| then available else
          Min(available, if cuts[blocks] == 0 then 1 else cuts[blocks]);
        if block == 0 || fault.failAt == Some(blocks) {
          break;
        }
        done, blocks := done + block, blocks + 1;
        Set(d[name := stream[..done]]);
      }
      // Reading, writing and flushing all fail in the same way.
      ok := done == size && fault.failAt != Some(blocks);
      if !ok {
        GiveUp(d, name, stream[..done], fault.stuck);
        assert fault.stuck ==> files[name] <= stream[..Min(size, |stream|)];
      }
    }

    /** The handler of a failed write: remove the partial file. */
    method GiveUp(d: Dir, name: FileName, part: string, stuck: bool)
      requires files == d[name := part]
      modifies this
      ensures files == if stuck then d[name := part] else d
      ensures old(history) <= history
      ensures forall i :: |old(history)| <= i < |history| ==> history[i] == d
    {
      if !stuck {
        Set(d);
      }
    }

    /** Write a new file in one go; a failure may come after any part of it. */
    method WriteNew(name: FileName, content: string, fault: Fault) returns (ok: bool)
      requires name !in files
      modifies this
      ensures ok <==> fault.failAt.None?
      ensures ok ==> files == old(files)[name := content]
      ensures !ok ==> Left(files, old(files), name, content, fault.stuck)
      ensures old(history) <= history
      ensures forall i :: |old(history)| <= i < |history| ==> Adding(history[i], old(files), name, |content|)
    {
      var d := files;
      var part := if fault.failAt.Some? then content[..Min(fault.failAt.value, |content|)] else content;
      Set(d[name := part]);
      ok := fault.failAt.None?;
      if !ok {
        GiveUp(d, name, part, fault.stuck);
      }
    }

    /** The file removals of a recursive removal that may stop anywhere. */
    method RemoveFiles(cleanup: Cleanup)
      modifies this
      ensures old(history) <= history
      ensures forall i :: |old(history)| <= i < |history| ==> Shrunk(history[i], old(files))
      ensures Shrunk(files, old(files))
    {
      for i := 0 to |cleanup.stages|
        invariant Shrunk(files, old(files))
        invariant old(history) <= history
        invariant forall j :: |old(history)| <= j < |history| ==> Shrunk(history[j], old(files))
      {
        Set(Restrict(files, cleanup.stages[i]));
      }
    }
  }

  class Vault {
    /** Free bytes of the file system when the vault is empty. */
    const disk: int
    var backups: map<string, Dir>
    var incoming: map<string, Dir>
    var knownGood: map<string, Dir>
    var trash: map<string, map<string, Dir>>
    var deletions: Dir
    ghost var trace: seq<Snapshot>

    ghost function Now(): Snapshot
      reads this
    {
      Snapshot(backups, incoming, knownGood, trash, deletions)
    }

    /** Within the byte limit and above the free-space floor. */
    ghost predicate Within(s: Snapshot) {
      Used(s) <= MAX_VAULT_BYTES && disk - Used(s) >= MINIMUM_FREE_BYTES
    }

    constructor (disk: int)
      ensures this.disk == disk && Now() == Snapshot(map[], map[], map[], map[], map[]) && trace == [Now()]
    {
      this.disk := disk;
      backups, incoming, knownGood, trash, deletions := map[], map[], map[], map[], map[];
      trace := [Snapshot(map[], map[], map[], map[], map[])];
    }

    /** The private directory `w` appears in the vault: the vault has gone through the contents the
        directory has had since the point `from` of its history. */
    method Show(w: Where, dir: WorkDir, ghost base: Snapshot, ghost from: nat)
      requires from <= |dir.history|
      requires Now() == base || exists d :: Now() == Put(base, w, d)
      modifies this`incoming, this`knownGood, this`trace
      ensures Now() == Put(base, w, dir.files)
      ensures trace == old(trace) + Shots(base, w, dir.history[from..])
    {
      if Now() != base {
        ghost var d :| Now() == Put(base, w, d);
        PutPut(base, w, d, dir.files);
      }
      if w.InIncoming? {
        incoming := incoming[w.name := dir.files];
      } else {
        knownGood := knownGood[w.name := dir.files];
      }
      trace := trace + Shots(base, w, dir.history[from..]);
    }

    /** Rename the private directory `w` to the backup `id`. */
    method Publish(w: Where, id: string, ghost base: Snapshot, ghost d: Dir)
      requires w.InIncoming? && Now() == Put(base, w, d) && Absent(base, w) && id !in backups
      modifies this`incoming, this`backups, this`trace
      ensures Now() == base.(backups := base.backups[id := d]) && trace == old(trace) + [Now()]
    {
      InsertThenRemove(base.incoming, w.name, d);
      backups := backups[id := incoming[w.name]];
      incoming := incoming - {w.name};
      trace := trace + [Now()];
    }

    /** Remove the directory `w` itself. */
    method Forget(w: Where, ghost base: Snapshot, ghost d: Dir)
      requires Now() == Put(base, w, d) && Absent(base, w)
      modifies this`incoming, this`knownGood, this`trace
      ensures Now() == base && trace == old(trace) + [base]
    {
      if w.InIncoming? {
        InsertThenRemove(base.incoming, w.name, d);
        incoming := incoming - {w.name};
      } else {
        InsertThenRemove(base.knownGood, w.name, d);
        knownGood := knownGood - {w.name};
      }
      trace := trace + [Now()];
    }
  }

  // ---- Writing within a budget ---------------------------------------------------------------------

  ghost predicate AllUpTo(dirs: seq<Dir>, bytes: int) {
    forall i :: 0 <= i < |dirs| ==> DirBytes(dirs[i]) <= bytes
  }

  lemma {:induction false} AddingUpTo(before: seq<Dir>, after: seq<Dir>, d: Dir, name: FileName, size: nat, bytes: int)
    requires AllUpTo(before, bytes) && before <= after && name !in d && DirBytes(d) + size <= bytes
    requires forall i :: |before| <= i < |after| ==> Adding(after[i], d, name, size)
    ensures AllUpTo(after, bytes)
  {
    forall i | 0 <= i < |after| ensures DirBytes(after[i]) <= bytes {
      if i < |before| {
        assert after[i] == before[i];
      } else if after[i] != d {
        BytesWith(d, name, after[i][name]);
      }
    }
  }

  lemma {:induction false} LeftBytes(e: Dir, d: Dir, name: FileName, content: string, stuck: bool)
    requires name !in d && Left(e, d, name, content, stuck)
    ensures DirBytes(e) <= DirBytes(d) + |content|
  {
    if stuck {
      BytesWith(d, name, e[name]);
    }
  }

  // ---- Measuring the vault -------------------------------------------------------------------------

  method DirSize(d: Dir) returns (total: nat)
    ensures total == DirBytes(d)
  {
    total := 0;
    var rest := d;
    while rest != map[]
      invariant total + DirBytes(rest) == DirBytes(d)
      decreases rest
    {
      var name :| name in rest;
      SumByRemove(rest, Length, name);
      total, rest := total + |rest[name]|, rest - {name};
    }
  }

  method DirsSize(m: map<string, Dir>) returns (total: nat)
    ensures total == DirsBytes(m)
  {
    total := 0;
    var rest := m;
    while rest != map[]
      invariant total + DirsBytes(rest) == DirsBytes(m)
      decreases rest
    {
      var name :| name in rest;
      SumByRemove(rest, DirBytes, name);
      var size := DirSize(rest[name]);
      total, rest := total + size, rest - {name};
    }
  }

  /** The walk over all files of the vault. */
  method LogicalBytes(v: Vault) returns (total: nat)
    ensures total == Used(v.Now())
  {
    var backups := DirsSize(v.backups);
    var incoming := DirsSize(v.incoming);
    var knownGood := DirsSize(v.knownGood);
    var deletions := DirSize(v.deletions);
    var trash := 0;
    var rest := v.trash;
    while rest != map[]
      invariant trash + SumBy(rest, DirsBytes) == SumBy(v.trash, DirsBytes)
      decreases rest
    {
      var id :| id in rest;
      SumByRemove(rest, DirsBytes, id);
      var size := DirsSize(rest[id]);
      trash, rest := trash + size, rest - {id};
    }
    return backups + incoming + knownGood + trash + deletions;
  }
}
