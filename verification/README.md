# boost_gateway in Dafny

A Dafny model of the parts of boost_gateway whose guarantees reach across many steps: the backup
vault, the load generator's evidence, the isolated restore drill, the rate limiter, the wire stack,
and two small algorithms. `dafny verify dfyconfig.toml` checks the whole project.

- **Retention and vault** (`Retention`, `Timestamps`, `Vault`, `VaultCapacity`, `VaultStore`,
  `Attestation`, `VaultRuns`, `Prune`). The vault is an object with its five areas, each a map from names to
  directories, and a ghost trace of every state it goes through. Operations take a description of
  what fails and when, down to single chunks of a copy, single renames and single files of a
  cleanup, and the contracts speak about every state of the trace. A handler that removes a partial
  file may fail as well. SHA-256 is an injective function, JSON an invertible codec, and the schema
  checks of the evidence a partial function of the evidence and the stored backup.
- **Load generator** (`LoadRun`). Clients interleave at the granularity of single atomic operations;
  a run is any sequence of such steps, with forced stops at any time. The four terminal counters are
  read one at a time.
- **Restore drill** (`RestoreDrill`). Every Docker command can be done, refused, or lost: a lost
  command has had its effect but is reported as failed.
- **Rate limiter** (`RateLimiter`). A class with the source's maps; the guarantees are about whole
  runs with a monotone clock. Limits are computed with 64-bit wrap-around.
- **Wire stack** (`Serializer`, `Messages`, `PacketCodec`, `WireStack`, `Fragments`). Bytes, fixed
  widths and truncating casts are written out; sockets deliver their bytes in any chunking.
- **Algorithms** (`CpuSet`, `ProcessTree`, `ArchiveWalk`, `Manifest`). CPU lists and their two
  parsers, the process-tree fixpoint, the archive walk and the validator of its manifest.

`Arithmetic`, `Common` and `Text` hold shared definitions. Every induction is written out: no lemma
uses the verifier's automatic induction.

Assumptions about Docker, stated as the methods of `RestoreDrill.Docker`: a command is done, refused
without effect, or lost after its effect; a start on a used name is refused; a command that reports
success has had its effect; seeding mounts the volume it is given and no other
(`scripts/lib/isolated_restore.py`, lines 491-583, 674-699 and 802-818).

Where a promise does not hold on all inputs, the model keeps the code and states when it does:

- Fragmented bodies survive exactly for sizes up to 8192 and from 12289 to 16384 bytes, because the
  fragment count shares bits with the flags (`Fragments.ReassemblyExact`).
- Strings and lists survive exactly when their lengths fit 16 bits (`Messages.MessageRoundTrip`).
- The warm-up limit stays within its bounds exactly when they are ordered
  (`RateLimiter.WarmupWithinIff`). It grows with the age exactly where its products fit 64 bits or wrap
  without a visible loss (`RateLimiter.WarmupMonotoneIff`, `RateLimiter.WarmupFalls`).
- "Newest" and "older" are the text order of creation times. That is their order in time for one fixed
  format, such as the one the backup writes (`Timestamps.TextOrderIsTimeOrder`), and not across the
  formats that the validator accepts (`Timestamps.FractionSortsFirst`).
- An allowed login leaves counters below the maximum exactly when the maximum is positive
  (`RateLimiter.AllowedBelowMaximum`).
- A cleanup that ignores errors can leave a loadable attestation, exactly when it has removed only the
  marker and the attestation file is readable (`Attestation.ResidueLoads`).
- An attestation that has been committed is taken back when the check after the commit fails
  (`Attestation.Attest`).
- A prune leaves all attestations loadable exactly when none belongs to a deleted backup, because
  loading needs the backup (`Prune.AttestationsSurviveIff`); the second prune deletes nothing all the
  same.
- A restore drill whose lock release fails after success still runs its handler; "retained" is then
  right exactly when the handler's removal had no effect (`RestoreDrill.RunIsolatedRestore`).
- The manifest of a walk is valid exactly when no source is called `redis_snapshot` and no recorded
  path has a backslash (`Manifest.WalkedManifestValid`).
- A client that has set its `finished_` latch is still counted as active until it reports. A full peak
  proves that all clients were in the load (`LoadRun.FullLoadInstant`). It proves that at one instant
  none of them was latched exactly when no authenticated client was latched while another was still
  connecting (`LoadRun.FullServiceIff`); for every two or more clients some run is not like that
  (`LoadRun.LatchedClientCounts`).
- The global completion is also marked by forced stops; only the mark of `try_stop` means that all
  clients completed (`LoadRun.StoppedExactlyOnce`).

## Model

| member | source | states |
|---|---|---|
| `Retention.PlanRemoteRetention` | scripts/lib/backup_recovery.py:1791-1884 | the planner with its loops and early returns returns the plan that `PlanOf` defines; what that plan keeps, deletes and counts, and when there is none, is stated without its definition by the rows that follow |
| `Retention.PlanErrors` | scripts/lib/backup_recovery.py:1802-1872 | each refusal happens exactly for an invalid anchor, counts below 1, 1 and 2, an anchor that no record has with that receipt, and too few independent copies; a refused byte count is that of a negative size |
| `Retention.SelectKnownGood` | scripts/lib/backup_recovery.py:1830-1844 | the selection loop with its two "seen" sets computes the greedy choice `KnownGood` |
| `Retention.SumDeleted` | scripts/lib/backup_recovery.py:1863-1872 | the byte loop fails exactly when a deleted record has a negative size, and otherwise sums the sizes |
| `Retention.SortNewestSorts` | scripts/lib/backup_recovery.py:1824-1828 | records with distinct ids come out newest first, by the text of the creation time and then by the id |
| `Retention.NewestFirstUnique` | scripts/lib/backup_recovery.py:1824-1828 | there is only one newest-first order of a set of records, so the plan does not depend on the order of the inventory |
| `Timestamps.TextOrderIsTimeOrder` | scripts/lib/backup_recovery.py:1824-1828 | in one fixed format of zero-padded fields and separators, whatever it is, the text order of two times is their order in time, and equal texts are equal times |
| `Timestamps.NewerIsLater` | scripts/lib/backup_recovery.py:1824-1828 | records whose creation times are in one fixed format are sorted by time, and by id at equal times |
| `Timestamps.FractionSortsFirst` | scripts/lib/backup_recovery.py:868-881 | across the formats the validator accepts they are not: a time with a fraction sorts before the full second it follows |
| `Retention.KnownGoodIndependent` | scripts/lib/backup_recovery.py:1833-1844 | selected copies have pairwise distinct restore ids and pairwise distinct target identities |
| `Retention.KnownGoodPassedOver` | scripts/lib/backup_recovery.py:1833-1844 | an attested record that the greedy loop passes over repeats the restore id or target identity of a newer selected one |
| `Retention.QuotaFilled` | scripts/lib/backup_recovery.py:1855-1861 | a record of a class outside the first n of that class is older than exactly n newest-first records of the class |
| `Retention.PlanShape` | scripts/lib/backup_recovery.py:1824-1884 | every accepted plan has the sorted inventory, the first `minimum_known_good` greedy choices, the kept set and the deletion list with its byte total |
| `Retention.RetentionSafe` | scripts/lib/backup_recovery.py:1824-1872 | for every inventory of verified records: kept and deleted partition it; exactly `minimum_known_good` attested copies with pairwise distinct restore ids and target identities are kept; a deleted daily record is older than `daily_copies` kept daily ones and a deleted weekly record than `weekly_copies` kept weekly ones; the newest record is kept and none was created later; the kept set is at most the sum of the three counts |
| `Retention.RetainedExactly` | scripts/lib/backup_recovery.py:1846-1861 | a record is kept exactly when it is a kept known-good copy, or it is daily and fewer than `daily_copies` newer records are, or it is weekly and fewer than `weekly_copies` newer records are |
| `Retention.FirstOfClassExact` | scripts/lib/backup_recovery.py:1855-1861 | a record is among the first n of a class exactly when it has the class and fewer than n newer records have it |
| `Retention.KnownGoodNewest` | scripts/lib/backup_recovery.py:1830-1850 | an attested record that is not among the kept known-good copies is older than all of them or repeats a newer one |
| `Retention.KnownGoodStable` | scripts/lib/backup_recovery.py:1830-1850 | dropping any records other than the first n greedy choices leaves those n choices unchanged |
| `Retention.FirstOfClassStable` | scripts/lib/backup_recovery.py:1855-1861 | dropping any records other than the first n of a class leaves those n unchanged |
| `Retention.SortedSurvivors` | scripts/lib/backup_recovery.py:1824-1828 | sorting any reordering of the survivors is the same as filtering the sorted inventory |
| `Retention.PlanCongruent` | scripts/lib/backup_recovery.py:1830-1884 | a plan depends only on the attestations of the records it is made for |
| `Retention.RetentionIdempotent` | scripts/lib/backup_recovery.py:1824-1884 | planning again on the surviving records, in any order, with any surviving anchor and any attestations that agree on the survivors, picks the same known-good copies and digests, retains the same set and deletes nothing |
| `Vault.WorkDir.CopyExact` | scripts/lib/backup_recovery.py:113-128 | a chunked create-only copy stores exactly the first `size` bytes; on any failure, the final flush included, it leaves the directory as it was, or a prefix of the file where the handler cannot remove it; every intermediate state holds at most a prefix of `size` bytes |
| `Vault.WorkDir.WriteNew` | scripts/lib/backup_recovery.py:76-86 | a create-only write stores the content; on failure it leaves the directory as it was, or a prefix of the file where the handler cannot remove it |
| `Vault.WorkDir.RemoveFiles` | scripts/lib/backup_recovery.py:998-1000 | cleanup that ignores errors only ever takes files away, in any order and stopping anywhere |
| `Vault.LogicalBytes` | scripts/lib/backup_recovery.py:172-194 | the inventory walk over the vault returns the sum of all file sizes |
| `Vault.DirSize` | scripts/lib/backup_recovery.py:188-193 | the loop over one directory sums its file sizes |
| `Vault.DirsSize` | scripts/lib/backup_recovery.py:181-193 | the loop over the directories of one area sums their sizes |
| `Vault.ShrunkBytes` | scripts/lib/backup_recovery.py:998-1000 | a directory from which files were taken or truncated never has more bytes than before |
| `Vault.Vault.Publish` | scripts/lib/backup_recovery.py:996-997 | the rename moves the private directory to its final id and changes nothing else |
| `Vault.Vault.Forget` | scripts/lib/backup_recovery.py:998-1000 | removing the private directory restores the vault as it was before it was made |
| `VaultCapacity.ReservationCovers` | scripts/lib/backup_recovery.py:942-952 | a successful preflight reservation alone implies the byte limit and the free-space floor for every later state whose new directory stays within it, and nothing stored is overwritten |
| `VaultCapacity.ReservationCoversAll` | scripts/lib/backup_recovery.py:1534-1560 | the same for a whole history of directory states |
| `VaultCapacity.PublishedWithin` | scripts/lib/backup_recovery.py:989-996 | the state after publishing is within the limits as well, so the completion check of a store cannot fail |
| `VaultCapacity.Discard` | scripts/lib/backup_recovery.py:1673-1675 | every state of a cleanup is within the limits; a cleanup that completes restores the vault exactly |
| `VaultStore.Fill` | scripts/lib/backup_recovery.py:962-988 | the private directory ends with exactly archive, manifest and receipt when sizes, digests, binding and receipt length check out, and never exceeds the reservation, whatever a failed write leaves |
| `VaultStore.Preflight` | scripts/lib/backup_recovery.py:935-959 | the checks before the first write pass exactly for a valid header, a covered reservation, a new id and a free private directory |
| `VaultStore.PublishStored` | scripts/lib/backup_recovery.py:989-997 | the completion check cannot find the vault over its limits; the rename publishes exactly the private directory, and a failure before it changes nothing |
| `VaultStore.Store` | scripts/lib/backup_recovery.py:924-1000 | for every upload and every combination of failures: all intermediate states stay within the limits and keep what was stored and attested; success adds exactly the upload under a new id, as archive and manifest that concatenate to the stream and have the sizes and digests of the header, and a receipt of at most 4096 bytes; a failure with completed cleanup leaves the vault as it was; an acceptable upload without faults succeeds |
| `VaultRuns.Run` | scripts/lib/backup_recovery.py:934-1000 | from a vault within both limits, no sequence of succeeding and failing stores and attestations ever leaves them at any intermediate state: at most 20 GB are used and 5 GB stay free; no stored id is ever overwritten; at every state, each attestation that loads was there at the start or was finished by an operation of the run, as its complete directory unless a truncated file could not be removed |
| `VaultRuns.ExplainedLater` | scripts/lib/backup_recovery.py:1678-1720 | when more backups are stored, every attestation that loads was still there at the start or was finished by an operation; one that was there at the start may begin to load with its backup |
| `VaultRuns.ExplainedAttest` | scripts/lib/backup_recovery.py:1616-1675 | in every state of an attestation, the others load as before and its own only when finished |
| `Attestation.LoadComplete` | scripts/lib/backup_recovery.py:1684-1720 | loading a completed attestation, with its backup in the vault, returns exactly the document that was created and the digest of its text |
| `Attestation.LoadExactly` | scripts/lib/backup_recovery.py:1678-1720 | an attestation loads exactly when its four files are there and no other, its backup is in the vault, and its document has a valid timestamp and the binding that its evidence validates to for that backup; it loads as that document with the digest of its text |
| `Attestation.UnfinishedRejected` | scripts/lib/backup_recovery.py:1684-1691 | a directory with the marker, or without the attestation file, is never accepted |
| `Attestation.CopyOne` | scripts/lib/backup_recovery.py:1626-1643 | copying one evidence file stores it unchanged, and fails when its size differs from the one observed or a write fails; what a failure leaves is within the reservation |
| `Attestation.CopyEvidence` | scripts/lib/backup_recovery.py:1622-1643 | marker and evidence files are all written, or the attestation file is absent; every intermediate state is unfinished and within the reservation |
| `Attestation.FillMarked` | scripts/lib/backup_recovery.py:1622-1666 | up to the last write every state is unfinished and within the reservation; success requires that the copies validate to the same binding; a failure leaves no attestation file, or a prefix of it behind the marker |
| `Attestation.Preflight` | scripts/lib/backup_recovery.py:1574-1621 | the checks before the first write pass exactly for valid evidence of a stored backup, a valid timestamp, a covered reservation for the sizes found after the validation, and a new id |
| `Attestation.Commit` | scripts/lib/backup_recovery.py:1667-1672 | neither the peak nor the completion check can find the vault over its limits; once the marker is gone the attestation loads, whether or not the check after it fails |
| `Attestation.RemoveMarker` | scripts/lib/backup_recovery.py:1669 | removing the marker is the commit point: the new state is within the limits and loads as the document and its digest |
| `Attestation.TakeBack` | scripts/lib/backup_recovery.py:1673-1675 | the handler, before or after the commit, leaves the vault within its limits with nothing that loads but a finished attestation, and as it was when it completes |
| `Attestation.Attest` | scripts/lib/backup_recovery.py:1563-1675 | for every request and every combination of failures, those after the commit included: all states stay within the limits; nothing but a finished attestation is ever loadable; success adds exactly the three evidence files that were found and the document they validate to, and it loads back; a failure with completed cleanup leaves the vault as it was; without faults before the commit the committed state is reached, and the call succeeds exactly when the last check does |
| `Attestation.ShrunkOnlyFinished` | scripts/lib/backup_recovery.py:1673-1675 | whatever a partial cleanup leaves behind is rejected unless it is the complete directory, or all evidence with a truncated attestation file where that could not be removed |
| `Attestation.ResidueLoads` | scripts/lib/backup_recovery.py:1673-1675 | a residue of a cleanup is accepted exactly when only the marker is gone and the text of its attestation file, truncated or not, decodes to a document for the same evidence; a full text loads as the attestation that was being created |
| `Attestation.PlannerSeesCommit` | scripts/lib/backup_recovery.py:1830-1836 | an attestation that does not load is invisible to the planner; one that does adds exactly one entry, with the restore id, target identity and digest of the document that loads, and no other entry changes |
| `Attestation.AttestedExactly` | scripts/lib/backup_recovery.py:1830-1844 | the planner is given an entry for exactly the attestations that load, each with the restore id, the target identity and the digest of the document that loads |
| `Attestation.SeenWithBackup` | scripts/lib/backup_recovery.py:1178-1185 | an attestation loads only while its backup is in the vault |
| `Prune.PruneRemote` | scripts/lib/backup_recovery.py:1893-2027 | for every inventory and every point of failure: a failing plan, or an invalid deletion id or timestamp, changes nothing; no state destroys a backup before the intent is recorded; a new completion implies its intent and a removed quarantine. On success the returned completion is on record together with its intent, it names exactly the backups that have left and those of the inventory that are still there, the bytes that went, the digest of the intent on record, and `minimum_known_good` copies that still load, with pairwise distinct restore ids and target identities; the intent says the same, with the policy. When the deletion is interrupted the intent on record still names what has left |
| `Prune.IntentReadsBack` | scripts/lib/backup_recovery.py:1918-1934 | with an invertible codec the intent on record reads back as the quarantined and retained ids, policy, anchor, id and time of the prune |
| `Prune.PlanAccounts` | scripts/lib/backup_recovery.py:1874-1884 | applying a plan removes exactly the ids it lists as deleted, leaves exactly those of the inventory it lists as retained, and frees exactly its byte total |
| `Prune.PlanIndependent` | scripts/lib/backup_recovery.py:1830-1850 | the known-good copies of a plan are as many as required, each loads with the digest of the plan, and no two of the loaded documents share a restore id or a target identity |
| `Prune.Apply` | scripts/lib/backup_recovery.py:1994-2027 | the same for a given deletion list, with the exact final state of each outcome |
| `Prune.MoveAllOut` | scripts/lib/backup_recovery.py:1998-2002 | the renames move a prefix of the list into quarantine, all of it when no rename fails |
| `Prune.UndoMoves` | scripts/lib/backup_recovery.py:2007-2011 | the reverse renames bring the backups back in reverse order, all of them when none fails |
| `Prune.Rollback` | scripts/lib/backup_recovery.py:2007-2016 | after a failed rename or intent every moved backup is back when the reverse renames succeed, and the vault is as it was, up to a partial intent that could not be removed, when the empty quarantine is removed too; even otherwise every backup is still in place or in quarantine |
| `Prune.RecordIntent` | scripts/lib/backup_recovery.py:2005-2006 | the intent is recorded in full, or leaves nothing, or a prefix where the handler cannot remove it; no state counts a partial intent as recorded |
| `Prune.DeleteTrash` | scripts/lib/backup_recovery.py:2017-2022 | deleting the quarantine may stop anywhere, and every state on the way has the intent on record |
| `Prune.RecordCompletion` | scripts/lib/backup_recovery.py:2023-2027 | the completion is written only after the quarantine is gone, in full, or leaves nothing, or a prefix where the handler cannot remove it |
| `Prune.Destroy` | scripts/lib/backup_recovery.py:2017-2027 | the irreversible half: the exact outcome for every failure in it |
| `Prune.WriteRecord` | scripts/lib/backup_recovery.py:76-86 | a create-only record fails when the name exists and never changes another record; a failure leaves nothing, or a prefix where the handler cannot remove it |
| `Prune.PickBytes` | scripts/lib/backup_recovery.py:2000-2002 | splitting the backups into moved and unmoved conserves the bytes |
| `Prune.QuarantineBytes` | scripts/lib/backup_recovery.py:2000-2002 | moving backups into quarantine does not change the byte total |
| `Prune.ListedBytes` | scripts/lib/backup_recovery.py:1864-1884 | the byte total of the plan is the logical size of exactly the directories it deletes |
| `Prune.DeletedBytes` | scripts/lib/backup_recovery.py:1893-1959 | bytes after a completed prune are the old bytes minus `deleted_logical_bytes` plus the lengths of intent and completion |
| `Prune.SecondPruneDeletesNothing` | scripts/lib/backup_recovery.py:1962-2027 | after a completed prune the survivors are again a valid inventory, exactly the attestations of deleted backups have stopped loading, and a second prune retains the same set and known-good copies and deletes nothing |
| `Prune.AttestedAfterPrune` | scripts/lib/backup_recovery.py:1178-1185 | after a prune the planner sees exactly the earlier attestations without those of deleted backups |
| `Prune.AttestationsSurviveIff` | scripts/lib/backup_recovery.py:1178-1185 | a prune leaves all attestations loadable exactly when none belongs to a deleted backup |
| `RestoreDrill.RunIsolatedRestore` | scripts/lib/isolated_restore.py:758-887 | for every combination of command outcomes, in body and cleanup: nothing that existed before is touched; the active volume is never mounted or removed; a container or the volume is reported exactly when the drill left it up and its removal was not reported as done, the volume only when both containers went; a failed drill whose cleanup commands are done reports nothing and leaves nothing but what a lost start or creation made; no volume removal after a failed container removal; `target_removed_on_failure` implies the volume is gone; a pass is equivalent to every step having gone well; "retained" is right exactly when the lock was released or the removal had no effect |
| `RestoreDrill.Baseline` | scripts/lib/isolated_restore.py:782-800 | the baseline phase ends with its container gone, or with the flag that says it is up |
| `RestoreDrill.Fill` | scripts/lib/isolated_restore.py:802-837 | the volume phase ends with a new volume that holds the bundle, or a flag that says whether it was created |
| `RestoreDrill.Compare` | scripts/lib/isolated_restore.py:838-870 | success of the target phase is equivalent to a started target whose keyspace equals the baseline and an unchanged active volume |
| `RestoreDrill.Body` | scripts/lib/isolated_restore.py:759-870 | the whole body keeps its flags truthful, never removes a volume, and succeeds exactly when all checks and steps go well; it ends with a container flagged exactly when that container started and something failed before its removal, and with the volume flagged exactly when it was created |
| `RestoreDrill.CleanUp` | scripts/lib/isolated_restore.py:871-884 | a flagged container is reported exactly when its removal is not reported as done, and is gone exactly when the removal was not refused; the volume is removed, or reported, only when no container was |
| `LoadRun.RunInvariants` | examples/v2_gateway_pressure/load_evidence.h:40-65 | the invariants of counters, peak, start and stop hold after every interleaving of atomic steps, spurious compare-exchange failures included |
| `LoadRun.CountersExact` | examples/v2_gateway_pressure/main.cpp:198-249 | at every instant `active` is the number of clients in the load and never negative, and the four terminal counters sum to exactly the clients that have reported, at most the client count |
| `LoadRun.OutcomesExact` | examples/v2_gateway_pressure/main.cpp:198-249 | each of the four terminal counters is at every instant the number of clients that have reported that outcome |
| `LoadRun.HistoryExplains` | examples/v2_gateway_pressure/main.cpp:1191-1248 | after every run the outcome of a client is one that it was finished with, and only clients that logged in are in the load or count as authenticated |
| `LoadRun.PeakMonotone` | examples/v2_gateway_pressure/load_evidence.h:111-116 | `peak` never decreases |
| `LoadRun.PeakIsMaximum` | examples/v2_gateway_pressure/load_evidence.h:111-116 | when no client is inside the compare-exchange loop, `peak` is the maximum that `active` has had in the whole run |
| `LoadRun.StartWonOnce` | examples/v2_gateway_pressure/load_evidence.h:40-53 | the start of the measurement is won at most once, only after the count has reached a positive target, and, when no client is about to try, exactly then |
| `LoadRun.StarterWins` | examples/v2_gateway_pressure/load_evidence.h:48-53 | the client whose count reaches the target wins the start |
| `LoadRun.FullLoadInstant` | examples/v2_gateway_pressure/main.cpp:1778-1783 | evidence with `peak` equal to the target proves one instant at which all clients were authenticated and none had left the load |
| `LoadRun.FullLoadRecorded` | examples/v2_gateway_pressure/load_evidence.h:111-116 | conversely such an instant is always recorded in the final `peak` |
| `LoadRun.LatchedClientCounts` | examples/v2_gateway_pressure/main.cpp:1191-1200 | for every number of clients from two on, a run in which `peak` reaches the target although at no instant are all clients free of their `finished_` latch |
| `LoadRun.FullServiceIff` | examples/v2_gateway_pressure/main.cpp:1191-1248 | a run with a full `peak` has an instant at which all clients are authenticated and none has set its latch exactly when no authenticated client is latched while another is still connecting |
| `LoadRun.NoneConnectingAfterStart` | examples/v2_gateway_pressure/load_evidence.h:40-53 | once the measurement has started no client is connecting |
| `LoadRun.FullServiceInstant` | examples/v2_gateway_pressure/main.cpp:548-572 | in particular a full `peak` proves such an instant when authenticated clients are latched only after the measurement has started |
| `LoadRun.StopsOnlyWhenAllReported` | examples/v2_gateway_pressure/main.cpp:312-327 | although the counters are read one at a time, the stop branch of `try_stop` is reached only when every client has reported, it stops the loop at most once, and it marks the global completion only when all have completed, whatever forced stops mark meanwhile |
| `LoadRun.LastReporterBegins` | examples/v2_gateway_pressure/main.cpp:198-203 | the client whose report completes the count starts a `try_stop` that will see it |
| `LoadRun.LastReporterContinues` | examples/v2_gateway_pressure/main.cpp:312-327 | no step of any client can make that `try_stop` miss it |
| `LoadRun.StopperExists` | examples/v2_gateway_pressure/main.cpp:312-327 | once all clients are counted there is always one that has stopped the loop or will |
| `LoadRun.StoppedExactlyOnce` | examples/v2_gateway_pressure/main.cpp:312-327 | when all clients have come to rest `try_stop` has stopped the loop exactly once, and has marked the global completion exactly for a battle that all clients completed |
| `RateLimiter.WarmupMonotone` | include/net/rate_limiter.h:43-50 | with ordered limits whose products fit 64 bits at every age below the warm-up duration, the effective limit grows with the age |
| `RateLimiter.WarmupMonotoneIff` | include/net/rate_limiter.h:43-50 | with ordered limits the limit grows with the age exactly when the products fit 64 bits, or wrap with a loss that the remainder of the division absorbs |
| `RateLimiter.WarmupFalls` | include/net/rate_limiter.h:43-50 | ordered limits of 0 and two to the 63 over four seconds: the limit falls from one second to two |
| `RateLimiter.WarmupExact` | include/net/rate_limiter.h:43-50 | where the products fit, the 64-bit expression is the exact linear ramp |
| `RateLimiter.WarmupWithinIff` | include/net/rate_limiter.h:43-50 | the limit stays within the two bounds at every age exactly when they are ordered, even where the product wraps |
| `RateLimiter.WarmupWraps` | include/net/rate_limiter.h:47-50 | with unordered limits the unsigned subtraction wraps: at one second of a warm-up of at least two, the limit is the warm-up limit plus that share of two to the 64, modulo two to the 64 |
| `RateLimiter.WindowBound` | include/net/rate_limiter.h:30-55 | for every monotone-clock run over any keys, a half-open second holds at most twice the largest limit of accepted messages of a key, plus two windows for every forgotten state |
| `RateLimiter.RefusedOnlyWhenFull` | include/net/rate_limiter.h:30-55 | for every monotone-clock run, forgotten states included, a call is refused only when as many calls of its key as its limit says were admitted in the second that ends with it |
| `RateLimiter.TwoWindowsAttained` | include/net/rate_limiter.h:30-55 | the factor two is attained, for every limit |
| `RateLimiter.ConnectionBound` | include/net/rate_limiter.h:27-56 | per session without `cleanup_session`: at most twice the largest limit in force in any second, which for ordered limits is at most the larger of the member and guest limits, and for a guest session the guest limit |
| `RateLimiter.ConnectionRefused` | include/net/rate_limiter.h:27-56 | a message is refused only when its connection had `guest_max_per_second` (guests), `max_per_second` (after the warm-up) or, for ordered limits, at least the warm-up maximum accepted in the second before it |
| `RateLimiter.UserBound` | include/net/rate_limiter.h:59-76 | per user: at most four times `max_per_second` in any second |
| `RateLimiter.UserRefused` | include/net/rate_limiter.h:59-76 | a user is refused only after twice `max_per_second` messages were accepted in the second before, where the doubled limit fits 64 bits |
| `RateLimiter.AllowedBelowMaximum` | include/net/rate_limiter.h:79-102 | after any run, an allowed login check leaves both counters below the maximum, exactly when the configured maximum is positive |
| `RateLimiter.ExpiredBlockCleared` | include/net/rate_limiter.h:84-100 | after any run, a counter at the maximum whose block has expired is reset by the next check that reaches it |
| `RateLimiter.LockoutHolds` | include/net/rate_limiter.h:105-120 | a failure that brings a counter to the maximum makes every check of that address or user fail for the block window, whatever happens in between |
| `RateLimiter.FailuresLock` | include/net/rate_limiter.h:84-120 | from any state, as many failures as a counter misses to the maximum, all within its window, refuse every attempt for the rest of the window |
| `RateLimiter.RefusedForFailures` | include/net/rate_limiter.h:79-120 | after any run, an attempt is refused only because of a failure of its address or user less than a block window old that was at least the maximum-th of them |
| `RateLimiter.FewFailuresAllowed` | include/net/rate_limiter.h:79-120 | after any run with fewer failures than the maximum for the address and for the user, an attempt is allowed |
| `RateLimiter.EntryAfter` | include/net/rate_limiter.h:79-120 | an event changes only the entries of its own address and user; an attempt never raises a counter or moves a block, one refused for its address changes nothing, and an allowed one restarts a counter whose window has run out; a failure counts exactly once |
| `RateLimiter.Limiter.CheckConnection` | include/net/rate_limiter.h:27-56 | the in-place update is one window step with the effective limit, and the answer is that of the step; what the answers of whole runs amount to is stated by `WindowBound` and `RefusedOnlyWhenFull` |
| `RateLimiter.Limiter.CheckUser` | include/net/rate_limiter.h:59-76 | the in-place update is one window step with the user limit, and the answer is that of the step, with the same two bounds over whole runs |
| `RateLimiter.Limiter.CleanupSession` | include/net/rate_limiter.h:122-125 | erasing a session forgets exactly its window |
| `RateLimiter.Limiter.CheckLoginAttempt` | include/net/rate_limiter.h:79-102 | the result and both maps follow the login transition, early return included |
| `RateLimiter.Limiter.RecordLoginFailure` | include/net/rate_limiter.h:105-120 | both maps follow the failure transition |
| `Serializer.U16RoundTrip` | include/net/message_serializer.h:20-61 | a 16-bit number is read back and only it is consumed |
| `Serializer.U32RoundTrip` | include/net/message_serializer.h:25-70 | a 32-bit number is read back and only it is consumed |
| `Serializer.U64RoundTrip` | include/net/message_serializer.h:32-78 | a 64-bit number is read back and only it is consumed |
| `Serializer.WritesLittleEndian` | include/net/message_serializer.h:20-39 | numbers are written in 2, 4 and 8 bytes whose value, least significant byte first, is the number |
| `Serializer.StrRoundTrip` | include/net/message_serializer.h:41-94 | a string is read back exactly when it is shorter than 65536 bytes, because the length is truncated |
| `Serializer.EachRoundTrip` | include/net/message_serializer.h:96-109 | the elements of a list are read back exactly when each of them is |
| `Serializer.VecRoundTrip` | include/net/message_serializer.h:96-109 | a list is read back exactly when its length and all its elements fit 16-bit lengths |
| `Serializer.ReadVecLoop` | include/net/message_serializer.h:96-109 | the reading loop, with its early exit, computes `ReadVec` and leaves the same rest |
| `Serializer.WriteVecLoop` | include/net/message_serializer.h:188-197 | the writing loop appends `WriteVec` of the list |
| `Messages.FieldRoundTrip` | include/net/message_serializer.h:20-109 | one field of any type is read back exactly when it fits |
| `Messages.FieldsRoundTrip` | include/net/message_serializer.h:117-238 | a record of fields is read back exactly when all of them fit, even with bytes after it |
| `Messages.BuildFields` | include/net/message_serializer.h:117-375 | every message is rebuilt from its fields, and they have the layout of its type |
| `Messages.FieldsBuild` | include/net/message_serializer.h:244-375 | conversely the fields of a rebuilt message are the ones it was built from |
| `Messages.MessageRoundTrip` | include/net/message_serializer.h:117-375 | for each of the 17 message types, deserializing a serialized message gives it back exactly when its strings and lists fit 16-bit lengths |
| `Messages.MessageBytes` | include/net/message_serializer.h:117-238 | the bytes of each of the 17 message types: its fields in wire order, flags in one byte, strings and lists behind their lengths |
| `PacketCodec.Encode` | include/net/packet_codec.h:77-130 | the buffer filled by index holds exactly the frame of the packet |
| `PacketCodec.PutHead` | include/net/packet_codec.h:86-121 | the twenty header bytes are the big-endian length and the metadata in order |
| `PacketCodec.MetadataSlices` | include/net/packet_codec.h:86-121 | where each field of the metadata lies: version, message id, request id, sequence number, error code and flags at offsets 0, 1, 3, 7, 11 and 15 |
| `PacketCodec.PayloadRoundTrip` | include/net/packet_codec.h:165-225 | decoding metadata and body gives every packet back, negative error codes included |
| `PacketCodec.FrameRoundTrip` | include/net/packet_codec.h:77-225 | reading a frame from the head of a stream gives the packet and exactly the rest of the stream |
| `PacketCodec.TwinEncoders` | scripts/lib/perf_business_protocol.py:54-64 | the Python encoder emits the same bytes as the C++ one with zero sequence number and error code exactly when the length fits its field, and raises otherwise |
| `PacketCodec.TwinDecoders` | scripts/lib/perf_business_protocol.py:67-84 | on every stream the Python decoder succeeds exactly when the C++ one does and the length is at most 1 MiB, with the same packet and rest |
| `PacketCodec.PythonReadsFrames` | scripts/lib/perf_business_protocol.py:67-84 | the Python decoder reads a C++ frame back exactly up to its 1 MiB limit |
| `WireStack.RecvExact` | scripts/lib/perf_process_runtime.py:316-330 | under any chunking the loop returns exactly the next `size` bytes, or fails exactly when the stream ends before |
| `WireStack.RecvBusinessPacket` | scripts/lib/perf_business_protocol.py:67-84 | on any chunked socket the receiver returns what the decoder reads from the whole stream and leaves its rest |
| `WireStack.Socket.Recv` | scripts/lib/perf_process_runtime.py:325-327 | a receive returns a nonempty prefix of what is pending, or nothing at the end |
| `WireStack.FramesRoundTrip` | include/net/packet_codec.h:77-225 | a stream of concatenated frames is read back as the same list of packets |
| `WireStack.ReceiveAll` | examples/v2_gateway_pressure/main.cpp:518-542 | the header-body reading loop under any chunking computes what the decoder reads from the whole stream |
| `WireStack.PacketRoundTrip` | include/net/message_serializer.h:117-375 | a message in a packet comes back with all header fields exactly when it fits |
| `WireStack.EnvelopesRoundTrip` | include/net/message_serializer.h:117-375 | the same for a list of messages, packet by packet |
| `WireStack.EndToEnd` | include/net/packet_codec.h:77-225 | serialize, encode and concatenate, then read, decode and deserialize gives the same list of messages exactly when all of them fit |
| `WireStack.Send` | include/net/packet_codec.h:77-130 | encoding one message after the other builds that stream |
| `WireStack.Transfer` | examples/v2_gateway_pressure/main.cpp:518-542 | the whole transfer over a socket with any chunking returns the list exactly when all messages fit |
| `Fragments.FragmentAssembler.Feed` | include/net/packet_fragment.h:34-70 | feeding changes only the assembly of the request id, as the transition `Absorb` says |
| `Fragments.PassThrough` | include/net/packet_fragment.h:34-38 | a packet without the fragment bit is delivered at once and disturbs no assembly |
| `Fragments.RequestsIndependent` | include/net/packet_fragment.h:34-70 | for every interleaving the outputs for a request id are those of its own subsequence fed alone |
| `Fragments.FragmentPacket` | include/net/packet_fragment.h:76-100 | the splitting loop, with the 8-bit fragment count, produces `Fragmented` |
| `Fragments.FragmentsCarryBody` | include/net/packet_fragment.h:76-100 | the fragments together carry the body exactly when it has at most 1044480 bytes, since the count has eight bits |
| `Fragments.FlagFacts` | include/net/packet_fragment.h:91-92 | every fragment carries the fragment bit and its index modulo four |
| `Fragments.DeliveredShort` | include/net/packet_fragment.h:54-66 | no reassembled body is longer than four payloads |
| `Fragments.FourFragmentsReassemble` | include/net/packet_fragment.h:34-100 | bodies of four fragments are reassembled, from any assembler state |
| `Fragments.ThreeFragmentsCut` | include/net/packet_fragment.h:41-57 | for three fragments the count collides with the last-fragment bit and the first fragment is delivered alone |
| `Fragments.ReassemblyExact` | include/net/packet_fragment.h:34-100 | from any assembler state, fragmenting and feeding returns the body in one packet exactly when its size is at most 8192 or from 12289 to 16384 |
| `Fragments.InterleavedTransport` | include/net/packet_fragment.h:34-100 | the same for any interleaving with packets of other request ids |
| `CpuSet.ParseCpuSet` | scripts/lib/perf_process_affinity.py:40-61 | the parsing loop returns the union of the segments or the first error |
| `CpuSet.SegmentExact` | scripts/lib/perf_process_affinity.py:46-60 | a segment parses exactly when it is a number, or two numbers in order around one hyphen, and means that number or the whole interval |
| `CpuSet.SpaceIgnored` | scripts/lib/perf_process_affinity.py:40-45 | white space around the segments of a list changes neither the set nor the error |
| `CpuSet.ParseEvidenceCpuSet` | scripts/lib/cpu_capacity_evidence_contract.py:80-99 | the stricter loop returns the union, or the empty set at the first bad segment |
| `CpuSet.ParsersAgree` | scripts/lib/cpu_capacity_evidence_contract.py:80-99 | the stricter parser accepts exactly the texts that the collector accepts without stripping anything, with the same set |
| `CpuSet.FormatCpuSet` | scripts/lib/perf_process_affinity.py:63-76 | the printed text consists of maximal ranges that cover exactly the set, and both parsers read it back as the set |
| `CpuSet.RunsCanonical` | scripts/lib/perf_process_affinity.py:63-76 | the printed ranges are increasing, disjoint and maximal |
| `CpuSet.RunsCover` | scripts/lib/perf_process_affinity.py:63-76 | the printed ranges cover exactly the set |
| `CpuSet.FormatRoundTrip` | scripts/lib/perf_process_affinity.py:40-76 | both parsers read the printed form of any nonempty set back as that set |
| `CpuSet.ResolveLoadgenCpuSet` | scripts/lib/perf_process_affinity.py:152-175 | a given list is accepted exactly when both lists parse and share no CPU, and the text then parses to it; without one the text parses to the allowed CPUs that are not the service's, and is refused exactly when there are none or the operating system cannot be asked |
| `ProcessTree.Select` | scripts/lib/operations_host.py:429-439 | the fixpoint loop ends on every parent map, cyclic ones included, and selects exactly the root and the processes that reach it by parent links |
| `ProcessTree.ClosedContains` | scripts/lib/operations_host.py:429-439 | a set closed under children contains every chain down to the root, so stopping at a fixpoint misses nobody |
| `ProcessTree.Aggregate` | scripts/lib/operations_host.py:440-469 | samples are in increasing order and are exactly the known processes that reach the root, and the RSS total is the sum over exactly them, whatever the listing order |
| `ProcessTree.Collect` | scripts/lib/operations_host.py:440-469 | the loop over the sorted pids skips unknown ones and sums over exactly the known ones |
| `ArchiveWalk.SourceRelativeTarget` | scripts/lib/backup_recovery.py:374-387 | a target is resolved exactly when some root contains it, against the first deepest such root |
| `ArchiveWalk.DeepestIsDeepest` | scripts/lib/backup_recovery.py:374-387 | the chosen root contains the target and no declared root that contains it is deeper |
| `ArchiveWalk.RecordMeaning` | scripts/lib/backup_recovery.py:374-418 | a link record has the archive path, text and target kind of its link, and its source root followed by its relative path is the target, for the deepest declared root |
| `ArchiveWalk.Visit` | scripts/lib/backup_recovery.py:430-462 | the recursive walk fails exactly on an unacceptable name, link or type, and otherwise collects entries and links of the whole subtree in order |
| `ArchiveWalk.VisitChild` | scripts/lib/backup_recovery.py:438-462 | the same for one directory entry of each type |
| `ArchiveWalk.BuildArchive` | scripts/lib/backup_recovery.py:518-549 | all sources are walked, or the archive is refused, exactly when every source is walkable |
| `ArchiveWalk.BuiltExactly` | scripts/lib/backup_recovery.py:421-465 | an archive is built exactly when everything a path leads to has a printable name and is a file, a directory, or a link with printable text that resolves to a file or directory below a declared root |
| `ArchiveWalk.ItemsExact` | scripts/lib/backup_recovery.py:421-465 | a node is listed under a path exactly when the path leads to it |
| `ArchiveWalk.ItemsDistinct` | scripts/lib/backup_recovery.py:421-465 | no path is listed twice |
| `ArchiveWalk.ArchiveExact` | scripts/lib/backup_recovery.py:421-465 | for every tree: a path is an archive entry exactly when it leads to a file or directory, it has link metadata exactly when it leads to an acceptable link and then exactly that, and no entry or link path occurs twice |
| `ArchiveWalk.EveryLinkRecorded` | scripts/lib/backup_recovery.py:448-454 | in an archive that is built, every link of the trees is acceptable and has its record |
| `Manifest.ValidateManifestLinkContract` | scripts/lib/backup_recovery.py:768-842 | the validator with its "seen" sets accepts exactly the manifests that `Valid` describes |
| `Manifest.ValidateSources` | scripts/lib/backup_recovery.py:768-796 | the inventory passes accept exactly unique ids with safe and expected paths |
| `Manifest.ValidateLinks` | scripts/lib/backup_recovery.py:810-842 | the link pass accepts exactly unique and valid link records |
| `Manifest.LinkValidExact` | scripts/lib/backup_recovery.py:816-842 | a link record is valid exactly when its archive path is three or more proper components without backslash, below `sources` and a known source other than the snapshot, its text is printable, and its target is a safe path below a known source |
| `Manifest.JoinedSafe` | scripts/lib/backup_recovery.py:755-765 | a path of proper components is safe exactly when no component has a backslash |
| `Manifest.SafePathExact` | scripts/lib/backup_recovery.py:755-765 | a path is safe exactly when it has no backslash and is "." or proper components joined by slashes |
| `Manifest.ReferencesValid` | scripts/lib/backup_recovery.py:525-548 | the references of a walk are valid exactly when no source is called `redis_snapshot` |
| `Manifest.LinkItemPath` | scripts/lib/backup_recovery.py:430-452 | every link of a walk lies strictly below a declared source |
| `Manifest.RecordValid` | scripts/lib/backup_recovery.py:390-418 | one link record of a walk is valid exactly when its two paths have no backslash |
| `Manifest.WalkedManifestValid` | scripts/lib/backup_recovery.py:768-842 | the manifest of any walk, with the links in any order, passes the validator exactly when no source is called `redis_snapshot` and no recorded path has a backslash |

## Left out

- LoadRun.FullLoadInstant: "none had terminated" means that no client had left the active count; the reading "no latch was set" holds exactly under the condition of `LoadRun.FullServiceIff`.
- LoadRun.StoppedExactlyOnce: speaks of the stops of `try_stop`; the forced stop and its polling stop the loop as well and are not counted.
- Load-generator objects: the atomics are fields of a state value and the methods steps of a machine, because Dafny methods do not interleave; relaxed memory orders are not modelled.
- Timestamps of the measurement, connection and packet counters, histograms and the evidence's own cancellation counters.
- Rate limiter clock: the source reads the clock before it takes the mutex; runs are taken with a clock that is monotone in the order of the lock. The per-message-type window is not modelled.
- VaultRuns.Run: the prune is not part of the capacity runs, because the source takes no lock and makes no reservation for it; only its byte accounting is proved.
- Free space: only the vault itself consumes the disk it is on; other processes are not modelled.
- Prune.PruneRemote: the id lists of the evidence are sets, and the sorted order of their JSON form is not modelled.
- Retention of the anchor: the planner only requires it to be verified, so nothing is claimed about keeping it.
- Post-reservation checks: the verdicts of the peak and completion checks and of the second reading of the intent digest are assertions, since they are proved; reading the vault or the file for them can fail.
- The legacy store and attestation paths without a capacity bound, and receiving a receipt.
- File modes, ownership, links inside the vault, fsync and locks of the operating system; the lock is held for a whole operation.
- Schema checks of evidence, bundles and policies, and JSON type checks of manifests: they are abstract functions or types.
- ErrorDetail: it has a serializer but no deserializer.
- Compression, which passes bodies through unchanged, and the text form that the Python decoder adds to a packet.
- CPU lists in non-ASCII digits or spaces.
- File-descriptor and thread counts of processes, and deadlines of socket reads.
- Tar contents, encryption, SSH, the Docker images and the readiness polling of Redis.
- The gateway runtime, Raft, battle logic, operators, deployment and monitoring checks.
