/** The isolated restore drill: a transaction over containers and volumes in which every step, and
    every step of its cleanup, may fail, with or without having had its effect. */
module RestoreDrill {
  import opened Common

  datatype Mount = HostDirectory | VolumeMount(volume: string)

  /** What Docker holds: containers with what they mount, and volumes with the data in them. */
  datatype World = World(containers: map<string, Mount>, volumes: map<string, Option<string>>)

  /** How a command ends: it succeeds; it fails without effect; or it fails although it had its effect. */
  datatype Reply = Done | Refused | Lost

  datatype Event = Mounted(volume: string) | RemovedVolume(volume: string)

  class Docker {
    var containers: map<string, Mount>
    var volumes: map<string, Option<string>>
    /** Every volume ever mounted, and every removal of a volume ever asked for. */
    ghost var log: seq<Event>

    ghost function Now(): World
      reads this
    {
      World(containers, volumes)
    }

    /** `docker run -d`: a name that is taken is refused. */
    method Start(name: string, mount: Mount, reply: Reply) returns (ok: bool)
      modifies this`containers, this`log
      ensures ok <==> reply == Done && name !in old(containers)
      ensures containers ==
        if name in old(containers) || reply == Refused then old(containers) else old(containers)[name := mount]
      ensures log == old(log) + if mount.VolumeMount? then [Mounted(mount.volume)] else []
    {
      log := log + if mount.VolumeMount? then [Mounted(mount.volume)] else [];
      if name in containers || reply == Refused {
        return false;
      }
      containers := containers[name := mount];
      return reply == Done;
    }

    /** `docker rm -f`. */
    method RemoveContainer(name: string, reply: Reply) returns (ok: bool)
      modifies this`containers
      ensures ok <==> reply == Done
      ensures containers == if reply == Refused then old(containers) else old(containers) - {name}
    {
      if reply != Refused {
        containers := containers - {name};
      }
      return reply == Done;
    }

    /** `docker volume create`. */
    method CreateVolume(name: string, reply: Reply) returns (ok: bool)
      requires name !in volumes
      modifies this`volumes
      ensures ok <==> reply == Done
      ensures volumes == if reply == Refused then old(volumes) else old(volumes)[name := None]
    {
      if reply != Refused {
        volumes := volumes[name := None];
      }
      return reply == Done;
    }

    /** A throw-away container copies data into a volume. */
    method Seed(name: string, data: string, reply: Reply) returns (ok: bool)
      requires name in volumes
      modifies this`volumes, this`log
      ensures ok <==> reply == Done
      ensures volumes == if reply == Refused then old(volumes) else old(volumes)[name := Some(data)]
      ensures log == old(log) + [Mounted(name)]
    {
      log := log + [Mounted(name)];
      if reply != Refused {
        volumes := volumes[name := Some(data)];
      }
      return reply == Done;
    }

    /** `docker volume rm`. */
    method RemoveVolume(name: string, reply: Reply) returns (ok: bool)
      modifies this`volumes, this`log
      ensures ok <==> reply == Done
      ensures volumes == if reply == Refused then old(volumes) else old(volumes) - {name}
      ensures log == old(log) + [RemovedVolume(name)]
    {
      log := log + [RemovedVolume(name)];
      if reply != Refused {
        volumes := volumes - {name};
      }
      return reply == Done;
    }
  }

  datatype Names = Names(baseline: string, target: string, volume: string, active: string)

  /** The keyspace of a running server: digest, number of records and keys. */
  datatype Keyspace = Keyspace(digest: string, count: nat, keys: set<string>)

  datatype Inspection = Inspection(nameAndLabelsMatch: bool, identity: string)

  /** Everything the drill learns from its environment, in the order in which it asks. None and false
      stand for a failed command or check. */
  datatype Script = Script(
    locked: bool, bundle: Option<string>, staged: Option<string>, offlineCheck: bool, activeBefore: Option<string>,
    volumeNameValid: bool, volumesListed: bool, usersListed: bool,
    startBaseline: Reply, pingBaseline: bool, baselineKeys: Option<Keyspace>, removeBaseline: Reply,
    createVolume: Reply, inspection: Option<Inspection>, seed: Reply, seeded: string,
    startTarget: Reply, pingTarget: bool, targetKeys: Option<Keyspace>, removeTarget: Reply,
    activeAfter: Option<string>, inTime: bool, unlocked: bool,
    cleanBaseline: Reply, cleanTarget: Reply, cleanVolume: Reply)

  /** The drill's own record of where it stands. */
  datatype Progress = Progress(success: bool, baselineUp: bool, targetUp: bool, volumeCreated: bool)

  /** Everything that was there before is still there, unchanged. */
  ghost predicate Keeps(before: World, now: World) {
    && (forall c :: c in before.containers ==> c in now.containers && now.containers[c] == before.containers[c])
    && (forall v :: v in before.volumes ==> v in now.volumes && now.volumes[v] == before.volumes[v])
  }

  /** Nothing is new but what has one of the drill's own names. */
  ghost predicate OnlyOwn(n: Names, before: World, now: World) {
    && now.containers.Keys <= before.containers.Keys + {n.baseline, n.target}
    && now.volumes.Keys <= before.volumes.Keys + {n.volume}
  }

  /** New log entries: only the target volume is mounted, and only it is removed. */
  ghost predicate OnlyTarget(n: Names, past: seq<Event>, log: seq<Event>) {
    && past <= log
    && forall e :: e in log[|past|..] ==> e.volume == n.volume && n.volume != n.active
  }

  ghost predicate NeverRemoved(past: seq<Event>, log: seq<Event>) {
    past <= log && forall e :: e in log[|past|..] ==> e.Mounted?
  }

  lemma {:induction false} LogAppend(n: Names, past: seq<Event>, log: seq<Event>, e: Event)
    requires OnlyTarget(n, past, log) && e.volume == n.volume && n.volume != n.active
    ensures OnlyTarget(n, past, log + [e])
    ensures NeverRemoved(past, log) && e.Mounted? ==> NeverRemoved(past, log + [e])
  {
  }

  /** The flags say the truth: what is flagged was not there before; what is not flagged is not there,
      unless it was there before or its command failed after having had its effect. */
  ghost predicate Flagged(n: Names, s: Script, before: World, now: World, p: Progress) {
    && (p.baselineUp ==> n.baseline !in before.containers)
    && (p.targetUp ==> n.target !in before.containers)
    && (p.volumeCreated ==> n.volume !in before.volumes && n.volume != n.active)
    && (!p.baselineUp && n.baseline in now.containers ==> n.baseline in before.containers || s.startBaseline == Lost)
    && (!p.targetUp && n.target in now.containers ==> n.target in before.containers || s.startTarget == Lost)
    && (!p.volumeCreated && n.volume in now.volumes ==> n.volume in before.volumes || s.createVolume == Lost)
  }

  /** What the body of the drill has established when it succeeds. */
  ghost predicate Restored(n: Names, s: Script, now: World, required: set<string>) {
    && n.baseline !in now.containers && n.target !in now.containers
    && s.bundle.Some? && n.volume in now.volumes && now.volumes[n.volume] == s.bundle
    && s.baselineKeys.Some? && s.targetKeys == s.baselineKeys && required <= s.baselineKeys.value.keys
    && s.activeBefore.Some? && s.activeAfter == s.activeBefore && n.volume != n.active
  }

  /** The invariant of the body, given the world and the log before it. */
  ghost predicate Midway(d: Docker, n: Names, s: Script, before: World, past: seq<Event>, p: Progress)
    reads d
  {
    && Keeps(before, d.Now()) && OnlyOwn(n, before, d.Now()) && Flagged(n, s, before, d.Now(), p)
    && OnlyTarget(n, past, d.log) && NeverRemoved(past, d.log)
  }

  /** The checks before anything is started: a staged copy that equals the bundle, a healthy snapshot,
      a known active volume, and a target volume that is neither active nor in existence nor in use. */
  predicate Ready(n: Names, s: Script, world: World) {
    && s.bundle.Some? && s.staged == s.bundle && s.offlineCheck && s.activeBefore.Some?
    && n.volume != n.active && s.volumeNameValid
    && s.volumesListed && n.volume !in world.volumes
    && s.usersListed && forall c :: c in world.containers ==> world.containers[c] != VolumeMount(n.volume)
  }

  /** Start a server on the staged copy, take its keyspace as the baseline, and remove it. */
  method Baseline(d: Docker, n: Names, required: set<string>, s: Script, ghost past: seq<Event>)
    returns (done: bool, p: Progress)
    requires Ready(n, s, d.Now()) && past == d.log && n.baseline != n.target
    modifies d`containers, d`log
    ensures Midway(d, n, s, old(d.Now()), past, p) && !p.success && !p.targetUp && !p.volumeCreated
    ensures done <==> n.baseline !in old(d.containers) && s.startBaseline == Done && BaselineTaken(required, s)
    ensures p.baselineUp <==>
      n.baseline !in old(d.containers) && s.startBaseline == Done && !BaselineTaken(required, s)
    ensures done ==> n.baseline !in d.containers
    ensures n.target in d.containers <==> n.target in old(d.containers)
    ensures forall c :: c in d.containers ==> d.containers[c] != VolumeMount(n.volume)
  {
    done, p := false, Progress(false, false, false, false);
    var ok := d.Start(n.baseline, HostDirectory, s.startBaseline);
    if !ok {
      return;
    }
    p := p.(baselineUp := true);
    if !s.pingBaseline || s.baselineKeys.None? || !(required <= s.baselineKeys.value.keys) {
      return;
    }
    ok := d.RemoveContainer(n.baseline, s.removeBaseline);
    if ok {
      done, p := true, p.(baselineUp := false);
    }
  }

  predicate BaselineTaken(required: set<string>, s: Script) {
    && s.pingBaseline && s.baselineKeys.Some? && required <= s.baselineKeys.value.keys && s.removeBaseline == Done
  }

  /** Create the target volume and copy the snapshot into it. */
  method Fill(d: Docker, n: Names, s: Script, p: Progress, ghost before: World, ghost past: seq<Event>)
    returns (done: bool, q: Progress)
    requires Ready(n, s, before) && n.volume !in d.volumes && Midway(d, n, s, before, past, p)
    requires p == Progress(false, false, false, false)
    modifies d`volumes, d`log
    ensures Midway(d, n, s, before, past, q) && q == p.(volumeCreated := s.createVolume == Done)
    ensures done <==> s.createVolume == Done && VolumeAccepted(s)
    ensures done ==> n.volume in d.volumes && d.volumes[n.volume] == s.bundle
  {
    done, q := false, p;
    var ok := d.CreateVolume(n.volume, s.createVolume);
    if !ok {
      return;
    }
    q := q.(volumeCreated := true);
    if s.inspection.None? || !s.inspection.value.nameAndLabelsMatch
       || s.inspection.value.identity == s.activeBefore.value
    {
      return;
    }
    LogAppend(n, past, d.log, Mounted(n.volume));
    ok := d.Seed(n.volume, s.seeded, s.seed);
    if !ok || s.seeded != s.staged.value {
      return;
    }
    done := true;
  }

  predicate VolumeAccepted(s: Script) {
    && s.inspection.Some? && s.inspection.value.nameAndLabelsMatch
    && Some(s.inspection.value.identity) != s.activeBefore
    && s.seed == Done && Some(s.seeded) == s.staged
  }

  /** Start a server on the target volume, compare its keyspace with the baseline, and remove it. */
  method Compare(d: Docker, n: Names, s: Script, p: Progress, ghost before: World, ghost past: seq<Event>)
    returns (q: Progress)
    requires Midway(d, n, s, before, past, p) && p == Progress(false, false, false, true)
    requires s.baselineKeys.Some? && s.activeBefore.Some? && n.baseline != n.target
    modifies d`containers, d`log
    ensures Midway(d, n, s, before, past, q) && !q.baselineUp && q.volumeCreated
    ensures q.success ==> n.target !in d.containers
    ensures q.targetUp <==>
      && n.target !in old(d.containers) && s.startTarget == Done
      && !(s.pingTarget && s.targetKeys == s.baselineKeys && s.removeTarget == Done)
    ensures q.success <==> n.target !in old(d.containers) && s.startTarget == Done && TargetMatches(s)
    ensures n.baseline !in old(d.containers) ==> n.baseline !in d.containers
  {
    q := p;
    LogAppend(n, past, d.log, Mounted(n.volume));
    var ok := d.Start(n.target, VolumeMount(n.volume), s.startTarget);
    if !ok {
      return;
    }
    q := q.(targetUp := true);
    if !s.pingTarget || s.targetKeys != s.baselineKeys {
      return;
    }
    ok := d.RemoveContainer(n.target, s.removeTarget);
    if !ok {
      return;
    }
    q := q.(targetUp := false);
    if s.activeAfter != s.activeBefore || !s.inTime {
      return;
    }
    q := q.(success := true);
  }

  predicate TargetMatches(s: Script) {
    && s.pingTarget && s.targetKeys == s.baselineKeys && s.removeTarget == Done
    && s.activeAfter == s.activeBefore && s.inTime
  }

  /** The body of the transaction, up to the release of the lock. */
  method Body(d: Docker, n: Names, required: set<string>, s: Script) returns (p: Progress)
    requires n.baseline != n.target
    modifies d
    ensures Midway(d, n, s, old(d.Now()), old(d.log), p)
    ensures p.success ==> Restored(n, s, d.Now(), required) && p == Progress(true, false, false, true)
    ensures p.success <==> Ready(n, s, old(d.Now())) && Faultless(n, required, s, old(d.Now()))
    ensures p.baselineUp <==> LeavesBaseline(n, required, s, old(d.Now()))
    ensures p.volumeCreated <==> MakesVolume(n, required, s, old(d.Now()))
    ensures p.targetUp <==> LeavesTarget(n, required, s, old(d.Now()))
  {
    p := Progress(false, false, false, false);
    if !Ready(n, s, World(d.containers, d.volumes)) {
      return;
    }
    ghost var before, past := d.Now(), d.log;
    var done;
    done, p := Baseline(d, n, required, s, past);
    if !done {
      return;
    }
    done, p := Fill(d, n, s, p, before, past);
    if !done {
      return;
    }
    p := Compare(d, n, s, p, before, past);
  }

  predicate Faultless(n: Names, required: set<string>, s: Script, world: World) {
    && n.baseline !in world.containers && s.startBaseline == Done && BaselineTaken(required, s)
    && s.createVolume == Done && VolumeAccepted(s)
    && n.target !in world.containers && s.startTarget == Done && TargetMatches(s)
  }

  /** The baseline container starts, and something fails before it is known to be removed. */
  predicate LeavesBaseline(n: Names, required: set<string>, s: Script, world: World) {
    && Ready(n, s, world) && n.baseline !in world.containers && s.startBaseline == Done
    && !(s.pingBaseline && s.baselineKeys.Some? && required <= s.baselineKeys.value.keys && s.removeBaseline == Done)
  }

  /** The baseline is taken and removed, and the target volume is created. */
  predicate MakesVolume(n: Names, required: set<string>, s: Script, world: World) {
    && Ready(n, s, world) && n.baseline !in world.containers && s.startBaseline == Done
    && s.pingBaseline && s.baselineKeys.Some? && required <= s.baselineKeys.value.keys && s.removeBaseline == Done
    && s.createVolume == Done
  }

  /** The target container starts on the volume, and something fails before it is known to be removed. */
  predicate LeavesTarget(n: Names, required: set<string>, s: Script, world: World) {
    && MakesVolume(n, required, s, world) && VolumeAccepted(s)
    && n.target !in world.containers && s.startTarget == Done
    && !(s.pingTarget && s.targetKeys == s.baselineKeys && s.removeTarget == Done)
  }

  datatype Resource = BaselineContainer | TargetContainer | TargetVolume

  datatype Summary = Summary(overallPass: bool, cleanupFailures: seq<Resource>, volumeCreated: bool) {
    predicate TargetRetained() { overallPass }
    predicate TargetRemovedOnFailure() { !overallPass && volumeCreated && cleanupFailures == [] }
  }

  /** The exception handler: containers first, and the volume only when no container is left. */
  method CleanUp(d: Docker, n: Names, s: Script, p: Progress, ghost before: World, ghost past: seq<Event>)
    returns (failures: seq<Resource>)
    requires Midway(d, n, s, before, past, p) && n.baseline != n.target
    modifies d
    ensures Keeps(before, d.Now()) && OnlyTarget(n, past, d.log)
    // what is reported
    ensures BaselineContainer in failures <==> p.baselineUp && s.cleanBaseline != Done
    ensures TargetContainer in failures <==> p.targetUp && s.cleanTarget != Done
    ensures TargetVolume in failures <==>
      && p.volumeCreated && s.cleanVolume != Done
      && BaselineContainer !in failures && TargetContainer !in failures
    // what is removed
    ensures forall c :: c in d.containers <==>
      && c in old(d.containers)
      && !(c == n.baseline && p.baselineUp && s.cleanBaseline != Refused)
      && !(c == n.target && p.targetUp && s.cleanTarget != Refused)
    ensures forall v :: v in d.volumes <==>
      && v in old(d.volumes)
      && !(v == n.volume && p.volumeCreated && s.cleanVolume != Refused &&
           BaselineContainer !in failures && TargetContainer !in failures)
    ensures BaselineContainer in failures || TargetContainer in failures ==> NeverRemoved(past, d.log)
    ensures OnlyOwn(n, before, d.Now())
  {
    failures := [];
    if p.baselineUp {
      var ok := d.RemoveContainer(n.baseline, s.cleanBaseline);
      if !ok {
        failures := failures + [BaselineContainer];
      }
    }
    if p.targetUp {
      var ok := d.RemoveContainer(n.target, s.cleanTarget);
      if !ok {
        failures := failures + [TargetContainer];
      }
    }
    if p.volumeCreated && failures == [] {
      LogAppend(n, past, d.log, RemovedVolume(n.volume));
      var ok := d.RemoveVolume(n.volume, s.cleanVolume);
      if !ok {
        failures := failures + [TargetVolume];
      }
    }
  }

  lemma {:induction false} AnyFailure(failures: seq<Resource>)
    ensures failures == [] || BaselineContainer in failures || TargetContainer in failures || TargetVolume in failures
  {
    if failures != [] {
      var first := failures[0];
      assert first in failures && (first.BaselineContainer? || first.TargetContainer? || first.TargetVolume?);
    }
  }

  /** The whole drill. None stands for arguments that are rejected before anything is done. */
  method RunIsolatedRestore(d: Docker, n: Names, required: set<string>, argumentsValid: bool, s: Script)
    returns (r: Option<Summary>)
    modifies d
    ensures r.None? <==> !argumentsValid || n.baseline == n.target
    ensures r.None? ==> d.Now() == old(d.Now()) && d.log == old(d.log)
    // nothing that was there before is touched, and the active volume is never mounted or removed
    ensures Keeps(old(d.Now()), d.Now()) && OnlyTarget(n, old(d.log), d.log)
    // a container of the drill that is still there was reported, or its start was reported as failed
    ensures r.Some? && n.baseline in d.containers && n.baseline !in old(d.containers) ==>
              BaselineContainer in r.value.cleanupFailures || s.startBaseline == Lost
    ensures r.Some? && n.target in d.containers && n.target !in old(d.containers) ==>
              TargetContainer in r.value.cleanupFailures || s.startTarget == Lost
    // the volume is not removed while a container could not be removed
    ensures r.Some? && (BaselineContainer in r.value.cleanupFailures || TargetContainer in r.value.cleanupFailures) ==>
              NeverRemoved(old(d.log), d.log)
    ensures r.Some? && r.value.TargetRemovedOnFailure() ==> n.volume !in d.volumes
    // what is reported: the cleanup runs after a failure, and after a success whose lock is not released
    ensures r.Some? ==>
      var failures, world := r.value.cleanupFailures, old(d.Now());
      && (r.value.volumeCreated <==> s.locked && MakesVolume(n, required, s, world))
      && (BaselineContainer in failures <==>
          s.locked && LeavesBaseline(n, required, s, world) && s.cleanBaseline != Done)
      && (TargetContainer in failures <==> s.locked && LeavesTarget(n, required, s, world) && s.cleanTarget != Done)
      && (TargetVolume in failures <==>
          && s.locked && MakesVolume(n, required, s, world) && s.cleanVolume != Done
          && !(r.value.overallPass && s.unlocked)
          && BaselineContainer !in failures && TargetContainer !in failures)
    // a failed drill whose cleanup works reports nothing, and leaves only what was lost track of
    ensures r.Some? && !r.value.overallPass && s.cleanBaseline == s.cleanTarget == s.cleanVolume == Done ==>
      && r.value.cleanupFailures == []
      && (forall c :: c in d.containers ==>
            || c in old(d.containers) || (c == n.baseline && s.startBaseline == Lost)
            || (c == n.target && s.startTarget == Lost))
      && (forall v :: v in d.volumes ==> v in old(d.volumes) || (v == n.volume && s.createVolume == Lost))
    // a failed drill leaves no volume behind unless it says so, or the creation was reported as failed
    ensures r.Some? && !r.value.overallPass && n.volume in d.volumes && n.volume !in old(d.volumes) ==>
              r.value.cleanupFailures != [] || s.createVolume == Lost
    // the drill passes exactly when every step of its body went well
    ensures r.Some? ==>
      (r.value.overallPass <==> s.locked && Ready(n, s, old(d.Now())) && Faultless(n, required, s, old(d.Now())))
    ensures r.Some? && r.value.overallPass ==>
      && s.locked && s.bundle.Some? && s.staged == s.bundle && s.offlineCheck && s.pingBaseline && s.pingTarget
      && s.inspection.Some? && s.inspection.value.nameAndLabelsMatch
      && Some(s.inspection.value.identity) != s.activeBefore && Some(s.seeded) == s.bundle && s.inTime
    ensures r.Some? && r.value.overallPass ==> n.baseline !in d.containers && n.target !in d.containers
    ensures r.Some? && r.value.overallPass && s.unlocked ==> Restored(n, s, d.Now(), required)
    // "retained" is true exactly when the lock was released or the handler's removal had no effect
    ensures r.Some? && r.value.TargetRetained() ==> (n.volume in d.volumes <==> s.unlocked || s.cleanVolume == Refused)
  {
    if !argumentsValid || n.baseline == n.target {
      return None;
    }
    ghost var before, past := d.Now(), d.log;
    var p := Progress(false, false, false, false);
    if s.locked {
      p := Body(d, n, required, s);
    }
    var failures := [];
    if !p.success || !s.unlocked {
      failures := CleanUp(d, n, s, p, before, past);
    }
    AnyFailure(failures);
    return Some(Summary(p.success, failures, p.volumeCreated));
  }
}
