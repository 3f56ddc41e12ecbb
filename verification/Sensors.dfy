/** internal/controller/sovereignsensor_controller.go as a step machine for one sensor name: the finalizer
    protocol that ties cluster-scoped RBAC objects to a sensor. */
module Sensors {
  import opened Policies

  /** The objects the reconciler deploys for a sensor. */
  datatype Resource = Account | DaemonSet | Role | Binding

  function ResourceName(sensor: string, r: Resource): string {
    sensor + match r
             case Account => "-agent-sa"
             case DaemonSet => "-agent"
             case Role => "-agent-role"
             case Binding => "-agent-binding"
  }

  /** Two sensors never share an object of the same kind, so the objects may be kept beside their sensor. */
  lemma ResourceNameInjective(a: string, b: string, r: Resource)
    ensures ResourceName(a, r) == ResourceName(b, r) <==> a == b
    ensures a <= ResourceName(a, r)
    ensures r == Account ==> ResourceName(a, r)[|a|..] == "-agent-sa"
    ensures r == DaemonSet ==> ResourceName(a, r)[|a|..] == "-agent"
    ensures r == Role ==> ResourceName(a, r)[|a|..] == "-agent-role"
    ensures r == Binding ==> ResourceName(a, r)[|a|..] == "-agent-binding"
  {
    if ResourceName(a, r) == ResourceName(b, r) {
      assert |a| == |b|;
      assert a == ResourceName(a, r)[..|a|] && b == ResourceName(b, r)[..|b|];
    }
  }

  /** One stored version of a sensor. */
  datatype Sensor = Sensor(uid: nat, rv: nat, finalizer: bool, deleting: bool, running: bool)

  datatype Work =
    | Idle
    | Cleaning(copy: Sensor, rest: seq<Resource>)
    | Releasing(copy: Sensor)
    | Guarding(copy: Sensor)
    | Patching(copy: Sensor)
    | Deploying(copy: Sensor, rest: seq<Resource>)
    | Creating(copy: Sensor, rest: seq<Resource>)
    | Finishing(copy: Sensor)

  datatype Site = Site(
    rev: nat,
    log: seq<Option<Sensor>>,    // every state the name has had
    cursor: nat,                 // where the cache of the reconciler stands
    work: Work,
    objects: set<Resource>,
    baseline: bool,
    at: nat)                     // history: log index of the copy in hand

  /** What a read of a deployed object answers; it may come from a stale cache. */
  datatype Answer = Found | Missing | Unanswered

  datatype Step =
    | UserCreate
    | UserDelete
    | UserUpdate
    | Fetch(version: nat)
    | Delete(reply: Reply)
    | Release(reply: Reply)
    | Guard(reply: Reply)
    | Patch(reply: Reply)
    | Get(answer: Answer)
    | Create(reply: Reply)
    | WriteStatus(reply: Reply)
    | Abort
    | CollectGarbage

  function Init(rev: nat): Site {
    Site(rev, [None], 0, Idle, {}, false, 0)
  }

  function Now(k: Site): Option<Sensor> {
    if k.log == [] then None else k.log[|k.log| - 1]
  }

  function Publish(k: Site, v: Option<Sensor>): Site {
    k.(rev := k.rev + 1, log := k.log + [v])
  }

  /** The server accepts an update made from the current version. */
  predicate Accepts(k: Site, copy: Sensor) {
    Now(k).Some? && Now(k).value.rv == copy.rv
  }

  // ---------------------------------------------------------------- users

  function NextUserCreate(k: Site): Site {
    if Now(k).Some? then k else Publish(k, Some(Sensor(k.rev + 1, k.rev + 1, false, false, false)))
  }

  /** A sensor with a finalizer is only marked; without one it is gone. */
  function NextUserDelete(k: Site): Site {
    if Now(k).None? || Now(k).value.deleting then k
    else if Now(k).value.finalizer then Publish(k, Some(Now(k).value.(deleting := true, rv := k.rev + 1)))
    else Publish(k, None)
  }

  function NextUserUpdate(k: Site): Site {
    if Now(k).None? then k else Publish(k, Some(Now(k).value.(rv := k.rev + 1)))
  }

  // ---------------------------------------------------------------- the reconciler

  function NextFetch(k: Site, version: nat): Site {
    if !k.work.Idle? || version < k.cursor || |k.log| <= version then k
    else
      var n := k.(cursor := version, at := version);
      if k.log[version].None? then n
      else
        var copy := k.log[version].value;
        if copy.deleting then if copy.finalizer then n.(work := Cleaning(copy, [Binding, Role])) else n
        else if copy.finalizer then n.(work := Patching(copy))
        else n.(work := Guarding(copy))
  }

  function NextDelete(k: Site, reply: Reply): Site {
    if !k.work.Cleaning? || k.work.rest == [] then k
    else if reply.Failed? then k.(work := Idle)
    else
      var n := k.(objects := k.objects - {k.work.rest[0]});
      if reply.Lost? then n.(work := Idle)
      else if |k.work.rest| == 1 then n.(work := Releasing(k.work.copy))
      else n.(work := Cleaning(k.work.copy, k.work.rest[1..]))
  }

  /** The finalizer is taken away; a sensor marked for deletion is then gone. */
  function NextRelease(k: Site, reply: Reply): Site {
    if !k.work.Releasing? then k
    else
      var n := k.(work := Idle);
      if reply.Failed? || !Accepts(k, k.work.copy) then n
      else if Now(k).value.deleting then Publish(n, None)
      else Publish(n, Some(Now(k).value.(finalizer := false, rv := k.rev + 1)))
  }

  function NextGuard(k: Site, reply: Reply): Site {
    if !k.work.Guarding? then k
    else if reply.Failed? || !Accepts(k, k.work.copy) then k.(work := Idle)
    else
      var stored := Now(k).value.(finalizer := true, rv := k.rev + 1);
      Publish(k, Some(stored)).(work := if reply.Answered? then Patching(stored) else Idle, at := |k.log|)
  }

  function NextPatch(k: Site, reply: Reply): Site {
    if !k.work.Patching? then k
    else
      k.(baseline := k.baseline || !reply.Failed?,
         work := if reply.Answered? then Deploying(k.work.copy, [Account, DaemonSet, Role, Binding]) else Idle)
  }

  function Onward(copy: Sensor, rest: seq<Resource>): Work
    requires rest != []
  {
    if |rest| == 1 then Finishing(copy) else Deploying(copy, rest[1..])
  }

  function NextGet(k: Site, answer: Answer): Site {
    if !k.work.Deploying? || k.work.rest == [] then k
    else
      match answer
      case Found => k.(work := Onward(k.work.copy, k.work.rest))
      case Missing => k.(work := Creating(k.work.copy, k.work.rest))
      case Unanswered => k.(work := Idle)
  }

  function NextCreate(k: Site, reply: Reply): Site {
    if !k.work.Creating? || k.work.rest == [] then k
    else if reply.Failed? || k.work.rest[0] in k.objects then k.(work := Idle)
    else
      k.(objects := k.objects + {k.work.rest[0]},
         work := if reply.Answered? then Onward(k.work.copy, k.work.rest) else Idle)
  }

  function NextWriteStatus(k: Site, reply: Reply): Site {
    if !k.work.Finishing? then k
    else
      var n := k.(work := Idle);
      if reply.Failed? || !Accepts(k, k.work.copy) || Now(k).value.running then n
      else Publish(n, Some(Now(k).value.(running := true, rv := k.rev + 1)))
  }

  /** The namespaced objects have an owner reference; they may go at any time. */
  function NextCollectGarbage(k: Site): Site {
    k.(objects := k.objects - {Account, DaemonSet})
  }

  function Next(k: Site, s: Step): Site {
    match s
    case UserCreate => NextUserCreate(k)
    case UserDelete => NextUserDelete(k)
    case UserUpdate => NextUserUpdate(k)
    case Fetch(version) => NextFetch(k, version)
    case Delete(reply) => NextDelete(k, reply)
    case Release(reply) => NextRelease(k, reply)
    case Guard(reply) => NextGuard(k, reply)
    case Patch(reply) => NextPatch(k, reply)
    case Get(answer) => NextGet(k, answer)
    case Create(reply) => NextCreate(k, reply)
    case WriteStatus(reply) => NextWriteStatus(k, reply)
    case Abort => k.(work := Idle)
    case CollectGarbage => NextCollectGarbage(k)
  }

  function Run(k: Site, steps: seq<Step>): Site
    decreases |steps|
  {
    if steps == [] then k else Next(Run(k, steps[..|steps| - 1]), steps[|steps| - 1])
  }

  // ---------------------------------------------------------------- the invariant

  ghost predicate VersionOk(s: Sensor, rev: nat) {
    s.uid <= s.rv <= rev && (s.deleting ==> s.finalizer)
  }

  ghost predicate LogOk(k: Site) {
    && k.cursor <= k.at < |k.log|
    && (forall i :: 0 <= i < |k.log| && k.log[i].Some? ==> VersionOk(k.log[i].value, k.rev))
    && (forall i, j :: 0 <= i < j < |k.log| && k.log[i].Some? && k.log[j].Some? ==>
          k.log[i].value.rv < k.log[j].value.rv)
  }

  ghost predicate Deployable(v: Option<Sensor>) {
    v.Some? && v.value.finalizer && !v.value.deleting
  }

  /** A version the reconciler may still read, or holds, as deployable: its sensor lives and carries the finalizer. */
  ghost predicate FinalizerHolds(k: Site) {
    forall i :: k.cursor <= i < |k.log| && Deployable(k.log[i]) ==>
      Now(k).Some? && Now(k).value.finalizer && Now(k).value.uid == k.log[i].value.uid
  }

  ghost predicate WorkOk(k: Site) {
    && (!k.work.Idle? ==> k.at < |k.log| && k.log[k.at] == Some(k.work.copy))
    && match k.work
       case Idle => true
       case Cleaning(copy, rest) =>
         && copy.deleting && copy.finalizer && k.at == k.cursor
         && (rest == [Binding, Role] || (rest == [Role] && Binding !in k.objects))
       case Releasing(copy) => copy.deleting && k.at == k.cursor && Role !in k.objects && Binding !in k.objects
       case Guarding(copy) => !copy.deleting && !copy.finalizer
       case _ => k.work.copy.finalizer && !k.work.copy.deleting
  }

  /** No orphan: RBAC objects exist only while the sensor exists and carries the finalizer. */
  ghost predicate NoOrphan(k: Site) {
    Role in k.objects || Binding in k.objects ==> Now(k).Some? && Now(k).value.finalizer
  }

  ghost predicate Inv(k: Site) {
    LogOk(k) && WorkOk(k) && FinalizerHolds(k) && NoOrphan(k)
  }
}
