/** What the finalizer protocol guarantees in every run. */
module SensorTheorems {
  import opened Policies
  import opened Sensors

  lemma AcceptedIsCurrent(k: Site)
    requires LogOk(k) && WorkOk(k) && !k.work.Idle? && Accepts(k, k.work.copy)
    ensures k.at == |k.log| - 1 && Now(k) == Some(k.work.copy)
  {
  }

  lemma UserCreateKeeps(k: Site)
    requires Inv(k)
    ensures Inv(NextUserCreate(k))
  {
  }

  lemma UserDeleteKeeps(k: Site)
    requires Inv(k)
    ensures Inv(NextUserDelete(k))
  {
  }

  lemma UserUpdateKeeps(k: Site)
    requires Inv(k)
    ensures Inv(NextUserUpdate(k))
  {
  }

  lemma FetchKeeps(k: Site, version: nat)
    requires Inv(k)
    ensures Inv(NextFetch(k, version))
  {
    hide VersionOk;
  }

  lemma DeleteKeeps(k: Site, reply: Reply)
    requires Inv(k)
    ensures Inv(NextDelete(k, reply))
  {
  }

  lemma ReleaseKeeps(k: Site, reply: Reply)
    requires Inv(k)
    ensures Inv(NextRelease(k, reply))
  {
  }

  lemma GuardKeeps(k: Site, reply: Reply)
    requires Inv(k)
    ensures Inv(NextGuard(k, reply))
  {
    if k.work.Guarding? && Accepts(k, k.work.copy) {
      AcceptedIsCurrent(k);
    }
  }

  lemma PatchKeeps(k: Site, reply: Reply)
    requires Inv(k)
    ensures Inv(NextPatch(k, reply))
  {
  }

  lemma GetKeeps(k: Site, answer: Answer)
    requires Inv(k)
    ensures Inv(NextGet(k, answer))
  {
  }

  lemma CreateKeeps(k: Site, reply: Reply)
    requires Inv(k)
    ensures Inv(NextCreate(k, reply))
  {
    assert k.work.Creating? ==> Deployable(k.log[k.at]);
  }

  lemma WriteStatusKeeps(k: Site, reply: Reply)
    requires Inv(k)
    ensures Inv(NextWriteStatus(k, reply))
  {
  }

  lemma NextKeeps(k: Site, s: Step)
    requires Inv(k)
    ensures Inv(Next(k, s))
  {
    match s
    case Fetch(version) => FetchKeeps(k, version);
    case Delete(reply) => DeleteKeeps(k, reply);
    case Release(reply) => ReleaseKeeps(k, reply);
    case Guard(reply) => GuardKeeps(k, reply);
    case Patch(reply) => PatchKeeps(k, reply);
    case Get(answer) => GetKeeps(k, answer);
    case Create(reply) => CreateKeeps(k, reply);
    case WriteStatus(reply) => WriteStatusKeeps(k, reply);
    case UserCreate => UserCreateKeeps(k);
    case UserDelete => UserDeleteKeeps(k);
    case UserUpdate => UserUpdateKeeps(k);
    case Abort =>
    case CollectGarbage =>
  }

  lemma {:induction false} RunKeeps(k: Site, steps: seq<Step>)
    requires Inv(k)
    ensures Inv(Run(k, steps))
    decreases |steps|
  {
    if steps != [] {
      RunKeeps(k, steps[..|steps| - 1]);
      NextKeeps(Run(k, steps[..|steps| - 1]), steps[|steps| - 1]);
    }
  }

  lemma SiteReachable(k: Site, rev: nat, steps: seq<Step>)
    requires k == Run(Init(rev), steps)
    ensures Inv(k)
  {
    RunKeeps(Init(rev), steps);
  }

  /** The sensor exists and carries the finalizer. */
  predicate Guarded(k: Site) {
    Now(k).Some? && Now(k).value.finalizer
  }

  /** No orphaned RBAC: after any run, with a failure, a lost answer or a crash after any request, and with reads as
      stale as a cache allows, the cluster role or its binding exists only if the sensor exists and carries the
      finalizer, and a sensor on its way out loses its finalizer only when both are gone. */
  lemma NoOrphanedRbac(k: Site, rev: nat, steps: seq<Step>)
    requires k == Run(Init(rev), steps)
    ensures Role in k.objects || Binding in k.objects ==> Guarded(k)
    ensures forall s :: Guarded(k) && !Guarded(Next(k, s)) ==>
              s.Release? && Role !in k.objects && Binding !in k.objects
  {
    SiteReachable(k, rev, steps);
    forall s | Guarded(k) && !Guarded(Next(k, s))
      ensures s.Release? && Role !in k.objects && Binding !in k.objects
    {
      OnlyReleaseRemovesFinalizer(k, s);
    }
  }

  lemma OnlyReleaseRemovesFinalizer(k: Site, s: Step)
    requires Inv(k) && Guarded(k) && !Guarded(Next(k, s))
    ensures s.Release? && k.work.Releasing?
  {
  }

  // ---------------------------------------------------------------- reconciling in peace

  function Latest(k: Site): nat {
    if k.log == [] then 0 else |k.log| - 1
  }

  /** createIfNotExists for the next object, with a truthful read. */
  function Ensured(k: Site): Site {
    NextCreate(NextGet(k, TrueAnswer(k)), Answered)
  }

  function TrueAnswer(k: Site): Answer {
    if k.work.Deploying? && k.work.rest != [] && k.work.rest[0] in k.objects then Found else Missing
  }

  function Cleaned(k: Site): Site {
    NextRelease(NextDelete(NextDelete(k, Answered), Answered), Answered)
  }

  /** createIfNotExists for the next n objects. */
  function EnsuredMany(k: Site, n: nat): Site {
    if n == 0 then k else Ensured(EnsuredMany(k, n - 1))
  }

  function Deployed(k: Site): Site {
    NextWriteStatus(EnsuredMany(NextPatch(NextGuard(k, Answered), Answered), 4), Answered)
  }

  /** One Reconcile on a fresh read, with truthful reads and every request answered.
      A request the state does not call for does nothing. */
  function Reconciled(k: Site): Site {
    Deployed(Cleaned(NextFetch(k, Latest(k))))
  }

  lemma EnsuredMeans(k: Site)
    requires k.work.Deploying? && k.work.rest != []
    ensures Ensured(k) == k.(objects := k.objects + {k.work.rest[0]}, work := Onward(k.work.copy, k.work.rest))
  {
  }

  lemma DeployedMeans(k: Site, copy: Sensor)
    requires k.work == Patching(copy) && Accepts(k, copy)
    ensures var n := Deployed(k);
            && n.work.Idle? && n.baseline && n.objects == k.objects + {Account, DaemonSet, Role, Binding}
            && n.log == (if Now(k).value.running then k.log
                         else k.log + [Some(Now(k).value.(running := true, rv := k.rev + 1))])
            && n.rev == (if Now(k).value.running then k.rev else k.rev + 1)
  {
    var k1 := NextPatch(k, Answered);
    EnsuredFour(k1, copy);
    assert NextGuard(k, Answered) == k;
  }

  lemma EnsuredFour(k: Site, copy: Sensor)
    requires k.work == Deploying(copy, [Account, DaemonSet, Role, Binding])
    ensures EnsuredMany(k, 4) == k.(objects := k.objects + {Account, DaemonSet, Role, Binding}, work := Finishing(copy))
  {
    EnsuredSome(k, copy, [Account, DaemonSet, Role, Binding], 4);
    assert Members([Account, DaemonSet, Role, Binding]) == {Account, DaemonSet, Role, Binding};
  }

  function Members(s: seq<Resource>): set<Resource> {
    set r | r in s
  }

  lemma {:induction false} EnsuredSome(k: Site, copy: Sensor, all: seq<Resource>, n: nat)
    requires k.work == Deploying(copy, all) && n <= |all| && all != []
    ensures EnsuredMany(k, n) == k.(objects := k.objects + Members(all[..n]),
                                    work := if n == |all| then Finishing(copy) else Deploying(copy, all[n..]))
  {
    if n == 0 {
      assert k.objects + Members(all[..0]) == k.objects;
    } else {
      EnsuredSome(k, copy, all, n - 1);
      var before := EnsuredMany(k, n - 1);
      EnsuredMeans(before);
      assert before.work.rest[0] == all[n - 1] && before.work.rest[1..] == all[n..];
      assert all[..n] == all[..n - 1] + [all[n - 1]];
      assert k.objects + Members(all[..n]) == k.objects + Members(all[..n - 1]) + {all[n - 1]};
    }
  }

  /** What a Reconcile in peace leaves behind: nothing of a sensor that is being deleted, everything of one that
      is not. */
  ghost predicate Complete(k: Site) {
    Now(k).Some? ==> && Now(k).value.finalizer && !Now(k).value.deleting && Now(k).value.running
                     && {Account, DaemonSet, Role, Binding} <= k.objects && k.baseline
  }

  lemma CleanedMeans(k: Site, copy: Sensor)
    requires k.work == Cleaning(copy, [Binding, Role]) && Accepts(k, copy) && Now(k).value.deleting
    ensures var n := Cleaned(k);
            n.work.Idle? && n.log == k.log + [None] && n.objects == k.objects - {Role, Binding}
  {
  }

  lemma NothingToClean(k: Site)
    requires !k.work.Cleaning? && !k.work.Releasing?
    ensures Cleaned(k) == k
  {
  }

  lemma NothingToDeploy(k: Site)
    requires k.work.Idle?
    ensures Deployed(k) == k
  {
    NothingToEnsure(k, 4);
  }

  lemma {:induction false} NothingToEnsure(k: Site, n: nat)
    requires k.work.Idle?
    ensures EnsuredMany(k, n) == k
  {
    if n > 0 {
      NothingToEnsure(k, n - 1);
    }
  }

  lemma GuardedDeploys(k: Site, copy: Sensor)
    requires k.work == Guarding(copy) && Accepts(k, copy)
    ensures Deployed(k) == Deployed(NextGuard(k, Answered))
    ensures var g := NextGuard(k, Answered);
            && g.work.Patching? && Accepts(g, g.work.copy) && g.objects == k.objects
            && g.log == k.log + [Some(Now(k).value.(finalizer := true, rv := k.rev + 1))]
  {
  }

  /** A Reconcile in peace of a sensor that is being deleted removes its RBAC and lets it go. */
  lemma DeletionCompletes(k: Site)
    requires Inv(k) && k.work.Idle? && Now(k).Some? && Now(k).value.deleting
    ensures var n := Reconciled(k);
            n.work.Idle? && n.log == k.log + [None] && n.objects == k.objects - {Role, Binding}
  {
    var f := NextFetch(k, Latest(k));
    CleanedMeans(f, Now(k).value);
    NothingToDeploy(Cleaned(f));
  }

  lemma GuardedDeploymentCompletes(k: Site)
    requires Inv(k) && k.work.Idle? && Deployable(Now(k))
    ensures DeploymentOk(k, Reconciled(k))
  {
    var f := NextFetch(k, Latest(k));
    NothingToClean(f);
    DeployedMeans(f, Now(k).value);
    assert Complete(k) ==> k.objects + {Account, DaemonSet, Role, Binding} == k.objects;
  }

  lemma FirstDeploymentCompletes(k: Site)
    requires Inv(k) && k.work.Idle? && Now(k).Some? && !Now(k).value.deleting && !Now(k).value.finalizer
    ensures DeploymentOk(k, Reconciled(k))
  {
    var f := NextFetch(k, Latest(k));
    NothingToClean(f);
    GuardedDeploys(f, Now(k).value);
    DeployedMeans(NextGuard(f, Answered), NextGuard(f, Answered).work.copy);
  }

  ghost predicate DeploymentOk(k: Site, n: Site)
    requires Now(k).Some?
  {
    && n.work.Idle? && Complete(n) && Now(n).Some? && Now(n).value.uid == Now(k).value.uid
    && k.log <= n.log && |n.log| <= |k.log| + 2
    && (Complete(k) ==> n.log == k.log && n.objects == k.objects)
  }

  /** A Reconcile in peace of a living sensor leaves it guarded, running and with all its objects; of one that is
      complete already it changes nothing. */
  lemma DeploymentCompletes(k: Site)
    requires Inv(k) && k.work.Idle? && Now(k).Some? && !Now(k).value.deleting
    ensures DeploymentOk(k, Reconciled(k))
  {
    if Now(k).value.finalizer {
      GuardedDeploymentCompletes(k);
    } else {
      FirstDeploymentCompletes(k);
    }
  }
}
