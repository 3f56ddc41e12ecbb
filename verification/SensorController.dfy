/** The Reconcile method for sensors: its requests, one after the other, against an API server on which users,
    the garbage collector and failures interleave. */
module SensorController {
  import opened Policies
  import opened Sensors
  import opened SensorTheorems

  predicate OwnStep(s: Step) {
    !(s.UserCreate? || s.UserDelete? || s.UserUpdate? || s.CollectGarbage?)
  }

  /** The requests that the reconciler has made in a run, in order. */
  function OwnRequests(steps: seq<Step>): seq<Step> {
    if steps == [] then []
    else
      var s := steps[|steps| - 1];
      OwnRequests(steps[..|steps| - 1]) + if OwnStep(s) then [s] else []
  }

  /** createIfNotExists without an error: the object was found, or it was missing and has been created. */
  function EnsuringOne(found: bool): seq<Step> {
    if found then [Get(Found)] else [Get(Missing), Create(Answered)]
  }

  function Ensuring(found: seq<bool>): seq<Step> {
    if found == [] then [] else EnsuringOne(found[0]) + Ensuring(found[1..])
  }

  lemma Associative(x: seq<Step>, y: seq<Step>, z: seq<Step>)
    ensures x + (y + z) == x + y + z
  {
  }

  lemma {:induction false} EnsuringMore(a: seq<bool>, b: seq<bool>)
    ensures Ensuring(a + b) == Ensuring(a) + Ensuring(b)
  {
    if a == [] {
      assert a + b == b;
    } else {
      var first, rest := EnsuringOne(a[0]), Ensuring(a[1..]);
      assert Ensuring(a + b) == first + Ensuring(a[1..] + b) by { assert (a + b)[1..] == a[1..] + b; }
      assert Ensuring(a) == first + rest;
      hide Ensuring, EnsuringOne;
      EnsuringMore(a[1..], b);
      Associative(first, rest, Ensuring(b));
    }
  }

  /** The same request, however it was answered. */
  predicate SameRequest(s: Step, t: Step) {
    match s
    case Delete(_) => t.Delete?
    case Release(_) => t.Release?
    case Guard(_) => t.Guard?
    case Patch(_) => t.Patch?
    case Get(_) => t.Get?
    case Create(_) => t.Create?
    case WriteStatus(_) => t.WriteStatus?
    case _ => s == t
  }

  /** All the requests of a Reconcile that has read this version of the sensor, every one answered: the RBAC objects
      go before the finalizer, and the finalizer is stored before anything is created. */
  function Requests(version: Option<Sensor>, found: seq<bool>): seq<Step> {
    if version.None? then []
    else if version.value.deleting then
      if version.value.finalizer then [Delete(Answered), Delete(Answered), Release(Answered)] else []
    else (if version.value.finalizer then [] else [Guard(Answered)]) + Deployment(found)
  }

  function Deployment(found: seq<bool>): seq<Step> {
    [Patch(Answered)] + Ensuring(found) + [WriteStatus(Answered)]
  }

  /** The state that a Reconcile without error has reached for the version it has read, at the moment of its last
      request: a sensor on its way out is gone with its RBAC, and a living one runs, guarded. */
  ghost predicate Accomplished(version: Option<Sensor>, k: Site) {
    version.Some? ==>
      if version.value.deleting then
        version.value.finalizer ==> Now(k).None? && Role !in k.objects && Binding !in k.objects
      else Now(k).Some? && Now(k).value.uid == version.value.uid && Now(k).value.running && Now(k).value.finalizer
  }

  class SensorReconciler {
    var site: Site
    const quiet: bool           // nobody else acts, reads are fresh and true, and every request is answered
    ghost const rev: nat
    ghost var steps: seq<Step>

    ghost predicate Valid()
      reads this
    {
      site == Run(Init(rev), steps)
    }

    /** The requests so far. */
    ghost function Asked(): seq<Step>
      reads this
    {
      OwnRequests(steps)
    }

    constructor (quiet: bool)
      ensures Valid() && this.quiet == quiet && site.work.Idle?
    {
      this.quiet := quiet;
      rev := 0;
      steps := [];
      site := Init(0);
    }

    method Act(s: Step)
      requires Valid()
      modifies this
      ensures Valid() && site == Next(old(site), s)
      ensures Asked() == old(Asked()) + if OwnStep(s) then [s] else []
    {
      assert (steps + [s])[..|steps|] == steps;
      site, steps := Next(site, s), steps + [s];
    }

    /** Users and the garbage collector do whatever they like. */
    method Others()
      requires Valid()
      modifies this
      ensures Valid() && Inv(site) && ByUsers(old(site), site) && Asked() == old(Asked())
      ensures quiet ==> site == old(site)
    {
      hide Run;
      SiteReachable(site, rev, steps);
      if !quiet {
        var rounds: int := *;
        while 0 < rounds
          invariant Valid() && Inv(site) && ByUsers(old(site), site) && Asked() == old(Asked())
        {
          rounds := rounds - 1;
          var s: Step := *;
          if !OwnStep(s) {
            UsersStep(site, s);
            Act(s);
            SiteReachable(site, rev, steps);
          }
        }
      }
    }

    /** One request: others act, then the server handles it in state `at`. */
    method Request(s: Step) returns (at: Site)
      requires Valid() && OwnStep(s)
      modifies this
      ensures Valid() && Inv(at) && ByUsers(old(site), at) && site == Next(at, s)
      ensures Asked() == old(Asked()) + [s]
      ensures quiet ==> at == old(site)
    {
      Others();
      at := site;
      Act(s);
    }

    method AnyReply() returns (reply: Reply)
      ensures quiet ==> reply.Answered?
    {
      reply := *;
      if quiet {
        reply := Answered;
      }
    }

    /** client.Get of the sensor: a cached read, which may be stale but never goes back. */
    method FetchSensor() returns (ok: bool, ghost at: nat)
      requires Valid() && site.work.Idle?
      modifies this
      ensures Valid() && Asked() == old(Asked()) + [Fetch(at)]
      ensures ok ==> site.cursor == at < |site.log| && WorkFor(site.log[at], site.work)
      ensures !ok ==> site.work.Idle?
      ensures quiet ==> ok && site == NextFetch(old(site), Latest(old(site)))
    {
      hide Run, OwnRequests;
      var version: nat :| true;
      if quiet {
        version := Latest(site);
      }
      at := version;
      var k := Request(Fetch(version));
      ok := k.cursor <= version < |k.log|;
    }

    /** client.Delete of the next cluster-scoped object; that it was not there is no error. */
    method DeleteNext() returns (ok: bool, ghost asked: Step)
      requires Valid() && site.work.Cleaning? && site.work.rest != []
      modifies this
      ensures Valid() && SameVersionAt(old(site), site) && (quiet ==> ok && site == NextDelete(old(site), Answered))
      ensures Asked() == old(Asked()) + [asked] && asked.Delete? && (ok ==> asked == Delete(Answered))
      ensures ok ==> site.work == if |old(site).work.rest| == 1 then Releasing(old(site).work.copy)
                                  else Cleaning(old(site).work.copy, old(site).work.rest[1..])
      ensures !ok ==> site.work.Idle?
    {
      hide Run, OwnRequests, Inv;
      var reply := AnyReply();
      asked := Delete(reply);
      var at := Request(Delete(reply));
      ok := reply.Answered?;
    }

    method ReleaseSensor() returns (ok: bool, ghost asked: Step)
      requires Valid() && site.work.Releasing?
      modifies this
      ensures Valid() && SameVersionAt(old(site), site) && site.work.Idle?
      ensures Asked() == old(Asked()) + [asked] && asked.Release? && (ok ==> asked == Release(Answered))
      ensures ok ==> Now(site).None? && Role !in site.objects && Binding !in site.objects
      ensures quiet ==> site == NextRelease(old(site), Answered)
                        && (ok <==> Accepts(old(site), old(site).work.copy))
    {
      hide Run, OwnRequests;
      var reply := AnyReply();
      asked := Release(reply);
      var at := Request(Release(reply));
      ok := reply.Answered? && Accepts(at, at.work.copy);
      if ok {
        AcceptedIsCurrent(at);
      }
    }

    method GuardSensor() returns (ok: bool, ghost asked: Step)
      requires Valid() && site.work.Guarding?
      modifies this
      ensures Valid() && SameVersionAt(old(site), site) && (quiet ==> site == NextGuard(old(site), Answered))
      ensures Asked() == old(Asked()) + [asked] && asked.Guard? && (ok ==> asked == Guard(Answered))
      ensures if ok then site.work.Patching? && site.work.copy.uid == old(site).work.copy.uid else site.work.Idle?
    {
      hide Run, OwnRequests;
      var reply := AnyReply();
      asked := Guard(reply);
      var at := Request(Guard(reply));
      ok := site.work.Patching?;
      if ok {
        AcceptedIsCurrent(at);
      }
    }

    method ApplyBaseline() returns (ok: bool, ghost asked: Step)
      requires Valid() && site.work.Patching?
      modifies this
      ensures Valid() && SameVersionAt(old(site), site) && (quiet ==> ok && site == NextPatch(old(site), Answered))
      ensures Asked() == old(Asked()) + [asked] && asked.Patch?
      ensures ok ==> asked == Patch(Answered) && site.baseline
      ensures if ok then site.work == Deploying(old(site).work.copy, [Account, DaemonSet, Role, Binding])
              else site.work.Idle?
    {
      hide Run, OwnRequests, Inv;
      var reply := AnyReply();
      asked := Patch(reply);
      var at := Request(Patch(reply));
      ok := reply.Answered?;
    }

    /** createIfNotExists for the next object: a read that may be stale, and a create that may find it present. */
    method CreateIfNotExists() returns (ok: bool, ghost found: bool, ghost asked: seq<Step>)
      requires Valid() && site.work.Deploying? && site.work.rest != []
      modifies this
      ensures Valid() && SameVersionAt(old(site), site) && (quiet ==> ok && site == Ensured(old(site)))
      ensures Asked() == old(Asked()) + asked && GotTo(ok, asked, EnsuringOne(found), SameRequest)
      ensures ok ==> found || old(site).work.rest[0] in site.objects
      ensures if ok then site.work == Onward(old(site).work.copy, old(site).work.rest) else site.work.Idle?
    {
      hide Run, OwnRequests, Inv;
      var answer: Answer := *;
      if quiet {
        answer := TrueAnswer(site);
      }
      var at := Request(Get(answer));
      found, asked := !answer.Missing?, [Get(answer)];
      if !answer.Missing? {
        ok := answer.Found?;
        return;
      }
      var reply := AnyReply();
      at := Request(Create(reply));
      asked := asked + [Create(reply)];
      ok := reply.Answered? && at.work.rest[0] !in at.objects;
    }

    method UpdateStatus() returns (ok: bool, ghost asked: Step)
      requires Valid() && site.work.Finishing?
      modifies this
      ensures Valid() && SameVersionAt(old(site), site) && site.work.Idle?
      ensures Asked() == old(Asked()) + [asked] && asked.WriteStatus? && (ok ==> asked == WriteStatus(Answered))
      ensures ok ==> && Now(site).Some? && Now(site).value.uid == old(site).work.copy.uid
                     && Now(site).value.running && Now(site).value.finalizer
      ensures quiet ==> site == NextWriteStatus(old(site), Answered)
                        && (ok <==> Accepts(old(site), old(site).work.copy))
    {
      hide Run, OwnRequests;
      var reply := AnyReply();
      asked := WriteStatus(reply);
      var at := Request(WriteStatus(reply));
      ok := reply.Answered? && Accepts(at, at.work.copy);
      if ok {
        AcceptedIsCurrent(at);
      }
    }

    /** The branch for a sensor that is being deleted. */
    method CleanUp() returns (ok: bool, ghost asked: seq<Step>)
      requires Valid() && site.work.Cleaning? && site.work.rest == [Binding, Role]
      modifies this
      ensures Valid() && SameVersionAt(old(site), site) && site.work.Idle? && (quiet ==> site == Cleaned(old(site)))
      ensures quiet && Accepts(old(site), old(site).work.copy) ==> ok
      ensures Asked() == old(Asked()) + asked
      ensures GotTo(ok, asked, [Delete(Answered), Delete(Answered), Release(Answered)], SameRequest)
      ensures ok ==> Now(site).None? && Role !in site.objects && Binding !in site.objects
    {
      hide Run, OwnRequests;
      ghost var one;
      ok, one := DeleteNext();
      asked := [one];
      if !ok {
        return;
      }
      ok, one := DeleteNext();
      asked := asked + [one];
      if !ok {
        return;
      }
      ok, one := ReleaseSensor();
      asked := asked + [one];
    }

    /** The loops that ensure the four objects. */
    method EnsureObjects() returns (ok: bool, ghost found: seq<bool>, ghost asked: seq<Step>)
      requires Valid() && site.work.Deploying? && site.work.rest == [Account, DaemonSet, Role, Binding]
      modifies this
      ensures Valid() && SameVersionAt(old(site), site) && (quiet ==> ok && site == EnsuredMany(old(site), 4))
      ensures |found| == 4 && Asked() == old(Asked()) + asked && GotTo(ok, asked, Ensuring(found), SameRequest)
      ensures if ok then site.work == Finishing(old(site).work.copy) else site.work.Idle?
    {
      hide Run, OwnRequests;
      ghost var copy := site.work.copy;
      var i := 0;
      ok, found, asked := true, [], [];
      while i < 4
        invariant 0 <= i == |found| <= 4 && ok && Valid() && SameVersionAt(old(site), site)
        invariant asked == Ensuring(found) && Asked() == old(Asked()) + asked
        invariant site.work == if i == 4 then Finishing(copy)
                               else Deploying(copy, [Account, DaemonSet, Role, Binding][i..])
        invariant quiet ==> site == EnsuredMany(old(site), i)
      {
        ghost var one, part;
        ok, one, part := CreateIfNotExists();
        asked := asked + part;
        if !ok {
          found := StoppedAt(found, one, part);
          return;
        }
        EnsuringMore(found, [one]);
        assert Ensuring([one]) == EnsuringOne(one);
        found := found + [one];
        i := i + 1;
      }
    }

    /** The branch for a living sensor. */
    method Deploy() returns (ok: bool, ghost found: seq<bool>, ghost asked: seq<Step>)
      requires Valid() && (site.work.Patching? || site.work.Guarding?)
      modifies this
      ensures Valid() && SameVersionAt(old(site), site) && site.work.Idle?
      ensures |found| == 4 && Asked() == old(Asked()) + asked
      ensures GotTo(ok, asked, (if old(site).work.Guarding? then [Guard(Answered)] else []) + Deployment(found),
                    SameRequest)
      ensures ok ==> && Now(site).Some? && Now(site).value.uid == old(site).work.copy.uid
                     && Now(site).value.running && Now(site).value.finalizer
      ensures quiet && Accepts(old(site), old(site).work.copy) ==> ok && site == Deployed(old(site))
    {
      hide Run, OwnRequests, NextPatch, NextWriteStatus, EnsuredMany, Ensuring, Deployment, GotTo;
      StillAccepted(site);
      found, asked := [true, true, true, true], [];
      ghost var one, part;
      ghost var guard := if site.work.Guarding? then [Guard(Answered)] else [];
      if site.work.Guarding? {
        ok, one := GuardSensor();
        asked := [one];
        if !ok {
          GuardFails(one, found);
          return;
        }
      }
      ok, one := ApplyBaseline();
      asked := asked + [one];
      if !ok {
        PatchFails(guard, one, found);
        return;
      }
      ok, found, part := EnsureObjects();
      asked := asked + part;
      if !ok {
        EnsureFails(guard, part, found);
        return;
      }
      ok, one := UpdateStatus();
      asked := asked + [one];
      StatusEnds(ok, guard, part, one, found);
    }

    /** Reconcile, under any interference.  It reads log entry `at`, makes the requests that the version there calls
        for, in order, and stops at the first that fails.  Without an error it has made all of them, and reached what
        they are for. */
    method Reconcile()
      returns (ok: bool, ghost at: nat, ghost version: Option<Sensor>, ghost found: seq<bool>, ghost asked: seq<Step>)
      requires Valid() && site.work.Idle?
      modifies this
      ensures Valid() && site.work.Idle? && Inv(site)
      ensures |found| == 4 && Asked() == old(Asked()) + asked
      ensures GotTo(ok, asked, [Fetch(at)] + Requests(version, found), SameRequest)
      ensures ok || version.Some? ==> at == site.cursor < |site.log| && site.log[at] == version
      ensures ok ==> Accomplished(version, site)
      ensures quiet ==> ok && site == Reconciled(old(site))
    {
      hide Run, OwnRequests, Inv, Reconciled, Cleaned, Deployed, NextFetch, Deployment, FirstOf, Requests, GotTo;
      SiteReachable(site, rev, steps);
      QuietFetch(site);
      version, found := None, [true, true, true, true];
      ok, at := FetchSensor();
      asked := [Fetch(at)];
      OnlyFetched(ok, at, found);
      if ok {
        version := site.log[at];
        ghost var rest := [];
        RequestsFor(version, site.work);
        if site.work.Cleaning? {
          ok, rest := CleanUp();
        } else if !site.work.Idle? {
          ok, found, rest := Deploy();
        }
        asked := asked + rest;
        FetchedFirst(ok, at, rest, Requests(version, found));
      }
      SiteReachable(site, rev, steps);
    }
  }

  // How far a deployment gets, by the request that ends it.

  lemma GuardFails(one: Step, found: seq<bool>)
    requires one.Guard?
    ensures GotTo(false, [one], [Guard(Answered)] + Deployment(found), SameRequest)
  {
    FirstOfMore([], [one], [Guard(Answered)], Deployment(found), SameRequest);
    assert [] + [one] == [one] && [] + [Guard(Answered)] == [Guard(Answered)];
  }

  lemma PatchFails(guard: seq<Step>, one: Step, found: seq<bool>)
    requires one.Patch?
    ensures GotTo(false, guard + [one], guard + Deployment(found), SameRequest)
  {
    var more := Ensuring(found) + [WriteStatus(Answered)];
    FirstOfMore(guard, [one], [Patch(Answered)], more, SameRequest);
    assert guard + [Patch(Answered)] + more == guard + Deployment(found);
  }

  lemma EnsureFails(guard: seq<Step>, part: seq<Step>, found: seq<bool>)
    requires GotTo(false, part, Ensuring(found), SameRequest)
    ensures GotTo(false, guard + [Patch(Answered)] + part, guard + Deployment(found), SameRequest)
  {
    FirstOfMore(guard + [Patch(Answered)], part, Ensuring(found), [WriteStatus(Answered)], SameRequest);
    assert guard + [Patch(Answered)] + Ensuring(found) + [WriteStatus(Answered)] == guard + Deployment(found);
  }

  lemma StatusEnds(ok: bool, guard: seq<Step>, part: seq<Step>, one: Step, found: seq<bool>)
    requires GotTo(true, part, Ensuring(found), SameRequest)
    requires one.WriteStatus? && (ok ==> one == WriteStatus(Answered))
    ensures GotTo(ok, guard + [Patch(Answered)] + part + [one], guard + Deployment(found), SameRequest)
  {
    var before := guard + [Patch(Answered)] + part;
    FirstOfMore(before, [one], [WriteStatus(Answered)], [], SameRequest);
    assert before + [WriteStatus(Answered)] + [] == before + [WriteStatus(Answered)] == guard + Deployment(found);
  }

  /** The requests that follow the Fetch, by the work it has led to. */
  lemma RequestsFor(version: Option<Sensor>, work: Work)
    requires WorkFor(version, work)
    ensures work.Idle? ==> forall found :: Requests(version, found) == []
    ensures work.Cleaning? ==>
              forall found :: Requests(version, found) == [Delete(Answered), Delete(Answered), Release(Answered)]
    ensures !work.Idle? && !work.Cleaning? ==>
              forall found :: Requests(version, found) ==
                              (if work.Guarding? then [Guard(Answered)] else []) + Deployment(found)
  {
  }

  lemma OnlyFetched(ok: bool, at: nat, found: seq<bool>)
    ensures GotTo(ok, [Fetch(at)], [Fetch(at)] + Requests(None, found), SameRequest)
  {
    assert [Fetch(at)] + [] == [Fetch(at)];
  }

  lemma FetchedFirst(ok: bool, at: nat, rest: seq<Step>, all: seq<Step>)
    requires GotTo(ok, rest, all, SameRequest)
    ensures GotTo(ok, [Fetch(at)] + rest, [Fetch(at)] + all, SameRequest)
  {
    if !ok {
      FirstOfMore([Fetch(at)], rest, all, [], SameRequest);
      assert [Fetch(at)] + all + [] == [Fetch(at)] + all;
    }
  }

  /** The objects after the one that failed do not matter. */
  lemma StoppedAt(before: seq<bool>, one: bool, part: seq<Step>) returns (found: seq<bool>)
    requires |before| < 4 && FirstOf(part, EnsuringOne(one), SameRequest)
    ensures |found| == 4 && FirstOf(Ensuring(before) + part, Ensuring(found), SameRequest)
  {
    var pad := seq(3 - |before|, _ => true);
    found := before + [one] + pad;
    EnsuringMore(before + [one], pad);
    EnsuringMore(before, [one]);
    assert Ensuring([one]) == EnsuringOne(one);
    FirstOfMore(Ensuring(before), part, EnsuringOne(one), Ensuring(pad), SameRequest);
  }

  /** What users and the garbage collector leave alone. */
  ghost predicate ByUsers(k: Site, n: Site) {
    n.work == k.work && SameVersionAt(k, n)
  }

  /** A copy that is current when the deployment starts is current when its status is written. */
  lemma StillAccepted(k: Site)
    requires k.work.Patching? || k.work.Guarding?
    ensures var n := EnsuredMany(NextPatch(NextGuard(k, Answered), Answered), 4);
            Accepts(k, k.work.copy) ==> n.work.Finishing? && Accepts(n, n.work.copy)
    ensures k.work.Patching? ==> NextGuard(k, Answered) == k
  {
    if Accepts(k, k.work.copy) {
      var p := NextPatch(NextGuard(k, Answered), Answered);
      EnsuredFour(p, p.work.copy);
    }
  }

  /** The version that was read last is where it was. */
  ghost predicate SameVersionAt(k: Site, n: Site) {
    n.cursor == k.cursor && k.log <= n.log
  }

  lemma UsersStep(k: Site, s: Step)
    requires !OwnStep(s)
    ensures ByUsers(k, Next(k, s))
  {
  }

  /** The branch of Reconcile that a version of the sensor leads to. */
  ghost predicate WorkFor(v: Option<Sensor>, work: Work) {
    if v.None? || (v.value.deleting && !v.value.finalizer) then work.Idle?
    else if v.value.deleting then work == Cleaning(v.value, [Binding, Role])
    else if v.value.finalizer then work == Patching(v.value)
    else work == Guarding(v.value)
  }

  /** What a fresh read leads to. */
  lemma QuietFetch(k: Site)
    requires Inv(k) && k.work.Idle?
    ensures var f := NextFetch(k, Latest(k));
            && (f.work.Idle? ==> Reconciled(k) == f)
            && (f.work.Cleaning? ==> Reconciled(k) == Cleaned(f) && Accepts(f, f.work.copy))
            && (f.work.Guarding? || f.work.Patching? ==> Reconciled(k) == Deployed(f) && Accepts(f, f.work.copy))
  {
    var f := NextFetch(k, Latest(k));
    if f.work.Cleaning? {
      CleanedMeans(f, Now(k).value);
      NothingToDeploy(Cleaned(f));
    } else {
      NothingToClean(f);
      if f.work.Idle? {
        NothingToDeploy(f);
      }
    }
  }
}
