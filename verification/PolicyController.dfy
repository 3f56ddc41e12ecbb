/** internal/controller/sovereigntypolicy_controller.go: the reconciler that turns a policy into a kernel rule. */
module PolicyController {
  import opened Policies
  import opened PolicyProtocol
  import opened PolicyInvariant
  import opened PolicyTheorems
  import opened World
  import opened Clusters
  import Geo

  // ---------------------------------------------------------------- interference

  /** A step of the reconciler itself. */
  predicate OwnStep(s: Step) {
    s.Fetch? || s.GetRule? || s.CreateRule? || s.UpdateRule? || s.DeleteRule? || s.WriteStatus? || s.Abort?
  }

  /** The requests that the reconciler of a name has made in a run, in order. */
  function OwnRequests(steps: seq<SystemStep>, name: string): seq<Step> {
    if steps == [] then []
    else
      var e := steps[|steps| - 1];
      OwnRequests(steps[..|steps| - 1], name) +
      if e.OnKey? && e.name == name && OwnStep(e.step) then [e.step] else []
  }

  lemma OneMore(steps: seq<SystemStep>, e: SystemStep, name: string)
    ensures OwnRequests(steps + [e], name) ==
            OwnRequests(steps, name) + if e.OnKey? && e.name == name && OwnStep(e.step) then [e.step] else []
  {
    assert (steps + [e])[..|steps|] == steps;
  }

  /** The requests of a Reconcile that has read the copy at log entry `at` and whose Get of the rule ended with
      `answer`, all of them, with every write answered. */
  function Requests(copy: Policy, at: nat, answer: Outcome): seq<Step> {
    [Fetch(at)] + RuleRequests(copy, answer) + [WriteStatus(Answered)]
  }

  function RuleRequests(copy: Policy, answer: Outcome): seq<Step> {
    [PolicyProtocol.GetRule(!answer.Error?)] +
    if DesiredRule(copy).Some? then
      [if answer.Done? then PolicyProtocol.UpdateRule(Answered) else PolicyProtocol.CreateRule(Answered)]
    else if answer.Done? then [PolicyProtocol.DeleteRule(Answered)]
    else []
  }

  /** The same request, however it was answered. */
  predicate SameRequest(s: Step, t: Step) {
    match s
    case CreateRule(_) => t.CreateRule?
    case UpdateRule(_) => t.UpdateRule?
    case DeleteRule(_) => t.DeleteRule?
    case WriteStatus(_) => t.WriteStatus?
    case _ => s == t
  }

  /** What others cannot change: history only grows, nobody else creates a rule, and the rule of the current
      policy is not collected. */
  ghost predicate Unattended(k: Key, n: Key) {
    && k.log <= n.log && n.work == k.work && n.cursor == k.cursor && n.name == k.name
    && (n.rule == k.rule || n.rule.None?)
    && (n.log == k.log && k.rule.Some? && Current(k.log).Some? && Current(k.log).value.uid == k.rule.value.ownerUid ==>
          n.rule == k.rule)
  }

  lemma OthersLeaveWork(k: Key, s: Step)
    requires !OwnStep(s)
    ensures Unattended(k, Next(k, s))
  {
  }

  lemma OthersLeaveKey(w: System, g: Geo.GeoIP, name: string, e: SystemStep)
    requires KeysOk(w)
    requires e.OnKey? && e.name == name ==> !OwnStep(e.step)
    ensures Unattended(KeyOf(w, name), KeyOf(NextSystem(w, g, e), name))
  {
    match e
    case OnKey(key, s) =>
      if !s.Begin? && !s.Tick? {
        KeyOfReachable(w, key);
        StepFrame(KeyOf(w, key), s);
        KeyOfReplace(w, Next(KeyOf(w, key), s), name);
        if key == name {
          OthersLeaveWork(KeyOf(w, key), s);
        }
      }
    case Report(i, call) =>
      if i < |w.evidence| {
        var ev := w.evidence[i];
        KeyOfReachable(w, ev.policy.name);
        KeyOfReplace(w, NextBegin(KeyOf(w, ev.policy.name), call, ev.agent, ev.ip), name);
      }
    case _ =>
  }

  /** A status write that the server accepts was made from the current version; a rule that fitted then still does. */
  lemma AcceptedStatusSettles(before: Key, k: Key, p: Policy)
    requires Inv(before) && Inv(k) && Unattended(before, k)
    requires before.work == Finishing(p) && Check(k, p).Done?
    ensures RuleFits(before.rule, p) ==> Settled(NextWriteStatus(k, Answered))
    ensures Settled(NextWriteStatus(k, Answered)) <==> RuleFits(k.rule, p)
    ensures Current(NextWriteStatus(k, Answered).log) == Some(p.(status := p.status.(ready := true),
              rv := if p.status.ready then p.rv else k.rev + 1))
    ensures NextWriteStatus(k, Answered).rule == k.rule
  {
  }

  lemma UnattendedChains(a: Key, b: Key, c: Key)
    requires Unattended(a, b) && Unattended(b, c)
    ensures Unattended(a, c)
  {
  }

  // ---------------------------------------------------------------- the desired rule

  method HasAction(actions: seq<Action>, target: Action) returns (found: bool)
    ensures found <==> target in actions
  {
    found := false;
    for i := 0 to |actions|
      invariant found <==> target in actions[..i]
    {
      found := found || actions[i] == target;
    }
    assert actions[..|actions|] == actions;
  }

  method BuildTracingPolicy(p: Policy) returns (rule: Option<RuleBody>)
    ensures rule == DesiredRule(p)
    ensures rule.Some? <==>
              && (exists i :: 0 <= i < |p.spec.actions| && p.spec.actions[i] in {BlockKill, BlockNoConn})
              && p.status.discoveredViolatorIPs != []
    ensures rule.Some? ==>
              var ips := p.status.discoveredViolatorIPs;
              && rule.value.kernelAction == (if BlockKill in p.spec.actions then Sigkill else Override(-111))
              && |rule.value.values| == |ips|
              && forall i :: 0 <= i < |ips| ==> rule.value.values[i] == ips[i] + "/32"
  {
    DesiredRuleExact(p);
    var action: KernelAction;
    var kill := HasAction(p.spec.actions, BlockKill);
    if kill {
      action := Sigkill;
    } else {
      var refuse := HasAction(p.spec.actions, BlockNoConn);
      if !refuse {
        return None;
      }
      action := Override(-111);
    }
    var ips := p.status.discoveredViolatorIPs;
    if |ips| == 0 {
      return None;
    }
    var values := [];
    for i := 0 to |ips|
      invariant values == Cidrs(ips)[..i]
    {
      values := values + [ips[i] + "/32"];
    }
    assert values == Cidrs(ips);
    return Some(RuleBody(action, values));
  }

  // ---------------------------------------------------------------- requests

  /** What a request of the reconciler keeps besides what it is for. */
  ghost predicate Later(k: Key, n: Key) {
    k.log <= n.log && n.cursor == k.cursor
  }

  lemma FetchMeans(k: Key, at: nat)
    requires k.work.Idle?
    ensures var n := NextFetch(k, at);
            && n.log == k.log && k.cursor <= n.cursor
            && (if k.cursor <= at < |k.log|
                then n.cursor == at && n.work == if k.log[at].Some? then Fetched(k.log[at].value) else Idle
                else n == k)
  {
  }

  /** The cursor never runs ahead of the log. */
  lemma FreshIsReadable(k: Key)
    requires Reachable(k)
    ensures k.cursor <= Latest(k) < |k.log|
  {
    ReachableHolds(k);
  }

  lemma GetRuleMeans(k: Key, policy: Policy, ok: bool)
    requires k.work == Fetched(policy)
    ensures var n := NextGetRule(k, ok);
            && Later(k, n) && n.rule == k.rule
            && n.work == if DesiredRule(policy).Some?
                         then if !ok then Idle
                              else if k.rule.None? then Creating(policy) else Updating(policy, k.rule.value.rv)
                         else if ok && k.rule.Some? then Deleting(policy) else Finishing(policy)
  {
  }

  lemma CreateRuleMeans(k: Key, policy: Policy, reply: Reply)
    requires k.work == Creating(policy) && DesiredRule(policy).Some?
    ensures var n := NextCreateRule(k, reply);
            && Later(k, n)
            && (if reply.Answered? && k.rule.None? then n.work == Finishing(policy) && RuleFits(n.rule, policy)
                else n.work.Idle?)
  {
  }

  lemma UpdateRuleMeans(k: Key, policy: Policy, rv: nat, reply: Reply)
    requires k.work == Updating(policy, rv) && DesiredRule(policy).Some?
    ensures var n := NextUpdateRule(k, reply);
            && Later(k, n)
            && (if reply.Answered? && k.rule.Some? && k.rule.value.rv == rv
                then n.work == Finishing(policy) && RuleFits(n.rule, policy) else n.work.Idle?)
  {
  }

  lemma DeleteRuleMeans(k: Key, policy: Policy, reply: Reply)
    requires k.work == Deleting(policy) && DesiredRule(policy).None?
    ensures var n := NextDeleteRule(k, reply);
            && Later(k, n)
            && (if reply.Answered? && k.rule.Some? then n.work == Finishing(policy) && RuleFits(n.rule, policy)
                else n.work.Idle?)
  {
  }

  lemma WriteStatusMeans(before: Key, k: Key, policy: Policy, reply: Reply)
    requires Reachable(before) && Reachable(k) && Unattended(before, k) && before.work == Finishing(policy)
    ensures var n := NextWriteStatus(k, reply);
            && n.work.Idle? && Later(k, n)
            && (reply.Answered? && Check(k, policy).Done? ==>
                  (Settled(n) <==> RuleFits(n.rule, policy)) && (RuleFits(before.rule, policy) ==> Settled(n)))
  {
    StatusWritten(k, reply);
    if reply.Answered? && Check(k, policy).Done? {
      ReachableHolds(before);
      ReachableHolds(k);
      AcceptedStatusSettles(before, k, policy);
    }
  }

  lemma StatusWritten(k: Key, reply: Reply)
    requires k.work.Finishing?
    ensures NextWriteStatus(k, reply).work.Idle? && Later(k, NextWriteStatus(k, reply))
  {
  }

  class PolicyReconciler {
    const cluster: Cluster
    const name: string          // the policy this worker is busy with

    constructor (cluster: Cluster, name: string)
      ensures this.cluster == cluster && this.name == name
    {
      this.cluster := cluster;
      this.name := name;
    }

    ghost function K(): Key
      reads this, cluster
    {
      KeyOf(cluster.w, name)
    }

    /** The requests of this worker so far. */
    ghost function Asked(): seq<Step>
      reads this, cluster
    {
      OwnRequests(cluster.steps, name)
    }

    /** Everybody but this worker does whatever they like. */
    method Others()
      requires cluster.Valid()
      modifies cluster
      ensures cluster.Valid() && Reachable(K()) && Unattended(old(K()), K()) && Asked() == old(Asked())
      ensures cluster.quiet ==> K() == old(K())
    {
      SystemReachable(cluster.w, cluster.geo, cluster.limit, cluster.steps);
      KeyOfReachable(cluster.w, name);
      if !cluster.quiet {
        var rounds: int := *;
        while 0 < rounds
          invariant cluster.Valid() && Reachable(K()) && Unattended(old(K()), K()) && KeysOk(cluster.w)
          invariant Asked() == old(Asked())
        {
          rounds := rounds - 1;
          var e: SystemStep := *;
          if e.OnKey? ==> e.name == name ==> !OwnStep(e.step) {
            OthersLeaveKey(cluster.w, cluster.geo, name, e);
            ghost var before := K();
            OneMore(cluster.steps, e, name);
            cluster.Act(e);
            UnattendedChains(old(K()), before, K());
            SystemReachable(cluster.w, cluster.geo, cluster.limit, cluster.steps);
            KeyOfReachable(cluster.w, name);
          }
        }
      }
    }

    /** One request: others act, then the server handles it in state `at`. */
    method Request(s: Step) returns (at: Key)
      requires cluster.Valid() && OwnStep(s)
      modifies cluster
      ensures cluster.Valid() && K() == Next(at, s) && Asked() == old(Asked()) + [s]
      ensures Reachable(old(K())) && Reachable(at) && Unattended(old(K()), at)
      ensures cluster.quiet ==> at == old(K())
    {
      SystemReachable(cluster.w, cluster.geo, cluster.limit, cluster.steps);
      KeyOfReachable(cluster.w, name);
      Others();
      at := KeyOf(cluster.w, name);
      OneMore(cluster.steps, OnKey(name, s), name);
      cluster.ActOn(name, s);
    }

    /** client.Get of the policy: a cached read, which may be stale but never goes back. */
    method FetchPolicy() returns (err: Outcome, policy: Option<Policy>, ghost at: nat)
      requires cluster.Valid() && K().work.Idle?
      modifies cluster
      ensures cluster.Valid() && old(K()).log <= K().log && old(K()).cursor <= K().cursor
      ensures !err.Conflict? && Asked() == old(Asked()) + [Fetch(at)]
      ensures !err.Error? ==> at == K().cursor < |K().log| && K().log[at] == policy
      ensures err.Done? ==> policy.Some? && K().work == Fetched(policy.value)
      ensures err.NotFound? ==> policy.None?
      ensures !err.Done? ==> K().work.Idle?
      ensures cluster.quiet ==> !err.Error? && K() == FreshlyFetched(old(K()))
    {
      hide RunSystem, Reachable, OwnRequests;
      var version: nat :| true;
      if cluster.quiet {
        version := Latest(KeyOf(cluster.w, name));
      }
      at := version;
      var k := Request(Fetch(version));
      FreshIsReadable(k);
      FetchMeans(k, version);
      assert K() == NextFetch(k, version);
      if version < k.cursor || |k.log| <= version {
        return Error, None, at;
      }
      policy := k.log[version];
      err := if policy.Some? then Done else NotFound;
    }

    /** client.Get of the rule: a live read. */
    method GetRule(policy: Policy) returns (err: Outcome, found: Option<Rule>)
      requires cluster.Valid() && K().work == Fetched(policy)
      modifies cluster
      ensures cluster.Valid() && Later(old(K()), K())
      ensures Asked() == old(Asked()) + [PolicyProtocol.GetRule(!err.Error?)]
      ensures !err.Conflict? && (err.Done? ==> found.Some? && K().rule == found) && (err.NotFound? ==> K().rule.None?)
      ensures K().work == if DesiredRule(policy).Some?
                          then if err.Done? then Updating(policy, found.value.rv)
                               else if err.NotFound? then Creating(policy) else Idle
                          else if err.Done? then Deleting(policy) else Finishing(policy)
      ensures cluster.quiet ==> !err.Error? && K() == NextGetRule(old(K()), true)
    {
      hide RunSystem, Reachable, OwnRequests;
      var ok: bool := *;
      ok := ok || cluster.quiet;
      var at := Request(PolicyProtocol.GetRule(ok));
      GetRuleMeans(at, policy, ok);
      found := at.rule;
      err := if !ok then Error else if found.Some? then Done else NotFound;
    }

    method CreateRule(policy: Policy, body: RuleBody) returns (err: Outcome, ghost asked: Step)
      requires cluster.Valid() && K().work == Creating(policy) && DesiredRule(policy) == Some(body)
      modifies cluster
      ensures cluster.Valid() && Later(old(K()), K())
      ensures Asked() == old(Asked()) + [asked] && asked.CreateRule?
      ensures err.Done? ==> asked == PolicyProtocol.CreateRule(Answered)
      ensures err.Done? ==> K().work == Finishing(policy) && RuleFits(K().rule, policy)
      ensures !err.Done? ==> K().work.Idle?
      ensures cluster.quiet ==> K() == NextCreateRule(old(K()), Answered) && (old(K()).rule.None? ==> err.Done?)
    {
      hide RunSystem, Reachable, OwnRequests;
      var reply := cluster.AnyReply();
      var at := Request(PolicyProtocol.CreateRule(reply));
      asked := PolicyProtocol.CreateRule(reply);
      CreateRuleMeans(at, policy, reply);
      err := if reply.Answered? && at.rule.None? then Done else Error;
    }

    method UpdateRule(policy: Policy, rv: nat, body: RuleBody) returns (err: Outcome, ghost asked: Step)
      requires cluster.Valid() && K().work == Updating(policy, rv) && DesiredRule(policy) == Some(body)
      modifies cluster
      ensures cluster.Valid() && Later(old(K()), K())
      ensures Asked() == old(Asked()) + [asked] && asked.UpdateRule?
      ensures err.Done? ==> asked == PolicyProtocol.UpdateRule(Answered)
      ensures err.Done? ==> K().work == Finishing(policy) && RuleFits(K().rule, policy)
      ensures !err.Done? ==> K().work.Idle?
      ensures cluster.quiet ==>
                K() == NextUpdateRule(old(K()), Answered)
                && (old(K()).rule.Some? && old(K()).rule.value.rv == rv ==> err.Done?)
    {
      hide RunSystem, Reachable, OwnRequests;
      var reply := cluster.AnyReply();
      var at := Request(PolicyProtocol.UpdateRule(reply));
      asked := PolicyProtocol.UpdateRule(reply);
      UpdateRuleMeans(at, policy, rv, reply);
      err := if !reply.Answered? then Error
             else if at.rule.None? then NotFound
             else if at.rule.value.rv != rv then Conflict
             else Done;
    }

    method DeleteRule(policy: Policy) returns (err: Outcome, ghost asked: Step)
      requires cluster.Valid() && K().work == Deleting(policy) && DesiredRule(policy).None?
      modifies cluster
      ensures cluster.Valid() && Later(old(K()), K())
      ensures Asked() == old(Asked()) + [asked] && asked.DeleteRule?
      ensures err.Done? ==> asked == PolicyProtocol.DeleteRule(Answered)
      ensures err.Done? ==> K().work == Finishing(policy) && RuleFits(K().rule, policy)
      ensures !err.Done? ==> K().work.Idle?
      ensures cluster.quiet ==> K() == NextDeleteRule(old(K()), Answered) && (old(K()).rule.Some? ==> err.Done?)
    {
      hide RunSystem, Reachable, OwnRequests;
      var reply := cluster.AnyReply();
      var at := Request(PolicyProtocol.DeleteRule(reply));
      asked := PolicyProtocol.DeleteRule(reply);
      DeleteRuleMeans(at, policy, reply);
      err := if !reply.Answered? then Error else if at.rule.None? then NotFound else Done;
    }

    /** client.Status().Update with the copy fetched at the start. */
    method UpdateStatus(policy: Policy, changed: Policy) returns (err: Outcome, ghost asked: Step)
      requires cluster.Valid() && K().work == Finishing(policy)
      requires changed == policy.(status := policy.status.(ready := true))
      modifies cluster
      ensures cluster.Valid() && Later(old(K()), K()) && K().work.Idle?
      ensures Asked() == old(Asked()) + [asked] && asked.WriteStatus? && (err.Done? ==> asked == WriteStatus(Answered))
      ensures err.Done? ==> (Settled(K()) <==> RuleFits(K().rule, policy))
      ensures err.Done? && RuleFits(old(K()).rule, policy) ==> Settled(K())
      ensures cluster.quiet ==> K() == NextWriteStatus(old(K()), Answered)
                                && (err.Done? <==> Check(old(K()), policy).Done?)
    {
      hide RunSystem, Reachable, OwnRequests;
      ghost var before := K();
      var reply := cluster.AnyReply();
      var at := Request(WriteStatus(reply));
      asked := WriteStatus(reply);
      WriteStatusMeans(before, at, policy, reply);
      err := if reply.Answered? then Check(at, changed) else Error;
    }

    /** Create, update or delete the rule, as the answer of the Get demands.  The branch without a rule goes on when
        its Get has failed. */
    method ApplyRule(policy: Policy, tracingPolicy: Option<RuleBody>)
      returns (err: Outcome, ghost answer: Outcome, ghost asked: seq<Step>)
      requires cluster.Valid() && K().work == Fetched(policy) && tracingPolicy == DesiredRule(policy)
      modifies cluster
      ensures cluster.Valid() && Later(old(K()), K())
      ensures Asked() == old(Asked()) + asked && GotTo(err.Done?, asked, RuleRequests(policy, answer), SameRequest)
      ensures err.Done? ==>
                && K().work == Finishing(policy)
                && (answer.Error? ==> DesiredRule(policy).None?)
                && (!answer.Error? ==> RuleFits(K().rule, policy))
      ensures !err.Done? ==> K().work.Idle?
      ensures cluster.quiet ==> err.Done? && !answer.Error? && K() == RuleRequested(NextGetRule(old(K()), true))
    {
      hide RunSystem, Reachable, OwnRequests, KeyOf;
      var found;
      ghost var write;
      err, found := GetRule(policy);
      answer := err;
      asked := [PolicyProtocol.GetRule(!answer.Error?)];
      if tracingPolicy.Some? {
        if err.NotFound? {
          err, write := CreateRule(policy, tracingPolicy.value);
          asked := asked + [write];
        } else if err.Done? {
          err, write := UpdateRule(policy, found.value.rv, tracingPolicy.value);
          asked := asked + [write];
        }
      } else if err.Done? {
        err, write := DeleteRule(policy);
        asked := asked + [write];
      } else {
        err := Done;
      }
    }

    /** The part of Reconcile after the policy was found. */
    method ReconcileFound(policy: Policy) returns (err: Outcome, ghost answer: Outcome, ghost asked: seq<Step>)
      requires cluster.Valid() && K().work == Fetched(policy)
      modifies cluster
      ensures cluster.Valid() && Later(old(K()), K()) && K().work.Idle?
      ensures Asked() == old(Asked()) + asked
      ensures GotTo(err.Done?, asked, RuleRequests(policy, answer) + [WriteStatus(Answered)], SameRequest)
      ensures err.Done? ==> if answer.Error? then DesiredRule(policy).None? && (Settled(K()) <==> K().rule.None?)
                            else Settled(K())
      ensures cluster.quiet ==>
                !answer.Error? && var k := RuleRequested(NextGetRule(old(K()), true));
                                  K() == NextWriteStatus(k, Answered) && (Check(k, policy).Done? ==> err.Done?)
    {
      hide RunSystem, Reachable, OwnRequests, RuleRequests;
      var tracingPolicy := BuildTracingPolicy(policy);
      err, answer, asked := ApplyRule(policy, tracingPolicy);
      if err.Done? {
        ghost var write;
        err, write := UpdateStatus(policy, policy.(status := policy.status.(ready := true)));
        asked := asked + [write];
      } else {
        FirstOfMore([], asked, RuleRequests(policy, answer), [WriteStatus(Answered)], SameRequest);
        assert [] + asked == asked && [] + RuleRequests(policy, answer) == RuleRequests(policy, answer);
      }
    }

    /** Reconcile, under any interference.  It reads log entry `at`; without an entry or a policy there it asks for
        nothing else.  Otherwise it makes the requests which that version calls for, in order, and stops at the first
        that fails.  Without an error all of them were made, with the writes answered.  The name is then settled, with
        one exception: the policy wants no rule, the Get of the rule has failed, and there is a rule. */
    method Reconcile()
      returns (err: Outcome, ghost at: nat, ghost fetched: Option<Policy>, ghost answer: Outcome,
               ghost asked: seq<Step>)
      requires cluster.Valid() && K().work.Idle?
      modifies cluster
      ensures cluster.Valid() && K().work.Idle?
      ensures Asked() == old(Asked()) + asked
      ensures fetched.None? ==> asked == [Fetch(at)]
      ensures fetched.Some? ==> GotTo(err.Done?, asked, Requests(fetched.value, at, answer), SameRequest)
      ensures err.Done? || fetched.Some? ==> at == K().cursor < |K().log| && K().log[at] == fetched
      ensures err.Done? && fetched.Some? ==>
                && (answer.Error? ==> DesiredRule(fetched.value).None?)
                && (Settled(K()) <==> answer.Error? ==> K().rule.None?)
      ensures cluster.quiet ==> err.Done? && !answer.Error? && K() == Reconciled(old(K()))
    {
      hide RunSystem, Reachable, OwnRequests, RuleRequests, GotTo;
      answer := NotFound;
      SystemReachable(cluster.w, cluster.geo, cluster.limit, cluster.steps);
      KeyOfReachable(cluster.w, name);
      QuietReconcile(K());
      var policy;
      err, policy, at := FetchPolicy();
      fetched, asked := if err.Error? then None else policy, [Fetch(at)];
      if err.NotFound? {
        err := Done;
      } else if err.Done? {
        ghost var rest;
        err, answer, rest := ReconcileFound(policy.value);
        asked := [Fetch(at)] + rest;
        FetchedFirst(err, at, rest, policy.value, answer);
      }
    }
  }

  lemma FetchedFirst(err: Outcome, at: nat, asked: seq<Step>, copy: Policy, answer: Outcome)
    requires GotTo(err.Done?, asked, RuleRequests(copy, answer) + [WriteStatus(Answered)], SameRequest)
    ensures GotTo(err.Done?, [Fetch(at)] + asked, Requests(copy, at, answer), SameRequest)
  {
    var all := RuleRequests(copy, answer) + [WriteStatus(Answered)];
    assert [Fetch(at)] + all == Requests(copy, at, answer);
    if !err.Done? {
      FirstOfMore([Fetch(at)], asked, all, [], SameRequest);
      assert [Fetch(at)] + all + [] == [Fetch(at)] + all;
    }
  }

  /** What a fresh read leads to: nothing to do, or a copy that is still current when the status is written. */
  lemma QuietReconcile(k: Key)
    ensures FreshlyFetched(k).work.Idle? ==> Reconciled(k) == FreshlyFetched(k)
    ensures Reachable(k) && k.work.Idle? && FreshlyFetched(k).work.Fetched? ==>
              Check(RuleReconciled(k), FreshlyFetched(k).work.copy).Done?
  {
    if Reachable(k) && k.work.Idle? && FreshlyFetched(k).work.Fetched? {
      StillCurrent(k);
    }
  }

  lemma StillCurrent(k: Key)
    requires Reachable(k) && k.work.Idle? && FreshlyFetched(k).work.Fetched?
    ensures Check(RuleReconciled(k), FreshlyFetched(k).work.copy).Done?
  {
    hide Reachable, RuleReconciled, LogOk, Linked, PolicyInvariant.StartedOk, AgentsOk, RuleOk;
    ReachableHolds(k);
    RuleReconciledFits(k);
  }
}
