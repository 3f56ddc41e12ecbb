/** The API server as its clients see it.  A client's requests are interleaved with arbitrary steps of everybody
    else, and any of them may fail or lose its answer.  The state is always that of a run of the whole system. */
module Clusters {
  import opened Policies
  import opened PolicyProtocol
  import opened PolicyInvariant
  import opened PolicyTheorems
  import opened World
  import opened Geo

  /** A step that is not one of the agent's own calls. */
  predicate ByOthers(w: System, agent: nat, e: SystemStep) {
    match e
    case OnKey(name, s) => (
      match s
      case Get(id, _) => !OwnedBy(w, name, id, agent)
      case Write(id, _) => !OwnedBy(w, name, id, agent)
      case Rollback(id) => !OwnedBy(w, name, id, agent)
      case Restart(other) => other != agent
      case _ => true)
    case Report(i, _) => i < |w.evidence| ==> w.evidence[i].agent != agent
    case _ => true
  }

  predicate OwnedBy(w: System, name: string, id: nat, agent: nat) {
    id in KeyOf(w, name).calls && KeyOf(w, name).calls[id].agent == agent
  }

  /** What others cannot change: history only grows, and the marks and calls of the agent stay. */
  ghost predicate KeyUndisturbed(k: Key, n: Key, agent: nat) {
    && k.log <= n.log
    && (forall ip :: (agent, ip) in n.marks <==> (agent, ip) in k.marks)
    && (forall id :: id in k.calls && k.calls[id].agent == agent ==> id in n.calls && n.calls[id] == k.calls[id])
  }

  ghost predicate Undisturbed(w: System, n: System, agent: nat) {
    && w.evidence <= n.evidence
    && (forall name :: KeyUndisturbed(KeyOf(w, name), KeyOf(n, name), agent))
  }

  lemma KeyOfReplace(w: System, k: Key, name: string)
    ensures KeyOf(Replace(w, k), name) == if name == k.name then k else KeyOf(w, name).(rev := k.rev)
  {
  }

  lemma OthersOnKey(k: Key, s: Step, agent: nat)
    requires !s.Begin? || s.agent != agent
    requires s.Get? ==> s.call in k.calls ==> k.calls[s.call].agent != agent
    requires s.Write? ==> s.call in k.calls ==> k.calls[s.call].agent != agent
    requires s.Rollback? ==> s.call in k.calls ==> k.calls[s.call].agent != agent
    requires s.Restart? ==> s.agent != agent
    ensures KeyUndisturbed(k, Next(k, s), agent)
    ensures Next(k, s).name == k.name
  {
    match s
    case Write(id, reply) => OtherWrite(k, id, reply, agent);
    case Get(id, ok) => OtherGet(k, id, ok, agent);
    case Begin(id, other, ip) => OtherBegin(k, id, other, ip, agent);
    case Rollback(id) => OtherRollback(k, id, agent);
    case Restart(other) => OtherRestart(k, other, agent);
    case _ => StepFrame(k, s);
  }

  lemma OtherBegin(k: Key, id: nat, other: nat, ip: string, agent: nat)
    requires other != agent
    ensures KeyUndisturbed(k, NextBegin(k, id, other, ip), agent)
    ensures NextBegin(k, id, other, ip).name == k.name
  {
  }

  lemma OtherRollback(k: Key, id: nat, agent: nat)
    requires id in k.calls ==> k.calls[id].agent != agent
    ensures KeyUndisturbed(k, NextRollback(k, id), agent)
    ensures NextRollback(k, id).name == k.name
  {
  }

  lemma OtherRestart(k: Key, other: nat, agent: nat)
    requires other != agent
    ensures KeyUndisturbed(k, NextRestart(k, other), agent)
    ensures NextRestart(k, other).name == k.name
  {
  }

  lemma OtherWrite(k: Key, id: nat, reply: Reply, agent: nat)
    requires id in k.calls ==> k.calls[id].agent != agent
    ensures KeyUndisturbed(k, NextWrite(k, id, reply), agent)
    ensures NextWrite(k, id, reply).name == k.name
  {
  }

  lemma OtherGet(k: Key, id: nat, ok: bool, agent: nat)
    requires id in k.calls ==> k.calls[id].agent != agent
    ensures KeyUndisturbed(k, NextGet(k, id, ok), agent)
    ensures NextGet(k, id, ok).name == k.name
  {
  }

  lemma OthersStep(w: System, g: GeoIP, agent: nat, e: SystemStep)
    requires KeysOk(w) && ByOthers(w, agent, e)
    ensures Undisturbed(w, NextSystem(w, g, e), agent)
  {
    forall name
      ensures KeyUndisturbed(KeyOf(w, name), KeyOf(NextSystem(w, g, e), name), agent)
    {
      OthersStepOf(w, g, agent, e, name);
    }
  }

  lemma OthersStepOf(w: System, g: GeoIP, agent: nat, e: SystemStep, name: string)
    requires KeysOk(w) && ByOthers(w, agent, e)
    ensures KeyUndisturbed(KeyOf(w, name), KeyOf(NextSystem(w, g, e), name), agent)
  {
    hide NextBegin, NextWrite, NextGet, Reachable;
    match e
    case OnKey(key, s) =>
      if !s.Begin? && !s.Tick? {
        KeyOfReachable(w, key);
        OthersOnKey(KeyOf(w, key), s, agent);
        KeyOfReplace(w, Next(KeyOf(w, key), s), name);
      }
    case Report(i, call) =>
      if i < |w.evidence| {
        var ev := w.evidence[i];
        KeyOfReachable(w, ev.policy.name);
        OthersOnKey(KeyOf(w, ev.policy.name), Begin(call, ev.agent, ev.ip), agent);
        KeyOfReplace(w, NextBegin(KeyOf(w, ev.policy.name), call, ev.agent, ev.ip), name);
      }
    case _ =>
  }

  /** Verdicts and stored versions are never forgotten. */
  ghost predicate HistoryGrows(w: System, n: System) {
    w.evidence <= n.evidence && forall name :: KeyOf(w, name).log <= KeyOf(n, name).log
  }

  lemma HistoryGrowsByStep(w: System, g: GeoIP, e: SystemStep)
    requires KeysOk(w)
    ensures HistoryGrows(w, NextSystem(w, g, e))
  {
    hide NextBegin, NextWrite, NextGet, Reachable;
    forall name
      ensures KeyOf(w, name).log <= KeyOf(NextSystem(w, g, e), name).log
    {
      match e
      case OnKey(key, s) =>
        if !s.Begin? && !s.Tick? {
          KeyOfReachable(w, key);
          StepBasics(KeyOf(w, key), s);
          KeyOfReplace(w, Next(KeyOf(w, key), s), name);
        }
      case Report(i, call) =>
        if i < |w.evidence| {
          var ev := w.evidence[i];
          KeyOfReachable(w, ev.policy.name);
          StepBasics(KeyOf(w, ev.policy.name), Begin(call, ev.agent, ev.ip));
          KeyOfReplace(w, NextBegin(KeyOf(w, ev.policy.name), call, ev.agent, ev.ip), name);
        }
      case _ =>
    }
  }

  lemma HistoryChains(a: System, b: System, c: System)
    requires HistoryGrows(a, b) && HistoryGrows(b, c)
    ensures HistoryGrows(a, c)
  {
  }

  // ---------------------------------------------------------------- one attempt of a report

  /** The address was listed at some moment since the log had length `start`. */
  ghost predicate ListedSince(log: seq<Option<Policy>>, start: nat, ip: string) {
    exists i :: 0 <= i < |log| && start <= i + 1 && Lists(log[i], ip)
  }

  /** The policy was absent at some moment since the log had length `start`. */
  ghost predicate AbsentSince(log: seq<Option<Policy>>, start: nat) {
    exists i :: 0 <= i < |log| && start <= i + 1 && log[i].None?
  }

  /** The history after a report that nothing disturbs: a version with the address, if there is a policy that does not
      list it yet. */
  function LogAfterReport(k: Key, ip: string): seq<Option<Policy>> {
    var current := Current(k.log);
    if current.None? || ip in current.value.status.discoveredViolatorIPs then k.log
    else
      var list := current.value.status.discoveredViolatorIPs + [ip];
      k.log + [Some(current.value.(status := current.value.status.(discoveredViolatorIPs := list), rv := k.rev + 1))]
  }

  lemma AcceptedWriteAppends(k: Key, id: nat, call: Call)
    requires Inv(k) && id in k.calls && k.calls[id] == call && call.progress.Writing?
    requires Check(k, call.progress.copy).Done?
    ensures NextWrite(k, id, Answered).log == LogAfterReport(k, call.ip)
  {
    hide MarksOk, ResultsOk, Linked, RuleOk, WorkOk, PolicyInvariant.StartedOk;
    assert CallOk(k, call);
    SameVersion(k, call.progress.at);
    assert |call.progress.copy.status.discoveredViolatorIPs + [call.ip]|
           != |call.progress.copy.status.discoveredViolatorIPs|;
  }

  /** How an attempt leaves the call and the log, by the error it returns. */
  ghost predicate AttemptOk(n: Key, id: nat, call: Call, err: Outcome) {
    match err
    case Done => id !in n.calls && ListedSince(n.log, call.start, call.ip)
    case NotFound => id !in n.calls && AbsentSince(n.log, call.start)
    case Error => id in n.calls && n.calls[id] == call.(progress := RollingBack)
    case Conflict =>
      && call.conflicts + 1 <= |n.log| - call.start
      && id in n.calls
      && n.calls[id] == if call.conflicts + 1 < n.limit then call.(progress := Reading, conflicts := call.conflicts + 1)
                        else call.(progress := RollingBack)
  }

  /** How all the attempts together leave the call and the log. */
  ghost predicate ReportOk(n: Key, id: nat, call: Call, err: Outcome) {
    match err
    case Done => id !in n.calls && ListedSince(n.log, call.start, call.ip)
    case NotFound => id !in n.calls && AbsentSince(n.log, call.start)
    case _ =>
      && (err.Conflict? ==> n.limit <= |n.log| - call.start)
      && id in n.calls && n.calls[id] == call.(progress := RollingBack, conflicts := n.calls[id].conflicts)
  }

  lemma GetMeans(k: Key, id: nat, call: Call, ok: bool)
    requires Inv(k) && id in k.calls && k.calls[id] == call && call.progress.Reading?
    ensures var n := NextGet(k, id, ok);
            && n.log == k.log && n.marks == k.marks && n.name == k.name
            && if !ok then AttemptOk(n, id, call, Error)
               else if Current(k.log).None? then AttemptOk(n, id, call, NotFound)
               else if call.ip in Current(k.log).value.status.discoveredViolatorIPs then AttemptOk(n, id, call, Done)
               else id in n.calls && n.calls[id] == call.(progress := Writing(Current(k.log).value, |k.log| - 1))
  {
  }

  lemma WriteMeans(k: Key, id: nat, call: Call, reply: Reply)
    requires Inv(k) && id in k.calls && k.calls[id] == call && call.progress.Writing?
    ensures var n := NextWrite(k, id, reply);
            && k.log <= n.log && n.marks == k.marks && n.name == k.name && n.limit == k.limit
            && AttemptOk(n, id, call, if reply.Answered? then Check(k, call.progress.copy) else Error)
  {
    hide LogOk, Linked, PolicyInvariant.StartedOk, MarksOk, ResultsOk, WorkOk, RuleOk;
    assert CallOk(k, call);
    if Check(k, call.progress.copy).Done? {
      AppendedKeeps(k, id);
      var n := Appended(k, call);
      assert Lists(n.log[|n.log| - 1], call.ip);
    }
  }

  /** History is kept. */
  ghost predicate Kept(w: System, n: System, name: string) {
    w.evidence <= n.evidence && KeyOf(w, name).log <= KeyOf(n, name).log && KeyOf(n, name).limit == n.limit
  }

  /** Of the marks of the agent only one may have changed, and it now stands as told. */
  ghost predicate MarksChange(w: System, n: System, agent: nat, name: string, ip: string, marked: bool) {
    && ((agent, ip) in KeyOf(n, name).marks <==> marked)
    && forall other, address :: (other, address) != (name, ip) ==>
         ((agent, address) in KeyOf(n, other).marks <==> (agent, address) in KeyOf(w, other).marks)
  }

  ghost predicate SameMarks(w: System, n: System, agent: nat) {
    forall name, ip :: (agent, ip) in KeyOf(n, name).marks <==> (agent, ip) in KeyOf(w, name).marks
  }

  lemma KeySound(w: System, name: string)
    requires KeysOk(w)
    ensures Inv(KeyOf(w, name)) && KeyOf(w, name).limit == w.limit && KeyOf(w, name).name == name
  {
    KeyOfReachable(w, name);
    ReachableHolds(KeyOf(w, name));
  }

  // ---------------------------------------------------------------- the client

  class Cluster {
    const geo: GeoIP
    const limit: nat            // attempts of retry.DefaultRetry
    const quiet: bool           // nobody else acts, reads are fresh and every request is answered
    var w: System
    ghost var steps: seq<SystemStep>

    ghost predicate Valid()
      reads this
    {
      0 < limit && w == RunSystem(Start(limit), geo, steps) && w.limit == limit
    }

    constructor (geo: GeoIP, limit: nat, quiet: bool)
      requires 0 < limit
      ensures Valid() && this.geo == geo && this.limit == limit && this.quiet == quiet && w == Start(limit)
    {
      this.geo := geo;
      this.quiet := quiet;
      this.limit := limit;
      w := Start(limit);
      steps := [];
    }

    method Act(e: SystemStep)
      requires Valid()
      modifies this
      ensures Valid() && w == NextSystem(old(w), geo, e) && steps == old(steps) + [e]
    {
      w := NextSystem(w, geo, e);
      assert (steps + [e])[..|steps|] == steps;
      SystemReachable(old(w), geo, limit, steps);
      steps := steps + [e];
      SystemReachable(w, geo, limit, steps);
      LimitOfNext(old(w), geo, e);
    }

    /** Everybody else does whatever they like. */
    method Others(agent: nat)
      requires Valid()
      modifies this
      ensures Valid() && Undisturbed(old(w), w, agent) && KeysOk(w)
      ensures quiet ==> w == old(w)
    {
      SystemReachable(w, geo, limit, steps);
      if !quiet {
        var rounds: int := *;
        while 0 < rounds
          invariant Valid() && Undisturbed(old(w), w, agent) && KeysOk(w)
        {
          rounds := rounds - 1;
          var e: SystemStep := *;
          if ByOthers(w, agent, e) {
            OthersStep(w, geo, agent, e);
            ghost var before := w;
            Act(e);
            SystemReachable(w, geo, limit, steps);
            UndisturbedChains(old(w), before, w, agent);
          }
        }
      }
    }

    method AnyReply() returns (reply: Reply)
      ensures quiet ==> reply.Answered?
    {
      reply := *;
      if quiet {
        reply := Answered;
      }
    }

    /** Everybody does whatever they like: only history is safe. */
    method Everybody()
      requires Valid()
      modifies this
      ensures Valid() && HistoryGrows(old(w), w) && KeysOk(w)
      ensures quiet ==> w == old(w)
    {
      SystemReachable(w, geo, limit, steps);
      if !quiet {
        var rounds: int := *;
        while 0 < rounds
          invariant Valid() && HistoryGrows(old(w), w) && KeysOk(w)
        {
          rounds := rounds - 1;
          var e: SystemStep := *;
          HistoryGrowsByStep(w, geo, e);
          ghost var before := w;
          Act(e);
          SystemReachable(w, geo, limit, steps);
          HistoryChains(old(w), before, w);
        }
      }
    }

    /** One step of one policy name, without anybody in between. */
    method ActOn(name: string, s: Step)
      requires Valid() && !s.Begin? && !s.Tick?
      modifies this
      ensures Valid() && KeyOf(w, name) == Next(KeyOf(old(w), name), s)
      ensures w.evidence == old(w).evidence && w.seen == old(w).seen
      ensures forall other :: other != name ==> KeyOf(w, other) == KeyOf(old(w), other).(rev := w.rev)
      ensures steps == old(steps) + [OnKey(name, s)]
      ensures HistoryGrows(old(w), w)
    {
      hide RunSystem, Reachable;
      SystemReachable(w, geo, limit, steps);
      HistoryGrowsByStep(w, geo, OnKey(name, s));
      StepOnKey(w, geo, name, s);
      Act(OnKey(name, s));
    }

    method ServeGet(name: string, id: nat, ok: bool)
      requires Valid()
      modifies this
      ensures Valid() && KeyOf(w, name) == NextGet(KeyOf(old(w), name), id, ok)
      ensures w.evidence == old(w).evidence
      ensures forall other :: other != name ==> KeyOf(w, other) == KeyOf(old(w), other).(rev := w.rev)
    {
      ActOn(name, Get(id, ok));
    }

    method ServeWrite(agent: nat, name: string, id: nat, reply: Reply, ghost call: Call)
      requires Valid() && KeysOk(w) && Holding(w, name, id, call) && call.progress.Writing?
      modifies this
      ensures Valid() && SameMarks(old(w), w, agent) && Kept(old(w), w, name)
      ensures KeyOf(w, name) == NextWrite(KeyOf(old(w), name), id, reply)
      ensures AttemptOk(KeyOf(w, name), id, call,
                        if reply.Answered? then Check(KeyOf(old(w), name), call.progress.copy) else Error)
    {
      KeySound(w, name);
      WriteMeans(KeyOf(w, name), id, call, reply);
      ActOn(name, Write(id, reply));
    }

    /** The call for verdict `index` has just marked its key. */
    method BeginReport(index: nat, id: nat)
      requires Valid() && index < |w.evidence|
      requires var e := w.evidence[index];
               var k := KeyOf(w, e.policy.name);
               (e.agent, e.ip) !in k.marks && id !in k.calls && id !in k.results
      modifies this
      ensures Valid() && w.evidence == old(w).evidence
      ensures var e := w.evidence[index];
              && KeyOf(w, e.policy.name).log == KeyOf(old(w), e.policy.name).log
              && KeyOf(w, e.policy.name).rev == KeyOf(old(w), e.policy.name).rev
              && KeyOf(w, e.policy.name).limit == limit
              && Holding(w, e.policy.name, id, Call(e.agent, e.ip, Reading, 0, |KeyOf(w, e.policy.name).log|))
              && MarksChange(old(w), w, e.agent, e.policy.name, e.ip, true)
    {
      SystemReachable(w, geo, limit, steps);
      BeginMeans(w, geo, index, id);
      Act(Report(index, id));
    }

    /** A failed call takes its mark back. */
    method RollbackReport(agent: nat, name: string, id: nat, ghost call: Call)
      requires Valid() && Holding(w, name, id, call) && call.agent == agent && call.progress.RollingBack?
      modifies this
      ensures Valid() && Kept(old(w), w, name) && MarksChange(old(w), w, agent, name, call.ip, false)
      ensures id !in KeyOf(w, name).calls
    {
      Others(agent);
      KeySound(w, name);
      ActOn(name, Rollback(id));
    }

    /** client.Get of a policy inside ReportViolator: a live read.  `held` is the call after it. */
    method GetPolicy(agent: nat, name: string, id: nat, ghost call: Call)
      returns (err: Outcome, current: Option<Policy>, ghost held: Call)
      requires Valid() && Holding(w, name, id, call) && call.agent == agent && call.progress.Reading?
      modifies this
      ensures Valid() && SameMarks(old(w), w, agent) && Kept(old(w), w, name)
      ensures !err.Conflict? && (err.Done? ==> current.Some?) && (err.NotFound? ==> current.None?)
      ensures !err.Done? || call.ip in current.value.status.discoveredViolatorIPs ==>
                AttemptOk(KeyOf(w, name), id, call, err)
      ensures err.Done? && call.ip !in current.value.status.discoveredViolatorIPs ==>
                && held.progress.Writing? && Holding(w, name, id, held)
                && held == call.(progress := Writing(current.value, held.progress.at))
      ensures quiet ==> && !err.Error? && current == Current(KeyOf(old(w), name).log)
                        && KeyOf(w, name).log == KeyOf(old(w), name).log
                        && KeyOf(w, name).rev == KeyOf(old(w), name).rev
    {
      hide RunSystem, Reachable;
      Others(agent);
      KeySound(w, name);
      ghost var k := KeyOf(w, name);
      current := PolicyProtocol.Current(KeyOf(w, name).log);
      var ok: bool := *;
      ok := ok || quiet;
      err := if !ok then Error else if current.None? then NotFound else Done;
      GetMeans(k, id, call, ok);
      ServeGet(name, id, ok);
      held := if id in KeyOf(w, name).calls then KeyOf(w, name).calls[id] else call;
    }

    /** client.Status().Update of a policy inside ReportViolator. */
    method UpdateStatus(agent: nat, name: string, id: nat, obj: Policy, ghost call: Call) returns (err: Outcome)
      requires Valid() && Holding(w, name, id, call) && call.agent == agent && call.progress.Writing?
      requires obj == call.progress.copy.(status := call.progress.copy.status.(
                        discoveredViolatorIPs := call.progress.copy.status.discoveredViolatorIPs + [call.ip]))
      modifies this
      ensures Valid() && SameMarks(old(w), w, agent) && Kept(old(w), w, name)
      ensures AttemptOk(KeyOf(w, name), id, call, err)
      ensures quiet && Check(KeyOf(old(w), name), obj).Done? ==>
                err.Done? && KeyOf(w, name).log == LogAfterReport(KeyOf(old(w), name), call.ip)
    {
      hide RunSystem, Reachable, Inv;
      Others(agent);
      var reply := AnyReply();
      KeySound(w, name);
      if Check(KeyOf(w, name), obj).Done? {
        AcceptedWriteAppends(KeyOf(w, name), id, call);
      }
      err := if reply.Answered? then Check(KeyOf(w, name), obj) else Error;
      ServeWrite(agent, name, id, reply, call);
    }
  }

  lemma BeginMeans(w: System, g: GeoIP, index: nat, id: nat)
    requires KeysOk(w) && index < |w.evidence|
    requires var e := w.evidence[index];
             var k := KeyOf(w, e.policy.name);
             (e.agent, e.ip) !in k.marks && id !in k.calls && id !in k.results
    ensures var e, n := w.evidence[index], NextSystem(w, g, Report(index, id));
            && n.evidence == w.evidence
            && KeyOf(n, e.policy.name).log == KeyOf(w, e.policy.name).log
            && KeyOf(n, e.policy.name).rev == KeyOf(w, e.policy.name).rev
            && KeyOf(n, e.policy.name).limit == w.limit
            && Holding(n, e.policy.name, id, Call(e.agent, e.ip, Reading, 0, |KeyOf(n, e.policy.name).log|))
            && MarksChange(w, n, e.agent, e.policy.name, e.ip, true)
  {
    var e := w.evidence[index];
    KeyOfReachable(w, e.policy.name);
    KeyOfReplaced(w, NextBegin(KeyOf(w, e.policy.name), id, e.agent, e.ip));
  }

  lemma KeyOfReplaced(w: System, k: Key)
    ensures KeyOf(Replace(w, k), k.name) == k
    ensures forall other :: other != k.name ==> KeyOf(Replace(w, k), other) == KeyOf(w, other).(rev := k.rev)
  {
  }

  lemma StepOnKey(w: System, g: GeoIP, name: string, s: Step)
    requires KeysOk(w) && !s.Begin? && !s.Tick?
    ensures var n := NextSystem(w, g, OnKey(name, s));
            && KeyOf(n, name) == Next(KeyOf(w, name), s)
            && n.evidence == w.evidence && n.seen == w.seen
            && (forall other :: other != name ==> KeyOf(n, other) == KeyOf(w, other).(rev := n.rev))
  {
    KeyOfReachable(w, name);
    StepFrame(KeyOf(w, name), s);
  }

  /** The call stands exactly so. */
  ghost predicate Holding(w: System, name: string, id: nat, call: Call) {
    id in KeyOf(w, name).calls && KeyOf(w, name).calls[id] == call
  }

  lemma LimitOfNext(w: System, g: GeoIP, e: SystemStep)
    ensures NextSystem(w, g, e).limit == w.limit
  {
  }

  lemma UndisturbedChains(a: System, b: System, c: System, agent: nat)
    requires Undisturbed(a, b, agent) && Undisturbed(b, c, agent)
    ensures Undisturbed(a, c, agent)
  {
  }
}
