/** The invariant of the policy protocol and the proof that every step keeps it. */
module PolicyInvariant {
  import opened Policies
  import opened PolicyProtocol

  // ---------------------------------------------------------------- the log

  ghost predicate VersionOk(p: Policy, name: string, rev: nat) {
    && p.name == name
    && 0 < p.uid <= p.rv <= rev
    && NoDuplicates(p.status.discoveredViolatorIPs)
  }

  /** p was stored before q: within one incarnation the list of q starts with the list of p. */
  ghost predicate Precedes(p: Policy, q: Policy) {
    && p.rv < q.rv
    && p.uid <= q.uid
    && (p.uid == q.uid ==> p.status.discoveredViolatorIPs <= q.status.discoveredViolatorIPs)
  }

  ghost predicate LogOk(log: seq<Option<Policy>>, name: string, rev: nat) {
    && log != []
    && (forall i :: 0 <= i < |log| && log[i].Some? ==> VersionOk(log[i].value, name, rev))
    && (forall i, j :: 0 <= i < j < |log| && log[i].Some? && log[j].Some? ==> Precedes(log[i].value, log[j].value))
  }

  /** A version continues the incarnation before it, or opens one with an empty list. */
  ghost predicate Continues(log: seq<Option<Policy>>, i: nat)
    requires 0 < i < |log|
  {
    log[i].Some? ==>
      if log[i - 1].None? then log[i].value.status.discoveredViolatorIPs == []
      else log[i].value.uid == log[i - 1].value.uid
  }

  ghost predicate Linked(log: seq<Option<Policy>>) {
    forall i :: 0 < i < |log| ==> Continues(log, i)
  }

  /** Some stored version lists the address. */
  ghost predicate Stored(log: seq<Option<Policy>>, ip: string) {
    exists i :: 0 <= i < |log| && Lists(log[i], ip)
  }

  ghost predicate Lists(v: Option<Policy>, ip: string) {
    v.Some? && ip in v.value.status.discoveredViolatorIPs
  }

  ghost predicate StartedOk(k: Key) {
    forall ip :: Stored(k.log, ip) ==> ip in k.started
  }

  // ---------------------------------------------------------------- the calls

  ghost predicate CallOk(k: Key, call: Call) {
    && Mark(call) in k.marks
    && call.ip in k.started
    && call.start <= |k.log|
    && call.conflicts <= |k.log| - call.start
    && match call.progress
       case Reading => call.conflicts < k.limit
       case Writing(copy, at) =>
         && call.conflicts < k.limit
         && at < |k.log| && k.log[at] == Some(copy)
         && call.conflicts <= at + 1 - call.start
         && call.ip !in copy.status.discoveredViolatorIPs
       case RollingBack => true
  }

  ghost predicate MarkedBy(k: Key, mark: (nat, string), id: nat) {
    mark in k.markedBy && k.markedBy[mark] == id
  }

  /** Every call owns its mark, and it is decided but not over exactly while it rolls back. */
  ghost predicate CallsOk(k: Key) {
    && 0 < k.limit
    && (forall id :: id in k.calls ==> CallOk(k, k.calls[id]) && MarkedBy(k, Mark(k.calls[id]), id))
    && (forall id :: id in k.calls ==> (id in k.results <==> k.calls[id].progress.RollingBack?))
  }

  /** The call on this mark is still in flight. */
  ghost predicate CallFor(k: Key, id: nat, mark: (nat, string)) {
    id in k.calls && Mark(k.calls[id]) == mark
  }

  /** The call on this mark saw or wrote the address, or found no policy. */
  ghost predicate Earned(k: Key, id: nat, mark: (nat, string)) {
    id in k.results && (k.results[id].agent, k.results[id].ip) == mark
    && (k.results[id].outcome.Done? || k.results[id].outcome.NotFound?)
  }

  /** A mark is owed to the very call that set it. */
  ghost predicate MarksOk(k: Key) {
    forall mark :: mark in k.marks ==> MarkOk(k, mark)
  }

  ghost predicate MarkOk(k: Key, mark: (nat, string)) {
    mark in k.markedBy && (CallFor(k, k.markedBy[mark], mark) || Earned(k, k.markedBy[mark], mark))
  }

  /** What a decided call may conclude from its outcome. */
  ghost predicate ResultOk(k: Key, r: Result) {
    && 0 < r.end <= |k.log| && r.start <= r.end
    && (r.outcome.Done? ==> Lists(k.log[r.end - 1], r.ip))
    && (r.outcome.NotFound? ==> k.log[r.end - 1].None?)
    && (r.outcome.Conflict? ==> k.limit <= r.end - r.start)
  }

  ghost predicate ResultsOk(k: Key) {
    forall id :: id in k.results ==> ResultOk(k, k.results[id])
  }

  ghost predicate AgentsOk(k: Key) {
    CallsOk(k) && MarksOk(k) && ResultsOk(k)
  }

  // ---------------------------------------------------------------- the reconciler

  ghost predicate WorkOk(k: Key) {
    && k.cursor < |k.log|
    && (!k.work.Idle? ==> k.log[k.cursor] == Some(k.work.copy))
    && (k.work.Creating? || k.work.Updating? ==> DesiredRule(k.work.copy).Some?)
    && (k.work.Deleting? ==> DesiredRule(k.work.copy).None?)
  }

  /** The rule was computed from a version the reconciler has read. */
  ghost predicate RuleOk(k: Key) {
    k.rule.Some? ==>
      && k.source <= k.cursor < |k.log|
      && k.rule.value.rv <= k.rev
      && k.log[k.source].Some?
      && k.log[k.source].value.uid == k.rule.value.ownerUid
      && DesiredRule(k.log[k.source].value) == Some(k.rule.value.body)
  }

  ghost predicate Inv(k: Key) {
    && LogOk(k.log, k.name, k.rev)
    && Linked(k.log)
    && StartedOk(k)
    && AgentsOk(k)
    && WorkOk(k)
    && RuleOk(k)
  }

  // ---------------------------------------------------------------- writing the log

  /** A write made from a copy with the current resource version was made from the current state. */
  lemma SameVersion(k: Key, at: nat)
    requires LogOk(k.log, k.name, k.rev)
    requires at < |k.log| && k.log[at].Some? && Check(k, k.log[at].value).Done?
    ensures at == |k.log| - 1
  {
  }

  /** v may follow the current state: a deletion, a fresh incarnation, or the next version of this one. */
  ghost predicate Follows(k: Key, v: Option<Policy>) {
    v.Some? ==>
      && VersionOk(v.value, k.name, k.rev + 1)
      && v.value.rv == k.rev + 1
      && if Current(k.log).None? then v.value.uid == k.rev + 1 && v.value.status.discoveredViolatorIPs == []
         else v.value.uid == Current(k.log).value.uid
              && Current(k.log).value.status.discoveredViolatorIPs <= v.value.status.discoveredViolatorIPs
  }

  lemma PublishKeepsLog(k: Key, v: Option<Policy>)
    requires LogOk(k.log, k.name, k.rev) && Follows(k, v)
    ensures LogOk(Publish(k, v).log, k.name, k.rev + 1)
  {
  }

  lemma PublishKeepsLinks(k: Key, v: Option<Policy>)
    requires Linked(k.log) && k.log != [] && Follows(k, v)
    ensures Linked(Publish(k, v).log)
  {
    var log := Publish(k, v).log;
    forall i | 0 < i < |log|
      ensures Continues(log, i)
    {
      assert i < |k.log| ==> Continues(k.log, i);
    }
  }

  lemma StoredGrows(log: seq<Option<Policy>>, v: Option<Policy>, ip: string)
    ensures Stored(log + [v], ip) <==> Stored(log, ip) || Lists(v, ip)
  {
    var grown := log + [v];
    if Stored(log, ip) {
      var i :| 0 <= i < |log| && Lists(log[i], ip);
      assert Lists(grown[i], ip);
    }
    if Lists(v, ip) {
      assert Lists(grown[|log|], ip);
    }
  }

  lemma PublishKeepsCalls(k: Key, v: Option<Policy>)
    requires AgentsOk(k)
    ensures AgentsOk(Publish(k, v))
  {
    var n := Publish(k, v);
    assert forall id :: id in n.calls ==> CallOk(k, k.calls[id]);
    assert forall id :: id in n.results ==> ResultOk(k, k.results[id]);
    assert forall mark :: mark in n.marks ==> MarkOk(k, mark);
  }

  /** Publishing a version keeps everything, as far as its list has been asked for. */
  lemma PublishKeeps(k: Key, v: Option<Policy>)
    requires Inv(k) && Follows(k, v)
    requires forall ip :: Lists(v, ip) ==> ip in k.started
    ensures Inv(Publish(k, v))
  {
    var n := Publish(k, v);
    PublishKeepsLog(k, v);
    PublishKeepsLinks(k, v);
    PublishKeepsCalls(k, v);
    forall ip
      ensures Stored(k.log, ip) ==> Stored(n.log, ip)
      ensures Stored(n.log, ip) ==> ip in n.started
    {
      StoredGrows(k.log, v, ip);
    }
  }

  // ---------------------------------------------------------------- HTTP writers

  lemma CreatePolicyKeeps(k: Key, spec: Spec)
    requires Inv(k)
    ensures Inv(NextCreatePolicy(k, spec))
  {
    if Current(k.log).None? {
      PublishKeeps(k, Some(Policy(k.name, k.rev + 1, k.rev + 1, spec, Status(false, []))));
    }
  }

  lemma DeletePolicyKeeps(k: Key)
    requires Inv(k)
    ensures Inv(NextDeletePolicy(k))
  {
    if Current(k.log).Some? {
      PublishKeeps(k, None);
    }
  }

  lemma CurrentIsStored(k: Key)
    requires Inv(k) && Current(k.log).Some?
    ensures VersionOk(Current(k.log).value, k.name, k.rev)
    ensures forall ip :: ip in Current(k.log).value.status.discoveredViolatorIPs ==> ip in k.started
  {
  }

  /** A status write keeps everything when its list extends the stored one. */
  lemma StoreStatusKeeps(k: Key, status: Status)
    requires Inv(k) && Current(k.log).Some?
    requires Current(k.log).value.status.discoveredViolatorIPs <= status.discoveredViolatorIPs
    requires NoDuplicates(status.discoveredViolatorIPs)
    requires forall ip :: ip in status.discoveredViolatorIPs ==> ip in k.started
    ensures Inv(StoreStatus(k, status))
  {
    CurrentIsStored(k);
    PublishKeeps(k, Some(Current(k.log).value.(status := status, rv := k.rev + 1)));
  }

  lemma PutPolicyKeeps(k: Key, from: nat, spec: Spec, reply: Reply)
    requires Inv(k)
    ensures Inv(NextPutPolicy(k, from, spec, reply))
  {
    if Current(k.log).Some? {
      CurrentIsStored(k);
      PublishKeeps(k, Some(Current(k.log).value.(spec := spec, rv := k.rev + 1)));
    }
  }

  // ---------------------------------------------------------------- agents

  /** Steps of the agents that leave the log alone touch nothing of the reconciler. */
  lemma CallsKeep(k: Key, n: Key)
    requires Inv(k)
    requires n == k.(calls := n.calls, marks := n.marks, markedBy := n.markedBy, results := n.results,
                     started := n.started)
    requires k.started <= n.started && AgentsOk(n)
    ensures Inv(n)
  {
  }

  lemma ReturnKeeps(k: Key, id: nat, outcome: Outcome)
    requires AgentsOk(k) && id in k.calls && !k.calls[id].progress.RollingBack?
    requires ResultOk(k, Decided(k, k.calls[id], outcome))
    requires outcome == Done || outcome == NotFound
    ensures AgentsOk(Return(k, id, outcome))
  {
    assert forall mark :: mark in k.marks ==> MarkOk(k, mark);
  }

  lemma GiveUpKeeps(k: Key, id: nat, outcome: Outcome)
    requires AgentsOk(k) && id in k.calls && !k.calls[id].progress.RollingBack?
    requires ResultOk(k, Decided(k, k.calls[id], outcome))
    ensures AgentsOk(GiveUp(k, id, outcome))
  {
    assert forall mark :: mark in k.marks ==> MarkOk(k, mark);
  }

  /** A call that goes on keeps its agent and its address. */
  lemma ProgressKeeps(k: Key, id: nat, call: Call)
    requires AgentsOk(k) && id in k.calls && !k.calls[id].progress.RollingBack? && !call.progress.RollingBack?
    requires Mark(call) == Mark(k.calls[id])
    requires CallOk(k, call)
    ensures AgentsOk(k.(calls := k.calls[id := call]))
  {
    assert forall mark :: mark in k.marks ==> MarkOk(k, mark);
  }

  lemma BeginKeepsCalls(k: Key, id: nat, agent: nat, ip: string)
    requires CallsOk(k)
    ensures CallsOk(NextBegin(k, id, agent, ip))
  {
    assert forall other :: other in k.calls ==> CallOk(k, k.calls[other]);
  }

  lemma BeginKeepsMarks(k: Key, id: nat, agent: nat, ip: string)
    requires MarksOk(k)
    ensures MarksOk(NextBegin(k, id, agent, ip))
  {
    assert forall mark :: mark in k.marks ==> MarkOk(k, mark);
  }

  lemma BeginKeepsAgents(k: Key, id: nat, agent: nat, ip: string)
    requires AgentsOk(k)
    ensures AgentsOk(NextBegin(k, id, agent, ip))
  {
    BeginKeepsCalls(k, id, agent, ip);
    BeginKeepsMarks(k, id, agent, ip);
    assert forall other :: other in k.results ==> ResultOk(k, k.results[other]);
  }

  lemma BeginKeeps(k: Key, id: nat, agent: nat, ip: string)
    requires Inv(k)
    ensures Inv(NextBegin(k, id, agent, ip))
  {
    hide AgentsOk, LogOk, Linked, StartedOk, WorkOk, RuleOk;
    BeginKeepsAgents(k, id, agent, ip);
    CallsKeep(k, NextBegin(k, id, agent, ip));
  }

  lemma GetKeepsAgents(k: Key, id: nat, ok: bool)
    requires AgentsOk(k) && k.log != []
    ensures AgentsOk(NextGet(k, id, ok))
  {
    if id in k.calls && k.calls[id].progress.Reading? {
      var call := k.calls[id];
      assert CallOk(k, call);
      var current := Current(k.log);
      if !ok {
        GiveUpKeeps(k, id, Error);
      } else if current.None? {
        ReturnKeeps(k, id, NotFound);
      } else if call.ip in current.value.status.discoveredViolatorIPs {
        ReturnKeeps(k, id, Done);
      } else {
        ProgressKeeps(k, id, call.(progress := Writing(current.value, |k.log| - 1)));
      }
    }
  }

  lemma GetKeeps(k: Key, id: nat, ok: bool)
    requires Inv(k)
    ensures Inv(NextGet(k, id, ok))
  {
    GetKeepsAgents(k, id, ok);
    CallsKeep(k, NextGet(k, id, ok));
  }

  /** An accepted agent write adds exactly its own address to the current list. */
  lemma AppendedKeeps(k: Key, id: nat)
    requires Inv(k) && id in k.calls && k.calls[id].progress.Writing?
    requires Check(k, k.calls[id].progress.copy).Done?
    ensures Inv(Appended(k, k.calls[id]))
    ensures Lists(Current(Appended(k, k.calls[id]).log), k.calls[id].ip)
    ensures id in Appended(k, k.calls[id]).calls
    ensures Appended(k, k.calls[id]).calls == k.calls
  {
    var call := k.calls[id];
    assert CallOk(k, call);
    SameVersion(k, call.progress.at);
    CurrentIsStored(k);
    var status := call.progress.copy.status;
    StoreStatusKeeps(k, status.(discoveredViolatorIPs := status.discoveredViolatorIPs + [call.ip]));
  }

  lemma AcceptedWriteKeeps(k: Key, id: nat, reply: Reply)
    requires Inv(k) && id in k.calls && k.calls[id].progress.Writing?
    requires Check(k, k.calls[id].progress.copy).Done? && !reply.Failed?
    ensures Inv(NextWrite(k, id, reply))
  {
    AppendedKeeps(k, id);
    var k1 := Appended(k, k.calls[id]);
    assert CallOk(k1, k.calls[id]);
    if reply.Answered? {
      ReturnKeeps(k1, id, Done);
    } else {
      GiveUpKeeps(k1, id, Error);
    }
    CallsKeep(k1, NextWrite(k, id, reply));
  }

  /** A write that fails or is refused leaves the log alone. */
  lemma RefusedWriteKeeps(k: Key, id: nat, reply: Reply)
    requires AgentsOk(k) && k.log != [] && id in k.calls && k.calls[id].progress.Writing?
    requires reply.Failed? || !Check(k, k.calls[id].progress.copy).Done?
    ensures AgentsOk(NextWrite(k, id, reply))
  {
    hide MarksOk, ResultsOk;
    var call := k.calls[id];
    assert CallOk(k, call);
    var verdict := Check(k, call.progress.copy);
    if !reply.Answered? {
      GiveUpKeeps(k, id, Error);
    } else if verdict.NotFound? {
      ReturnKeeps(k, id, NotFound);
    } else {
      ConflictMeansGrowth(k, call);
      if call.conflicts + 1 < k.limit {
        ProgressKeeps(k, id, call.(progress := Reading, conflicts := call.conflicts + 1));
      } else {
        GiveUpKeeps(k, id, Conflict);
      }
    }
  }

  lemma WriteKeeps(k: Key, id: nat, reply: Reply)
    requires Inv(k)
    ensures Inv(NextWrite(k, id, reply))
  {
    if id in k.calls && k.calls[id].progress.Writing? {
      if Check(k, k.calls[id].progress.copy).Done? && !reply.Failed? {
        AcceptedWriteKeeps(k, id, reply);
      } else {
        RefusedWriteKeeps(k, id, reply);
        CallsKeep(k, NextWrite(k, id, reply));
      }
    }
  }

  /** A conflict is always the work of another write, one that landed after this attempt's read. */
  lemma ConflictMeansGrowth(k: Key, call: Call)
    requires CallOk(k, call) && call.progress.Writing?
    requires Check(k, call.progress.copy).Conflict?
    ensures call.conflicts + 1 <= |k.log| - call.start
  {
  }

  lemma RollbackKeepsAgents(k: Key, id: nat)
    requires AgentsOk(k)
    ensures AgentsOk(NextRollback(k, id))
  {
    assert forall mark :: mark in k.marks ==> MarkOk(k, mark);
  }

  lemma RollbackKeeps(k: Key, id: nat)
    requires Inv(k)
    ensures Inv(NextRollback(k, id))
  {
    RollbackKeepsAgents(k, id);
    CallsKeep(k, NextRollback(k, id));
  }

  lemma RestartKeepsAgents(k: Key, agent: nat)
    requires AgentsOk(k)
    ensures AgentsOk(NextRestart(k, agent))
  {
    assert forall id :: id in NextRestart(k, agent).calls ==> CallOk(k, k.calls[id]);
    assert forall mark :: mark in k.marks ==> MarkOk(k, mark);
  }

  lemma RestartKeeps(k: Key, agent: nat)
    requires Inv(k)
    ensures Inv(NextRestart(k, agent))
  {
    RestartKeepsAgents(k, agent);
    CallsKeep(k, NextRestart(k, agent));
  }

  // ---------------------------------------------------------------- reconciler

  /** Steps of the reconciler that leave the log alone touch neither calls nor marks. */
  lemma RuleKeeps(k: Key, n: Key)
    requires Inv(k)
    requires n == k.(rev := n.rev, rule := n.rule, source := n.source, cursor := n.cursor, work := n.work)
    requires k.rev <= n.rev && WorkOk(n) && RuleOk(n)
    ensures Inv(n)
  {
  }

  lemma WriteStatusKeeps(k: Key, reply: Reply)
    requires Inv(k)
    ensures Inv(NextWriteStatus(k, reply))
  {
    var k1 := k.(work := Idle);
    RuleKeeps(k, k1);
    if k.work.Finishing? && Check(k, k.work.copy).Done? {
      SameVersion(k, k.cursor);
      CurrentIsStored(k);
      StoreStatusKeeps(k1, k.work.copy.status.(ready := true));
    }
  }

  lemma FetchKeeps(k: Key, at: nat)
    requires Inv(k)
    ensures Inv(NextFetch(k, at))
  {
  }

  lemma GetRuleKeeps(k: Key, ok: bool)
    requires Inv(k)
    ensures Inv(NextGetRule(k, ok))
  {
    hide LogOk, Linked, StartedOk, AgentsOk;
    RuleKeeps(k, NextGetRule(k, ok));
  }

  lemma CreateRuleKeeps(k: Key, reply: Reply)
    requires Inv(k)
    ensures Inv(NextCreateRule(k, reply))
  {
    hide LogOk, Linked, StartedOk, AgentsOk;
    RuleKeeps(k, NextCreateRule(k, reply));
  }

  lemma UpdateRuleKeeps(k: Key, reply: Reply)
    requires Inv(k)
    ensures Inv(NextUpdateRule(k, reply))
  {
    hide LogOk, Linked, StartedOk, AgentsOk;
    RuleKeeps(k, NextUpdateRule(k, reply));
  }

  lemma DeleteRuleKeeps(k: Key, reply: Reply)
    requires Inv(k)
    ensures Inv(NextDeleteRule(k, reply))
  {
    hide LogOk, Linked, StartedOk, AgentsOk;
    RuleKeeps(k, NextDeleteRule(k, reply));
  }

  lemma ClusterStepKeeps(k: Key, s: Step)
    requires Inv(k)
    requires s.Abort? || s.CollectGarbage? || s.Tick?
    ensures Inv(Next(k, s))
  {
    RuleKeeps(k, Next(k, s));
  }

  // ---------------------------------------------------------------- all steps

  lemma NextKeeps(k: Key, s: Step)
    requires Inv(k)
    ensures Inv(Next(k, s))
  {
    match s
    case CreatePolicy(spec) => CreatePolicyKeeps(k, spec);
    case PutPolicy(from, spec, reply) => PutPolicyKeeps(k, from, spec, reply);
    case DeletePolicy => DeletePolicyKeeps(k);
    case Begin(id, agent, ip) => BeginKeeps(k, id, agent, ip);
    case Get(id, ok) => GetKeeps(k, id, ok);
    case Write(id, reply) => WriteKeeps(k, id, reply);
    case Rollback(id) => RollbackKeeps(k, id);
    case Restart(agent) => RestartKeeps(k, agent);
    case WriteStatus(reply) => WriteStatusKeeps(k, reply);
    case Abort => ClusterStepKeeps(k, s);
    case CollectGarbage => ClusterStepKeeps(k, s);
    case Tick(_) => ClusterStepKeeps(k, s);
    case Fetch(at) => FetchKeeps(k, at);
    case GetRule(ok) => GetRuleKeeps(k, ok);
    case CreateRule(reply) => CreateRuleKeeps(k, reply);
    case UpdateRule(reply) => UpdateRuleKeeps(k, reply);
    case DeleteRule(reply) => DeleteRuleKeeps(k, reply);
  }

  lemma InitHolds(name: string, limit: nat, rev: nat)
    requires 0 < limit
    ensures Inv(Init(name, limit, rev))
  {
  }

  lemma {:induction false} RunKeeps(k: Key, steps: seq<Step>)
    requires Inv(k)
    ensures Inv(Run(k, steps))
    decreases |steps|
  {
    if steps != [] {
      RunKeeps(k, steps[..|steps| - 1]);
      NextKeeps(Run(k, steps[..|steps| - 1]), steps[|steps| - 1]);
    }
  }

  /** Some run, from a name without history, ends in k. */
  ghost predicate Reachable(k: Key) {
    exists limit: nat, rev: nat, steps :: 0 < limit && RunsTo(Init(k.name, limit, rev), steps, k)
  }

  ghost predicate RunsTo(from: Key, steps: seq<Step>, to: Key) {
    Run(from, steps) == to
  }

  /** Every state of every run satisfies the invariant. */
  lemma ReachableHolds(k: Key)
    requires Reachable(k)
    ensures Inv(k)
  {
    var limit: nat, rev: nat, steps :| 0 < limit && RunsTo(Init(k.name, limit, rev), steps, k);
    InitHolds(k.name, limit, rev);
    RunKeeps(Init(k.name, limit, rev), steps);
  }
}
