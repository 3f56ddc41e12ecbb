/** Everything that touches one policy name, as a step machine: the API server, the agents inside
    ReportViolator, the policy reconciler and the HTTP writers.

    The API server keeps the whole history of the name in `log`: entry i is the i-th state the name
    has had, None while no policy exists.  The last entry is the current state.  A read through a cache
    returns some earlier entry; the one worker that reconciles this name never reads backwards.
    A writer that keeps nothing between two requests may have read any entry at all. */
module PolicyProtocol {
  import opened Policies

  /** What ReportViolator returns. */
  datatype Outcome = Done | NotFound | Conflict | Error

  /** Where a call of ReportViolator stands; `at` is the log index of the copy it holds. */
  datatype Progress = Reading | Writing(copy: Policy, at: nat) | RollingBack

  /** A call of ReportViolator that has marked its key.  `start` is the length of the log when it began. */
  datatype Call = Call(agent: nat, ip: string, progress: Progress, conflicts: nat, start: nat)

  /** A decided call; `end` is the length of the log when it was decided. */
  datatype Result = Result(agent: nat, ip: string, outcome: Outcome, start: nat, end: nat)

  /** Where the reconciler of this name stands; it holds the copy it fetched. */
  datatype Work =
    | Idle
    | Fetched(copy: Policy)
    | Creating(copy: Policy)
    | Updating(copy: Policy, rv: nat)
    | Deleting(copy: Policy)
    | Finishing(copy: Policy)

  datatype Key = Key(
    name: string,
    limit: nat,                  // attempts of retry.RetryOnConflict
    rev: nat,                    // revision of the whole API server
    log: seq<Option<Policy>>,
    rule: Option<Rule>,          // the object RuleName(name)
    cursor: nat,                 // where the cache of the reconciler stands
    work: Work,
    calls: map<nat, Call>,
    marks: set<(nat, string)>,   // the reportedIPs entries of every agent
    // history, read by no step
    source: nat,                 // log index of the version the rule was written from
    started: set<string>,        // addresses for which a call began
    markedBy: map<(nat, string), nat>, // the call that set a mark last
    results: map<nat, Result>)

  datatype Step =
    | CreatePolicy(spec: Spec)
    | PutPolicy(from: nat, spec: Spec, reply: Reply)
    | DeletePolicy
    | Begin(call: nat, agent: nat, ip: string)
    | Get(call: nat, ok: bool)
    | Write(call: nat, reply: Reply)
    | Rollback(call: nat)
    | Restart(agent: nat)
    | Fetch(at: nat)
    | GetRule(ok: bool)
    | CreateRule(reply: Reply)
    | UpdateRule(reply: Reply)
    | DeleteRule(reply: Reply)
    | WriteStatus(reply: Reply)
    | Abort
    | CollectGarbage
    | Tick(rev: nat)

  // ---------------------------------------------------------------- API server

  function Init(name: string, limit: nat, rev: nat): Key {
    Key(name, limit, rev, [None], None, 0, Idle, map[], {}, 0, {}, map[], map[])
  }

  function Current(log: seq<Option<Policy>>): Option<Policy> {
    if log == [] then None else log[|log| - 1]
  }

  function Publish(k: Key, v: Option<Policy>): Key {
    k.(rev := k.rev + 1, log := k.log + [v])
  }

  /** How the server judges a write made from `copy`. */
  function Check(k: Key, copy: Policy): Outcome {
    var current := Current(k.log);
    if current.None? then NotFound else if current.value.rv != copy.rv then Conflict else Done
  }

  /** An accepted write to the status subresource: the whole status is replaced, the spec is not. */
  function StoreStatus(k: Key, status: Status): Key
    requires Current(k.log).Some?
  {
    var current := Current(k.log).value;
    if current.status == status then k
    else Publish(k, Some(current.(status := status, rv := k.rev + 1)))
  }

  /** An accepted write to the main resource: the spec is replaced, the status is not. */
  function StoreSpec(k: Key, spec: Spec): Key
    requires Current(k.log).Some?
  {
    var current := Current(k.log).value;
    if current.spec == spec then k
    else Publish(k, Some(current.(spec := spec, rv := k.rev + 1)))
  }

  function StoreRule(k: Key, rule: Rule): Key {
    k.(rule := Some(rule.(rv := k.rev + 1)), source := k.cursor, rev := k.rev + 1)
  }

  // ---------------------------------------------------------------- HTTP writers

  function NextCreatePolicy(k: Key, spec: Spec): Key {
    if Current(k.log).Some? then k
    else Publish(k, Some(Policy(k.name, k.rev + 1, k.rev + 1, spec, Status(false, []))))
  }

  function NextDeletePolicy(k: Key): Key {
    if Current(k.log).None? then k else Publish(k, None)
  }

  /** updatePolicy read log entry `from` at some earlier time and now sends `spec`. */
  function NextPutPolicy(k: Key, from: nat, spec: Spec, reply: Reply): Key {
    if from < |k.log| && k.log[from].Some? && Check(k, k.log[from].value).Done? && !reply.Failed?
    then StoreSpec(k, spec) else k
  }

  // ---------------------------------------------------------------- agents

  /** The reportedIPs entry that a call has set. */
  function Mark(call: Call): (nat, string) {
    (call.agent, call.ip)
  }

  function Decided(k: Key, call: Call, outcome: Outcome): Result {
    Result(call.agent, call.ip, outcome, call.start, |k.log|)
  }

  /** The call returns and keeps its mark. */
  function Return(k: Key, id: nat, outcome: Outcome): Key
    requires id in k.calls
  {
    var call := k.calls[id];
    k.(results := k.results[id := Decided(k, call, outcome)],
       calls := k.calls - {id})
  }

  /** The call has failed and still has to take its mark back. */
  function GiveUp(k: Key, id: nat, outcome: Outcome): Key
    requires id in k.calls
  {
    var call := k.calls[id];
    k.(results := k.results[id := Decided(k, call, outcome)],
       calls := k.calls[id := call.(progress := RollingBack)])
  }

  /** The check-and-mark section.  A call that finds the mark returns at once and leaves no trace. */
  function NextBegin(k: Key, id: nat, agent: nat, ip: string): Key {
    if (agent, ip) in k.marks || id in k.calls || id in k.results then k
    else k.(marks := k.marks + {(agent, ip)},
            started := k.started + {ip},
            markedBy := k.markedBy[(agent, ip) := id],
            calls := k.calls[id := Call(agent, ip, Reading, 0, |k.log|)])
  }

  function NextGet(k: Key, id: nat, ok: bool): Key {
    if id !in k.calls || !k.calls[id].progress.Reading? then k
    else if !ok then GiveUp(k, id, Error)
    else
      var call := k.calls[id];
      var current := Current(k.log);
      if current.None? then Return(k, id, NotFound)
      else if call.ip in current.value.status.discoveredViolatorIPs then Return(k, id, Done)
      else k.(calls := k.calls[id := call.(progress := Writing(current.value, |k.log| - 1))])
  }

  function Appended(k: Key, call: Call): Key
    requires call.progress.Writing? && Current(k.log).Some?
  {
    var status := call.progress.copy.status;
    StoreStatus(k, status.(discoveredViolatorIPs := status.discoveredViolatorIPs + [call.ip]))
  }

  function NextWrite(k: Key, id: nat, reply: Reply): Key {
    if id !in k.calls || !k.calls[id].progress.Writing? then k
    else
      var call := k.calls[id];
      var verdict := Check(k, call.progress.copy);
      if reply.Failed? then GiveUp(k, id, Error)
      else if verdict.Done? then
        var k1 := Appended(k, call);
        if reply.Answered? then Return(k1, id, Done) else GiveUp(k1, id, Error)
      else if reply.Lost? then GiveUp(k, id, Error)
      else if verdict.NotFound? then Return(k, id, NotFound)
      else if call.conflicts + 1 < k.limit then
        k.(calls := k.calls[id := call.(progress := Reading, conflicts := call.conflicts + 1)])
      else GiveUp(k, id, Conflict)
  }

  function NextRollback(k: Key, id: nat): Key {
    if id !in k.calls || !k.calls[id].progress.RollingBack? then k
    else k.(marks := k.marks - {Mark(k.calls[id])}, calls := k.calls - {id})
  }

  /** The agent process dies at any point: its cache and its calls are gone. */
  function NextRestart(k: Key, agent: nat): Key {
    k.(marks := (set m | m in k.marks && m.0 != agent),
       calls := (map id | id in k.calls && k.calls[id].agent != agent :: k.calls[id]))
  }

  // ---------------------------------------------------------------- reconciler

  function NextFetch(k: Key, at: nat): Key {
    if !k.work.Idle? || at < k.cursor || |k.log| <= at then k
    else k.(cursor := at, work := if k.log[at].Some? then Fetched(k.log[at].value) else Idle)
  }

  /** The branch without a rule does not look at why its Get failed. */
  function NextGetRule(k: Key, ok: bool): Key {
    if !k.work.Fetched? then k
    else
      var copy := k.work.copy;
      if DesiredRule(copy).Some? then
        if !ok then k.(work := Idle)
        else if k.rule.None? then k.(work := Creating(copy))
        else k.(work := Updating(copy, k.rule.value.rv))
      else if ok && k.rule.Some? then k.(work := Deleting(copy))
      else k.(work := Finishing(copy))
  }

  function AfterRequest(k: Key, reply: Reply): Key
    requires !k.work.Idle?
  {
    k.(work := if reply.Answered? then Finishing(k.work.copy) else Idle)
  }

  function NextCreateRule(k: Key, reply: Reply): Key {
    if !k.work.Creating? then k
    else if reply.Failed? || k.rule.Some? || DesiredRule(k.work.copy).None? then k.(work := Idle)
    else AfterRequest(StoreRule(k, Rule(0, k.work.copy.uid, DesiredRule(k.work.copy).value)), reply)
  }

  function NextUpdateRule(k: Key, reply: Reply): Key {
    if !k.work.Updating? then k
    else if reply.Failed? || k.rule.None? || k.rule.value.rv != k.work.rv || DesiredRule(k.work.copy).None?
    then k.(work := Idle)
    else
      var rule := Rule(k.rule.value.rv, k.work.copy.uid, DesiredRule(k.work.copy).value);
      AfterRequest(if rule == k.rule.value then k.(source := k.cursor) else StoreRule(k, rule), reply)
  }

  /** Delete carries no precondition: it removes whatever rule is there. */
  function NextDeleteRule(k: Key, reply: Reply): Key {
    if !k.work.Deleting? then k
    else if reply.Failed? || k.rule.None? then k.(work := Idle)
    else AfterRequest(k.(rule := None, rev := k.rev + 1), reply)
  }

  function NextWriteStatus(k: Key, reply: Reply): Key {
    if !k.work.Finishing? then k
    else
      var copy := k.work.copy;
      var k1 := k.(work := Idle);
      if reply.Failed? || !Check(k, copy).Done? then k1
      else StoreStatus(k1, copy.status.(ready := true))
  }

  // ---------------------------------------------------------------- cluster

  /** The garbage collector removes a rule whose owner is gone. */
  function NextCollectGarbage(k: Key): Key {
    if k.rule.Some? && (Current(k.log).None? || Current(k.log).value.uid != k.rule.value.ownerUid)
    then k.(rule := None, rev := k.rev + 1) else k
  }

  function Next(k: Key, s: Step): Key {
    match s
    case CreatePolicy(spec) => NextCreatePolicy(k, spec)
    case PutPolicy(from, spec, reply) => NextPutPolicy(k, from, spec, reply)
    case DeletePolicy => NextDeletePolicy(k)
    case Begin(id, agent, ip) => NextBegin(k, id, agent, ip)
    case Get(id, ok) => NextGet(k, id, ok)
    case Write(id, reply) => NextWrite(k, id, reply)
    case Rollback(id) => NextRollback(k, id)
    case Restart(agent) => NextRestart(k, agent)
    case Fetch(at) => NextFetch(k, at)
    case GetRule(ok) => NextGetRule(k, ok)
    case CreateRule(reply) => NextCreateRule(k, reply)
    case UpdateRule(reply) => NextUpdateRule(k, reply)
    case DeleteRule(reply) => NextDeleteRule(k, reply)
    case WriteStatus(reply) => NextWriteStatus(k, reply)
    case Abort => k.(work := Idle)
    case CollectGarbage => NextCollectGarbage(k)
    case Tick(rev) => if k.rev <= rev then k.(rev := rev) else k
  }

  function Run(k: Key, steps: seq<Step>): Key
    decreases |steps|
  {
    if steps == [] then k else Next(Run(k, steps[..|steps| - 1]), steps[|steps| - 1])
  }
}
