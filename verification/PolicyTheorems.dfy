/** What the policy protocol guarantees over every run, whatever the interleaving, the losses and the crashes. */
module PolicyTheorems {
  import opened Policies
  import opened PolicyProtocol
  import opened PolicyInvariant

  predicate AgentStep(s: Step) {
    s.Begin? || s.Get? || s.Write? || s.Rollback? || s.Restart?
  }

  /** A step that may store a version of the policy. */
  predicate StoringStep(s: Step) {
    s.CreatePolicy? || s.PutPolicy? || s.DeletePolicy? || s.Write? || s.WriteStatus?
  }

  /** What a step leaves alone, whatever the state. */
  ghost predicate Frame(k: Key, s: Step, n: Key) {
    && n.name == k.name && n.limit == k.limit && k.cursor <= n.cursor
    && (!s.Begin? ==> n.started == k.started)
    && (!s.Write? ==> k.log <= n.log)
    && (!StoringStep(s) ==> n.log == k.log && k.rev <= n.rev)
    && (!AgentStep(s) ==> n.calls == k.calls && n.marks == k.marks && n.results == k.results)
  }

  lemma AgentFrame(k: Key, s: Step)
    requires AgentStep(s)
    ensures Frame(k, s, Next(k, s))
  {
    match s
    case Begin(_, _, _) =>
    case Get(_, _) =>
    case Write(_, _) =>
    case Rollback(_) =>
    case Restart(_) =>
  }

  lemma StoringFrame(k: Key, s: Step)
    requires StoringStep(s) && !s.Write?
    ensures Frame(k, s, Next(k, s))
  {
    match s
    case CreatePolicy(_) =>
    case PutPolicy(_, _, _) =>
    case DeletePolicy =>
    case WriteStatus(_) =>
  }

  lemma RuleFrame(k: Key, s: Step)
    requires s.CreateRule? || s.UpdateRule? || s.DeleteRule?
    ensures Frame(k, s, Next(k, s))
  {
    hide DesiredRule;
    match s
    case CreateRule(_) =>
    case UpdateRule(_) =>
    case DeleteRule(_) =>
  }

  lemma QuietFrame(k: Key, s: Step)
    requires s.Fetch? || s.GetRule? || s.Abort? || s.CollectGarbage? || s.Tick?
    ensures Frame(k, s, Next(k, s))
  {
    hide DesiredRule;
    match s
    case Fetch(_) =>
    case GetRule(_) =>
    case Abort =>
    case CollectGarbage =>
    case Tick(_) =>
  }

  lemma StepFrame(k: Key, s: Step)
    ensures Frame(k, s, Next(k, s))
  {
    hide Next, Frame;
    if AgentStep(s) {
      AgentFrame(k, s);
    } else if StoringStep(s) {
      StoringFrame(k, s);
    } else if s.CreateRule? || s.UpdateRule? || s.DeleteRule? {
      RuleFrame(k, s);
    } else {
      QuietFrame(k, s);
    }
  }

  // ---------------------------------------------------------------- discovered lists

  /** The step is an agent write that the server applied, answered or not. */
  ghost predicate AppliedWrite(k: Key, s: Step) {
    s.Write? && s.call in k.calls && k.calls[s.call].progress.Writing?
    && Check(k, k.calls[s.call].progress.copy).Done? && !s.reply.Failed?
  }

  function ListOf(v: Option<Policy>): seq<string> {
    if v.Some? then v.value.status.discoveredViolatorIPs else []
  }

  /** What one step may do to the log: nothing, or append one state.  A new state is a deletion, a fresh
      incarnation with an empty list, the applied write of an agent, or leaves the list as it was. */
  ghost predicate Effect(k: Key, s: Step, log: seq<Option<Policy>>, rev: nat) {
    if log == k.log then k.rev <= rev && !AppliedWrite(k, s)
    else
      && |log| == |k.log| + 1 && k.log <= log && rev == k.rev + 1
      && var was, now := Current(k.log), Current(log);
         if now.None? then was.Some? && !AppliedWrite(k, s)
         else if was.None? then now.value.uid == rev && ListOf(now) == [] && !AppliedWrite(k, s)
         else
           && now.value.uid == was.value.uid
           && ListOf(now) == ListOf(was) + if AppliedWrite(k, s) then [k.calls[s.call].ip] else []
  }

  lemma WriteEffect(k: Key, id: nat, reply: Reply)
    requires Inv(k)
    ensures Effect(k, Write(id, reply), NextWrite(k, id, reply).log, NextWrite(k, id, reply).rev)
  {
    hide MarksOk, ResultsOk, Linked, RuleOk, WorkOk, StartedOk;
    if id in k.calls && k.calls[id].progress.Writing? {
      var call := k.calls[id];
      assert CallOk(k, call);
      if Check(k, call.progress.copy).Done? {
        SameVersion(k, call.progress.at);
        assert |ListOf(k.log[call.progress.at]) + [call.ip]| == |ListOf(k.log[call.progress.at])| + 1;
      }
    }
  }

  lemma WriteStatusEffect(k: Key, reply: Reply)
    requires Inv(k)
    ensures Effect(k, WriteStatus(reply), NextWriteStatus(k, reply).log, NextWriteStatus(k, reply).rev)
  {
  }

  lemma PutEffect(k: Key, from: nat, spec: Spec, reply: Reply)
    ensures var n := NextPutPolicy(k, from, spec, reply); Effect(k, PutPolicy(from, spec, reply), n.log, n.rev)
  {
  }

  /** Only an applied agent write changes the list of an incarnation, and it adds the address of its call:
      a reconciler that writes back a whole status and a PUT that writes a whole object change nothing in it. */
  lemma StepEffect(k: Key, s: Step)
    requires Inv(k)
    ensures Effect(k, s, Next(k, s).log, Next(k, s).rev)
  {
    match s
    case Write(id, reply) => WriteEffect(k, id, reply);
    case WriteStatus(reply) => WriteStatusEffect(k, reply);
    case PutPolicy(from, spec, reply) => PutEffect(k, from, spec, reply);
    case CreatePolicy(_) =>
    case DeletePolicy =>
    case _ => StepFrame(k, s);
  }

  /** History is never rewritten. */
  lemma {:induction false} LogGrows(k: Key, steps: seq<Step>)
    requires Inv(k)
    ensures k.log <= Run(k, steps).log && k.rev <= Run(k, steps).rev
    decreases |steps|
  {
    if steps != [] {
      var before := steps[..|steps| - 1];
      LogGrows(k, before);
      RunKeeps(k, before);
      StepEffect(Run(k, before), steps[|steps| - 1]);
    }
  }

  /** No lost updates: within one incarnation every stored list is a prefix of every later one,
      and no list ever repeats an address. */
  lemma NoLostUpdates(k: Key, i: nat, j: nat)
    requires Reachable(k)
    requires i <= j < |k.log| && k.log[i].Some? && k.log[j].Some? && k.log[i].value.uid == k.log[j].value.uid
    ensures ListOf(k.log[i]) <= ListOf(k.log[j])
    ensures NoDuplicates(ListOf(k.log[j]))
  {
    ReachableHolds(k);
    assert VersionOk(k.log[j].value, k.name, k.rev);
    assert i < j ==> Precedes(k.log[i].value, k.log[j].value);
  }

  /** The addresses of the agent writes that a run applied to incarnation `uid`, in order. */
  ghost function AppliedTo(k: Key, steps: seq<Step>, uid: nat): seq<string>
    decreases |steps|
  {
    if steps == [] then []
    else
      var before, last := steps[..|steps| - 1], steps[|steps| - 1];
      var mid := Run(k, before);
      AppliedTo(k, before, uid) +
      if AppliedWrite(mid, last) && Current(mid.log).value.uid == uid then [mid.calls[last.call].ip] else []
  }

  /** No write is applied to an incarnation before it exists. */
  lemma {:induction false} NothingBeforeCreation(k: Key, steps: seq<Step>, uid: nat)
    requires Inv(k) && Run(k, steps).rev < uid
    ensures AppliedTo(k, steps, uid) == []
    decreases |steps|
  {
    if steps != [] {
      var before := steps[..|steps| - 1];
      var mid := Run(k, before);
      RunKeeps(k, before);
      StepEffect(mid, steps[|steps| - 1]);
      NothingBeforeCreation(k, before, uid);
      if Current(mid.log).Some? {
        CurrentIsStored(mid);
      }
    }
  }

  /** Exactly once: the list of an incarnation is the sequence of the agent writes that were applied to it,
      counting those whose answer was lost and none twice. */
  lemma {:induction false} ExactlyOnce(k: Key, steps: seq<Step>)
    requires Reachable(k) && Current(k.log).None?
    requires Current(Run(k, steps).log).Some?
    ensures ListOf(Current(Run(k, steps).log)) == AppliedTo(k, steps, Current(Run(k, steps).log).value.uid)
    decreases |steps|
  {
    ReachableHolds(k);
    if steps != [] {
      var before := steps[..|steps| - 1];
      var mid := Run(k, before);
      RunKeeps(k, before);
      StepEffect(mid, steps[|steps| - 1]);
      if Current(mid.log).Some? {
        ExactlyOnce(k, before);
      } else {
        NothingBeforeCreation(k, before, Current(Run(k, steps).log).value.uid);
      }
    }
  }

  // ---------------------------------------------------------------- the blocklist

  /** The list of an earlier entry is a prefix of that of a later one of the same incarnation. */
  lemma EarlierCidrs(log: seq<Option<Policy>>, name: string, rev: nat, i: nat, j: nat)
    requires LogOk(log, name, rev) && i <= j < |log|
    requires log[i].Some? && log[j].Some? && log[i].value.uid == log[j].value.uid
    ensures Cidrs(log[i].value.status.discoveredViolatorIPs) <= Cidrs(log[j].value.status.discoveredViolatorIPs)
  {
    assert i < j ==> Precedes(log[i].value, log[j].value);
    CidrsMonotone(log[i].value.status.discoveredViolatorIPs, log[j].value.status.discoveredViolatorIPs);
  }

  /** In every reachable state the rule lists a prefix of the list of its owner: of the current list while the
      owner is the current incarnation, and of some stored version of the owner in any case. */
  lemma BlocklistLag(k: Key)
    requires Reachable(k) && k.rule.Some?
    ensures exists i :: 0 <= i < |k.log| && OwnedCopy(k.log[i], k.rule.value)
    ensures Current(k.log).Some? && Current(k.log).value.uid == k.rule.value.ownerUid ==>
              k.rule.value.body.values <= Cidrs(Current(k.log).value.status.discoveredViolatorIPs)
    ensures k.rule.value.body.values != []
  {
    ReachableHolds(k);
    assert OwnedCopy(k.log[k.source], k.rule.value);
    if Current(k.log).Some? && Current(k.log).value.uid == k.rule.value.ownerUid {
      EarlierCidrs(k.log, k.name, k.rev, k.source, |k.log| - 1);
    }
  }

  ghost predicate OwnedCopy(v: Option<Policy>, rule: Rule) {
    v.Some? && v.value.uid == rule.ownerUid && DesiredRule(v.value) == Some(rule.body)
  }

  /** Every version of the incarnation from entry `from` on asks for blocking. */
  ghost predicate BlockingFrom(log: seq<Option<Policy>>, from: nat, uid: nat) {
    forall i :: from <= i < |log| && log[i].Some? && log[i].value.uid == uid ==> Blocking(log[i].value.spec.actions)
  }

  /** A version that the reconciler reads after the one the rule was written from, of the same incarnation, asks for
      at least the same rule if it asks for blocking. */
  lemma LaterCopyAsksForMore(k: Key)
    requires LogOk(k.log, k.name, k.rev) && WorkOk(k) && RuleOk(k) && k.rule.Some? && !k.work.Idle?
    requires Current(k.log).Some? && Current(k.log).value.uid == k.rule.value.ownerUid
    ensures k.work.copy.uid == k.rule.value.ownerUid
    ensures DesiredRule(k.work.copy).Some? <==> Blocking(k.work.copy.spec.actions)
    ensures DesiredRule(k.work.copy).Some? ==> k.rule.value.body.values <= DesiredRule(k.work.copy).value.values
  {
    var last := |k.log| - 1;
    assert k.source < k.cursor ==> Precedes(k.log[k.source].value, k.log[k.cursor].value);
    assert k.cursor < last ==> Precedes(k.log[k.cursor].value, k.log[last].value);
    EarlierCidrs(k.log, k.name, k.rev, k.source, k.cursor);
    KernelActionExact(k.work.copy.spec.actions);
  }

  /** What a step does to the rule of the current incarnation: it keeps or extends its list, or it is a Delete by a
      reconciler whose copy does not ask for blocking.  No update ever shortens a blocklist. */
  lemma RuleGrowsByStep(k: Key, s: Step)
    requires LogOk(k.log, k.name, k.rev) && WorkOk(k) && RuleOk(k) && k.rule.Some?
    requires Current(k.log).Some? && Current(k.log).value.uid == k.rule.value.ownerUid
    ensures Next(k, s).rule.None? <==>
              s.DeleteRule? && !s.reply.Failed? && k.work.Deleting? && !Blocking(k.work.copy.spec.actions)
    ensures Next(k, s).rule.Some? ==>
              && Next(k, s).rule.value.ownerUid == k.rule.value.ownerUid
              && k.rule.value.body.values <= Next(k, s).rule.value.body.values
  {
    if !k.work.Idle? {
      LaterCopyAsksForMore(k);
    }
  }

  /** An incarnation that is current after a step and older than it was current before the step. */
  lemma OwnerLivedBefore(k: Key, s: Step, uid: nat)
    requires Inv(k) && uid <= k.rev && Current(Next(k, s).log).Some? && Current(Next(k, s).log).value.uid == uid
    ensures Current(k.log).Some? && Current(k.log).value.uid == uid
    ensures k.log <= Next(k, s).log
  {
    StepEffect(k, s);
  }

  /** The rule of k is still there, and its list has at most grown. */
  ghost predicate Grown(k: Key, n: Key)
    requires k.rule.Some?
  {
    && k.cursor <= n.cursor
    && n.rule.Some? && n.rule.value.ownerUid == k.rule.value.ownerUid
    && k.rule.value.body.values <= n.rule.value.body.values
  }

  /** The incarnation is current and asks for blocking from entry `from` on. */
  ghost predicate KeepsBlocking(log: seq<Option<Policy>>, from: nat, uid: nat) {
    Current(log).Some? && Current(log).value.uid == uid && BlockingFrom(log, from, uid)
  }

  lemma GrownByStep(k: Key, mid: Key, s: Step)
    requires Inv(mid) && k.rule.Some? && Grown(k, mid)
    requires KeepsBlocking(mid.log, k.cursor, k.rule.value.ownerUid)
    ensures Grown(k, Next(mid, s))
  {
    RuleGrowsByStep(mid, s);
    StepFrame(mid, s);
  }

  lemma KeptBlockingBefore(k: Key, s: Step, from: nat, uid: nat)
    requires Inv(k) && uid <= k.rev && KeepsBlocking(Next(k, s).log, from, uid)
    ensures KeepsBlocking(k.log, from, uid)
  {
    OwnerLivedBefore(k, s, uid);
    assert forall i :: 0 <= i < |k.log| ==> k.log[i] == Next(k, s).log[i];
  }

  /** While the policy asks for blocking its blocklist never shrinks: over any run in which the policy lives, and in
      which it asks for blocking from the version on that the reconciler read last, the rule stays and only grows.
      Earlier versions may have asked for anything. */
  lemma {:induction false} BlocklistOnlyGrows(k: Key, steps: seq<Step>)
    requires Reachable(k) && k.rule.Some?
    requires KeepsBlocking(Run(k, steps).log, k.cursor, k.rule.value.ownerUid)
    ensures Grown(k, Run(k, steps))
    decreases |steps|
  {
    if steps != [] {
      var before, s := steps[..|steps| - 1], steps[|steps| - 1];
      RunAfterReachable(k, before);
      KeptBlockingBefore(Run(k, before), s, k.cursor, k.rule.value.ownerUid);
      BlocklistOnlyGrows(k, before);
      GrownByStep(k, Run(k, before), s);
    }
  }

  lemma RunAfterReachable(k: Key, steps: seq<Step>)
    requires Reachable(k)
    ensures Inv(Run(k, steps)) && (k.rule.Some? ==> k.rule.value.ownerUid <= Run(k, steps).rev)
  {
    ReachableHolds(k);
    RunKeeps(k, steps);
    LogGrows(k, steps);
    assert k.rule.Some? ==> VersionOk(k.log[k.source].value, k.name, k.rev);
  }

  // ---------------------------------------------------------------- the cache of reported addresses

  /** What a mark in an agent's cache stands for: the call that set it is still in flight, or has ended well.
      In particular no mark is left by a call that failed, and none is owed to what other agents wrote. */
  lemma MarksMean(k: Key, mark: (nat, string)) returns (id: nat)
    requires Reachable(k) && mark in k.marks
    ensures MarkedBy(k, mark, id)
    ensures CallFor(k, id, mark) || Earned(k, id, mark)
    ensures id in k.results && !CallFor(k, id, mark) ==>
              var r := k.results[id];
              && (r.agent, r.ip) == mark && 0 < r.end <= |k.log|
              && (if r.outcome.Done? then Lists(k.log[r.end - 1], r.ip)
                  else r.outcome.NotFound? && k.log[r.end - 1].None?)
  {
    ReachableHolds(k);
    assert MarkOk(k, mark);
    id := k.markedBy[mark];
    assert id in k.results ==> ResultOk(k, k.results[id]);
  }

  /** A key in flight is marked and belongs to one call, so a rollback never takes the mark of another call. */
  lemma OneCallPerKey(k: Key, id: nat, mark: (nat, string))
    requires Reachable(k) && CallFor(k, id, mark)
    ensures mark in k.marks
    ensures forall other :: CallFor(k, other, mark) ==> other == id
    ensures forall other :: other != id && other in k.calls ==> Mark(k.calls[other]) in NextRollback(k, id).marks
  {
    ReachableHolds(k);
    assert CallOk(k, k.calls[id]);
    assert forall other :: other in k.calls ==> CallOk(k, k.calls[other]);
  }

  /** What the outcome of a call proves about the policy at the moment the call was decided. */
  lemma OutcomesMean(k: Key, id: nat)
    requires Reachable(k) && id in k.results
    ensures var r := k.results[id];
            && 0 < r.end <= |k.log|
            && (r.outcome.Done? ==> Lists(k.log[r.end - 1], r.ip))
            && (r.outcome.NotFound? ==> k.log[r.end - 1].None?)
  {
    ReachableHolds(k);
    assert ResultOk(k, k.results[id]);
  }

  /** An address whose report returned without error stays listed for as long as that incarnation lives. */
  lemma DoneStaysListed(k: Key, id: nat, at: nat, later: nat)
    requires Reachable(k) && id in k.results && k.results[id].outcome.Done? && k.results[id].end == at + 1
    requires at <= later < |k.log| && k.log[at].Some? && k.log[later].Some?
    requires k.log[later].value.uid == k.log[at].value.uid
    ensures Lists(k.log[later], k.results[id].ip)
  {
    OutcomesMean(k, id);
    NoLostUpdates(k, at, later);
  }

  ghost predicate SameIncarnation(v: Option<Policy>, w: Option<Policy>) {
    v.Some? && w.Some? && v.value.uid == w.value.uid
  }

  /** Entry i added the address to an incarnation that did not list it. */
  ghost predicate AddedAt(log: seq<Option<Policy>>, i: nat, ip: string)
    requires 0 < i < |log|
  {
    SameIncarnation(log[i - 1], log[i]) && !Lists(log[i - 1], ip) && Lists(log[i], ip)
  }

  ghost predicate AddedBetween(log: seq<Option<Policy>>, from: nat, last: nat, ip: string) {
    exists i :: 0 < from <= i <= last < |log| && AddedAt(log, i, ip) && SameIncarnation(log[i], log[last])
  }

  /** An address that is listed now was listed by the same incarnation before, or has been added to it since. */
  lemma {:induction false} ListedBeforeOrAdded(log: seq<Option<Policy>>, from: nat, last: nat, ip: string)
    requires Linked(log) && 0 < from <= last + 1 <= |log| && Lists(log[last], ip)
    ensures (SameIncarnation(log[from - 1], log[last]) && Lists(log[from - 1], ip)) || AddedBetween(log, from, last, ip)
    decreases last
  {
    if from <= last {
      assert Continues(log, last);
      if Lists(log[last - 1], ip) {
        ListedBeforeOrAdded(log, from, last - 1, ip);
        if AddedBetween(log, from, last - 1, ip) {
          var i :| from <= i <= last - 1 && AddedAt(log, i, ip) && SameIncarnation(log[i], log[last - 1]);
          assert AddedAt(log, i, ip) && SameIncarnation(log[i], log[last]);
        }
      } else {
        assert AddedAt(log, last, ip);
      }
    }
  }

  /** The two ways in which an address that was listed, or absent with its policy, at entry `from` - 1 is listed at
      the end. */
  lemma ListedIff(log: seq<Option<Policy>>, name: string, rev: nat, from: nat, ip: string)
    requires LogOk(log, name, rev) && Linked(log) && 0 < from <= |log|
    requires log[from - 1].Some? ==> Lists(log[from - 1], ip)
    ensures Lists(log[|log| - 1], ip) <==>
              SameIncarnation(log[from - 1], log[|log| - 1]) || AddedBetween(log, from, |log| - 1, ip)
  {
    hide VersionOk;
    var now := |log| - 1;
    if SameIncarnation(log[from - 1], log[now]) {
      assert from - 1 < now ==> Precedes(log[from - 1].value, log[now].value);
    }
    if AddedBetween(log, from, now, ip) {
      var i :| from <= i <= now && AddedAt(log, i, ip) && SameIncarnation(log[i], log[now]);
      assert i < now ==> Precedes(log[i].value, log[now].value);
    }
    if Lists(log[now], ip) {
      ListedBeforeOrAdded(log, from, now, ip);
    }
  }

  /** "A marked address that is no longer in flight is in the list of the current policy" fails
      (MarkOutlivesPolicy).  Exactly when it holds: the report ended without error in the incarnation that is still
      the current one, or somebody has added the address to the current incarnation since the report was decided. */
  lemma MarkedIsListedIff(k: Key, mark: (nat, string)) returns (id: nat)
    requires Reachable(k) && mark in k.marks && (forall other :: !CallFor(k, other, mark))
    ensures Earned(k, id, mark) && 0 < k.results[id].end <= |k.log|
    ensures var r, now := k.results[id], |k.log| - 1;
            Lists(k.log[now], mark.1) <==>
              || (r.outcome.Done? && SameIncarnation(k.log[r.end - 1], k.log[now]))
              || AddedBetween(k.log, r.end, now, mark.1)
  {
    id := MarksMean(k, mark);
    ReachableHolds(k);
    ListedIff(k.log, k.name, k.rev, k.results[id].end, mark.1);
  }

  /** "A marked address is in the list of the current policy" fails: the mark outlives the policy. */
  lemma MarkOutlivesPolicy(name: string, spec: Spec, ip: string)
    ensures var k := Run(Init(name, 5, 0),
                         [CreatePolicy(spec), Begin(0, 0, ip), Get(0, true), Write(0, Answered),
                          DeletePolicy, CreatePolicy(spec)]);
            && (0, ip) in k.marks && k.calls == map[]
            && Current(k.log).Some? && ListOf(Current(k.log)) == []
  {
    RunSix(Init(name, 5, 0), CreatePolicy(spec), Begin(0, 0, ip), Get(0, true), Write(0, Answered),
           DeletePolicy, CreatePolicy(spec));
    ReportedOnce(Next(Init(name, 5, 0), CreatePolicy(spec)), ip);
  }

  lemma ReportedOnce(k: Key, ip: string)
    requires k.calls == map[] && k.results == map[] && k.marks == {}
    requires Current(k.log).Some? && ListOf(Current(k.log)) == []
    ensures var n := Next(Next(Next(k, Begin(0, 0, ip)), Get(0, true)), Write(0, Answered));
            n.marks == {(0, ip)} && n.calls == map[] && Current(n.log).Some?
  {
  }

  lemma RunLast(k: Key, steps: seq<Step>, s: Step)
    ensures Run(k, steps + [s]) == Next(Run(k, steps), s)
  {
  }

  lemma RunThree(k: Key, a: Step, b: Step, c: Step)
    ensures Run(k, [a, b, c]) == Next(Next(Next(k, a), b), c)
  {
    hide Next;
    RunLast(k, [], a);
    RunLast(k, [a], b);
    RunLast(k, [a, b], c);
    assert [] + [a] == [a] && [a] + [b] == [a, b] && [a, b] + [c] == [a, b, c];
  }

  lemma RunFive(k: Key, a: Step, b: Step, c: Step, d: Step, e: Step)
    ensures Run(k, [a, b, c, d, e]) == Next(Next(Next(Next(Next(k, a), b), c), d), e)
  {
    hide Next, Run;
    RunThree(k, a, b, c);
    RunLast(k, [a, b, c], d);
    RunLast(k, [a, b, c, d], e);
    assert [a, b, c] + [d] == [a, b, c, d] && [a, b, c, d] + [e] == [a, b, c, d, e];
  }

  lemma RunSix(k: Key, a: Step, b: Step, c: Step, d: Step, e: Step, f: Step)
    ensures Run(k, [a, b, c, d, e, f]) == Next(Next(Next(Next(Next(Next(k, a), b), c), d), e), f)
  {
    hide Next, Run;
    RunFive(k, a, b, c, d, e);
    RunLast(k, [a, b, c, d, e], f);
    assert [a, b, c, d, e] + [f] == [a, b, c, d, e, f];
  }

  // ---------------------------------------------------------------- progress of a report

  /** The call is in flight and not yet decided. */
  ghost predicate Active(k: Key, id: nat) {
    id in k.calls && !k.calls[id].progress.RollingBack?
  }

  /** The number of writes by others that changed the policy while the call was in flight, from the step that began it
      to the one that decided it. */
  ghost function OtherWrites(k: Key, steps: seq<Step>, id: nat): nat
    decreases |steps|
  {
    if steps == [] then 0
    else
      var before, last := steps[..|steps| - 1], steps[|steps| - 1];
      var mid := Run(k, before);
      if Active(mid, id) then
        OtherWrites(k, before, id) +
        if |Next(mid, last).log| > |mid.log| && !(last.Write? && last.call == id) then 1 else 0
      else if Active(Next(mid, last), id) then 0
      else OtherWrites(k, before, id)
  }

  /** What one step may do to a call.  While it stays active its start stands and any change of the policy is
      not its own write; a conflict is recorded by a step that writes nothing. */
  ghost predicate CallEffect(k: Key, n: Key, own: bool, id: nat) {
    && (Active(n, id) ==>
          || (Active(k, id) && n.calls[id].start == k.calls[id].start && (own ==> n.log == k.log))
          || n.calls[id].start == |n.log|)
    && (id in n.results && n.results[id].outcome.Conflict? ==>
          || (id in k.results && n.results[id] == k.results[id])
          || (Active(k, id) && n.results[id].start == k.calls[id].start && n.results[id].end == |k.log|))
  }

  lemma WriteCallEffect(k: Key, call: nat, reply: Reply, id: nat)
    ensures CallEffect(k, NextWrite(k, call, reply), call == id, id)
  {
  }

  lemma GetCallEffect(k: Key, call: nat, ok: bool, id: nat)
    ensures CallEffect(k, NextGet(k, call, ok), false, id)
  {
  }

  lemma BeginCallEffect(k: Key, call: nat, agent: nat, ip: string, id: nat)
    ensures CallEffect(k, NextBegin(k, call, agent, ip), false, id)
  {
  }

  lemma StepCallEffect(k: Key, s: Step, id: nat)
    ensures CallEffect(k, Next(k, s), s.Write? && s.call == id, id)
  {
    hide NextWrite, NextGet, NextBegin;
    match s
    case Write(call, reply) => WriteCallEffect(k, call, reply, id);
    case Get(call, ok) => GetCallEffect(k, call, ok, id);
    case Begin(call, agent, ip) => BeginCallEffect(k, call, agent, ip, id);
    case Rollback(_) =>
    case Restart(_) =>
    case _ => StepFrame(k, s);
  }

  /** The count covers what the log has grown by since the call began, up to now or to the decision. */
  ghost predicate Covered(k: Key, id: nat, count: nat) {
    && (Active(k, id) ==> |k.log| - k.calls[id].start <= count)
    && (id in k.results && k.results[id].outcome.Conflict? ==> k.results[id].end - k.results[id].start <= count)
  }

  /** A call that has just begun is not decided, and the log has not grown since. */
  lemma CoveredAtBegin(k: Key, s: Step, id: nat)
    requires Inv(k) && !Active(k, id) && Active(Next(k, s), id)
    ensures Covered(Next(k, s), id, 0)
  {
    hide Next, LogOk, Linked, StartedOk, MarksOk, ResultsOk, WorkOk, RuleOk;
    NextKeeps(k, s);
    StepCallEffect(k, s, id);
  }

  lemma CoveredByStep(k: Key, s: Step, id: nat, count: nat)
    requires Inv(k) && Covered(k, id, count) && (Active(k, id) || !Active(Next(k, s), id))
    ensures var more := Active(k, id) && |Next(k, s).log| > |k.log| && !(s.Write? && s.call == id);
            Covered(Next(k, s), id, count + if more then 1 else 0)
  {
    hide Next, LogOk, Linked, StartedOk, AgentsOk, WorkOk, RuleOk;
    StepEffect(k, s);
    StepCallEffect(k, s, id);
  }

  lemma {:induction false} OtherWritesCover(k: Key, steps: seq<Step>, id: nat)
    requires Inv(k) && id !in k.calls && id !in k.results
    ensures Covered(Run(k, steps), id, OtherWrites(k, steps, id))
    decreases |steps|
  {
    hide Next, Inv, Covered;
    if steps == [] {
      assert Covered(k, id, 0) by { NotYetCounted(k, id); }
    } else {
      var before, s := steps[..|steps| - 1], steps[|steps| - 1];
      var mid := Run(k, before);
      RunKeeps(k, before);
      OtherWritesCover(k, before, id);
      if !Active(mid, id) && Active(Next(mid, s), id) {
        CoveredAtBegin(mid, s, id);
      } else {
        CoveredByStep(mid, s, id, OtherWrites(k, before, id));
      }
    }
  }

  lemma NotYetCounted(k: Key, id: nat)
    requires id !in k.calls && id !in k.results
    ensures Covered(k, id, 0)
  {
  }

  /** A report gives up on Conflict only if others have changed the policy at least as often as it had attempts, and
      all of that during the call: whatever the run, fewer writes by others in that time mean that it does not. */
  lemma ConflictNeedsOtherWrites(k: Key, steps: seq<Step>, id: nat)
    requires Reachable(k) && id !in k.calls && id !in k.results
    requires id in Run(k, steps).results && Run(k, steps).results[id].outcome.Conflict?
    ensures k.limit <= OtherWrites(k, steps, id)
  {
    ReachableHolds(k);
    RunKeeps(k, steps);
    LimitStays(k, steps);
    OtherWritesCover(k, steps, id);
    assert ResultOk(Run(k, steps), Run(k, steps).results[id]);
  }

  lemma {:induction false} LimitStays(k: Key, steps: seq<Step>)
    ensures Run(k, steps).limit == k.limit
    decreases |steps|
  {
    if steps != [] {
      LimitStays(k, steps[..|steps| - 1]);
      StepFrame(Run(k, steps[..|steps| - 1]), steps[|steps| - 1]);
    }
  }

  // ---------------------------------------------------------------- reconciling in peace

  /** One Reconcile on a fresh read, with every request answered and nobody in between, up to the status write.
      A request the state does not call for does nothing. */
  function RuleReconciled(k: Key): Key {
    RuleRequested(NextGetRule(FreshlyFetched(k), true))
  }

  function Latest(k: Key): nat {
    if k.log == [] then 0 else |k.log| - 1
  }

  function FreshlyFetched(k: Key): Key {
    NextFetch(k, Latest(k))
  }

  function RuleRequested(k: Key): Key {
    NextDeleteRule(NextUpdateRule(NextCreateRule(k, Answered), Answered), Answered)
  }

  function Reconciled(k: Key): Key {
    NextWriteStatus(RuleReconciled(k), Answered)
  }

  /** The rule is the one that the current version of the policy asks for. */
  ghost predicate RuleFits(rule: Option<Rule>, p: Policy) {
    match DesiredRule(p)
    case None => rule.None?
    case Some(body) => rule.Some? && rule.value.body == body && rule.value.ownerUid == p.uid
  }

  /** The reconciler has nothing left to do for the current state. */
  ghost predicate Settled(k: Key) {
    Current(k.log).Some? ==> Current(k.log).value.status.ready && RuleFits(k.rule, Current(k.log).value)
  }

  /** Status writes still to come from a reconciler that is triggered by its own writes. */
  function Pending(k: Key): nat {
    if Current(k.log).Some? && !Current(k.log).value.status.ready then 1 else 0
  }

  /** The request that follows an answered Get makes the rule fit and writes only what does not fit yet. */
  lemma RuleRequestedFits(k: Key, p: Policy)
    requires k.work == (if DesiredRule(p).None? then if k.rule.None? then Finishing(p) else Deleting(p)
                        else if k.rule.None? then Creating(p) else Updating(p, k.rule.value.rv))
    ensures var n := RuleRequested(k);
            && n.log == k.log && n.cursor == k.cursor && n.work == Finishing(p)
            && RuleFits(n.rule, p)
            && (RuleFits(k.rule, p) ==> n.rule == k.rule && n.rev == k.rev)
  {
  }

  lemma NothingRequested(k: Key)
    requires k.work.Idle?
    ensures RuleRequested(k) == k
  {
  }

  lemma RuleReconciledFits(k: Key)
    requires WorkOk(k) && k.work.Idle?
    ensures var n := RuleReconciled(k);
            && n.log == k.log && n.cursor == |k.log| - 1
            && (if Current(k.log).None? then n.work.Idle? && n.rule == k.rule && n.rev == k.rev
                else n.work == Finishing(Current(k.log).value) && RuleFits(n.rule, Current(k.log).value)
                     && (RuleFits(k.rule, Current(k.log).value) ==> n.rule == k.rule && n.rev == k.rev))
  {
    hide RuleFits, RuleRequested;
    if Current(k.log).Some? {
      var p := Current(k.log).value;
      assert FreshlyFetched(k) == k.(cursor := |k.log| - 1, work := Fetched(p));
      RuleRequestedFits(NextGetRule(FreshlyFetched(k), true), p);
    } else {
      assert FreshlyFetched(k) == k.(cursor := |k.log| - 1);
      NothingRequested(NextGetRule(FreshlyFetched(k), true));
    }
  }

  /** One Reconcile settles the name, publishes at most one version and keeps spec and list. */
  lemma ReconcileSettles(k: Key)
    requires WorkOk(k) && k.work.Idle?
    ensures var n := Reconciled(k);
            && n.work.Idle? && Settled(n)
            && k.log <= n.log && |n.log| == |k.log| + Pending(k) && Pending(n) == 0
            && ListOf(Current(n.log)) == ListOf(Current(k.log))
            && (Current(k.log).Some? ==>
                  && Current(n.log).Some?
                  && Current(n.log).value.uid == Current(k.log).value.uid
                  && Current(n.log).value.spec == Current(k.log).value.spec)
  {
    hide RuleReconciled;
    RuleReconciledFits(k);
  }

  /** A settled name is left as it is. */
  lemma SettledIsStill(k: Key)
    requires WorkOk(k) && k.work.Idle? && Settled(k)
    ensures var n := Reconciled(k); n.log == k.log && n.rule == k.rule && n.rev == k.rev
  {
    RuleReconciledFits(k);
  }

  /** What a settled name means: a rule exists iff the policy blocks and addresses are known.  It belongs to the current
      incarnation, kills if the policy says so and otherwise refuses with error -111, and lists each address as a /32,
      in order. */
  lemma SettledMeans(k: Key)
    requires Settled(k) && Current(k.log).Some?
    ensures var p, ips := Current(k.log).value, ListOf(Current(k.log));
            && p.status.ready
            && (k.rule.Some? <==> Blocking(p.spec.actions) && ips != [])
            && (k.rule.Some? ==>
                  && k.rule.value.ownerUid == p.uid
                  && k.rule.value.body.kernelAction == (if BlockKill in p.spec.actions then Sigkill else Override(-111))
                  && |k.rule.value.body.values| == |ips|
                  && forall i :: 0 <= i < |ips| ==> k.rule.value.body.values[i] == ips[i] + "/32")
  {
    DesiredRuleExact(Current(k.log).value);
  }

  /** Convergence: a Reconcile that runs in peace leaves a rule iff the policy blocks and addresses are known, with
      their /32 images; killing has priority over refusing, which has error -111; and the next one changes nothing. */
  lemma ReconcileConverges(k: Key)
    requires Reachable(k) && k.work.Idle? && Current(k.log).Some?
    ensures var n := Reconciled(k);
            && Inv(n) && Current(n.log).Some?
            && var p, ips := Current(n.log).value, ListOf(Current(n.log));
            && p.spec == Current(k.log).value.spec && ips == ListOf(Current(k.log)) && p.status.ready
            && (n.rule.Some? <==> Blocking(p.spec.actions) && ips != [])
            && (n.rule.Some? ==>
                  && n.rule.value.ownerUid == p.uid
                  && n.rule.value.body.kernelAction == (if BlockKill in p.spec.actions then Sigkill else Override(-111))
                  && |n.rule.value.body.values| == |ips|
                  && forall i :: 0 <= i < |ips| ==> n.rule.value.body.values[i] == ips[i] + "/32")
            && Reconciled(n).log == n.log && Reconciled(n).rule == n.rule && Reconciled(n).rev == n.rev
  {
    hide Reconciled, Settled, LogOk, Linked, StartedOk, AgentsOk, RuleOk, Reachable;
    ReachableHolds(k);
    ReconciledKeeps(k);
    ReconcileSettles(k);
    SettledIsStill(Reconciled(k));
    SettledMeans(Reconciled(k));
  }

  /** The garbage collector leaves no rule whose owner is gone. */
  lemma NoRuleOutlivesItsOwner(k: Key)
    ensures var n := NextCollectGarbage(k);
            && n.log == k.log && n.calls == k.calls && n.marks == k.marks && n.work == k.work
            && (n.rule.Some? <==>
                  && k.rule.Some? && Current(k.log).Some?
                  && Current(k.log).value.uid == k.rule.value.ownerUid)
            && (n.rule.Some? ==> n.rule == k.rule)
  {
  }

  lemma RuleRequestedKeeps(k: Key)
    requires Inv(k)
    ensures Inv(RuleRequested(k))
  {
    CreateRuleKeeps(k, Answered);
    UpdateRuleKeeps(NextCreateRule(k, Answered), Answered);
    DeleteRuleKeeps(NextUpdateRule(NextCreateRule(k, Answered), Answered), Answered);
  }

  /** One Reconcile on a fresh read in which the Get of the rule may fail and everything else is answered. */
  function ReconciledWith(k: Key, ok: bool): Key {
    NextWriteStatus(RuleRequested(NextGetRule(FreshlyFetched(k), ok)), Answered)
  }

  /** "A Reconcile without error leaves a rule that fits" fails when the Get in the branch without a rule fails:
      the rule of a policy that no longer blocks stays, and the policy is reported as ready. */
  lemma BlindReconcileKeepsRule(k: Key)
    requires WorkOk(k) && k.work.Idle? && Current(k.log).Some? && k.rule.Some?
    requires DesiredRule(Current(k.log).value).None?
    ensures var n := ReconciledWith(k, false);
            n.rule == k.rule && Current(n.log).Some? && Current(n.log).value.status.ready && !Settled(n)
  {
    hide RuleRequested;
    var p := Current(k.log).value;
    assert FreshlyFetched(k) == k.(cursor := |k.log| - 1, work := Fetched(p));
    assert NextGetRule(FreshlyFetched(k), false) == k.(cursor := |k.log| - 1, work := Finishing(p));
    NoRuleRequested(NextGetRule(FreshlyFetched(k), false));
  }

  lemma NoRuleRequested(k: Key)
    requires k.work.Finishing?
    ensures RuleRequested(k) == k
  {
  }

  /** Exactly when such a Reconcile settles the name: the Get is answered, or it did not matter, because a policy
      that wants no rule has none, or because the Reconcile gave up on a name that was settled already. */
  lemma ReconcileSettlesIff(k: Key, ok: bool)
    requires WorkOk(k) && k.work.Idle? && Current(k.log).Some?
    ensures var n, p := ReconciledWith(k, ok), Current(k.log).value;
            && n.work.Idle? && Current(n.log).Some? && Current(n.log).value.uid == p.uid
            && (Settled(n) <==> ok || if DesiredRule(p).None? then k.rule.None? else Settled(k))
  {
    if ok {
      ReconcileSettles(k);
    } else {
      FailedGetSettlesIff(k);
    }
  }

  lemma FailedGetSettlesIff(k: Key)
    requires WorkOk(k) && k.work.Idle? && Current(k.log).Some?
    ensures var n, p := ReconciledWith(k, false), Current(k.log).value;
            && n.work.Idle? && Current(n.log).Some? && Current(n.log).value.uid == p.uid
            && (Settled(n) <==> if DesiredRule(p).None? then k.rule.None? else Settled(k))
  {
    var p := Current(k.log).value;
    assert FreshlyFetched(k).work == Fetched(p);
    assert NextGetRule(FreshlyFetched(k), false).work == if DesiredRule(p).None? then Finishing(p) else Idle;
  }

  lemma ReconciledKeeps(k: Key)
    requires Inv(k)
    ensures Inv(Reconciled(k))
  {
    FetchKeeps(k, Latest(k));
    GetRuleKeeps(FreshlyFetched(k), true);
    RuleRequestedKeeps(NextGetRule(FreshlyFetched(k), true));
    WriteStatusKeeps(RuleReconciled(k), Answered);
  }
}
