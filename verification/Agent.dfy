/** cmd/agent/main.go: what the agent does with one event: place the destination, judge the connection, record
    the actions, and report the address when the policy asks for blocking. */
module Agents {
  import opened Policies
  import opened PolicyProtocol
  import opened Matching
  import opened Verdicts
  import opened Tetragon
  import opened Geo
  import opened World
  import opened Clusters
  import opened Reporters

  /** A Kubernetes event about the pod of a connection. */
  datatype Recorded = Recorded(podName: string, namespace: string, action: Action, destIP: string,
                               destCountry: string, destCountryName: string, policyName: string)

  /** The actions up to and including the first one that blocks. */
  function UpToBlock(actions: seq<Action>): seq<Action> {
    if actions == [] then []
    else if IsBlock(actions[0]) then [actions[0]]
    else [actions[0]] + UpToBlock(actions[1..])
  }

  lemma {:induction false} UpToBlockExact(actions: seq<Action>)
    ensures UpToBlock(actions) <= actions
    ensures Blocking(actions) ==> UpToBlock(actions) != [] && IsBlock(UpToBlock(actions)[|UpToBlock(actions)| - 1])
    ensures !Blocking(actions) ==> UpToBlock(actions) == actions
    ensures forall i :: 0 <= i < |UpToBlock(actions)| - 1 ==> !IsBlock(actions[i])
  {
    if actions != [] {
      UpToBlockExact(actions[1..]);
      BlockingTail(actions);
      if IsBlock(actions[0]) {
        assert Blocking(actions);
      } else {
        assert actions == [actions[0]] + actions[1..];
        assert forall i :: 0 < i < |UpToBlock(actions)| - 1 ==> actions[i] == actions[1..][i - 1];
      }
    }
  }

  lemma BlockingTail(actions: seq<Action>)
    requires actions != []
    ensures Blocking(actions) <==> IsBlock(actions[0]) || Blocking(actions[1..])
  {
  }

  function Records(ev: Event, policyName: string, actions: seq<Action>): seq<Recorded> {
    if ev.podName == "" || ev.namespace == "" then []
    else seq(|actions|, i requires 0 <= i < |actions| =>
               Recorded(ev.podName, ev.namespace, actions[i], ev.destIP,
                        ev.destCountry, ev.destCountryName, policyName))
  }

  /** What is recorded for a row of actions: about a pod with name and namespace one entry for each action, in order,
      that names the pod, the destination with its country, and the policy; about any other nothing. */
  lemma RecordsExact(ev: Event, policyName: string, actions: seq<Action>)
    ensures |Records(ev, policyName, actions)| == if ev.podName != "" && ev.namespace != "" then |actions| else 0
    ensures forall i :: 0 <= i < |Records(ev, policyName, actions)| ==>
              var r := Records(ev, policyName, actions)[i];
              && r.podName == ev.podName && r.namespace == ev.namespace && r.action == actions[i]
              && r.destIP == ev.destIP && r.destCountry == ev.destCountry && r.destCountryName == ev.destCountryName
              && r.policyName == policyName
  {
  }

  /** The informer's callback for a new state of a name. */
  function CallbackFor(before: map<string, Policy>, name: string, state: Option<Policy>): Callback {
    if state.Some? then if name in before then Updated(before[name], state.value) else Added(state.value)
    else Deleted(if name in before then Object(before[name]) else Foreign)
  }

  function SeenAt(w: System, agent: nat, name: string): Option<Policy> {
    if agent in w.seen && name in w.seen[agent] && name in w.keys && w.seen[agent][name] < |w.keys[name].log|
    then w.keys[name].log[w.seen[agent][name]] else None
  }

  lemma ViewEntry(w: System, agent: nat, name: string)
    ensures name in View(w, agent) <==> SeenAt(w, agent, name).Some?
    ensures name in View(w, agent) ==> View(w, agent)[name] == SeenAt(w, agent, name).value
  {
  }

  lemma NotifySeen(w: System, g: GeoIP, agent: nat, name: string, at: nat, other: string)
    requires name in w.keys && at < |w.keys[name].log|
    ensures SeenAt(NextSystem(w, g, Notify(agent, name, at)), agent, other)
            == if other == name then w.keys[name].log[at] else SeenAt(w, agent, other)
  {
  }

  /** The matcher follows the informer: delivering a state of a name has on it the effect of one callback. */
  lemma NotifyIsCallback(w: System, g: GeoIP, agent: nat, name: string, at: nat)
    requires SystemOk(w, g) && name in w.keys && at < |w.keys[name].log|
    ensures View(NextSystem(w, g, Notify(agent, name, at)), agent)
            == Apply(View(w, agent), CallbackFor(View(w, agent), name, w.keys[name].log[at]))
  {
    hide View, NextSystem, EvidenceOk, StartedOk, SeenAt;
    var before, after := View(w, agent), View(NextSystem(w, g, Notify(agent, name, at)), agent);
    var expected := Apply(before, CallbackFor(before, name, w.keys[name].log[at]));
    if w.keys[name].log[at].Some? {
      StoredName(w, name, at);
    }
    if name in before {
      ViewIsStored(w, agent, name);
    }
    forall other
      ensures other in after <==> other in expected
      ensures other in after ==> after[other] == expected[other]
    {
      NotifySeen(w, g, agent, name, at, other);
      ViewEntry(w, agent, other);
      ViewEntry(NextSystem(w, g, Notify(agent, name, at)), agent, other);
    }
  }

  lemma StoredName(w: System, name: string, at: nat)
    requires KeysOk(w) && name in w.keys && at < |w.keys[name].log| && w.keys[name].log[at].Some?
    ensures w.keys[name].log[at].value.name == name
  {
    PolicyInvariant.ReachableHolds(w.keys[name]);
    assert PolicyInvariant.VersionOk(w.keys[name].log[at].value, name, w.keys[name].rev);
  }

  /** The step that records a verdict: one piece of evidence iff the verdict asks for blocking. */
  lemma HandleRecords(w: System, g: GeoIP, agent: nat, response: Response, order: seq<Policy>)
    requires SystemOk(w, g) && ParseEvent(response).Some?
    requires IsMatch(order, View(w, agent), Enrich(g, ParseEvent(response).value).namespace)
    ensures var v := Evaluate(Enrich(g, ParseEvent(response).value), order);
            var n := NextSystem(w, g, Handle(agent, response, order));
            if BlockingVerdict(v) then
              && |n.evidence| == |w.evidence| + 1
              && n.evidence[|w.evidence|].agent == agent
              && Accuses(n.evidence[|w.evidence|], v.policyName, Enrich(g, ParseEvent(response).value).destIP)
              && n == w.(evidence := n.evidence)
            else n == w
  {
    var view := View(w, agent);
    forall name | name in view
      ensures view[name].name == name
    {
      ViewIsStored(w, agent, name);
    }
    VerdictExact(view, Enrich(g, ParseEvent(response).value), order);
  }

  class Agent {
    const id: nat
    const cluster: Cluster
    const evaluator: Evaluator
    const reporter: PolicyReporter
    var recorded: seq<Recorded>    // what the event recorder has sent

    constructor (id: nat, cluster: Cluster, evaluator: Evaluator, reporter: PolicyReporter)
      ensures this.id == id && this.cluster == cluster && this.evaluator == evaluator && this.reporter == reporter
      ensures recorded == []
    {
      this.id := id;
      this.cluster := cluster;
      this.evaluator := evaluator;
      this.reporter := reporter;
      recorded := [];
    }

    method EmitViolationEvent(ev: Event, policyName: string, action: Action)
      modifies this`recorded
      ensures recorded == old(recorded) + Records(ev, policyName, [action])
      ensures ev.podName == "" || ev.namespace == "" ==> recorded == old(recorded)
      ensures ev.podName != "" && ev.namespace != "" ==>
                && |recorded| == |old(recorded)| + 1 && old(recorded) < recorded
                && var r := recorded[|old(recorded)|];
                   && r.podName == ev.podName && r.namespace == ev.namespace && r.action == action
                   && r.destIP == ev.destIP && r.destCountry == ev.destCountry
                   && r.destCountryName == ev.destCountryName && r.policyName == policyName
    {
      if ev.podName == "" || ev.namespace == "" {
        return;
      }
      recorded := recorded + [Recorded(ev.podName, ev.namespace, action, ev.destIP,
                                       ev.destCountry, ev.destCountryName, policyName)];
    }

    /** The side effects of a violation, for the verdict `index` of the history. */
    method ActOnViolation(ev: Event, verdict: Verdict, index: nat, call: nat) returns (outcome: Option<Outcome>)
      requires verdict.violated
      requires Blocking(verdict.actions) ==> reporter.Ready(cluster, verdict.policyName, ev.destIP, index, call)
      requires reporter.agent == id
      modifies this, reporter, cluster
      ensures recorded == old(recorded) + Records(ev, verdict.policyName, UpToBlock(verdict.actions))
      ensures reporter.requested ==
              old(reporter.requested) + if Blocking(verdict.actions) then [(verdict.policyName, ev.destIP)] else []
      ensures outcome.Some? <==> Blocking(verdict.actions)
      ensures outcome.Some? ==>
                && cluster.Valid() && reporter.Mirrors(cluster.w)
                && ReportEffect(KeyOf(old(cluster.w), verdict.policyName).log, KeyOf(cluster.w, verdict.policyName).log,
                                old(reporter.reportedIPs), reporter.reportedIPs, verdict.policyName, ev.destIP,
                                cluster.limit, outcome.value)
      ensures outcome.Some? && cluster.quiet && !old(reporter.Reported(verdict.policyName, ev.destIP)) ==>
                InPeace(KeyOf(old(cluster.w), verdict.policyName), KeyOf(cluster.w, verdict.policyName), ev.destIP,
                        outcome.value)
      ensures !Blocking(verdict.actions) ==> unchanged(cluster) && unchanged(reporter)
    {
      hide RunSystem;
      var i := 0;
      var stop := false;
      outcome := None;
      while i < |verdict.actions| && !stop
        invariant 0 <= i <= |verdict.actions|
        invariant recorded == old(recorded) + Records(ev, verdict.policyName, verdict.actions[..i])
        invariant forall j :: 0 <= j < i ==> (IsBlock(verdict.actions[j]) <==> stop && j == i - 1)
        invariant reporter.requested ==
                  old(reporter.requested) + if stop then [(verdict.policyName, ev.destIP)] else []
        invariant outcome.Some? <==> stop
        invariant stop ==>
                    && 0 < i && cluster.Valid() && reporter.Mirrors(cluster.w)
                    && ReportEffect(KeyOf(old(cluster.w), verdict.policyName).log,
                                    KeyOf(cluster.w, verdict.policyName).log,
                                    old(reporter.reportedIPs), reporter.reportedIPs, verdict.policyName, ev.destIP,
                                    cluster.limit, outcome.value)
        invariant stop && cluster.quiet && !old(reporter.Reported(verdict.policyName, ev.destIP)) ==>
                    InPeace(KeyOf(old(cluster.w), verdict.policyName), KeyOf(cluster.w, verdict.policyName),
                            ev.destIP, outcome.value)
        invariant !stop ==> unchanged(cluster) && unchanged(reporter)
      {
        var action := verdict.actions[i];
        EmitViolationEvent(ev, verdict.policyName, action);
        if action == BlockKill || action == BlockNoConn {
          assert IsBlock(verdict.actions[i]);
          var err := reporter.ReportViolator(cluster, verdict.policyName, ev.destIP, index, call);
          outcome := Some(err);
          stop := true;
        }
        i := i + 1;
      }
      UpToBlockIs(verdict.actions, i);
      assert stop ==> IsBlock(verdict.actions[i - 1]);
    }

    /** The agent can take the next event: its matcher is up to date and the number of its next call is fresh. */
    ghost predicate CanHandle(response: Response, call: nat)
      reads this, reporter, cluster, evaluator, evaluator.matcher
    {
      && cluster.Valid() && reporter.Mirrors(cluster.w) && reporter.agent == id
      && Connects(response)
      && evaluator.matcher.Valid() && evaluator.matcher.policies == View(cluster.w, id)
      && (forall name :: name in cluster.w.keys ==> ':' !in name)
      && (forall name :: call !in KeyOf(cluster.w, name).calls && call !in KeyOf(cluster.w, name).results)
    }

    /** Place the destination and judge the connection.  A verdict that asks for blocking becomes evidence `index`. */
    method Decide(response: Response, call: nat) returns (ev: Event, verdict: Verdict, index: nat)
      requires CanHandle(response, call)
      modifies cluster
      ensures Saw(cluster.geo, response, ev)
      ensures VerdictFits(old(View(cluster.w, id)), ev, verdict)
      ensures BlockingVerdict(verdict) ==> reporter.Ready(cluster, verdict.policyName, ev.destIP, index, call)
      ensures !BlockingVerdict(verdict) ==> cluster.w == old(cluster.w)
      ensures forall name :: KeyOf(cluster.w, name) == KeyOf(old(cluster.w), name)
      ensures cluster.Valid() && reporter.Mirrors(cluster.w)
    {
      hide RunSystem, NextSystem, KeyOf, View, SystemOk, IsMatch, ParseEvent, Evaluate;
      EnrichExact(cluster.geo, response);
      ev := ParseEvent(response).value;
      if ev.destIP != "unknown" {
        var place := LookupCountry(cluster.geo, ev.destIP);
        if place.Place? {
          ev := ev.(destCountry := place.iso, destCountryName := place.name);
        }
      }
      var matches;
      verdict, matches := evaluator.Judge(ev);
      SystemReachable(cluster.w, cluster.geo, cluster.limit, cluster.steps);
      VerdictExact(View(cluster.w, id), ev, matches);
      VerdictByLists(View(cluster.w, id), ev, matches);
      VerdictRecorded(cluster.w, cluster.geo, id, response, matches);
      index := |cluster.w.evidence|;
      cluster.Act(Handle(id, response, matches));
    }

    /** One turn of the main loop, for a response that tells of a connection, with the matcher up to date.  `ev` is the
        event judged: the pod and its namespace, the peer of the socket, and the country that the database gives it. */
    method HandleEvent(response: Response, call: nat)
      returns (ev: Event, verdict: Verdict, outcome: Option<Outcome>)
      requires CanHandle(response, call)
      modifies this, reporter, cluster
      ensures cluster.Valid() && reporter.Mirrors(cluster.w)
      ensures Saw(cluster.geo, response, ev) && VerdictFits(old(View(cluster.w, id)), ev, verdict)
      ensures recorded == old(recorded) +
                (if verdict.violated then Records(ev, verdict.policyName, UpToBlock(verdict.actions)) else [])
      ensures reporter.requested ==
              old(reporter.requested) +
              if BlockingVerdict(verdict) then [(verdict.policyName, ev.destIP)] else []
      ensures outcome.Some? <==> BlockingVerdict(verdict)
      ensures outcome.Some? ==>
                ReportEffect(KeyOf(old(cluster.w), verdict.policyName).log, KeyOf(cluster.w, verdict.policyName).log,
                             old(reporter.reportedIPs), reporter.reportedIPs, verdict.policyName, ev.destIP,
                             cluster.limit, outcome.value)
      ensures outcome.Some? && cluster.quiet
              && !old(reporter.Reported(verdict.policyName, ev.destIP)) ==>
                InPeace(KeyOf(old(cluster.w), verdict.policyName), KeyOf(cluster.w, verdict.policyName),
                        ev.destIP, outcome.value)
      ensures !BlockingVerdict(verdict) ==>
                cluster.w == old(cluster.w) && reporter.reportedIPs == old(reporter.reportedIPs)
    {
      hide RunSystem;
      outcome := None;
      var index;
      ev, verdict, index := Decide(response, call);
      if verdict.violated {
        outcome := ActOnViolation(ev, verdict, index, call);
      }
    }
  }

  /** The verdict is right for the policies the agent knows. */
  ghost predicate VerdictFits(policies: map<string, Policy>, ev: Event, v: Verdict) {
    && (v.violated <==>
          && ev.destCountry != "" && ev.namespace != ""
          && exists name :: name in policies && ForbidsByLists(policies[name].spec, ev.namespace, ev.destCountry))
    && (v.violated ==>
          && v.policyName in policies && v.actions == policies[v.policyName].spec.actions
          && ForbidsByLists(policies[v.policyName].spec, ev.namespace, ev.destCountry))
    && (!v.violated ==> v.actions == [Allow])
  }

  lemma SameKeys(w: System, n: System)
    requires n == w.(evidence := n.evidence)
    ensures forall name :: KeyOf(n, name) == KeyOf(w, name)
  {
  }

  /** What a verdict leaves for the report that follows it. */
  lemma VerdictRecorded(w: System, g: GeoIP, agent: nat, response: Response, order: seq<Policy>)
    requires SystemOk(w, g) && ParseEvent(response).Some?
    requires IsMatch(order, View(w, agent), Enrich(g, ParseEvent(response).value).namespace)
    ensures var ev := Enrich(g, ParseEvent(response).value);
            var v, n := Evaluate(ev, order), NextSystem(w, g, Handle(agent, response, order));
            && (forall name :: KeyOf(n, name) == KeyOf(w, name))
            && (if BlockingVerdict(v) then
                  && v.policyName in w.keys && |w.evidence| < |n.evidence|
                  && n.evidence[|w.evidence|].agent == agent
                  && Accuses(n.evidence[|w.evidence|], v.policyName, ev.destIP)
                else n == w)
  {
    HandleRecords(w, g, agent, response, order);
    ViewKeyed(w, agent);
    VerdictExact(View(w, agent), Enrich(g, ParseEvent(response).value), order);
    SameKeys(w, NextSystem(w, g, Handle(agent, response, order)));
  }

  lemma UpToBlockIs(actions: seq<Action>, n: nat)
    requires n <= |actions|
    requires forall j :: 0 <= j < n - 1 ==> !IsBlock(actions[j])
    requires n < |actions| ==> 0 < n && IsBlock(actions[n - 1])
    ensures UpToBlock(actions) == actions[..n]
  {
    UpToBlockExact(actions);
    var u := UpToBlock(actions);
    assert u == actions[..|u|];
  }
}
