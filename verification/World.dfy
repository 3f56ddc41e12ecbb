/** The whole system: every policy name with its protocol, every agent with its informer and its event stream.
    A policy name moves only by the steps of PolicyProtocol; all names share the revision of the API server. */
module World {
  import opened Policies
  import opened PolicyProtocol
  import opened PolicyInvariant
  import opened PolicyTheorems
  import opened Matching
  import opened Verdicts
  import opened Tetragon
  import opened Geo

  /** A verdict that made an agent call ReportViolator: the response it handled, the event it judged, the policies it
      knew, the order in which Match returned those that apply, and the policy that the verdict named, log entry `at`
      of its name. */
  datatype Evidence = Evidence(agent: nat, response: Response, event: Event, view: map<string, Policy>,
                               order: seq<Policy>, policy: Policy, at: nat, ip: string)

  datatype System = System(
    limit: nat,
    rev: nat,
    keys: map<string, Key>,
    seen: map<nat, map<string, nat>>,   // where the informer of every agent stands, by policy name
    evidence: seq<Evidence>)            // history

  datatype SystemStep =
    | OnKey(name: string, step: Step)
    | Notify(agent: nat, name: string, at: nat)
    | Handle(agent: nat, response: Response, order: seq<Policy>)
    | Report(index: nat, call: nat)

  function Start(limit: nat): System {
    System(limit, 0, map[], map[], [])
  }

  function KeyOf(w: System, name: string): Key {
    if name in w.keys then w.keys[name].(rev := w.rev) else Init(name, w.limit, w.rev)
  }

  function Replace(w: System, k: Key): System {
    w.(keys := w.keys[k.name := k], rev := k.rev)
  }

  /** What the matcher of an agent holds: for every name the version its informer last delivered. */
  function View(w: System, agent: nat): map<string, Policy> {
    if agent !in w.seen then map[]
    else
      var seen := w.seen[agent];
      map name | name in seen && name in w.keys && seen[name] < |w.keys[name].log| && w.keys[name].log[seen[name]].Some?
        :: w.keys[name].log[seen[name]].value
  }

  // ---------------------------------------------------------------- the agent

  /** The main loop's lookup: an event whose destination cannot be placed keeps its empty country. */
  function Enrich(g: GeoIP, ev: Event): Event {
    if ev.destIP == "unknown" then ev
    else
      var place := LookupCountry(g, ev.destIP);
      if place.Unknown? then ev else ev.(destCountry := place.iso, destCountryName := place.name)
  }

  /** The place of a destination: what the database says about a readable public address, and nothing otherwise. */
  ghost predicate Placed(g: GeoIP, destIP: string, country: string, countryName: string) {
    if destIP == "unknown" || g.parse(destIP).None? || IsPrivate(g.parse(destIP).value)
       || g.lookup(g.parse(destIP).value).Unreadable?
    then country == "" && countryName == ""
    else
      var r := g.lookup(g.parse(destIP).value);
      if r.isoCode == "" then country == "UNKNOWN" && countryName == "Unknown"
      else country == r.isoCode && countryName == if r.englishName != "" then r.englishName else r.isoCode
  }

  /** The event that an agent judges for a response: the pod, its namespace and the program that opened the
      connection, the peer of the socket, and the place of that peer. */
  ghost predicate Saw(g: GeoIP, res: Response, ev: Event) {
    && Connects(res)
    && ev.podName == res.kprobe.process.value.pod.value.name
    && ev.namespace == res.kprobe.process.value.pod.value.namespace
    && ev.binary == res.kprobe.process.value.binary
    && (if HasSocket(res) then ev.destIP == res.kprobe.args[0].daddr && ev.destPort == res.kprobe.args[0].dport
        else ev.destIP == "unknown" && ev.destPort == 0)
    && Placed(g, ev.destIP, ev.destCountry, ev.destCountryName)
  }

  lemma EnrichExact(g: GeoIP, res: Response)
    ensures ParseEvent(res).Some? <==> Connects(res)
    ensures ParseEvent(res).Some? ==> Saw(g, res, Enrich(g, ParseEvent(res).value))
    ensures ParseEvent(res).Some? ==> forall ev :: Saw(g, res, ev) ==> ev == Enrich(g, ParseEvent(res).value)
  {
    hide ParseEvent, LookupCountry, IsPrivate;
    ParseEventExact(res);
    if ParseEvent(res).Some? {
      LookupExact(g, ParseEvent(res).value.destIP);
    }
  }

  function NextHandle(w: System, g: GeoIP, agent: nat, response: Response, order: seq<Policy>): System {
    var parsed := ParseEvent(response);
    if parsed.None? then w
    else
      var ev := Enrich(g, parsed.value);
      var view := View(w, agent);
      var v := Evaluate(ev, order);
      if IsMatch(order, view, ev.namespace) && v.violated && Blocking(v.actions) && v.policyName in view then
        w.(evidence := w.evidence + [Evidence(agent, response, ev, view, order, view[v.policyName],
                                              w.seen[agent][v.policyName], ev.destIP)])
      else w
  }

  function NextSystem(w: System, g: GeoIP, e: SystemStep): System {
    match e
    case OnKey(name, s) => if s.Begin? || s.Tick? then w else Replace(w, Next(KeyOf(w, name), s))
    case Notify(agent, name, at) =>
      if name !in w.keys || |w.keys[name].log| <= at then w
      else w.(seen := w.seen[agent := (if agent in w.seen then w.seen[agent] else map[])[name := at]])
    case Handle(agent, response, order) => NextHandle(w, g, agent, response, order)
    case Report(i, call) =>
      if |w.evidence| <= i then w
      else
        var e := w.evidence[i];
        Replace(w, NextBegin(KeyOf(w, e.policy.name), call, e.agent, e.ip))
  }

  function RunSystem(w: System, g: GeoIP, events: seq<SystemStep>): System
    decreases |events|
  {
    if events == [] then w else NextSystem(RunSystem(w, g, events[..|events| - 1]), g, events[|events| - 1])
  }

  // ---------------------------------------------------------------- one policy name at a time

  lemma ReachableNext(k: Key, s: Step)
    requires Reachable(k)
    ensures Reachable(Next(k, s))
  {
    var limit: nat, rev: nat, steps :| 0 < limit && RunsTo(Init(k.name, limit, rev), steps, k);
    RunLast(Init(k.name, limit, rev), steps, s);
    StepFrame(k, s);
    assert RunsTo(Init(k.name, limit, rev), steps + [s], Next(k, s));
  }

  lemma InitReachable(name: string, limit: nat, rev: nat)
    requires 0 < limit
    ensures Reachable(Init(name, limit, rev))
  {
    assert RunsTo(Init(name, limit, rev), [], Init(name, limit, rev));
  }

  /** The policies of a system, each of them in a state that its own protocol can reach. */
  ghost predicate KeysOk(w: System) {
    0 < w.limit
    && forall name :: name in w.keys ==>
         && w.keys[name].name == name && w.keys[name].limit == w.limit
         && w.keys[name].rev <= w.rev
         && Reachable(w.keys[name])
  }

  lemma KeyOfReachable(w: System, name: string)
    requires KeysOk(w)
    ensures Reachable(KeyOf(w, name)) && KeyOf(w, name).name == name && KeyOf(w, name).limit == w.limit
  {
    if name in w.keys {
      ReachableNext(w.keys[name], Tick(w.rev));
    } else {
      InitReachable(name, w.limit, w.rev);
    }
  }

  /** What a step of one name leaves as it was for everybody else. */
  lemma StepBasics(k: Key, s: Step)
    requires Reachable(k)
    ensures Reachable(Next(k, s)) && k.rev <= Next(k, s).rev && k.log <= Next(k, s).log
    ensures Next(k, s).name == k.name && Next(k, s).limit == k.limit
    ensures !s.Begin? ==> Next(k, s).started == k.started
  {
    ReachableNext(k, s);
    ReachableHolds(k);
    StepEffect(k, s);
    StepFrame(k, s);
  }

  // ---------------------------------------------------------------- provenance

  /** The verdict on the connection that the response describes, by the policies the agent knew and in the order in
      which it met them, is a violation of this policy, which forbids the connection with a blocking action.  The
      destination is readable and public. */
  ghost predicate Justifies(g: GeoIP, e: Evidence) {
    var ev := e.event;
    && Saw(g, e.response, ev)
    && IsMatch(e.order, e.view, ev.namespace) && e.policy.name in e.view && e.view[e.policy.name] == e.policy
    && Evaluate(ev, e.order).violated && Evaluate(ev, e.order).policyName == e.policy.name
    && ev.destIP == e.ip && ev.destIP != "unknown"
    && Applies(e.policy, ev.namespace) && ev.namespace != ""
    && Denies(e.policy, ev.destCountry) && ev.destCountry != ""
    && Blocking(e.policy.spec.actions)
    && g.parse(e.ip).Some? && !IsPrivate(g.parse(e.ip).value)
  }

  /** The policy, and whatever else the agent knew, are versions that the API server has stored. */
  ghost predicate WasStored(w: System, e: Evidence) {
    && (forall name :: name in e.view ==> name in w.keys && Some(e.view[name]) in w.keys[name].log)
    && e.policy.name in w.keys
    && e.at < |w.keys[e.policy.name].log|
    && w.keys[e.policy.name].log[e.at] == Some(e.policy)
  }

  ghost predicate EvidenceOk(w: System, g: GeoIP) {
    forall i :: 0 <= i < |w.evidence| ==> WasStored(w, w.evidence[i]) && Justifies(g, w.evidence[i])
  }

  ghost predicate Accuses(e: Evidence, name: string, ip: string) {
    e.policy.name == name && e.ip == ip
  }

  ghost predicate Accused(w: System, name: string, ip: string) {
    exists i :: 0 <= i < |w.evidence| && Accuses(w.evidence[i], name, ip)
  }

  ghost predicate StartedOk(w: System) {
    forall name, ip :: name in w.keys && ip in w.keys[name].started ==> Accused(w, name, ip)
  }

  ghost predicate SystemOk(w: System, g: GeoIP) {
    KeysOk(w) && EvidenceOk(w, g) && StartedOk(w)
  }

  /** What was stored stays stored when history grows. */
  lemma StaysStored(w: System, n: System, e: Evidence)
    requires WasStored(w, e)
    requires forall name :: name in w.keys ==> name in n.keys && w.keys[name].log <= n.keys[name].log
    ensures WasStored(n, e)
  {
    forall name | name in e.view
      ensures name in n.keys && Some(e.view[name]) in n.keys[name].log
    {
      var i :| 0 <= i < |w.keys[name].log| && w.keys[name].log[i] == Some(e.view[name]);
      assert n.keys[name].log[i] == Some(e.view[name]);
    }
  }

  lemma ReplaceKeepsKeys(w: System, k: Key)
    requires KeysOk(w) && Reachable(k) && k.limit == w.limit && w.rev <= k.rev && KeyOf(w, k.name).log <= k.log
    ensures KeysOk(Replace(w, k))
    ensures forall name :: name in w.keys ==>
              name in Replace(w, k).keys && w.keys[name].log <= Replace(w, k).keys[name].log
  {
  }

  lemma ReplaceKeepsStarted(w: System, k: Key)
    requires StartedOk(w)
    requires forall ip :: ip in k.started ==> ip in KeyOf(w, k.name).started || Accused(w, k.name, ip)
    ensures StartedOk(Replace(w, k))
  {
    forall name, ip | name in Replace(w, k).keys && ip in Replace(w, k).keys[name].started
      ensures Accused(Replace(w, k), name, ip)
    {
      assert Accused(w, name, ip);
      var i :| 0 <= i < |w.evidence| && Accuses(w.evidence[i], name, ip);
      assert Accuses(Replace(w, k).evidence[i], name, ip);
    }
  }

  /** Replacing one policy by a later state of it keeps the system in order. */
  lemma ReplaceKeeps(w: System, g: GeoIP, k: Key)
    requires SystemOk(w, g)
    requires Reachable(k) && k.limit == w.limit && w.rev <= k.rev && KeyOf(w, k.name).log <= k.log
    requires forall ip :: ip in k.started ==> ip in KeyOf(w, k.name).started || Accused(w, k.name, ip)
    ensures SystemOk(Replace(w, k), g)
  {
    ReplaceKeepsKeys(w, k);
    ReplaceKeepsStarted(w, k);
    forall i | 0 <= i < |w.evidence|
      ensures WasStored(Replace(w, k), w.evidence[i])
    {
      StaysStored(w, Replace(w, k), w.evidence[i]);
    }
  }

  lemma OnKeyKeeps(w: System, g: GeoIP, name: string, s: Step)
    requires SystemOk(w, g) && !s.Begin?
    ensures SystemOk(Replace(w, Next(KeyOf(w, name), s)), g)
  {
    KeyOfReachable(w, name);
    StepBasics(KeyOf(w, name), s);
    ReplaceKeeps(w, g, Next(KeyOf(w, name), s));
  }

  lemma ReportKeeps(w: System, g: GeoIP, i: nat, call: nat)
    requires SystemOk(w, g) && i < |w.evidence|
    ensures var e := w.evidence[i]; SystemOk(Replace(w, NextBegin(KeyOf(w, e.policy.name), call, e.agent, e.ip)), g)
  {
    hide Reachable;
    var e := w.evidence[i];
    var k := KeyOf(w, e.policy.name);
    KeyOfReachable(w, e.policy.name);
    StepBasics(k, Begin(call, e.agent, e.ip));
    assert Accuses(w.evidence[i], e.policy.name, e.ip);
    ReplaceKeeps(w, g, NextBegin(k, call, e.agent, e.ip));
  }

  lemma ViewIsStored(w: System, agent: nat, name: string)
    requires KeysOk(w) && name in View(w, agent)
    ensures name in w.keys && agent in w.seen && name in w.seen[agent]
    ensures w.seen[agent][name] < |w.keys[name].log|
    ensures w.keys[name].log[w.seen[agent][name]] == Some(View(w, agent)[name])
    ensures View(w, agent)[name].name == name
  {
    ReachableHolds(w.keys[name]);
    assert VersionOk(View(w, agent)[name], name, w.keys[name].rev);
  }

  lemma ViewKeyed(w: System, agent: nat)
    requires KeysOk(w)
    ensures Keyed(View(w, agent))
    ensures forall name :: name in View(w, agent) ==> name in w.keys && Some(View(w, agent)[name]) in w.keys[name].log
  {
    forall name | name in View(w, agent)
      ensures View(w, agent)[name].name == name && name in w.keys && Some(View(w, agent)[name]) in w.keys[name].log
    {
      ViewIsStored(w, agent, name);
    }
  }

  /** A verdict that asks for blocking justifies its evidence. */
  lemma VerdictJustifies(g: GeoIP, e: Evidence)
    requires ParseEvent(e.response).Some? && Keyed(e.view) && e.event == Enrich(g, ParseEvent(e.response).value)
    requires var ev := e.event;
             var v := Evaluate(ev, e.order);
             && IsMatch(e.order, e.view, ev.namespace) && v.violated && Blocking(v.actions)
             && v.policyName in e.view && e.policy == e.view[v.policyName] && e.ip == ev.destIP
    ensures Justifies(g, e)
  {
    hide ParseEvent, Enrich, LookupCountry, IsPrivate;
    EnrichExact(g, e.response);
    VerdictExact(e.view, e.event, e.order);
  }

  lemma HandleKeeps(w: System, g: GeoIP, agent: nat, response: Response, order: seq<Policy>)
    requires SystemOk(w, g)
    ensures SystemOk(NextHandle(w, g, agent, response, order), g)
  {
    var n := NextHandle(w, g, agent, response, order);
    if n != w {
      var e := n.evidence[|w.evidence|];
      ViewKeyed(w, agent);
      ViewIsStored(w, agent, e.policy.name);
      VerdictJustifies(g, e);
      EvidenceKept(w, n, g, e);
    }
  }

  lemma EvidenceGrows(w: System, n: System)
    requires StartedOk(w) && n == w.(evidence := n.evidence) && w.evidence <= n.evidence
    ensures StartedOk(n)
  {
  }

  lemma EvidenceKept(w: System, n: System, g: GeoIP, e: Evidence)
    requires SystemOk(w, g) && n == w.(evidence := w.evidence + [e]) && WasStored(w, e) && Justifies(g, e)
    ensures SystemOk(n, g)
  {
    EvidenceGrows(w, n);
    forall i | 0 <= i < |n.evidence|
      ensures WasStored(n, n.evidence[i]) && Justifies(g, n.evidence[i])
    {
      assert i < |w.evidence| ==> WasStored(w, w.evidence[i]) && Justifies(g, w.evidence[i]);
      StaysStored(w, n, n.evidence[i]);
    }
  }

  lemma NextSystemKeeps(w: System, g: GeoIP, e: SystemStep)
    requires SystemOk(w, g)
    ensures SystemOk(NextSystem(w, g, e), g)
  {
    match e
    case OnKey(name, s) => if !s.Begin? { OnKeyKeeps(w, g, name, s); }
    case Notify(agent, name, at) => EvidenceGrows(w, w);
    case Handle(agent, response, order) => HandleKeeps(w, g, agent, response, order);
    case Report(i, call) => if i < |w.evidence| { ReportKeeps(w, g, i, call); }
  }

  lemma {:induction false} RunSystemKeeps(w: System, g: GeoIP, events: seq<SystemStep>)
    requires SystemOk(w, g)
    ensures SystemOk(RunSystem(w, g, events), g)
    decreases |events|
  {
    if events != [] {
      RunSystemKeeps(w, g, events[..|events| - 1]);
      NextSystemKeeps(RunSystem(w, g, events[..|events| - 1]), g, events[|events| - 1]);
    }
  }

  // ---------------------------------------------------------------- what holds in every reachable system

  lemma SystemReachable(w: System, g: GeoIP, limit: nat, steps: seq<SystemStep>)
    requires 0 < limit && w == RunSystem(Start(limit), g, steps)
    ensures SystemOk(w, g)
  {
    RunSystemKeeps(Start(limit), g, steps);
  }

  /** Whatever all the agents, writers and reconcilers do, every policy is in a state of its own protocol,
      so that the theorems about one name hold for all names at once. */
  lemma EveryPolicyKeepsItsProtocol(w: System, g: GeoIP, limit: nat, steps: seq<SystemStep>, name: string)
    requires 0 < limit && w == RunSystem(Start(limit), g, steps) && name in w.keys
    ensures Reachable(w.keys[name]) && w.keys[name].name == name && w.keys[name].limit == w.limit
  {
    SystemReachable(w, g, limit, steps);
  }

  /** An agent saw a connection to the address and judged it by a stored version of the policy that forbids it
      and asks for blocking. */
  ghost predicate Blamed(w: System, g: GeoIP, name: string, ip: string) {
    exists i :: 0 <= i < |w.evidence| && Accuses(w.evidence[i], name, ip)
                && WasStored(w, w.evidence[i]) && Justifies(g, w.evidence[i])
  }

  /** Provenance of the status: no list, of no version of no policy, holds an address that was not judged so. */
  lemma ListedMeansBlamed(w: System, g: GeoIP, limit: nat, steps: seq<SystemStep>, name: string, at: nat, ip: string)
    requires 0 < limit && w == RunSystem(Start(limit), g, steps)
    requires name in w.keys && at < |w.keys[name].log| && Lists(w.keys[name].log[at], ip)
    ensures Blamed(w, g, name, ip)
  {
    SystemReachable(w, g, limit, steps);
    ReachableHolds(w.keys[name]);
    assert Stored(w.keys[name].log, ip);
    assert Accused(w, name, ip);
  }

  /** Provenance of the kernel: every value of every rule is the /32 image of such an address. */
  lemma RuleMeansBlamed(w: System, g: GeoIP, limit: nat, steps: seq<SystemStep>, name: string, v: nat)
    returns (ip: string)
    requires 0 < limit && w == RunSystem(Start(limit), g, steps)
    requires name in w.keys && w.keys[name].rule.Some? && v < |w.keys[name].rule.value.body.values|
    ensures w.keys[name].rule.value.body.values[v] == ip + "/32"
    ensures Blamed(w, g, name, ip)
  {
    SystemReachable(w, g, limit, steps);
    var k := w.keys[name];
    ReachableHolds(k);
    var list := k.log[k.source].value.status.discoveredViolatorIPs;
    assert k.rule.value.body.values == Cidrs(list);
    ip := list[v];
    assert Lists(k.log[k.source], ip);
    ListedMeansBlamed(w, g, limit, steps, name, k.source, ip);
  }

  /** Only public addresses: nothing listed is the unknown destination, unreadable, or inside a private range. */
  lemma OnlyPublicAddressesListed(w: System, g: GeoIP, limit: nat, steps: seq<SystemStep>,
                                  name: string, at: nat, ip: string)
    requires 0 < limit && w == RunSystem(Start(limit), g, steps)
    requires name in w.keys && at < |w.keys[name].log| && Lists(w.keys[name].log[at], ip)
    ensures ip != "unknown" && g.parse(ip).Some?
    ensures var x := g.parse(ip).value;
            if To4(x).Some? then !PrivateNumber4(Value(To4(x).value)) else |x| == 16 ==> !PrivateNumber6(Value(x))
  {
    ListedMeansBlamed(w, g, limit, steps, name, at, ip);
    PrivateExact(g.parse(ip).value);
  }
}
