/** internal/policy/reporter.go: an agent reports an address for a policy at most once at a time, with a local
    cache in front of a read-modify-write loop against the API server. */
module Reporters {
  import opened Policies
  import opened PolicyProtocol
  import opened PolicyInvariant
  import opened World
  import opened Clusters

  function CacheKey(policyName: string, ip: string): string {
    policyName + ":" + ip
  }

  /** Policy names have no colon, so the cache keeps different reports apart, IPv6 addresses included. */
  lemma CacheKeyInjective(p: string, ip: string, q: string, iq: string)
    requires ':' !in p && ':' !in q
    ensures CacheKey(p, ip) == CacheKey(q, iq) <==> p == q && ip == iq
  {
    var a, b := CacheKey(p, ip), CacheKey(q, iq);
    if a == b {
      assert a[|p|] == ':' && b[|q|] == ':';
      assert forall i :: 0 <= i < |p| ==> a[i] == p[i];
      assert forall i :: 0 <= i < |q| ==> b[i] == q[i];
      assert p == a[..|p|] && q == b[..|q|] && ip == a[|p| + 1..] && iq == b[|q| + 1..];
    }
  }

  lemma KeysApart(p: string, ip: string)
    requires ':' !in p
    ensures forall q, iq :: ':' !in q && (q, iq) != (p, ip) ==> CacheKey(q, iq) != CacheKey(p, ip)
  {
    forall q, iq | ':' !in q && (q, iq) != (p, ip)
      ensures CacheKey(q, iq) != CacheKey(p, ip)
    {
      CacheKeyInjective(q, iq, p, ip);
    }
  }

  /** What a call of ReportViolator did to the history of the policy and to the cache.  A reported key changes nothing.
      Otherwise no error means that the address was listed at some moment since the call began, NotFound that the
      policy was absent, and Conflict that the policy changed once for each attempt; the key stays after the first two
      and goes after any failure. */
  ghost predicate ReportEffect(before: seq<Option<Policy>>, after: seq<Option<Policy>>, was: map<string, bool>,
                               now: map<string, bool>, policyName: string, ip: string, limit: nat, err: Outcome)
  {
    var key := CacheKey(policyName, ip);
    if key in was && was[key] then err.Done? && now == was && after == before
    else
      && before <= after
      && (err.Done? ==> ListedSince(after, |before|, ip))
      && (err.NotFound? ==> AbsentSince(after, |before|))
      && (err.Conflict? ==> limit <= |after| - |before|)
      && now == if err.Done? || err.NotFound? then was[key := true] else was - {key}
  }

  /** A report that nothing disturbs finds the policy absent, or leaves it with the address listed. */
  ghost predicate InPeace(k: Key, n: Key, ip: string, err: Outcome) {
    && (if Current(k.log).Some? then err.Done? else err.NotFound?)
    && n.log == LogAfterReport(k, ip)
  }

  class PolicyReporter {
    const agent: nat
    var reportedIPs: map<string, bool>
    ghost var requested: seq<(string, string)>   // policy and address of every call of ReportViolator

    constructor (agent: nat)
      ensures this.agent == agent && reportedIPs == map[] && requested == []
    {
      this.agent := agent;
      reportedIPs := map[];
      requested := [];
    }

    predicate Reported(policyName: string, ip: string)
      reads this
    {
      CacheKey(policyName, ip) in reportedIPs && reportedIPs[CacheKey(policyName, ip)]
    }

    /** The cache is exactly the set of marks of this agent. */
    ghost predicate Mirrors(w: System)
      reads this
    {
      forall name, ip :: ':' !in name ==> (Reported(name, ip) <==> (agent, ip) in KeyOf(w, name).marks)
    }

    /** One attempt: read, check, append, write. */
    method AddViolator(cluster: Cluster, policyName: string, violatorIP: string, id: nat, ghost call: Call)
      returns (err: Outcome)
      requires cluster.Valid()
      requires Holding(cluster.w, policyName, id, call) && call.progress.Reading?
      requires call.agent == agent && call.ip == violatorIP
      modifies cluster
      ensures cluster.Valid() && SameMarks(old(cluster.w), cluster.w, agent)
      ensures Kept(old(cluster.w), cluster.w, policyName)
      ensures AttemptOk(KeyOf(cluster.w, policyName), id, call, err)
      ensures cluster.quiet ==>
                InPeace(KeyOf(old(cluster.w), policyName), KeyOf(cluster.w, policyName), violatorIP, err)
    {
      hide RunSystem;
      var current: Option<Policy>;
      ghost var held;
      err, current, held := cluster.GetPolicy(agent, policyName, id, call);
      if !err.Done? || violatorIP in current.value.status.discoveredViolatorIPs {
        return;
      }
      var changed := current.value.(status := current.value.status.(
        discoveredViolatorIPs := current.value.status.discoveredViolatorIPs + [violatorIP]));
      err := cluster.UpdateStatus(agent, policyName, id, changed, held);
    }

    /** retry.RetryOnConflict around AddViolator. */
    method RetryOnConflict(cluster: Cluster, policyName: string, violatorIP: string, id: nat, ghost call: Call)
      returns (err: Outcome)
      requires cluster.Valid()
      requires Holding(cluster.w, policyName, id, call) && call == Call(agent, violatorIP, Reading, 0, call.start)
      modifies cluster
      ensures cluster.Valid() && SameMarks(old(cluster.w), cluster.w, agent)
      ensures Kept(old(cluster.w), cluster.w, policyName)
      ensures ReportOk(KeyOf(cluster.w, policyName), id, call, err)
      ensures cluster.quiet ==>
                InPeace(KeyOf(old(cluster.w), policyName), KeyOf(cluster.w, policyName), violatorIP, err)
    {
      hide RunSystem;
      var attempts := 0;
      err := Conflict;
      while attempts < cluster.limit && err.Conflict?
        invariant cluster.Valid() && 0 <= attempts <= cluster.limit
        invariant SameMarks(old(cluster.w), cluster.w, agent)
        invariant attempts > 0 ==> Kept(old(cluster.w), cluster.w, policyName)
        invariant attempts == 0 ==> cluster.w == old(cluster.w) && err.Conflict?
        invariant attempts > 0 ==> AttemptOk(KeyOf(cluster.w, policyName), id, call.(conflicts := attempts - 1), err)
        invariant attempts > 0 && cluster.quiet ==>
                    InPeace(KeyOf(old(cluster.w), policyName), KeyOf(cluster.w, policyName), violatorIP, err)
        decreases cluster.limit - attempts
      {
        err := AddViolator(cluster, policyName, violatorIP, id, call.(conflicts := attempts));
        attempts := attempts + 1;
      }
    }

    /** The first critical section: a key that is not yet reported is marked, and the call begins. */
    method CheckAndMark(cluster: Cluster, policyName: string, violatorIP: string, index: nat, id: nat)
      returns (hit: bool, ghost call: Call)
      requires Ready(cluster, policyName, violatorIP, index, id)
      modifies this`reportedIPs, cluster
      ensures cluster.Valid() && Mirrors(cluster.w)
      ensures hit == old(Reported(policyName, violatorIP))
      ensures hit ==> reportedIPs == old(reportedIPs) && cluster.w == old(cluster.w)
      ensures !hit ==> && reportedIPs == old(reportedIPs)[CacheKey(policyName, violatorIP) := true]
                       && Kept(old(cluster.w), cluster.w, policyName)
                       && KeyOf(cluster.w, policyName).log == KeyOf(old(cluster.w), policyName).log
                       && KeyOf(cluster.w, policyName).rev == KeyOf(old(cluster.w), policyName).rev
                       && call == Call(agent, violatorIP, Reading, 0, |KeyOf(old(cluster.w), policyName).log|)
                       && Holding(cluster.w, policyName, id, call)
    {
      hide RunSystem;
      var cacheKey := policyName + ":" + violatorIP;
      call := Call(agent, violatorIP, Reading, 0, |KeyOf(cluster.w, policyName).log|);
      hit := cacheKey in reportedIPs && reportedIPs[cacheKey];
      if !hit {
        reportedIPs := reportedIPs[cacheKey := true];
        cluster.BeginReport(index, id);
        KeysApart(policyName, violatorIP);
      }
    }

    /** The last critical section: a failed call takes its mark back. */
    method Unmark(cluster: Cluster, policyName: string, violatorIP: string, id: nat, ghost call: Call)
      requires cluster.Valid() && Mirrors(cluster.w) && ':' !in policyName
      requires Holding(cluster.w, policyName, id, call)
      requires call.agent == agent && call.ip == violatorIP && call.progress.RollingBack?
      modifies this`reportedIPs, cluster
      ensures cluster.Valid() && Mirrors(cluster.w) && Kept(old(cluster.w), cluster.w, policyName)
      ensures id !in KeyOf(cluster.w, policyName).calls
      ensures reportedIPs == old(reportedIPs) - {CacheKey(policyName, violatorIP)}
    {
      hide RunSystem;
      reportedIPs := reportedIPs - {CacheKey(policyName, violatorIP)};
      cluster.RollbackReport(agent, policyName, id, call);
      KeysApart(policyName, violatorIP);
    }

    /** The caller has a verdict against the address, and the number of the call is fresh. */
    ghost predicate Ready(cluster: Cluster, policyName: string, violatorIP: string, index: nat, id: nat)
      reads this, cluster
    {
      && cluster.Valid() && Mirrors(cluster.w) && ':' !in policyName
      && index < |cluster.w.evidence| && cluster.w.evidence[index].agent == agent
      && Accuses(cluster.w.evidence[index], policyName, violatorIP)
      && id !in KeyOf(cluster.w, policyName).calls && id !in KeyOf(cluster.w, policyName).results
    }

    /** ReportViolator, called for the verdict `index` of the history, under the call number `id`. */
    method ReportViolator(cluster: Cluster, policyName: string, violatorIP: string, index: nat, id: nat)
      returns (err: Outcome)
      requires Ready(cluster, policyName, violatorIP, index, id)
      modifies this, cluster
      ensures cluster.Valid() && Mirrors(cluster.w)
      ensures requested == old(requested) + [(policyName, violatorIP)]
      ensures old(Reported(policyName, violatorIP)) ==> cluster.w == old(cluster.w)
      ensures id !in KeyOf(cluster.w, policyName).calls
      ensures ReportEffect(KeyOf(old(cluster.w), policyName).log, KeyOf(cluster.w, policyName).log,
                           old(reportedIPs), reportedIPs, policyName, violatorIP, cluster.limit, err)
      ensures cluster.quiet && !old(Reported(policyName, violatorIP)) ==>
                InPeace(KeyOf(old(cluster.w), policyName), KeyOf(cluster.w, policyName), violatorIP, err)
    {
      hide RunSystem;
      requested := requested + [(policyName, violatorIP)];
      var hit;
      ghost var call;
      hit, call := CheckAndMark(cluster, policyName, violatorIP, index, id);
      if hit {
        return Done;
      }
      err := RetryOnConflict(cluster, policyName, violatorIP, id, call);
      if !err.Done? {
        if !err.NotFound? {
          Unmark(cluster, policyName, violatorIP, id, KeyOf(cluster.w, policyName).calls[id]);
          assert old(reportedIPs)[CacheKey(policyName, violatorIP) := true] - {CacheKey(policyName, violatorIP)} ==
                 old(reportedIPs) - {CacheKey(policyName, violatorIP)};
        }
      }
    }
  }
}
