/** From the kernel back to the event: what the rules of a running system can block, and why. */
module EndToEnd {
  import opened Policies
  import opened PolicyProtocol
  import opened PolicyInvariant
  import opened PolicyTheorems
  import opened Geo
  import opened World
  import opened Blocklist

  /** What net.ParseIP is known for: the texts of addresses have no slash, they have sixteen bytes (four would do as
      well), and those of a dotted text are an IPv4 address. */
  ghost predicate ParserOk(g: GeoIP) {
    forall s :: g.parse(s).Some? ==> WellFormed(g, s)
  }

  /** The list the rule of a policy was written from holds only addresses that were judged, all of them public. */
  lemma RuleList(w: System, g: GeoIP, limit: nat, steps: seq<SystemStep>, name: string) returns (ips: seq<string>)
    requires 0 < limit && w == RunSystem(Start(limit), g, steps) && ParserOk(g)
    requires name in w.keys && w.keys[name].rule.Some?
    ensures w.keys[name].rule.value.body.values == Cidrs(ips) && AllWellFormed(g, ips)
    ensures forall i :: 0 <= i < |ips| ==> Blamed(w, g, name, ips[i]) && !IsPrivate(AddressOf(g, ips[i]))
  {
    SystemReachable(w, g, limit, steps);
    var k := w.keys[name];
    ReachableHolds(k);
    ips := k.log[k.source].value.status.discoveredViolatorIPs;
    forall i | 0 <= i < |ips|
      ensures WellFormed(g, ips[i]) && Blamed(w, g, name, ips[i]) && !IsPrivate(AddressOf(g, ips[i]))
    {
      assert Lists(k.log[k.source], ips[i]);
      ListedMeansBlamed(w, g, limit, steps, name, k.source, ips[i]);
      var j :| 0 <= j < |w.evidence| && Accuses(w.evidence[j], name, ips[i])
               && WasStored(w, w.evidence[j]) && Justifies(g, w.evidence[j]);
      AddressIsParsed(g, ips[i]);
    }
  }

  /** An IPv4 destination that a rule blocks, in either form, was itself the destination of a connection that an agent
      judged by a stored version of that very policy, which forbids its country and asks for blocking. */
  lemma BlockedMeansBlamed(w: System, g: GeoIP, limit: nat, steps: seq<SystemStep>, name: string, d: Bytes)
    returns (ip: string)
    requires 0 < limit && w == RunSystem(Start(limit), g, steps) && ParserOk(g)
    requires name in w.keys && w.keys[name].rule.Some?
    requires To4(d).Some? && Blocks(g, w.keys[name].rule.value.body.values, d)
    ensures g.parse(ip).Some? && Short(g.parse(ip).value) == Short(d) && Blamed(w, g, name, ip)
  {
    var ips := RuleList(w, g, limit, steps, name);
    ExactForIPv4(g, ips, d);
    var i :| 0 <= i < |ips| && AddressOf(g, ips[i]) == Short(d);
    ip := ips[i];
    AddressIsParsed(g, ip);
  }

  ghost predicate StartsWithZeros(g: GeoIP, ip: string) {
    |AddressOf(g, ip)| == 16 && AddressOf(g, ip)[..4] == Zeros(4)
  }

  /** A private destination is private in its shortest form, which has four or sixteen bytes. */
  lemma PrivateInEitherForm(d: Bytes)
    requires IsPrivate(d)
    ensures IsPrivate(Short(d)) && Plain(Short(d))
  {
    PrivateExact(d);
    PrivateExact(Short(d));
  }

  /** The private destinations that the rule of a list of public addresses blocks. */
  lemma PublicListBlocks(g: GeoIP, ips: seq<string>, d: Bytes)
    requires AllWellFormed(g, ips) && (forall i :: 0 <= i < |ips| ==> !IsPrivate(AddressOf(g, ips[i])))
    requires IsPrivate(d)
    ensures Blocks(g, Cidrs(ips), d) <==>
              d == Zeros(15) + [1] && exists i :: 0 <= i < |ips| && StartsWithZeros(g, ips[i])
  {
    RuleBlocks(g, ips, d);
    PrivateInEitherForm(d);
    if Blocks(g, Cidrs(ips), d) {
      var i :| 0 <= i < |ips| && SharesPrefix(AddressOf(g, ips[i]), Short(d));
      PrivateNeighbour(AddressOf(g, ips[i]), Short(d));
      assert StartsWithZeros(g, ips[i]);
    }
    if d == Zeros(15) + [1] && exists i :: 0 <= i < |ips| && StartsWithZeros(g, ips[i]) {
      var i :| 0 <= i < |ips| && StartsWithZeros(g, ips[i]);
      assert d[..4] == Zeros(4) && d[10] == 0;
      assert SharesPrefix(AddressOf(g, ips[i]), Short(d));
    }
  }

  /** "No private destination is ever blocked" holds for IPv4 and fails for one IPv6 address: a rule blocks a private
      destination iff that is the IPv6 loopback and the rule was written from a list, all of it judged, with an
      address in IPv6 form that starts with four zero bytes. */
  lemma PrivateBlockedExactly(w: System, g: GeoIP, limit: nat, steps: seq<SystemStep>, name: string, d: Bytes)
    returns (ips: seq<string>)
    requires 0 < limit && w == RunSystem(Start(limit), g, steps) && ParserOk(g)
    requires name in w.keys && w.keys[name].rule.Some? && IsPrivate(d)
    ensures w.keys[name].rule.value.body.values == Cidrs(ips)
    ensures forall i :: 0 <= i < |ips| ==> Blamed(w, g, name, ips[i])
    ensures Blocks(g, w.keys[name].rule.value.body.values, d) <==>
              d == Zeros(15) + [1] && exists i :: 0 <= i < |ips| && StartsWithZeros(g, ips[i])
  {
    ips := RuleList(w, g, limit, steps, name);
    PublicListBlocks(g, ips, d);
  }

  // ---------------------------------------------------------------- enforcement

  /** Whatever a policy lists is a readable address. */
  lemma ListedIsWellFormed(w: System, g: GeoIP, limit: nat, steps: seq<SystemStep>, name: string, at: nat)
    requires 0 < limit && w == RunSystem(Start(limit), g, steps) && ParserOk(g)
    requires name in w.keys && at < |w.keys[name].log|
    ensures AllWellFormed(g, ListOf(w.keys[name].log[at]))
  {
    var list := ListOf(w.keys[name].log[at]);
    forall i | 0 <= i < |list|
      ensures WellFormed(g, list[i])
    {
      assert Lists(w.keys[name].log[at], list[i]);
      OnlyPublicAddressesListed(w, g, limit, steps, name, at, list[i]);
    }
  }

  /** The kernel blocks the destination on behalf of this policy name. */
  ghost predicate BlockedBy(g: GeoIP, k: Key, d: Bytes) {
    k.rule.Some? && Blocks(g, k.rule.value.body.values, d)
  }

  /** What the rule of a settled name lists. */
  lemma SettledRule(k: Key)
    requires Settled(k) && Current(k.log).Some?
    ensures k.rule.Some? <==> Blocking(Current(k.log).value.spec.actions) && ListOf(Current(k.log)) != []
    ensures k.rule.Some? ==> k.rule.value.body.values == Cidrs(ListOf(Current(k.log)))
  {
    KernelActionExact(Current(k.log).value.spec.actions);
  }

  /** Enforcement, once the controller has settled: a destination is blocked on behalf of a policy iff the policy asks
      for blocking and lists an address of the same /32, which for an IPv4 destination is that destination itself. */
  lemma SettledBlocksExactly(w: System, g: GeoIP, limit: nat, steps: seq<SystemStep>, name: string, d: Bytes)
    requires 0 < limit && w == RunSystem(Start(limit), g, steps) && ParserOk(g)
    requires name in w.keys && Settled(w.keys[name]) && Current(w.keys[name].log).Some?
    ensures var p, list := Current(w.keys[name].log).value, ListOf(Current(w.keys[name].log));
            && (BlockedBy(g, w.keys[name], d) <==>
                  && Blocking(p.spec.actions)
                  && exists i :: 0 <= i < |list| && SharesPrefix(AddressOf(g, list[i]), Short(d)))
            && (To4(d).Some? ==>
                  (BlockedBy(g, w.keys[name], d) <==> Blocking(p.spec.actions) && Listed(g, list, Short(d))))
  {
    hide RunSystem, Settled, Blocks;
    var k := w.keys[name];
    SettledRule(k);
    ListedIsWellFormed(w, g, limit, steps, name, |k.log| - 1);
    RuleBlocks(g, ListOf(Current(k.log)), d);
    if To4(d).Some? {
      ExactForIPv4(g, ListOf(Current(k.log)), d);
    }
  }

  /** From the report to the kernel: a report that ended without error in the incarnation that is still current, for
      a policy that asks for blocking, means that its destination is blocked once the controller has settled, iff the
      destination was written in its shortest form or its shortest form is listed, too.  A dotted text always is. */
  lemma ReportedMeansBlocked(w: System, g: GeoIP, limit: nat, steps: seq<SystemStep>, name: string, id: nat)
    requires 0 < limit && w == RunSystem(Start(limit), g, steps) && ParserOk(g)
    requires name in w.keys && Settled(w.keys[name]) && Current(w.keys[name].log).Some?
    requires Blocking(Current(w.keys[name].log).value.spec.actions)
    requires id in w.keys[name].results && w.keys[name].results[id].outcome.Done?
    requires var r, k := w.keys[name].results[id], w.keys[name];
             0 < r.end <= |k.log| && SameIncarnation(k.log[r.end - 1], Current(k.log))
    ensures var ip := w.keys[name].results[id].ip;
            && WellFormed(g, ip)
            && (BlockedBy(g, w.keys[name], g.parse(ip).value) <==>
                  Plain(AddressOf(g, ip)) || Listed(g, ListOf(Current(w.keys[name].log)), Short(g.parse(ip).value)))
            && (':' !in ip ==> BlockedBy(g, w.keys[name], g.parse(ip).value))
  {
    hide RunSystem, Reachable, Settled, Blocks, Cidrs;
    var k := w.keys[name];
    var ip, last := k.results[id].ip, |k.log| - 1;
    EveryPolicyKeepsItsProtocol(w, g, limit, steps, name);
    DoneStaysListed(k, id, k.results[id].end - 1, last);
    SettledRule(k);
    ListedIsWellFormed(w, g, limit, steps, name, last);
    var list := ListOf(Current(k.log));
    var i :| 0 <= i < |list| && list[i] == ip;
    ListedIsBlockedIff(g, list, i);
    AddressIsParsed(g, ip);
    SameInEitherForm(g, list, AddressOf(g, ip), g.parse(ip).value);
  }
}
