/** The SovereigntyPolicy resource (api/v1alpha1/sovereigntypolicy_types.go) and the
    kernel rule that the policy controller derives from it. */
module Policies {

  datatype Option<+T> = None | Some(value: T)

  /** How a request to the API server ends: answered, applied without an answer, or failed without effect. */
  datatype Reply = Answered | Lost | Failed

  datatype Action = Allow | Log | BlockKill | BlockNoConn

  datatype Spec = Spec(
    actions: seq<Action>,
    namespaces: seq<string>,
    description: string,
    allowedCountries: seq<string>,
    disallowedCountries: seq<string>)

  /** `ready` says that the Ready condition of the reconciler is present. */
  datatype Status = Status(ready: bool, discoveredViolatorIPs: seq<string>)

  /** One stored version of a policy.  `uid` names the incarnation, `rv` is its resource version. */
  datatype Policy = Policy(name: string, uid: nat, rv: nat, spec: Spec, status: Status)

  predicate IsBlock(a: Action) {
    a == BlockKill || a == BlockNoConn
  }

  /** Some action of the list blocks. */
  predicate Blocking(actions: seq<Action>) {
    exists i :: 0 <= i < |actions| && IsBlock(actions[i])
  }

  predicate NoDuplicates<T(==)>(s: seq<T>) {
    forall i, j :: 0 <= i < j < |s| ==> s[i] != s[j]
  }

  /** What Tetragon does to a process that connects to a listed address. */
  datatype KernelAction = Sigkill | Override(argError: int)

  /** The part of a TracingPolicy object that the controller computes. */
  datatype RuleBody = RuleBody(kernelAction: KernelAction, values: seq<string>)

  /** A stored TracingPolicy object. */
  datatype Rule = Rule(rv: nat, ownerUid: nat, body: RuleBody)

  function KernelActionFor(actions: seq<Action>): Option<KernelAction> {
    if BlockKill in actions then Some(Sigkill)
    else if BlockNoConn in actions then Some(Override(-111))
    else None
  }

  function Cidrs(ips: seq<string>): seq<string> {
    seq(|ips|, i requires 0 <= i < |ips| => ips[i] + "/32")
  }

  /** The rule the controller wants for a version of the policy. */
  function DesiredRule(p: Policy): Option<RuleBody> {
    var action := KernelActionFor(p.spec.actions);
    if action.None? || |p.status.discoveredViolatorIPs| == 0 then None
    else Some(RuleBody(action.value, Cidrs(p.status.discoveredViolatorIPs)))
  }

  function RuleName(policyName: string): string {
    policyName + "-ebpf-rule"
  }

  /** Two policies never share a rule object, so a rule may be kept beside its policy. */
  lemma RuleNameInjective(p: string, q: string)
    ensures RuleName(p) == RuleName(q) <==> p == q
    ensures p <= RuleName(p) && RuleName(p)[|p|..] == "-ebpf-rule"
  {
    if RuleName(p) == RuleName(q) {
      assert |p| == |q|;
      assert p == RuleName(p)[..|p|] && q == RuleName(q)[..|q|];
    }
  }

  /** The agents report an address under exactly the condition under which the controller can build
      a kernel action, and a kill request has priority over a refused connection. */
  lemma KernelActionExact(actions: seq<Action>)
    ensures KernelActionFor(actions).Some? <==> Blocking(actions)
    ensures KernelActionFor(actions) == Some(Sigkill) <==> BlockKill in actions
    ensures KernelActionFor(actions) == Some(Override(-111)) <==> BlockNoConn in actions && BlockKill !in actions
  {
  }

  /** What the controller wants for a version: a rule iff some action blocks and addresses are known.  It kills if
      block-kill is among the actions and otherwise refuses the connection with error -111, for each address as a /32,
      in order. */
  lemma DesiredRuleExact(p: Policy)
    ensures DesiredRule(p).Some? <==> Blocking(p.spec.actions) && p.status.discoveredViolatorIPs != []
    ensures DesiredRule(p).Some? ==>
              var body, ips := DesiredRule(p).value, p.status.discoveredViolatorIPs;
              && body.kernelAction == (if BlockKill in p.spec.actions then Sigkill else Override(-111))
              && |body.values| == |ips|
              && forall i :: 0 <= i < |ips| ==> body.values[i] == ips[i] + "/32"
  {
    KernelActionExact(p.spec.actions);
  }

  /** A longer list gives a longer rule that starts with the shorter one. */
  lemma CidrsMonotone(shorter: seq<string>, longer: seq<string>)
    requires shorter <= longer
    ensures Cidrs(shorter) <= Cidrs(longer)
    ensures Cidrs(shorter) == Cidrs(longer) <==> shorter == longer
  {
  }

  // ---------------------------------------------------------------- requests in a row

  /** Some first requests of a row, of which the last may have been answered in another way. */
  ghost predicate FirstOf<T>(asked: seq<T>, all: seq<T>, same: (T, T) -> bool) {
    && 0 < |asked| <= |all|
    && asked[..|asked| - 1] == all[..|asked| - 1]
    && same(asked[|asked| - 1], all[|asked| - 1])
  }

  /** How far a row of requests got: through all of them, or through some first ones. */
  ghost predicate GotTo<T>(done: bool, asked: seq<T>, all: seq<T>, same: (T, T) -> bool) {
    if done then asked == all else FirstOf(asked, all, same)
  }

  lemma FirstOfMore<T>(before: seq<T>, asked: seq<T>, all: seq<T>, more: seq<T>, same: (T, T) -> bool)
    requires FirstOf(asked, all, same)
    ensures FirstOf(before + asked, before + all + more, same)
  {
    var row, whole := before + asked, before + all + more;
    assert row[..|row| - 1] == before + asked[..|asked| - 1];
    assert whole[..|row| - 1] == before + all[..|asked| - 1];
    assert row[|row| - 1] == asked[|asked| - 1] && whole[|row| - 1] == all[|asked| - 1];
  }
}
