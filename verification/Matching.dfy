/** internal/policy/policy.go, internal/policy/evaluator.go and internal/k8s/watcher.go: the policies an agent
    knows, how the informer keeps them, and the verdict on a connection. */
module Matching {
  import opened Policies

  // ---------------------------------------------------------------- the matcher

  predicate Applies(p: Policy, namespace: string) {
    exists i :: 0 <= i < |p.spec.namespaces| && (p.spec.namespaces[i] == "*" || p.spec.namespaces[i] == namespace)
  }

  predicate Keyed(policies: map<string, Policy>) {
    forall name :: name in policies ==> policies[name].name == name
  }

  /** The matching policies in some order, each of them once.  The order is that of a Go map: any. */
  predicate IsMatch(matches: seq<Policy>, policies: map<string, Policy>, namespace: string) {
    && NoDuplicates(matches)
    && (forall p :: p in matches ==> p.name in policies && policies[p.name] == p && Applies(p, namespace))
    && (forall name :: name in policies && Applies(policies[name], namespace) ==> policies[name] in matches)
  }

  class Matcher {
    var policies: map<string, Policy>

    ghost predicate Valid()
      reads this
    {
      Keyed(policies)
    }

    constructor ()
      ensures Valid() && policies == map[]
    {
      policies := map[];
    }

    method UpsertPolicy(p: Policy)
      requires Valid()
      modifies this
      ensures Valid() && policies == old(policies)[p.name := p]
    {
      policies := policies[p.name := p];
    }

    method RemovePolicy(p: Policy)
      requires Valid()
      modifies this
      ensures Valid() && policies == old(policies) - {p.name}
    {
      policies := policies - {p.name};
    }

    method Match(namespace: string) returns (matches: seq<Policy>)
      requires Valid()
      ensures IsMatch(matches, policies, namespace)
    {
      matches := [];
      var rest := policies.Keys;
      while rest != {}
        invariant rest <= policies.Keys
        invariant NoDuplicates(matches)
        invariant forall p :: p in matches ==>
                    p.name in policies && p.name !in rest && policies[p.name] == p && Applies(p, namespace)
        invariant forall name :: name in policies && name !in rest && Applies(policies[name], namespace) ==>
                    policies[name] in matches
        decreases |rest|
      {
        var name :| name in rest;
        rest := rest - {name};
        var p := policies[name];
        var i, found := 0, false;
        while i < |p.spec.namespaces| && !found
          invariant 0 <= i <= |p.spec.namespaces|
          invariant found ==> Applies(p, namespace)
          invariant !found ==>
                      forall j :: 0 <= j < i ==> p.spec.namespaces[j] != "*" && p.spec.namespaces[j] != namespace
          decreases |p.spec.namespaces| - i, !found
        {
          found := p.spec.namespaces[i] == "*" || p.spec.namespaces[i] == namespace;
          i := i + 1;
        }
        if found {
          matches := matches + [p];
        }
      }
    }
  }

  // ---------------------------------------------------------------- the informer

  /** What DeleteFunc receives: the object, a tombstone with the last object known, or something else. */
  datatype Notice = Object(p: Policy) | Tombstone(last: Option<Policy>) | Foreign

  datatype Callback = Added(p: Policy) | Updated(before: Policy, after: Policy) | Deleted(notice: Notice)

  function Gone(notice: Notice): Option<Policy> {
    match notice
    case Object(p) => Some(p)
    case Tombstone(last) => last
    case Foreign => None
  }

  function Apply(policies: map<string, Policy>, c: Callback): map<string, Policy> {
    match c
    case Added(p) => policies[p.name := p]
    case Updated(_, p) => policies[p.name := p]
    case Deleted(notice) => if Gone(notice).Some? then policies - {Gone(notice).value.name} else policies
  }

  /** The policy is there under its name, and all other names are as before. */
  ghost predicate Stores(before: map<string, Policy>, after: map<string, Policy>, p: Policy) {
    && p.name in after && after[p.name] == p
    && forall name :: name != p.name ==>
         (name in after <==> name in before) && (name in before ==> after[name] == before[name])
  }

  /** The name is gone, and all others are as before. */
  ghost predicate Removes(before: map<string, Policy>, after: map<string, Policy>, gone: string) {
    && gone !in after
    && forall name :: name != gone ==>
         (name in after <==> name in before) && (name in before ==> after[name] == before[name])
  }

  function Fold(history: seq<Callback>): map<string, Policy> {
    if history == [] then map[] else Apply(Fold(history[..|history| - 1]), history[|history| - 1])
  }

  /** An addition or an update stores the new object under its name.  A deletion takes the name of the object away, or
      of the last object known if that comes in a tombstone.  A tombstone without a policy and anything else do
      nothing. */
  method Deliver(matcher: Matcher, c: Callback)
    requires matcher.Valid()
    modifies matcher
    ensures matcher.Valid() && matcher.policies == Apply(old(matcher.policies), c)
    ensures match c
            case Added(p) => Stores(old(matcher.policies), matcher.policies, p)
            case Updated(_, p) => Stores(old(matcher.policies), matcher.policies, p)
            case Deleted(Object(p)) => Removes(old(matcher.policies), matcher.policies, p.name)
            case Deleted(Tombstone(Some(p))) => Removes(old(matcher.policies), matcher.policies, p.name)
            case Deleted(Tombstone(None)) => matcher.policies == old(matcher.policies)
            case Deleted(Foreign) => matcher.policies == old(matcher.policies)
  {
    match c
    case Added(p) => matcher.UpsertPolicy(p);
    case Updated(_, p) => matcher.UpsertPolicy(p);
    case Deleted(notice) =>
      match notice {
        case Object(p) => matcher.RemovePolicy(p);
        case Tombstone(last) =>
          if last.None? { return; }
          matcher.RemovePolicy(last.value);
        case Foreign =>
      }
  }

  method WatchPolicies(matcher: Matcher, history: seq<Callback>)
    requires matcher.Valid() && matcher.policies == map[]
    modifies matcher
    ensures matcher.Valid() && matcher.policies == Fold(history)
    ensures forall name :: name in matcher.policies <==>
              exists i: nat :: LastAbout(history, i, name) && Brings(history[i]).Some?
    ensures forall name, i: nat :: LastAbout(history, i, name) && Brings(history[i]).Some? ==>
              name in matcher.policies && matcher.policies[name] == Brings(history[i]).value
  {
    for i := 0 to |history|
      invariant matcher.Valid() && matcher.policies == Fold(history[..i])
    {
      Deliver(matcher, history[i]);
      assert history[..i + 1][..i] == history[..i];
    }
    assert history[..|history|] == history;
    forall name {
      FoldIsLastEvent(history, name);
    }
  }

  /** The callback speaks about the name: it gives it a policy, or takes it away. */
  predicate Concerns(c: Callback, name: string) {
    match c
    case Added(p) => p.name == name
    case Updated(_, p) => p.name == name
    case Deleted(Object(p)) => p.name == name
    case Deleted(Tombstone(Some(p))) => p.name == name
    case Deleted(Tombstone(None)) => false
    case Deleted(Foreign) => false
  }

  function Brings(c: Callback): Option<Policy> {
    match c
    case Added(p) => Some(p)
    case Updated(_, p) => Some(p)
    case Deleted(_) => None
  }

  ghost predicate LastAbout(history: seq<Callback>, i: nat, name: string) {
    i < |history| && Concerns(history[i], name) && forall j :: i < j < |history| ==> !Concerns(history[j], name)
  }

  /** The matcher holds for every name what the last callback about that name brought, and nothing else. */
  lemma {:induction false} FoldIsLastEvent(history: seq<Callback>, name: string)
    ensures name in Fold(history) <==> exists i: nat :: LastAbout(history, i, name) && Brings(history[i]).Some?
    ensures forall i: nat :: LastAbout(history, i, name) && Brings(history[i]).Some? ==>
              name in Fold(history) && Fold(history)[name] == Brings(history[i]).value
    ensures Keyed(Fold(history))
  {
    if history != [] {
      var before, last := history[..|history| - 1], |history| - 1;
      FoldIsLastEvent(before, name);
      if Concerns(history[last], name) {
        assert LastAbout(history, last, name);
      } else {
        forall i: nat
          ensures LastAbout(history, i, name) <==> LastAbout(before, i, name)
        {
        }
      }
      KeyedStays(Fold(before), history[last]);
    }
  }

  lemma KeyedStays(policies: map<string, Policy>, c: Callback)
    requires Keyed(policies)
    ensures Keyed(Apply(policies, c))
  {
  }

  // ---------------------------------------------------------------- the verdict

  /** The fields of event.SovereignEvent that decide something. */
  datatype Event = Event(podName: string, namespace: string, binary: string, destIP: string, destPort: nat,
                         destCountry: string, destCountryName: string)

  datatype Verdict = Verdict(actions: seq<Action>, policyName: string, reason: string, violated: bool)

  function Permit(policyName: string, reason: string): Verdict {
    Verdict([Allow], policyName, reason, false)
  }

  /** The policy forbids the country: it lists it, or it has an allowlist without it. */
  predicate Denies(p: Policy, country: string) {
    country in p.spec.disallowedCountries || (p.spec.allowedCountries != [] && country !in p.spec.allowedCountries)
  }

  function EvaluateChain(policies: seq<Policy>, country: string): Verdict {
    if policies == [] then Permit("multiple", "all applicable policies permit country")
    else
      var p := policies[0];
      if country in p.spec.disallowedCountries then
        Verdict(p.spec.actions, p.name, "country explicitly in disallowed list", true)
      else if |p.spec.allowedCountries| > 0 && country !in p.spec.allowedCountries then
        Verdict(p.spec.actions, p.name, "destination country not in allowlist", true)
      else EvaluateChain(policies[1..], country)
  }

  /** Evaluate, given what Match returned. */
  function Evaluate(ev: Event, matches: seq<Policy>): Verdict {
    if ev.destCountry == "" then Permit("", "private address")
    else if ev.namespace == "" then Permit("", "host process / no namespace")
    else if |matches| == 0 then Permit("", "no policy for namespace")
    else EvaluateChain(matches, ev.destCountry)
  }

  class Evaluator {
    const matcher: Matcher

    constructor (matcher: Matcher)
      ensures this.matcher == matcher
    {
      this.matcher := matcher;
    }

    method Judge(ev: Event) returns (verdict: Verdict, matches: seq<Policy>)
      requires matcher.Valid()
      ensures IsMatch(matches, matcher.policies, ev.namespace)
      ensures verdict == Evaluate(ev, matches)
    {
      matches := matcher.Match(ev.namespace);
      verdict := Evaluate(ev, matches);
    }
  }

  lemma {:induction false} ChainExact(policies: seq<Policy>, country: string)
    ensures EvaluateChain(policies, country).violated <==>
              exists i :: 0 <= i < |policies| && Denies(policies[i], country)
    ensures EvaluateChain(policies, country).violated ==>
              exists i :: 0 <= i < |policies| && FirstDenier(policies, i, country, EvaluateChain(policies, country))
    ensures !EvaluateChain(policies, country).violated ==>
              EvaluateChain(policies, country) == Permit("multiple", "all applicable policies permit country")
  {
    if policies != [] {
      var v := EvaluateChain(policies, country);
      if Denies(policies[0], country) {
        assert FirstDenier(policies, 0, country, v);
      } else {
        ChainExact(policies[1..], country);
        if v.violated {
          var i :| 0 <= i < |policies[1..]| && FirstDenier(policies[1..], i, country, v);
          assert FirstDenier(policies, i + 1, country, v);
        }
        forall i | 0 <= i < |policies| && Denies(policies[i], country)
          ensures v.violated
        {
          assert Denies(policies[1..][i - 1], country);
        }
      }
    }
  }

  /** The verdict is that of the policy at i, and no earlier policy denies the country. */
  ghost predicate FirstDenier(policies: seq<Policy>, i: nat, country: string, v: Verdict)
    requires i < |policies|
  {
    && Denies(policies[i], country)
    && v.actions == policies[i].spec.actions && v.policyName == policies[i].name
    && v.reason == (if country in policies[i].spec.disallowedCountries then "country explicitly in disallowed list"
                    else "destination country not in allowlist")
    && forall j :: 0 <= j < i ==> !Denies(policies[j], country)
  }
}
