/** What a verdict means, for every order in which Match may return the policies. */
module Verdicts {
  import opened Policies
  import opened Matching

  /** Some policy that applies to the connection denies it. */
  ghost predicate Denied(policies: map<string, Policy>, ev: Event) {
    exists name :: name in policies && Denier(policies, name, ev)
  }

  ghost predicate Denier(policies: map<string, Policy>, name: string, ev: Event)
    requires name in policies
  {
    Applies(policies[name], ev.namespace) && Denies(policies[name], ev.destCountry)
  }

  ghost predicate Enriched(ev: Event) {
    ev.destCountry != "" && ev.namespace != ""
  }

  /** A violation is reported iff some applicable policy denies the country of a placed, namespaced connection;
      it names such a policy and carries its actions.  Everything else is allowed. */
  lemma VerdictExact(policies: map<string, Policy>, ev: Event, matches: seq<Policy>)
    requires Keyed(policies) && IsMatch(matches, policies, ev.namespace)
    ensures var v := Evaluate(ev, matches);
            && (v.violated <==> Enriched(ev) && Denied(policies, ev))
            && (v.violated ==> v.policyName in policies && Denier(policies, v.policyName, ev)
                               && v.actions == policies[v.policyName].spec.actions)
            && (!v.violated ==> v.actions == [Allow])
  {
    if Enriched(ev) {
      ChainExact(matches, ev.destCountry);
      var v := EvaluateChain(matches, ev.destCountry);
      if v.violated {
        var i :| 0 <= i < |matches| && FirstDenier(matches, i, ev.destCountry, v);
        assert matches[i] in matches;
        assert Denier(policies, v.policyName, ev);
      }
      if Denied(policies, ev) {
        var name :| name in policies && Denier(policies, name, ev);
        assert policies[name] in matches;
      }
    }
  }

  /** The same over the lists of the policies: a policy forbids a connection if it lists "*" or the namespace, and lists
      the country as disallowed or has an allowlist without it.  The verdict names such a policy, carries its actions,
      and says which of the two it was. */
  lemma VerdictByLists(policies: map<string, Policy>, ev: Event, matches: seq<Policy>)
    requires Keyed(policies) && IsMatch(matches, policies, ev.namespace)
    ensures Evaluate(ev, matches).violated <==>
              && ev.destCountry != "" && ev.namespace != ""
              && exists name :: name in policies && ForbidsByLists(policies[name].spec, ev.namespace, ev.destCountry)
    ensures Evaluate(ev, matches).violated ==>
              var v := Evaluate(ev, matches);
              && v.policyName in policies && v.actions == policies[v.policyName].spec.actions
              && ForbidsByLists(policies[v.policyName].spec, ev.namespace, ev.destCountry)
              && v.reason == if ev.destCountry in policies[v.policyName].spec.disallowedCountries
                             then "country explicitly in disallowed list" else "destination country not in allowlist"
  {
    VerdictExact(policies, ev, matches);
    var v := Evaluate(ev, matches);
    if v.violated {
      assert Denier(policies, v.policyName, ev);
      ChainExact(matches, ev.destCountry);
      var i :| 0 <= i < |matches| && FirstDenier(matches, i, ev.destCountry, v);
      assert matches[i] in matches;
    }
    if exists name :: name in policies && ForbidsByLists(policies[name].spec, ev.namespace, ev.destCountry) {
      var name :| name in policies && ForbidsByLists(policies[name].spec, ev.namespace, ev.destCountry);
      assert Denier(policies, name, ev);
    }
  }

  ghost predicate ForbidsByLists(spec: Spec, namespace: string, country: string) {
    && ("*" in spec.namespaces || namespace in spec.namespaces)
    && (country in spec.disallowedCountries
        || (|spec.allowedCountries| > 0 && country !in spec.allowedCountries))
  }

  /** The order of the policies decides which denier is named, never whether there is a violation. */
  lemma OrderIndependence(policies: map<string, Policy>, ev: Event, one: seq<Policy>, other: seq<Policy>)
    requires Keyed(policies) && IsMatch(one, policies, ev.namespace) && IsMatch(other, policies, ev.namespace)
    ensures Evaluate(ev, one).violated == Evaluate(ev, other).violated
    ensures !Evaluate(ev, one).violated ==> Evaluate(ev, one) == Evaluate(ev, other)
  {
    VerdictExact(policies, ev, one);
    VerdictExact(policies, ev, other);
    if Enriched(ev) {
      ChainExact(one, ev.destCountry);
      ChainExact(other, ev.destCountry);
      if one != [] {
        assert one[0] in other;
      }
      if other != [] {
        assert other[0] in one;
      }
    }
  }

  /** Adding a policy under a fresh name never turns a violation into a permission. */
  lemma MorePoliciesDenyMore(policies: map<string, Policy>, p: Policy, ev: Event,
                             before: seq<Policy>, after: seq<Policy>)
    requires Keyed(policies) && p.name !in policies
    requires IsMatch(before, policies, ev.namespace) && IsMatch(after, policies[p.name := p], ev.namespace)
    ensures Evaluate(ev, before).violated ==> Evaluate(ev, after).violated
  {
    VerdictExact(policies, ev, before);
    VerdictExact(policies[p.name := p], ev, after);
    if Evaluate(ev, before).violated {
      var name :| name in policies && Denier(policies, name, ev);
      assert Denier(policies[p.name := p], name, ev);
    }
  }

  /** Removing a policy never turns a permission into a violation. */
  lemma FewerPoliciesDenyLess(policies: map<string, Policy>, gone: string, ev: Event,
                              before: seq<Policy>, after: seq<Policy>)
    requires Keyed(policies)
    requires IsMatch(before, policies, ev.namespace) && IsMatch(after, policies - {gone}, ev.namespace)
    ensures Evaluate(ev, after).violated ==> Evaluate(ev, before).violated
  {
    VerdictExact(policies, ev, before);
    VerdictExact(policies - {gone}, ev, after);
    if Evaluate(ev, after).violated {
      var name :| name in policies - {gone} && Denier(policies - {gone}, name, ev);
      assert Denier(policies, name, ev);
    }
  }

  // ---------------------------------------------------------------- is the strictest policy decisive?

  /** Some order exists, and any applicable policy may come first. */
  lemma SomeOrder(policies: map<string, Policy>, names: set<string>, namespace: string) returns (matches: seq<Policy>)
    requires Keyed(policies) && names <= policies.Keys
    ensures NoDuplicates(matches)
    ensures forall p :: p in matches <==> p.name in names && policies[p.name] == p && Applies(p, namespace)
    decreases names
  {
    if names == {} {
      matches := [];
    } else {
      var name :| name in names;
      matches := SomeOrder(policies, names - {name}, namespace);
      if Applies(policies[name], namespace) {
        matches := matches + [policies[name]];
      }
    }
  }

  lemma OrderWithFirst(policies: map<string, Policy>, namespace: string, first: string) returns (matches: seq<Policy>)
    requires Keyed(policies) && first in policies && Applies(policies[first], namespace)
    ensures IsMatch(matches, policies, namespace) && matches != [] && matches[0] == policies[first]
  {
    var rest := SomeOrder(policies, policies.Keys - {first}, namespace);
    matches := [policies[first]] + rest;
  }

  /** Every denier of the connection asks for blocking. */
  ghost predicate AllDeniersBlock(policies: map<string, Policy>, ev: Event) {
    forall name :: name in policies && Denier(policies, name, ev) ==> Blocking(policies[name].spec.actions)
  }

  /** The verdict asks for blocking. */
  ghost predicate BlockingVerdict(v: Verdict) {
    v.violated && Blocking(v.actions)
  }

  /** A connection is blocked whatever the order iff it is denied and no denier merely logs: the first denier in
      map order decides, so one that merely logs can hide one that blocks. */
  lemma BlockedInEveryOrder(policies: map<string, Policy>, ev: Event)
    requires Keyed(policies) && Enriched(ev)
    ensures (forall matches :: IsMatch(matches, policies, ev.namespace) ==> BlockingVerdict(Evaluate(ev, matches)))
            <==> Denied(policies, ev) && AllDeniersBlock(policies, ev)
  {
    forall matches | IsMatch(matches, policies, ev.namespace) && Denied(policies, ev) && AllDeniersBlock(policies, ev)
      ensures BlockingVerdict(Evaluate(ev, matches))
    {
      VerdictExact(policies, ev, matches);
    }
    if !Denied(policies, ev) {
      var matches := SomeOrder(policies, policies.Keys, ev.namespace);
      assert IsMatch(matches, policies, ev.namespace);
      VerdictExact(policies, ev, matches);
    } else if !AllDeniersBlock(policies, ev) {
      var name :| name in policies && Denier(policies, name, ev) && !Blocking(policies[name].spec.actions);
      var matches := OrderWithFirst(policies, ev.namespace, name);
      assert EvaluateChain(matches, ev.destCountry).actions == policies[name].spec.actions;
      assert !BlockingVerdict(Evaluate(ev, matches));
    }
  }

  /** "The strictest policy wins" fails: two policies deny the same connection, one by killing, and one of the two
      orders of the map yields a verdict that blocks nothing. */
  lemma StrictestPolicyMayLose(ev: Event)
    requires ev.destCountry == "RU" && ev.namespace == "prod"
    ensures var log := Policy("a", 1, 1, Spec([Log], ["*"], "", [], ["RU"]), Status(false, []));
            var kill := Policy("b", 2, 2, Spec([BlockKill], ["prod"], "", [], ["RU"]), Status(false, []));
            var policies := map["a" := log, "b" := kill];
            && Keyed(policies)
            && IsMatch([log, kill], policies, "prod") && !BlockingVerdict(Evaluate(ev, [log, kill]))
            && IsMatch([kill, log], policies, "prod") && BlockingVerdict(Evaluate(ev, [kill, log]))
  {
    var log := Policy("a", 1, 1, Spec([Log], ["*"], "", [], ["RU"]), Status(false, []));
    var kill := Policy("b", 2, 2, Spec([BlockKill], ["prod"], "", [], ["RU"]), Status(false, []));
    assert log.spec.namespaces[0] == "*" && kill.spec.namespaces[0] == "prod";
    assert Applies(log, "prod") && Applies(kill, "prod");
    assert IsBlock(kill.spec.actions[0]);
    assert log.name != kill.name;
  }
}
