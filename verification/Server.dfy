/** internal/api/server.go: the HTTP handlers that create, change and delete policies. */
module Server {
  import opened Policies
  import opened PolicyProtocol
  import opened PolicyInvariant
  import opened Verdicts
  import opened World
  import opened Clusters

  datatype CreateRequest = CreateRequest(name: string, namespace: string, country: string, action: string)

  datatype UpdateRequest = UpdateRequest(namespace: string, country: string, action: string)

  // ---------------------------------------------------------------- validation

  predicate IsSpace(c: char) {
    c == ' ' || c == '\t' || c == '\n' || c == '\r' || c == '\U{000B}' || c == '\U{000C}'
  }

  function TrimSpace(s: string): (t: string)
    ensures |t| <= |s|
  {
    if s == [] then []
    else if IsSpace(s[0]) then TrimSpace(s[1..])
    else if IsSpace(s[|s| - 1]) then TrimSpace(s[..|s| - 1])
    else s
  }

  lemma PutFirst(s: string, before: string, t: string, after: string)
    requires s != [] && s[1..] == before + t + after
    ensures s == [s[0]] + before + t + after
  {
    assert s == [s[0]] + s[1..];
  }

  lemma PutLast(s: string, before: string, t: string, after: string)
    requires s != [] && s[..|s| - 1] == before + t + after
    ensures s == before + t + (after + [s[|s| - 1]])
  {
    assert s == s[..|s| - 1] + [s[|s| - 1]];
  }

  /** It cuts the space off both ends and nothing else. */
  lemma {:induction false} TrimSpaceExact(s: string) returns (before: string, after: string)
    ensures s == before + TrimSpace(s) + after
    ensures forall c :: c in before || c in after ==> IsSpace(c)
    ensures TrimSpace(s) != [] ==> !IsSpace(TrimSpace(s)[0]) && !IsSpace(TrimSpace(s)[|TrimSpace(s)| - 1])
  {
    hide IsSpace;
    before, after := [], [];
    if s != [] && IsSpace(s[0]) {
      before, after := TrimSpaceExact(s[1..]);
      PutFirst(s, before, TrimSpace(s), after);
      before := [s[0]] + before;
    } else if s != [] && IsSpace(s[|s| - 1]) {
      before, after := TrimSpaceExact(s[..|s| - 1]);
      PutLast(s, before, TrimSpace(s), after);
      after := after + [s[|s| - 1]];
    }
  }

  predicate Alphanumeric(c: char) {
    'a' <= c <= 'z' || '0' <= c <= '9'
  }

  /** The regular expression of createPolicy. */
  predicate ValidName(name: string) {
    && |name| > 0
    && Alphanumeric(name[0]) && Alphanumeric(name[|name| - 1])
    && forall i :: 0 <= i < |name| ==> Alphanumeric(name[i]) || name[i] == '-'
  }

  /** It accepts what the expression describes: one letter or digit, and perhaps a row of letters, digits and hyphens
      that ends with another. */
  lemma ValidNameExact(first: char, middle: string, last: char)
    ensures ValidName([first]) <==> 'a' <= first <= 'z' || '0' <= first <= '9'
    ensures ValidName([first] + middle + [last]) <==>
              && ('a' <= first <= 'z' || '0' <= first <= '9')
              && (forall c :: c in middle ==> 'a' <= c <= 'z' || '0' <= c <= '9' || c == '-')
              && ('a' <= last <= 'z' || '0' <= last <= '9')
    ensures !ValidName("")
  {
    var name := [first] + middle + [last];
    assert forall i :: 0 <= i < |middle| ==> middle[i] == name[i + 1] && middle[i] in middle;
    assert name[|name| - 1] == last;
  }

  /** Names that the API accepts keep the reporter's cache keys apart. */
  lemma ValidNameHasNoColon(name: string)
    ensures ValidName(name) ==> ':' !in name && name != ""
  {
  }

  /** The text with every small letter replaced by the capital 32 places before it. */
  ghost predicate IsUpperOf(t: string, s: string) {
    && |t| == |s|
    && forall i :: 0 <= i < |s| ==> t[i] as int == s[i] as int - if 'a' <= s[i] <= 'z' then 32 else 0
  }

  lemma UpperIsOne(s: string, t: string)
    ensures IsUpperOf(t, s) <==> t == ToUpper(s)
  {
  }

  function ToUpper(s: string): (t: string)
    ensures |t| == |s|
  {
    seq(|s|, i requires 0 <= i < |s| => if 'a' <= s[i] <= 'z' then s[i] - 'a' + 'A' else s[i])
  }

  function ActionOf(action: string): Option<Action> {
    if action == "block-kill" then Some(BlockKill)
    else if action == "block-noconn" then Some(BlockNoConn)
    else if action == "log" then Some(Log)
    else None
  }

  predicate ValidTarget(country: string, action: string) {
    |country| == 2 && ActionOf(action).Some?
  }

  function NamespaceOf(namespace: string): string {
    if namespace == "" then "default" else namespace
  }

  /** What PUT writes: the target fields are replaced, the rest of the object is what was read. */
  function Retargeted(spec: Spec, req: UpdateRequest): Spec
    requires ValidTarget(req.country, req.action)
  {
    spec.(namespaces := [NamespaceOf(req.namespace)],
          disallowedCountries := [ToUpper(req.country)],
          actions := [ActionOf(req.action).value])
  }

  function CreatedSpec(req: CreateRequest): Spec
    requires ValidTarget(req.country, req.action)
  {
    Spec([ActionOf(req.action).value], [NamespaceOf(req.namespace)], "Generated via Sovereign Sensor Web UI",
         [], [ToUpper(req.country)])
  }

  /** The spec is aimed at one namespace, "default" if none is given, and one country, in capitals, with one action. */
  ghost predicate AimedAt(spec: Spec, namespace: string, country: string, action: string) {
    && spec.namespaces == [if namespace != "" then namespace else "default"]
    && |spec.disallowedCountries| == 1 && IsUpperOf(spec.disallowedCountries[0], country)
    && |spec.actions| == 1
    && (spec.actions[0] == BlockKill <==> action == "block-kill")
    && (spec.actions[0] == BlockNoConn <==> action == "block-noconn")
    && (spec.actions[0] == Log <==> action == "log")
  }

  lemma CreatedSpecExact(req: CreateRequest)
    requires ValidTarget(req.country, req.action)
    ensures AimedAt(CreatedSpec(req), req.namespace, req.country, req.action)
    ensures CreatedSpec(req).allowedCountries == []
    ensures CreatedSpec(req).description == "Generated via Sovereign Sensor Web UI"
  {
  }

  lemma RetargetedExact(spec: Spec, req: UpdateRequest)
    requires ValidTarget(req.country, req.action)
    ensures AimedAt(Retargeted(spec, req), req.namespace, req.country, req.action)
    ensures Retargeted(spec, req).allowedCountries == spec.allowedCountries
    ensures Retargeted(spec, req).description == spec.description
  {
  }

  /** A new policy forbids the connections from the requested namespace, or from any if that is "*", to the requested
      country, and no others. */
  lemma AimForbids(spec: Spec, namespace: string, country: string, action: string, from: string, to: string)
    requires AimedAt(spec, namespace, country, action) && spec.allowedCountries == []
    ensures ForbidsByLists(spec, from, to) <==>
              && (namespace == "*" || from == if namespace != "" then namespace else "default")
              && IsUpperOf(to, country)
  {
    UpperIsOne(country, to);
    UpperIsOne(country, spec.disallowedCountries[0]);
  }

  // ---------------------------------------------------------------- handlers

  class PolicyServer {
    const cluster: Cluster

    constructor (cluster: Cluster)
      ensures this.cluster == cluster
    {
      this.cluster := cluster;
    }

    ghost function Now(name: string): Option<Policy>
      reads this, cluster
    {
      Current(KeyOf(cluster.w, name).log)
    }

    /** POST.  On 201 the policy is stored as a fresh incarnation without any discovered address. */
    method CreatePolicy(body: Option<CreateRequest>) returns (code: nat, name: string)
      requires cluster.Valid()
      modifies cluster
      ensures cluster.Valid() && HistoryGrows(old(cluster.w), cluster.w)
      ensures code == 400 <==>
                || body.None?
                || !ValidName(TrimSpace(body.value.name))
                || |body.value.country| != 2
                || body.value.action !in {"block-kill", "block-noconn", "log"}
      ensures code == 400 ==> cluster.w == old(cluster.w)
      ensures code == 201 ==>
                && name == TrimSpace(body.value.name) && Now(name).Some?
                && Now(name).value.spec == CreatedSpec(body.value)
                && AimedAt(Now(name).value.spec, body.value.namespace, body.value.country, body.value.action)
                && Now(name).value.spec.allowedCountries == []
                && Now(name).value.spec.description == "Generated via Sovereign Sensor Web UI"
                && Now(name).value.status == Status(false, [])
                && Now(name).value.uid == Now(name).value.rv
      ensures code in {201, 400, 500}
      ensures cluster.quiet && code != 400 ==>
                (code == 201 <==> Current(KeyOf(old(cluster.w), TrimSpace(body.value.name)).log).None?)
    {
      hide RunSystem, KeyOf, AimedAt, IsUpperOf, ValidName, TrimSpace;
      name := "";
      if body.None? {
        return 400, name;
      }
      var req := body.value;
      req := req.(name := TrimSpace(req.name));
      if !ValidName(req.name) {
        return 400, name;
      }
      if req.namespace == "" {
        req := req.(namespace := "default");
      }
      if |req.country| != 2 {
        return 400, name;
      }
      req := req.(country := ToUpper(req.country));
      var action := ActionOf(req.action);
      if action.None? {
        return 400, name;
      }
      name := req.name;
      CreatedSpecExact(body.value);
      var spec := Spec([action.value], [req.namespace], "Generated via Sovereign Sensor Web UI", [], [req.country]);
      cluster.Everybody();
      var reply := cluster.AnyReply();
      if reply.Failed? || Current(KeyOf(cluster.w, name).log).Some? {
        return 500, name;
      }
      cluster.ActOn(name, PolicyProtocol.CreatePolicy(spec));
      code := if reply.Answered? then 201 else 500;
    }

    /** DELETE.  On 200 the policy does not exist any more. */
    method DeletePolicy(name: string) returns (code: nat)
      requires cluster.Valid()
      modifies cluster
      ensures cluster.Valid() && HistoryGrows(old(cluster.w), cluster.w)
      ensures code == 400 <==> name == ""
      ensures code == 400 ==> cluster.w == old(cluster.w)
      ensures code == 200 ==> Now(name).None?
      ensures code in {200, 400, 500}
      ensures cluster.quiet && code != 400 ==> code == 200
    {
      hide RunSystem;
      if name == "" {
        return 400;
      }
      cluster.Everybody();
      var reply := cluster.AnyReply();
      if reply.Failed? {
        return 500;
      }
      cluster.ActOn(name, PolicyProtocol.DeletePolicy);
      code := if reply.Answered? then 200 else 500;
    }

    /** client.Update of a policy that was read as log entry `version`, with another spec. */
    method Update(name: string, version: nat, existing: Policy, spec: Spec) returns (err: Outcome)
      requires cluster.Valid()
      requires version < |KeyOf(cluster.w, name).log| && KeyOf(cluster.w, name).log[version] == Some(existing)
      modifies cluster
      ensures cluster.Valid() && HistoryGrows(old(cluster.w), cluster.w)
      ensures version < |KeyOf(cluster.w, name).log| && KeyOf(cluster.w, name).log[version] == Some(existing)
      ensures err.Done? ==>
                && Now(name).Some? && Now(name).value.spec == spec
                && Now(name).value.status == existing.status && Now(name).value.uid == existing.uid
      ensures cluster.quiet && old(Now(name)) == Some(existing) ==> err.Done?
    {
      hide RunSystem, KeyOf, Inv, NextPutPolicy;
      cluster.Everybody();
      var reply := cluster.AnyReply();
      var k := KeyOf(cluster.w, name);
      KeySound(cluster.w, name);
      PutMeans(k, version, spec, reply);
      cluster.ActOn(name, PutPolicy(version, spec, reply));
      err := if reply.Answered? then Check(k, existing) else Error;
    }

    /** PUT.  On 200 the policy `before`, current at that moment, has the new target; its allowlist, its
        description, its incarnation and its whole status are as they were. */
    method UpdatePolicy(name: string, body: Option<UpdateRequest>) returns (code: nat, ghost before: Option<Policy>)
      requires cluster.Valid()
      modifies cluster
      ensures cluster.Valid() && HistoryGrows(old(cluster.w), cluster.w)
      ensures code == 400 <==>
                || name == ""
                || body.None?
                || |body.value.country| != 2
                || body.value.action !in {"block-kill", "block-noconn", "log"}
      ensures code == 400 ==> cluster.w == old(cluster.w)
      ensures code == 200 ==>
                && before.Some? && Now(name).Some?
                && before in KeyOf(cluster.w, name).log
                && Now(name).value.spec == Retargeted(before.value.spec, body.value)
                && AimedAt(Now(name).value.spec, body.value.namespace, body.value.country, body.value.action)
                && Now(name).value.spec.allowedCountries == before.value.spec.allowedCountries
                && Now(name).value.spec.description == before.value.spec.description
                && Now(name).value.status == before.value.status
                && Now(name).value.uid == before.value.uid
      ensures code in {200, 400, 404, 500}
      ensures cluster.quiet && code != 400 ==>
                && before == old(Now(name)) && code == (if before.Some? then 200 else 404)
    {
      hide RunSystem, KeyOf, Inv, NextPutPolicy, AimedAt, IsUpperOf;
      before := None;
      if name == "" || body.None? {
        return 400, None;
      }
      var req := body.value;
      if req.namespace == "" {
        req := req.(namespace := "default");
      }
      if |req.country| != 2 {
        return 400, None;
      }
      req := req.(country := ToUpper(req.country));
      var action := ActionOf(req.action);
      if action.None? {
        return 400, None;
      }
      cluster.Everybody();
      var version: nat :| true;
      var log := KeyOf(cluster.w, name).log;
      if cluster.quiet && log != [] {
        version := |log| - 1;
      }
      if |log| <= version || log[version].None? {
        return 404, None;
      }
      var existing := log[version].value;
      RetargetedExact(existing.spec, body.value);
      var spec := existing.spec.(namespaces := [req.namespace],
                                 disallowedCountries := [req.country],
                                 actions := [action.value]);
      assert spec == Retargeted(existing.spec, body.value);
      hide Retargeted, ToUpper, NamespaceOf, ActionOf;
      var err := Update(name, version, existing, spec);
      code := if err.Done? then 200 else 500;
      before := Some(existing);
    }
  }

  /** An accepted PUT was made from the current version, so it loses nothing written in between. */
  lemma PutMeans(k: Key, from: nat, spec: Spec, reply: Reply)
    requires Inv(k) && from < |k.log| && k.log[from].Some?
    ensures var n := NextPutPolicy(k, from, spec, reply);
            && k.log <= n.log
            && (spec == k.log[from].value.spec ==> n == k)
            && (!reply.Failed? && Check(k, k.log[from].value).Done? ==>
                  && Current(n.log).Some? && Current(n.log).value.spec == spec
                  && Current(n.log).value.status == k.log[from].value.status
                  && Current(n.log).value.uid == k.log[from].value.uid)
  {
  }
}
