# Sovereign Sensor: a verified model of discovery and enforcement

Agents watch connections, judge them by the `SovereigntyPolicy` objects they know, and append offending addresses to
the status of the policy that was violated. The policy controller turns those lists into kernel rules, HTTP handlers
change the policies meanwhile, and no lock spans the participants. What keeps the cluster right is the resource
version of every object, an optimistic cache with rollback in every agent, and idempotent reconciliation. This project
models these parts in Dafny and proves what they guarantee over every interleaving, lost answer and crash.

## How the model is built

- `Policies.dfy` has the policy resource and the kernel rule the controller derives from it.
- `PolicyProtocol.dfy` is the step machine of one policy name: the API server, any number of agents inside
  `ReportViolator`, the reconciler and the HTTP writers. The server keeps the whole history of the name in `log`; a
  cached read is some entry at or behind the reconciler's cursor, and a live read is the last entry. A request is
  answered, applied without an answer, or failed. `PolicyInvariant.dfy` proves its invariant, `PolicyTheorems.dfy`
  what follows from it.
- `World.dfy` puts all policy names and all agents together (informers, verdicts, reports) and proves where the
  addresses in statuses and rules come from. `Blocklist.dfy` gives the rule values their meaning as networks, and
  `EndToEnd.dfy` goes from a blocked destination back to the event that caused it, and from a report forward to the
  kernel. `Scenario.dfy` is a run of the whole system, step by step, for any address a pod connects to.
- `Matching.dfy` and `Verdicts.dfy` are the matcher, the informer callbacks and the evaluator; `Geo.dfy` is the
  private-address gate, down to the bits of its masks (`Arithmetic.dfy` has the powers of two); `Tetragon.dfy` is the
  event stream.
- `Cluster.dfy` is the API server as a class: before each request of a client arbitrary steps of everybody else
  happen, and its state is always that of a run of `World`. `Reporter.dfy`, `PolicyController.dfy`, `Agent.dfy` and
  `Server.dfy` are the imperative code of the clients, proved against it. The trace of that run is also where the
  contracts of the two reconcilers look up which requests were made (`Asked`). A cluster that is `quiet` stands for
  peace: nobody else acts, reads are fresh and every request is answered.
- `Sensors.dfy`, `SensorTheorems.dfy` and `SensorController.dfy` do the same for the finalizer protocol of sensors.

## What the environment is taken to do

- The API server checks the resource version of an update before anything else, separates spec and status writes,
  gives every incarnation a fresh UID, does not count a write that changes nothing, and numbers all writes with one
  revision. A status is written by the agents and the policy reconciler only, and a policy starts with an empty one.
- One worker at a time reconciles a name, its cached reads never go backwards, and a request that outlives its caller
  has no later effect. Tracing policies are read live.
- Nobody but the reconciler removes the finalizer of a sensor or creates its cluster-scoped objects.
- Nobody but the policy reconciler and the garbage collector touches the tracing policies it derives.
- `net.ParseIP` and the MaxMind database are arbitrary functions. Where it matters (`EndToEnd.ParserOk`) the parser gives
  an address the sixteen bytes that `net.ParseIP` gives (or four), the text has no slash, and a dotted text is an IPv4
  address. The value of a rule is read by `net.ParseCIDR`, which takes four bytes for a dotted text and sixteen for one
  with a colon (`Blocklist.CidrBase`).

## Where the code and its comments disagree

- The evaluator says that the strictest policy wins. The first violated policy in map order does, so a policy that only
  logs can hide one that blocks: `Verdicts.StrictestPolicyMayLose`. `Verdicts.BlockedInEveryOrder` says exactly when a
  connection is blocked whatever the order.
- A Reconcile that returns no error need not have removed an unwanted rule: the Get in that branch may fail unnoticed
  (`PolicyTheorems.BlindReconcileKeepsRule`, and `PolicyTheorems.ReconcileSettlesIff` for when it matters). Under any
  interference that is the only exception (`PolicyController.PolicyReconciler.Reconcile`).
- A reported address is remembered beyond the life of the policy it was reported for
  (`PolicyTheorems.MarkOutlivesPolicy`); it stays listed for as long as that incarnation lives
  (`PolicyTheorems.DoneStaysListed`). `PolicyTheorems.MarkedIsListedIff` says when a remembered address is listed.
- `/32` means one address only for IPv4. An IPv6 address takes its whole /32 with it (`Blocklist.OnlyItselfIffIPv4`),
  an IPv4 address listed in IPv6 form blocks not even itself (`Blocklist.LongFormIsNotBlocked`, exactly when in
  `Blocklist.ListedIsBlockedIff`), and an address listed in IPv6 form that starts with four zero bytes makes the kernel
  block `::1`, the only private destination that can be blocked
  (`Blocklist.LoopbackCanBeBlocked`, `EndToEnd.PrivateBlockedExactly`); `Scenario.LoopbackIsBlockedInARun` is a run in
  which that happens.

## Model

| member | source | states |
|---|---|---|
| PolicyInvariant.NextKeeps | internal/policy/reporter.go:46-71 | every step of agents, reconciler, HTTP writers and cluster keeps the invariant: versions strictly ordered, lists growing within an incarnation, copies in hand still in the history, marks and calls matched, rule written from a version that was read |
| PolicyInvariant.ReachableHolds | internal/controller/sovereigntypolicy_controller.go:49-134 | the invariant holds in every state of every run from an empty history |
| PolicyInvariant.SameVersion | internal/policy/reporter.go:58-59 | a write whose resource version is accepted was made from the current version |
| PolicyInvariant.ConflictMeansGrowth | internal/policy/reporter.go:47-60 | each conflict of a report is owed to another write that landed after this attempt's read |
| PolicyTheorems.StepEffect | internal/controller/sovereigntypolicy_controller.go:115-131 | only an applied agent write changes a list, by adding the address of its call at the end; writing back a whole status or a whole object changes nothing in it |
| PolicyTheorems.NoLostUpdates | internal/policy/reporter.go:53-59 | within one incarnation every stored list is a prefix of every later one and has no duplicates |
| PolicyTheorems.ExactlyOnce | api/v1alpha1/sovereigntypolicy_types.go:45-48 | the list of an incarnation is the sequence of agent writes applied to it, including writes whose answer was lost, none twice |
| PolicyTheorems.BlocklistLag | internal/controller/sovereigntypolicy_controller.go:62-94 | the values of a rule are the /32 images of a prefix of the current list of the same incarnation, and the rule is the one some version of its owner asked for |
| PolicyTheorems.BlocklistOnlyGrows | internal/controller/sovereigntypolicy_controller.go:82-91 | over any run in which the owner lives and asks for blocking from the version on that the reconciler read last, the rule stays and only grows at its end, whatever earlier versions asked for |
| PolicyTheorems.RuleGrowsByStep | internal/controller/sovereigntypolicy_controller.go:71-112 | the rule of the current incarnation is never shortened by any step; it disappears iff a Delete is applied by a reconciler whose copy does not ask for blocking |
| PolicyTheorems.MarksMean | internal/policy/reporter.go:37-44 | a mark is owed to the very call that set it: that call is in flight, or it ended without error and saw or wrote the address, or it ended with NotFound and the policy was absent |
| PolicyTheorems.OneCallPerKey | internal/policy/reporter.go:62-71 | a key has at most one call in flight, is marked meanwhile, and a rollback never clears the mark of another call |
| PolicyTheorems.OutcomesMean | internal/policy/reporter.go:49-59 | a call that returns without error saw or wrote the address in the version current at that moment; one that returns NotFound found the policy absent |
| PolicyTheorems.DoneStaysListed | internal/policy/reporter.go:53-59 | an address reported without error is listed in every later version of that incarnation |
| PolicyTheorems.MarkOutlivesPolicy | internal/policy/reporter.go:63-69 | a concrete run in which the mark stays while the recreated policy does not list the address |
| PolicyTheorems.MarkedIsListedIff | internal/policy/reporter.go:33-74 | the address of a mark without a call in flight is in the current list iff its report ended without error in the incarnation that is still current, or the address was added to the current incarnation after the report was decided |
| PolicyTheorems.ConflictNeedsOtherWrites | internal/policy/reporter.go:47-60 | in any run, a report that gives up on Conflict has seen, between the step that began it and the one that decided it, at least as many policy-changing writes by others as it had attempts |
| PolicyTheorems.ReconcileSettles | internal/controller/sovereigntypolicy_controller.go:115-131 | a Reconcile in peace settles the name, keeps spec and list, and publishes one version iff the Ready condition was missing, so that the triggers it causes itself run out |
| PolicyTheorems.ReconcileConverges | internal/controller/sovereigntypolicy_controller.go:62-133 | after it, with spec and list as before, the rule exists iff the actions block and the list is not empty; it belongs to the current incarnation, has Sigkill if block-kill is listed and otherwise Override with -111, and each address with /32, in order; the next Reconcile changes nothing |
| PolicyTheorems.SettledMeans | internal/controller/sovereigntypolicy_controller.go:62-131 | a settled policy is ready, and has a rule iff it blocks and addresses are known: that of its own incarnation, with the action and the values it asks for |
| PolicyTheorems.NoRuleOutlivesItsOwner | internal/controller/sovereigntypolicy_controller.go:54-59 | the garbage collector leaves a rule alone iff its owner is the current incarnation, and removes it otherwise |
| PolicyTheorems.BlindReconcileKeepsRule | internal/controller/sovereigntypolicy_controller.go:105-112 | a Reconcile in which the Get of the branch without a rule fails keeps the unwanted rule and reports the policy ready |
| PolicyTheorems.ReconcileSettlesIff | internal/controller/sovereigntypolicy_controller.go:62-131 | a Reconcile on a fresh read settles the name iff the Get of the rule is answered, or the policy wants no rule and there is none, or it wants one and the name was settled before |
| Policies.KernelActionExact | internal/controller/sovereigntypolicy_controller.go:149-159 | a kernel action exists iff some action blocks, the condition under which agents report; Sigkill iff block-kill is there |
| Policies.DesiredRuleExact | internal/controller/sovereigntypolicy_controller.go:145-212 | a rule is wanted iff some action blocks and addresses are known; it kills if block-kill is listed and otherwise refuses with error -111, and has the text of each address with /32, in order |
| Policies.CidrsMonotone | internal/controller/sovereigntypolicy_controller.go:176-180 | a longer list gives a rule that extends the shorter one, and different lists give different rules |
| Policies.RuleNameInjective | internal/controller/sovereigntypolicy_controller.go:173-174 | two policies never share a rule object |
| PolicyController.BuildTracingPolicy | internal/controller/sovereigntypolicy_controller.go:145-212 | the loop builds a rule iff block-kill or block-noconn is listed and addresses are known: Sigkill if block-kill is listed, otherwise Override with -111, and the text of each address with /32, in order |
| PolicyController.HasAction | internal/controller/sovereigntypolicy_controller.go:215-217 | finds the action iff it is in the list |
| PolicyController.AcceptedStatusSettles | internal/controller/sovereigntypolicy_controller.go:128-131 | if the status write of a possibly stale copy is accepted, the copy was current all along and a rule that fitted it still does |
| PolicyController.PolicyReconciler.ApplyRule | internal/controller/sovereigntypolicy_controller.go:65-113 | create, update and delete under interference: the Get and the write it calls for are made in order up to the first that fails; without error the rule fits the copy, or the Get failed, the copy wants no rule and nothing was written |
| PolicyController.PolicyReconciler.UpdateStatus | internal/controller/sovereigntypolicy_controller.go:115-131 | without error the name is settled iff the rule fits the copy, and a rule that fitted before leaves it settled |
| PolicyController.PolicyReconciler.Reconcile | internal/controller/sovereigntypolicy_controller.go:49-134 | under any interference: the requests made are those the version read calls for, in order, up to the first that fails, and without error all of them, with every write answered; the name is then settled, except when the policy wants no rule, the Get of the rule failed and there is a rule; in peace the result is that of one complete Reconcile |
| Reporters.CacheKeyInjective | internal/policy/reporter.go:34 | keys of policy names without colon never collide, IPv6 addresses included |
| Reporters.PolicyReporter.CheckAndMark | internal/policy/reporter.go:36-44 | a reported key is left alone; any other is marked and its call begins |
| Reporters.PolicyReporter.AddViolator | internal/policy/reporter.go:48-60 | one attempt under interference ends listed, absent, failed, or in a conflict owed to another write; in peace it lists the address iff there is a policy |
| Reporters.PolicyReporter.RetryOnConflict | internal/policy/reporter.go:46-60 | the attempts together: a final conflict means that the policy changed once for each attempt |
| Reporters.PolicyReporter.Unmark | internal/policy/reporter.go:65-69 | a failed call removes its own key and no other |
| Reporters.PolicyReporter.ReportViolator | internal/policy/reporter.go:33-74 | the whole call under interference. A key that is marked already returns without error and changes nothing, whether the address is listed or not. Otherwise no error means that the address was listed since the call began, NotFound that the policy was absent, Conflict that the policy changed once for each attempt; the cache changes in one key, kept on the first two and removed otherwise, and stays the exact image of the marks of the protocol. In peace an existing policy has the address at the end of its list |
| Matching.Matcher.UpsertPolicy | internal/policy/policy.go:22-26 | the name maps to the new policy, all others are as before |
| Matching.Matcher.RemovePolicy | internal/policy/policy.go:29-33 | the name is gone, all others are as before |
| Matching.Matcher.Match | internal/policy/policy.go:36-52 | returns the policies that list "*" or the namespace, each once, in any order |
| Matching.Deliver | internal/k8s/watcher.go:27-56 | an addition or an update stores the new object under its name; a deletion takes the name of the object away, or of the last object known in a tombstone; a tombstone without a policy and anything else change nothing; all other names are as before |
| Matching.WatchPolicies | internal/k8s/watcher.go:16-65 | after any sequence of callbacks the matcher holds for each name what the last callback about it brought, and nothing else |
| Matching.FoldIsLastEvent | internal/k8s/watcher.go:27-56 | the fold holds for each name what the last callback about it brought, and nothing for any other name; a deletion is about the name of its object, or of the object in its tombstone |
| Agents.NotifyIsCallback | internal/k8s/watcher.go:27-56 | what an informer delivers from the history of a policy has on the agent's view the effect of one callback |
| Matching.ChainExact | internal/policy/evaluator.go:45-77 | the chain stops at the first policy that denies the country, with its name and actions, and permits iff there is none |
| Matching.Evaluator.Judge | internal/policy/evaluator.go:28-43 | the verdict is that of some order of the matching policies |
| Verdicts.VerdictExact | internal/policy/evaluator.go:28-78 | a violation iff the country and the namespace are known and some applicable policy denies the country; it names such a policy and carries its actions |
| Verdicts.VerdictByLists | internal/policy/evaluator.go:28-78 | a violation iff the country and the namespace are known and some policy lists "*" or the namespace and disallows the country or has an allowlist without it; the verdict names such a policy, carries its actions and says which of the two it was |
| Verdicts.OrderIndependence | internal/policy/evaluator.go:39-77 | the order of the map never decides whether there is a violation |
| Verdicts.MorePoliciesDenyMore | internal/policy/policy.go:22-26 | a policy under a fresh name never turns a violation into a permission |
| Verdicts.FewerPoliciesDenyLess | internal/policy/policy.go:29-33 | a removal never turns a permission into a violation |
| Verdicts.StrictestPolicyMayLose | internal/policy/evaluator.go:45-56 | two policies and two orders of which one blocks nothing |
| Verdicts.BlockedInEveryOrder | internal/policy/evaluator.go:45-77 | a connection is blocked in every order iff it is denied and every denier blocks |
| Agents.UpToBlockExact | cmd/agent/main.go:145-154 | the actions handled are a prefix that ends with the first blocking action, or all of them |
| Agents.Agent.EmitViolationEvent | internal/policy/reporter.go:76-94 | for a pod with name and namespace one event more, with that pod, the action, the destination and its country, and the policy; none otherwise |
| Agents.RecordsExact | internal/policy/reporter.go:76-94 | a row of actions gives one such event for each action, in order, or none |
| Agents.Agent.ActOnViolation | cmd/agent/main.go:144-155 | one event attempt for each action up to and including the first blocking one; iff an action blocks, one call of ReportViolator, for the policy of the verdict and the destination of the event, with its effect |
| Agents.HandleRecords | cmd/agent/main.go:112-155 | handling an event yields evidence against policy and address iff the verdict blocks |
| Agents.Agent.HandleEvent | cmd/agent/main.go:112-162 | one turn of the main loop: the event judged has the pod and namespace of the process, the address and port of the socket, and the code and name that the database gives a readable public address; the verdict is right for the lists of the policies known; the events, and the one report for that policy and destination with its effect, follow from it |
| World.EnrichExact | cmd/agent/main.go:112-122 | the event judged for a response: its pod, namespace, program, address and port, and the place of the address, empty if it is unknown, unreadable, private or not in the database |
| World.EveryPolicyKeepsItsProtocol | internal/policy/reporter.go:33-74 | in a system of any number of agents and policies every policy is in a state of its own protocol |
| World.NextSystemKeeps | cmd/agent/main.go:112-155 | every step keeps the provenance invariant: each begun report has a verdict behind it and each verdict a stored version |
| World.ListedMeansBlamed | cmd/agent/main.go:133-155 | every listed address was the peer of a socket that some pod opened; the verdict on that pod's namespace and the country of the address, over the policies the agent knew and in the order it met them, named a stored version of that policy, which denies the country and blocks |
| World.RuleMeansBlamed | internal/controller/sovereigntypolicy_controller.go:177-180 | every value of every rule is the /32 image of such an address |
| World.OnlyPublicAddressesListed | internal/geo/geoip.go:44-52 | nothing listed is "unknown", unparsable or inside one of the eight private ranges |
| EndToEnd.BlockedMeansBlamed | internal/controller/sovereigntypolicy_controller.go:176-208 | an IPv4 destination that a rule blocks, in either form, was the destination of a connection judged that way |
| EndToEnd.PrivateBlockedExactly | internal/controller/sovereigntypolicy_controller.go:176-180 | a rule blocks a private destination, in either form, iff it is ::1 and its list has an address in IPv6 form that starts with four zero bytes |
| Scenario.LoopbackIsBlockedInARun | internal/controller/sovereigntypolicy_controller.go:176-180 | a run of the system, from the creation of a policy over a connection to ::2 and its report to the rule, in whose end ::1 is blocked |
| Scenario.DottedIsBlockedInARun | internal/controller/sovereigntypolicy_controller.go:176-208 | for every dotted public address that the database places, a run of the same kind in whose end exactly that destination is blocked |
| EndToEnd.SettledBlocksExactly | internal/controller/sovereigntypolicy_controller.go:62-131 | in a settled name a destination is blocked iff the policy asks for blocking and lists an address of its /32; an IPv4 destination, in either form, iff its four bytes are listed |
| EndToEnd.ReportedMeansBlocked | internal/policy/reporter.go:33-74 | after a report that ended without error in the incarnation that is still current, of a blocking policy whose name is settled, the destination is blocked iff it was written in its shortest form or that form is listed, too; a dotted one always is |
| Blocklist.RuleBlocks | internal/controller/sovereigntypolicy_controller.go:177-180 | a rule blocks a destination iff the list has an address of its family with the same first four bytes; a dotted text is an address of four bytes |
| Blocklist.ExactForIPv4 | internal/controller/sovereigntypolicy_controller.go:177-180 | an IPv4 destination, in either form, is blocked iff its four bytes are listed |
| Blocklist.ListedIsBlocked | internal/controller/sovereigntypolicy_controller.go:177-180 | a listed destination in shortest form is blocked |
| Blocklist.ListedIsBlockedIff | internal/controller/sovereigntypolicy_controller.go:177-180 | an address of any list is blocked iff it is listed in its shortest form or its shortest form is listed, too |
| Blocklist.LongFormIsNotBlocked | internal/controller/sovereigntypolicy_controller.go:177-180 | ::ffff:1.2.3.4 alone does not block the destination it names, in either form |
| Blocklist.AddressIsParsed | internal/controller/sovereigntypolicy_controller.go:177-180 | the bytes a rule is about are the destination the agent has looked up: four for a dotted text, and private iff that destination is |
| Blocklist.ItselfBlockedIffPlain | internal/controller/sovereigntypolicy_controller.go:177-180 | an address that is listed alone blocks itself iff it is written in its shortest form |
| Blocklist.OnlyItselfIffIPv4 | internal/controller/sovereigntypolicy_controller.go:177-180 | an address blocks only itself iff it is an IPv4 one in its shortest form |
| Blocklist.LoopbackCanBeBlocked | internal/controller/sovereigntypolicy_controller.go:177-180 | listing ::2, a public address, blocks ::1 |
| Geo.NetworkIsInterval | internal/geo/geoip.go:102-109 | the byte-mask test of any network of any length is an interval test on numbers |
| Geo.PrivateExact | internal/geo/geoip.go:80-109 | an address is private iff its number lies in one of the eight intervals; an IPv4 address in IPv6 form counts as IPv4 |
| Geo.ServiceAddressesArePrivate | internal/geo/geoip.go:78-80 | 10.96.0.0/12 is covered, in either form of an address |
| Geo.ScanRanges | internal/geo/geoip.go:102-109 | the scan of a table without empty slots finds a containing network iff there is one |
| Geo.BuildRanges | internal/geo/geoip.go:80-100 | the table has one slot for each text, in order; it holds the network of the text, and is left empty iff the text does not parse |
| Geo.TableIsPrivate | internal/geo/geoip.go:80-109 | with the eight texts read as the networks they spell, the table has no empty slot and scanning it decides whether an address is private |
| Geo.CountryMeansPublic | internal/geo/geoip.go:44-70 | a non-empty country comes out iff the text is an address, public, and the database answers |
| Geo.LookupExact | internal/geo/geoip.go:44-70 | an error iff the text is unreadable or the database fails on a public address; nothing for a private one; otherwise the ISO code and the English name, or the code again without a name, or UNKNOWN without a code |
| Geo.To4Exact | internal/geo/geoip.go:102-109 | the IPv4 form of an address: its four bytes, or those behind ten zeros and two bytes of ones |
| Tetragon.StreamTetragonEvents | internal/k8s/tetragon-client.go:16-67 | a broken stream sleeps one second, a failure after k others in a row 1, 2, 4, 8, 16 and then always 30 seconds, and the events sent are the normalised responses in order |
| Tetragon.ParseEventExact | internal/k8s/tetragon-client.go:70-101 | an event comes out iff the response is a kprobe of one of the two functions with a process and a pod; it has the pod, namespace and program of the process, and the address and port of a socket as first argument, otherwise "unknown" and 0 |
| Tetragon.EventsConcat | internal/k8s/tetragon-client.go:52-62 | the events of two stretches of responses are those of the first and then those of the second |
| Tetragon.EventOfOne | internal/k8s/tetragon-client.go:52-62 | one response gives its event if it tells of a connection, and none otherwise |
| Tetragon.FailuresExact | internal/k8s/tetragon-client.go:31-49 | the failures counted are exactly those since the last stream |
| Tetragon.DelayExact | internal/k8s/tetragon-client.go:17-19 | the delay is 1, 2, 4, 8, 16 seconds, and 30 from then on |
| Tetragon.SleepBounds | internal/k8s/tetragon-client.go:17-19 | n rounds sleep at least n and at most 30 n seconds |
| Tetragon.ReceiveAll | internal/k8s/tetragon-client.go:52-62 | one stream sends the normalised responses it received, in order |
| Tetragon.PipelineConserves | internal/k8s/tetragon-client.go:31-66 | over any number of reconnects and in any interleaving with the consumer, consumed, queued and held events are together the normalised responses of all rounds in order, the channel never exceeds 1000, and every round is followed by the sleep the loop gives it |
| Server.PolicyServer.CreatePolicy | internal/api/server.go:70-121 | under any interference: 400 iff there is no body, the trimmed name is not valid, the country has not two characters or the action is none of the three; 201 means a fresh incarnation with the namespace asked for or "default", the country in capitals as the only disallowed one, no allowlist, the one action asked for, and no address; in peace 201 iff there was no such policy |
| Server.AimForbids | internal/api/server.go:98-111 | a policy created so forbids the connections from the namespace asked for, or from any for "*", to the country asked for in capitals, and no others |
| Server.TrimSpaceExact | internal/api/server.go:86 | trimming cuts the space off both ends and nothing else |
| Server.PolicyServer.DeletePolicy | internal/api/server.go:124-142 | under any interference: 400 iff there is no name; 200 means that the policy does not exist |
| Server.PolicyServer.UpdatePolicy | internal/api/server.go:145-199 | under any interference: 400 iff there is no name or body, the country has not two characters or the action is none of the three; 200 means that the current policy has the namespace, country and action asked for and kept its allowlist, description, incarnation and whole status; in peace 200 iff there was such a policy, otherwise 404 |
| Server.ValidNameHasNoColon | internal/api/server.go:71-90 | names the API accepts keep the cache keys of the reporter apart |
| Server.ValidNameExact | internal/api/server.go:71-90 | a name is valid iff it is one small letter or digit, or two with a row of small letters, digits and hyphens between them |
| SensorTheorems.NextKeeps | internal/controller/sovereignsensor_controller.go:55-135 | every request, failure, lost answer, crash and user action keeps the finalizer invariant |
| SensorTheorems.NoOrphanedRbac | internal/controller/sovereignsensor_controller.go:68-93 | in every run the role or binding exists only while the sensor exists with its finalizer, and only the release step, with both gone, takes the finalizer away |
| SensorTheorems.DeletionCompletes | internal/controller/sovereignsensor_controller.go:68-85 | a Reconcile in peace of a sensor marked for deletion removes its RBAC and lets it go |
| SensorTheorems.DeploymentCompletes | internal/controller/sovereignsensor_controller.go:87-134 | a Reconcile in peace of a living sensor leaves it guarded, running and with all objects; a second one changes nothing |
| SensorController.SensorReconciler.CreateIfNotExists | internal/controller/sovereignsensor_controller.go:137-146 | the Get, and after a miss the create, up to the one that fails; without error the object was found, or its create was answered and left it there, and the reconciler moves on to the next object; in peace the object exists |
| SensorController.SensorReconciler.Reconcile | internal/controller/sovereignsensor_controller.go:55-135 | under any interference: the requests made are those the version read calls for, in order, up to the first that fails, and without error all of them, each answered; a sensor marked for deletion is then gone with its RBAC, a living one runs with its finalizer; the invariant holds in any case, and in peace it is one complete Reconcile |
| Sensors.ResourceNameInjective | internal/controller/sovereignsensor_controller.go:190-228 | two sensors never share an object of the same kind |

## Left out

- Texts of addresses and CIDRs: `net.ParseIP` and `net.ParseCIDR` are arbitrary functions; that they read the eight table entries as what they spell is a hypothesis of Geo.TableIsPrivate.
- The MaxMind database is an arbitrary function, and the embedded file is not part of this model.
- Conditions other than Ready, and their timestamps: nothing in the repository writes any.
- Contents of the DaemonSet, the roles and the baseline tracing policy: only existence, names and order matter. The two creation loops of the sensor controller are one loop here, because owner references are not modelled.
- The order of the discovered actions in metrics, logging, JSON output and the listing handlers (`GET`): no state depends on them.
- Gaps of the API machinery: requests delayed beyond their caller, caches that restart in the past, two controllers at once.
- SensorController.SensorReconciler.CreateIfNotExists: does not promise existence under interference, because its read may come from a stale cache; the code promises no more.
- Agents.Agent.HandleEvent: takes one event, with the matcher up to date and a fresh call number; the endless loop around it is not modelled.
- Characters outside ASCII in names and country codes, where the code counts bytes.
- Real time: sleeps are numbers, and each critical section is one step.
- The frontend, charts, configuration, generated deep copies and start-up code.
