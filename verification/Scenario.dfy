/** A run of the whole system, from a policy that is created over a connection to any address to its kernel rule. */
module Scenario {
  import opened Policies
  import opened PolicyProtocol
  import opened PolicyInvariant
  import opened PolicyTheorems
  import opened Matching
  import opened Tetragon
  import opened Geo
  import opened World
  import opened Blocklist

  const NAME := "strict"

  /** A pod connects to the address. */
  function Seen(address: string): Response {
    ProcessKprobe(Kprobe("tcp_connect", Some(Process("curl", Some(Pod("web", "prod")))), [Sock(address, 443)]))
  }

  function SpecAgainst(country: string): Spec {
    Spec([BlockKill], ["*"], "", [], [country])
  }

  /** The policy as it is created. */
  function Created(country: string): Policy {
    Policy(NAME, 1, 1, SpecAgainst(country), Status(false, []))
  }

  /** The policy after the report. */
  function Reported(address: string, country: string): Policy {
    Policy(NAME, 1, 2, SpecAgainst(country), Status(false, [address]))
  }

  function KeyCreated(country: string): Key {
    Init(NAME, 5, 0).(rev := 1, log := [None, Some(Created(country))])
  }

  function KeyMarked(address: string, country: string, progress: Progress): Key {
    KeyCreated(country).(marks := {(0, address)}, markedBy := map[(0, address) := 0], started := {address},
                         calls := map[0 := Call(0, address, progress, 0, 2)])
  }

  function KeyReported(address: string, country: string): Key {
    KeyMarked(address, country, Reading).(
      rev := 2, log := [None, Some(Created(country)), Some(Reported(address, country))],
      calls := map[], results := map[0 := Result(0, address, Done, 2, 3)])
  }

  function KeyRuled(address: string, country: string): Key {
    KeyReported(address, country).(rev := 3, cursor := 2, source := 2, work := Finishing(Reported(address, country)),
                          rule := Some(Rule(3, 1, RuleBody(Sigkill, Cidrs([address])))))
  }

  /** The system when the policy stands so, its informer has delivered the created version and the verdict is in. */
  function Judged(address: string, country: string, longName: string, k: Key): System {
    System(5, k.rev, map[NAME := k], map[0 := map[NAME := 1]],
           [Evidence(0, Seen(address), Event("web", "prod", "curl", address, 443, country, longName),
                     map[NAME := Created(country)], [Created(country)], Created(country), 1, address)])
  }

  lemma PolicyIsCreated(g: GeoIP, country: string)
    ensures NextSystem(Start(5), g, OnKey(NAME, CreatePolicy(SpecAgainst(country))))
            == System(5, 1, map[NAME := KeyCreated(country)], map[], [])
  {
    var k := NextCreatePolicy(Init(NAME, 5, 0), SpecAgainst(country));
    assert [None] + [Some(Created(country))] == [None, Some(Created(country))];
    assert k == KeyCreated(country);
    assert map[][NAME := k] == map[NAME := k];
  }

  /** The informer delivers the policy, and the connection is judged by it. */
  lemma ConnectionIsJudged(g: GeoIP, address: string, country: string, longName: string)
    requires LookupCountry(g, address) == Place(country, longName) && country != "" && address != "unknown"
    ensures var w := System(5, 1, map[NAME := KeyCreated(country)], map[], []);
            NextSystem(NextSystem(w, g, Notify(0, NAME, 1)), g, Handle(0, Seen(address), [Created(country)]))
            == Judged(address, country, longName, KeyCreated(country))
  {
    hide Next, NextBegin, LookupCountry;
    var w := System(5, 1, map[NAME := KeyCreated(country)], map[0 := map[NAME := 1]], []);
    var p := Created(country);
    assert View(w, 0) == map[NAME := p];
    assert p.spec.namespaces[0] == "*";
    assert IsBlock(p.spec.actions[0]);
    assert IsMatch([p], View(w, 0), "prod");
  }

  /** From here on only the policy moves. */
  lemma OnlyThePolicyMoves(g: GeoIP, address: string, country: string, longName: string, k: Key, s: Step)
    requires k.name == NAME && !s.Begin? && !s.Tick? && Next(k, s).name == NAME
    ensures NextSystem(Judged(address, country, longName, k), g, OnKey(NAME, s))
            == Judged(address, country, longName, Next(k, s))
  {
    assert map[NAME := k][NAME := Next(k, s)] == map[NAME := Next(k, s)];
  }

  lemma AddressIsMarked(g: GeoIP, address: string, country: string, longName: string)
    ensures NextSystem(Judged(address, country, longName, KeyCreated(country)), g, Report(0, 0))
            == Judged(address, country, longName, KeyMarked(address, country, Reading))
  {
    var k := KeyCreated(country);
    assert {} + {(0, address)} == {(0, address)} && {} + {address} == {address};
    assert map[][(0, address) := 0] == map[(0, address) := 0];
    assert map[][0 := Call(0, address, Reading, 0, 2)] == map[0 := Call(0, address, Reading, 0, 2)];
    assert NextBegin(k, 0, 0, address) == KeyMarked(address, country, Reading);
    var marked := KeyMarked(address, country, Reading);
    assert map[NAME := k][NAME := marked] == map[NAME := marked];
  }

  lemma AddressIsWritten(address: string, country: string)
    ensures var writing := Writing(Created(country), 1);
            && NextGet(KeyMarked(address, country, Reading), 0, true) == KeyMarked(address, country, writing)
            && NextWrite(KeyMarked(address, country, writing), 0, Answered) == KeyReported(address, country)
  {
    var reading, writing := Call(0, address, Reading, 0, 2), Call(0, address, Writing(Created(country), 1), 0, 2);
    assert map[0 := reading][0 := writing] == map[0 := writing];
    assert map[0 := writing] - {0} == map[];
    assert map[][0 := Result(0, address, Done, 2, 3)] == map[0 := Result(0, address, Done, 2, 3)];
    assert [] + [address] == [address];
    assert [None, Some(Created(country))] + [Some(Reported(address, country))]
           == [None, Some(Created(country)), Some(Reported(address, country))];
  }

  lemma RuleIsCreated(address: string, country: string)
    ensures NextCreateRule(NextGetRule(NextFetch(KeyReported(address, country), 2), true), Answered)
            == KeyRuled(address, country)
  {
  }

  lemma SystemRunLast(w: System, g: GeoIP, steps: seq<SystemStep>, e: SystemStep)
    ensures RunSystem(w, g, steps + [e]) == NextSystem(RunSystem(w, g, steps), g, e)
  {
    assert (steps + [e])[..|steps|] == steps;
  }

  lemma MarkedIsReached(g: GeoIP, address: string, country: string, longName: string) returns (steps: seq<SystemStep>)
    requires LookupCountry(g, address) == Place(country, longName) && country != "" && address != "unknown"
    ensures RunSystem(Start(5), g, steps) == Judged(address, country, longName, KeyMarked(address, country, Reading))
  {
    hide NextSystem, Judged, KeyCreated, KeyMarked;
    PolicyIsCreated(g, country);
    ConnectionIsJudged(g, address, country, longName);
    AddressIsMarked(g, address, country, longName);
    steps := [];
    var create, judge := OnKey(NAME, CreatePolicy(SpecAgainst(country))), Handle(0, Seen(address), [Created(country)]);
    SystemRunLast(Start(5), g, steps, create);
    steps := steps + [create];
    SystemRunLast(Start(5), g, steps, Notify(0, NAME, 1));
    steps := steps + [Notify(0, NAME, 1)];
    SystemRunLast(Start(5), g, steps, judge);
    steps := steps + [judge];
    SystemRunLast(Start(5), g, steps, Report(0, 0));
    steps := steps + [Report(0, 0)];
  }

  /** The system follows the steps of the policy. */
  lemma {:induction false} PolicyMoves(g: GeoIP, address: string, country: string, longName: string, k: Key,
                                       moves: seq<Step>, before: seq<SystemStep>)
    returns (steps: seq<SystemStep>)
    requires RunSystem(Start(5), g, before) == Judged(address, country, longName, k) && k.name == NAME
    requires forall i :: 0 <= i < |moves| ==> !moves[i].Begin? && !moves[i].Tick?
    ensures RunSystem(Start(5), g, steps) == Judged(address, country, longName, Run(k, moves))
    ensures Run(k, moves).name == NAME
  {
    hide NextSystem, Judged, Next;
    steps := before;
    if moves != [] {
      var last := moves[|moves| - 1];
      steps := PolicyMoves(g, address, country, longName, k, moves[..|moves| - 1], before);
      StepFrame(Run(k, moves[..|moves| - 1]), last);
      OnlyThePolicyMoves(g, address, country, longName, Run(k, moves[..|moves| - 1]), last);
      SystemRunLast(Start(5), g, steps, OnKey(NAME, last));
      steps := steps + [OnKey(NAME, last)];
    }
  }

  lemma RuledInTheEnd(address: string, country: string)
    ensures Run(KeyMarked(address, country, Reading),
                [Get(0, true), Write(0, Answered), Fetch(2), GetRule(true), CreateRule(Answered)])
            == KeyRuled(address, country)
  {
    hide NextGet, NextWrite, NextFetch, NextGetRule, NextCreateRule, KeyMarked, KeyReported, KeyRuled, Run;
    AddressIsWritten(address, country);
    RuleIsCreated(address, country);
    RunFive(KeyMarked(address, country, Reading), Get(0, true), Write(0, Answered),
            Fetch(2), GetRule(true), CreateRule(Answered));
  }

  /** The run.  Addresses do get listed and rules do get created: whatever public address a pod connects to, there is a
      run in whose end the rule is that of a list with just this address. */
  lemma AddressIsRuledInARun(g: GeoIP, address: string, country: string, longName: string)
    returns (steps: seq<SystemStep>, w: System)
    requires LookupCountry(g, address) == Place(country, longName) && country != "" && address != "unknown"
    ensures w == RunSystem(Start(5), g, steps)
    ensures NAME in w.keys && w.keys[NAME] == KeyRuled(address, country)
  {
    hide NextSystem, Next, Run, RunSystem;
    steps := MarkedIsReached(g, address, country, longName);
    steps := PolicyMoves(g, address, country, longName, KeyMarked(address, country, Reading),
                         [Get(0, true), Write(0, Answered), Fetch(2), GetRule(true), CreateRule(Answered)], steps);
    RuledInTheEnd(address, country);
    w := RunSystem(Start(5), g, steps);
  }

  /** An IPv4 destination that a pod connects to is blocked in a run, in either form, and nothing else is. */
  lemma DottedIsBlockedInARun(g: GeoIP, address: string, country: string, longName: string)
    returns (steps: seq<SystemStep>, w: System)
    requires WellFormed(g, address) && ':' !in address
    requires LookupCountry(g, address) == Place(country, longName) && country != "" && address != "unknown"
    ensures w == RunSystem(Start(5), g, steps)
    ensures NAME in w.keys && Lists(Current(w.keys[NAME].log), address) && w.keys[NAME].rule.Some?
    ensures forall d ::
              Blocks(g, w.keys[NAME].rule.value.body.values, d) <==> Short(d) == Short(g.parse(address).value)
  {
    hide NextSystem, Next, Run, RunSystem, Blocks, IsPrivate;
    steps, w := AddressIsRuledInARun(g, address, country, longName);
    AddressIsParsed(g, address);
    forall d
      ensures Blocks(g, Cidrs([address]), d) <==> Short(d) == AddressOf(g, address)
    {
      OneDottedBlocks(g, address, d);
    }
  }

  lemma OneDottedBlocks(g: GeoIP, address: string, d: Bytes)
    requires WellFormed(g, address) && ':' !in address
    ensures Blocks(g, Cidrs([address]), d) <==> Short(d) == AddressOf(g, address)
  {
    AddressIsParsed(g, address);
    RuleBlocks(g, [address], d);
    var a, x := AddressOf(g, [address][0]), Short(d);
    if |x| == 4 {
      assert x == x[..4] && a == a[..4];
    }
  }

  /** The one private address that a rule can block is blocked in a run: an agent sees a connection to ::2, which is
      public. */
  lemma LoopbackIsBlockedInARun(g: GeoIP, country: string, longName: string) returns (steps: seq<SystemStep>, w: System)
    requires g.parse("::2") == Some(Zeros(15) + [2])
    requires LookupCountry(g, "::2") == Place(country, longName) && country != ""
    ensures w == RunSystem(Start(5), g, steps)
    ensures NAME in w.keys && Lists(Current(w.keys[NAME].log), "::2") && w.keys[NAME].rule.Some?
    ensures IsPrivate(Zeros(15) + [1]) && Blocks(g, w.keys[NAME].rule.value.body.values, Zeros(15) + [1])
  {
    hide NextSystem, Next, Run, RunSystem, Blocks, IsPrivate;
    steps, w := AddressIsRuledInARun(g, "::2", country, longName);
    LoopbackCanBeBlocked(g);
  }
}
