/** internal/k8s/tetragon-client.go: normalising kernel events, reconnecting, and the bounded channel to the agent. */
module Tetragon {
  import opened Arithmetic
  import opened Policies
  import opened Matching

  // ---------------------------------------------------------------- one event

  datatype Argument = Sock(daddr: string, dport: nat) | OtherArgument

  datatype Pod = Pod(name: string, namespace: string)

  datatype Process = Process(binary: string, pod: Option<Pod>)

  datatype Kprobe = Kprobe(functionName: string, process: Option<Process>, args: seq<Argument>)

  datatype Response = ProcessKprobe(kprobe: Kprobe) | OtherEvent

  function ParseEvent(res: Response): Option<Event> {
    if !res.ProcessKprobe? then None
    else
      var kp := res.kprobe;
      if kp.functionName != "tcp_connect" && kp.functionName != "tcp_v4_connect" then None
      else if kp.process.None? || kp.process.value.pod.None? then None
      else
        var pod := kp.process.value.pod.value;
        var out := Event(pod.name, pod.namespace, kp.process.value.binary, "unknown", 0, "", "");
        if |kp.args| > 0 && kp.args[0].Sock? then Some(out.(destIP := kp.args[0].daddr, destPort := kp.args[0].dport))
        else Some(out)
  }

  /** The response tells of a connection that a pod has opened. */
  predicate Connects(res: Response) {
    && res.ProcessKprobe?
    && res.kprobe.functionName in {"tcp_connect", "tcp_v4_connect"}
    && res.kprobe.process.Some? && res.kprobe.process.value.pod.Some?
  }

  /** The first argument is a socket. */
  predicate HasSocket(res: Response) {
    res.ProcessKprobe? && res.kprobe.args != [] && res.kprobe.args[0].Sock?
  }

  /** An event comes out iff a pod has opened a connection.  It names that pod, its namespace and the program, and the
      peer of the socket, if the first argument is one; the country is still open. */
  lemma ParseEventExact(res: Response)
    ensures ParseEvent(res).Some? <==> Connects(res)
    ensures ParseEvent(res).Some? ==>
              var ev, process := ParseEvent(res).value, res.kprobe.process.value;
              && ev.podName == process.pod.value.name
              && ev.namespace == process.pod.value.namespace
              && ev.binary == process.binary
              && (if HasSocket(res)
                  then ev.destIP == res.kprobe.args[0].daddr && ev.destPort == res.kprobe.args[0].dport
                  else ev.destIP == "unknown" && ev.destPort == 0)
              && ev.destCountry == "" && ev.destCountryName == ""
  {
  }

  /** The events of a stretch of responses, in order. */
  function Events(received: seq<Response>): seq<Event> {
    if received == [] then []
    else
      var last := ParseEvent(received[|received| - 1]);
      Events(received[..|received| - 1]) + if last.Some? then [last.value] else []
  }

  lemma {:induction false} EventsConcat(a: seq<Response>, b: seq<Response>)
    ensures Events(a + b) == Events(a) + Events(b)
  {
    if b == [] {
      assert a + b == a;
    } else {
      EventsConcat(a, b[..|b| - 1]);
      assert (a + b)[..|a + b| - 1] == a + b[..|b| - 1];
    }
  }

  /** With EventsConcat: every connection gives one event, in its place, and nothing else gives any. */
  lemma EventOfOne(res: Response)
    ensures Events([]) == []
    ensures Events([res]) == if Connects(res) then [ParseEvent(res).value] else []
  {
    ParseEventExact(res);
    assert [res][..0] == [];
  }

  // ---------------------------------------------------------------- reconnecting

  /** One round of the outer loop: no connection, no stream, or a stream that delivered some responses and broke. */
  datatype Round = DialFailed | OpenFailed | Subscribed(received: seq<Response>)

  const BASE_BACKOFF: nat := 1
  const MAX_BACKOFF: nat := 30

  function Min(a: nat, b: nat): nat {
    if a < b then a else b
  }

  /** The failures since the last stream, or since the start. */
  function FailuresBefore(rounds: seq<Round>, i: nat): nat
    requires i <= |rounds|
  {
    if i == 0 || rounds[i - 1].Subscribed? then 0 else 1 + FailuresBefore(rounds, i - 1)
  }

  /** It counts the failures since the last stream: the rounds just before are failures, and before them there was a
      stream or nothing. */
  lemma {:induction false} FailuresExact(rounds: seq<Round>, i: nat)
    requires i <= |rounds|
    ensures var n := FailuresBefore(rounds, i);
            && n <= i
            && (forall j :: i - n <= j < i ==> !rounds[j].Subscribed?)
            && (n < i ==> rounds[i - n - 1].Subscribed?)
  {
    if i > 0 && !rounds[i - 1].Subscribed? {
      FailuresExact(rounds, i - 1);
    }
  }

  /** The delay after k failures in a row: it doubles from one second and stops at thirty. */
  function Delay(k: nat): nat {
    Min(Power(k), MAX_BACKOFF)
  }

  /** 1, 2, 4, 8, 16 seconds, and 30 from then on. */
  lemma DelayExact(k: nat)
    ensures k < 5 ==> Delay(k) == [1, 2, 4, 8, 16][k]
    ensures 5 <= k ==> Delay(k) == 30
  {
    if 5 <= k {
      PowerAdds(5, k - 5);
      assert Power(5) == 32;
    } else {
      assert Power(0) == 1 && Power(1) == 2 && Power(2) == 4 && Power(3) == 8 && Power(4) == 16;
    }
  }

  function Received(rounds: seq<Round>): seq<Response> {
    if rounds == [] then []
    else
      var last := rounds[|rounds| - 1];
      Received(rounds[..|rounds| - 1]) + if last.Subscribed? then last.received else []
  }

  lemma DelayDoubles(k: nat)
    ensures Min(Delay(k) * 2, MAX_BACKOFF) == Delay(k + 1)
    ensures BASE_BACKOFF == Delay(0)
  {
  }

  lemma ReceivedStep(rounds: seq<Round>, n: nat)
    requires n < |rounds|
    ensures Events(Received(rounds[..n + 1])) ==
            Events(Received(rounds[..n])) + if rounds[n].Subscribed? then Events(rounds[n].received) else []
  {
    assert rounds[..n + 1][..n] == rounds[..n];
    EventsConcat(Received(rounds[..n]), if rounds[n].Subscribed? then rounds[n].received else []);
  }

  /** The sleep after each of the first n rounds: one second after a broken stream, the backoff after a failure. */
  ghost predicate SleepsAfter(rounds: seq<Round>, sleeps: seq<nat>) {
    && |sleeps| <= |rounds|
    && forall i :: 0 <= i < |sleeps| ==>
         sleeps[i] == if rounds[i].Subscribed? then 1 else Delay(FailuresBefore(rounds, i))
  }

  lemma NothingYet(rounds: seq<Round>)
    ensures FailuresBefore(rounds, 0) == 0 && Events(Received(rounds[..0])) == []
  {
  }

  lemma FailuresStep(rounds: seq<Round>, n: nat)
    requires n < |rounds|
    ensures FailuresBefore(rounds, n + 1) == if rounds[n].Subscribed? then 0 else FailuresBefore(rounds, n) + 1
  {
  }

  lemma SleepsExact(rounds: seq<Round>, sleeps: seq<nat>)
    requires SleepsAfter(rounds, sleeps)
    ensures forall i :: 0 <= i < |sleeps| ==>
              sleeps[i] == if rounds[i].Subscribed? then 1
                           else var k := FailuresBefore(rounds, i); if k < 5 then [1, 2, 4, 8, 16][k] else 30
  {
    hide Delay;
    forall i | 0 <= i < |sleeps|
      ensures var k := FailuresBefore(rounds, i); Delay(k) == if k < 5 then [1, 2, 4, 8, 16][k] else 30
    {
      DelayExact(FailuresBefore(rounds, i));
    }
  }

  /** The reconnect loop over the rounds up to the cancellation of its context. */
  method StreamTetragonEvents(rounds: seq<Round>) returns (sleeps: seq<nat>, sent: seq<Event>)
    ensures |sleeps| == |rounds| && SleepsAfter(rounds, sleeps)
    ensures forall i :: 0 <= i < |rounds| ==>
              sleeps[i] == if rounds[i].Subscribed? then 1
                           else var k := FailuresBefore(rounds, i); if k < 5 then [1, 2, 4, 8, 16][k] else 30
    ensures sent == Events(Received(rounds))
  {
    hide Delay, FailuresBefore, Events, Received;
    sleeps, sent := [], [];
    var currentBackoff := BASE_BACKOFF;
    var n := 0;
    NothingYet(rounds);
    DelayDoubles(0);
    while n < |rounds|
      invariant 0 <= n == |sleeps| <= |rounds|
      invariant currentBackoff == Delay(FailuresBefore(rounds, n))
      invariant SleepsAfter(rounds, sleeps)
      invariant sent == Events(Received(rounds[..n]))
    {
      ReceivedStep(rounds, n);
      FailuresStep(rounds, n);
      DelayDoubles(FailuresBefore(rounds, n));
      if rounds[n].Subscribed? {
        currentBackoff := BASE_BACKOFF;
        var batch := ReceiveAll(rounds[n].received);
        sent := sent + batch;
        sleeps := sleeps + [1];
      } else {
        sleeps := sleeps + [currentBackoff];
        currentBackoff := Min(currentBackoff * 2, MAX_BACKOFF);
      }
      n := n + 1;
    }
    assert rounds[..|rounds|] == rounds;
    SleepsExact(rounds, sleeps);
  }

  method ReceiveAll(received: seq<Response>) returns (sent: seq<Event>)
    ensures sent == Events(received)
  {
    sent := [];
    for i := 0 to |received|
      invariant sent == Events(received[..i])
    {
      assert received[..i + 1][..i] == received[..i];
      var ev := ParseEvent(received[i]);
      if ev.Some? {
        sent := sent + [ev.value];
      }
    }
    assert received[..|received|] == received;
  }

  function Sum(sleeps: seq<nat>): nat {
    if sleeps == [] then 0 else Sum(sleeps[..|sleeps| - 1]) + sleeps[|sleeps| - 1]
  }

  /** Any n rounds, in any pattern of failures, sleep between n and 30 n seconds. */
  lemma {:induction false} SleepBounds(rounds: seq<Round>, sleeps: seq<nat>)
    requires |sleeps| == |rounds| && SleepsAfter(rounds, sleeps)
    ensures |rounds| <= Sum(sleeps) <= 30 * |rounds|
  {
    if rounds != [] {
      var before := rounds[..|rounds| - 1];
      forall i | 0 <= i < |before|
        ensures sleeps[..|sleeps| - 1][i] == if before[i].Subscribed? then 1 else Delay(FailuresBefore(before, i))
      {
        SameFailures(rounds, before, i);
      }
      SleepBounds(before, sleeps[..|sleeps| - 1]);
    }
  }

  lemma {:induction false} SameFailures(rounds: seq<Round>, before: seq<Round>, i: nat)
    requires i <= |before| && before <= rounds
    ensures FailuresBefore(rounds, i) == FailuresBefore(before, i)
  {
    if i > 0 {
      SameFailures(rounds, before, i - 1);
    }
  }

  // ---------------------------------------------------------------- the channel

  const CAPACITY: nat := 1000

  /** The reconnect loop, the bounded channel and the consumer.  `rounds` is the history of the loop, the last round
      still going on while `streaming`; `slept` has a sleep for every round that is over. */
  datatype Pipe = Pipe(rounds: seq<Round>, streaming: bool, backoff: nat, slept: seq<nat>,
                       hand: Option<Event>, channel: seq<Event>, consumed: seq<Event>)

  datatype PipeStep = DialFails | OpenFails | Subscribe | Receive(res: Response) | Send | Break | Consume

  function NextFailure(p: Pipe, round: Round): Pipe {
    if p.streaming then p
    else p.(rounds := p.rounds + [round], slept := p.slept + [p.backoff], backoff := Min(p.backoff * 2, MAX_BACKOFF))
  }

  /** The rounds after one more response to the last of them. */
  function Delivered(rounds: seq<Round>, res: Response): seq<Round>
    requires rounds != [] && rounds[|rounds| - 1].Subscribed?
  {
    rounds[|rounds| - 1 := Subscribed(rounds[|rounds| - 1].received + [res])]
  }

  /** The loop receives and breaks only between two sends.  A send waits while the channel is full, the consumer
      waits while it is empty. */
  function NextPipe(p: Pipe, s: PipeStep): Pipe {
    match s
    case DialFails => NextFailure(p, DialFailed)
    case OpenFails => NextFailure(p, OpenFailed)
    case Subscribe =>
      if p.streaming then p
      else p.(rounds := p.rounds + [Subscribed([])], streaming := true, backoff := BASE_BACKOFF)
    case Receive(res) =>
      if !p.streaming || p.hand.Some? || p.rounds == [] || !p.rounds[|p.rounds| - 1].Subscribed? then p
      else p.(rounds := Delivered(p.rounds, res), hand := ParseEvent(res))
    case Send =>
      if p.hand.None? || |p.channel| >= CAPACITY then p
      else p.(hand := None, channel := p.channel + [p.hand.value])
    case Break =>
      if !p.streaming || p.hand.Some? then p
      else p.(streaming := false, slept := p.slept + [1])
    case Consume =>
      if p.channel == [] then p
      else p.(channel := p.channel[1..], consumed := p.consumed + [p.channel[0]])
  }

  function RunPipe(steps: seq<PipeStep>): Pipe {
    if steps == [] then Pipe([], false, BASE_BACKOFF, [], None, [], [])
    else NextPipe(RunPipe(steps[..|steps| - 1]), steps[|steps| - 1])
  }

  /** Everything received so far, over all the rounds, has been consumed, waits in the channel or is in hand. */
  ghost predicate Conserved(p: Pipe) {
    && p.consumed + p.channel + (if p.hand.Some? then [p.hand.value] else []) == Events(Received(p.rounds))
    && |p.channel| <= 1000
  }

  /** The loop has slept as StreamTetragonEvents does over its rounds. */
  ghost predicate Paced(p: Pipe) {
    && |p.rounds| == |p.slept| + (if p.streaming then 1 else 0)
    && (p.streaming ==> p.rounds[|p.rounds| - 1].Subscribed?)
    && SleepsAfter(p.rounds, p.slept)
    && p.backoff == Delay(FailuresBefore(p.rounds, |p.rounds|))
  }

  /** Sleeps do not depend on the rounds after them. */
  lemma SleepsStay(rounds: seq<Round>, later: seq<Round>, sleeps: seq<nat>)
    requires SleepsAfter(rounds, sleeps) && |rounds| <= |later| && rounds[..|sleeps|] == later[..|sleeps|]
    ensures SleepsAfter(later, sleeps)
  {
    forall i | 0 <= i < |sleeps|
      ensures FailuresBefore(later, i) == FailuresBefore(rounds, i) && later[i] == rounds[i]
    {
      assert later[..|sleeps|][i] == rounds[..|sleeps|][i];
      SameFailures(rounds, rounds[..|sleeps|], i);
      SameFailures(later, later[..|sleeps|], i);
    }
  }

  lemma RoundAdded(p: Pipe, round: Round)
    requires Conserved(p) && Paced(p) && !p.streaming && (round.Subscribed? ==> round.received == [])
    ensures Received(p.rounds + [round]) == Received(p.rounds)
    ensures SleepsAfter(p.rounds + [round], p.slept)
    ensures FailuresBefore(p.rounds + [round], |p.rounds|) == FailuresBefore(p.rounds, |p.rounds|)
  {
    assert (p.rounds + [round])[..|p.rounds|] == p.rounds;
    SleepsStay(p.rounds, p.rounds + [round], p.slept);
    SameFailures(p.rounds + [round], p.rounds, |p.rounds|);
  }

  lemma FailureKeeps(p: Pipe, round: Round)
    requires Conserved(p) && Paced(p) && !round.Subscribed?
    ensures Conserved(NextFailure(p, round)) && Paced(NextFailure(p, round))
  {
    if !p.streaming {
      RoundAdded(p, round);
      DelayDoubles(FailuresBefore(p.rounds, |p.rounds|));
    }
  }

  lemma SubscribeKeeps(p: Pipe)
    requires Conserved(p) && Paced(p)
    ensures Conserved(NextPipe(p, Subscribe)) && Paced(NextPipe(p, Subscribe))
  {
    if !p.streaming {
      RoundAdded(p, Subscribed([]));
      DelayDoubles(0);
    }
  }

  lemma ReceiveKeeps(p: Pipe, res: Response)
    requires Conserved(p) && Paced(p)
    ensures Conserved(NextPipe(p, Receive(res))) && Paced(NextPipe(p, Receive(res)))
  {
    var n := NextPipe(p, Receive(res));
    if n != p {
      var last := |p.rounds| - 1;
      assert n.rounds[..last] == p.rounds[..last];
      assert Received(n.rounds) == Received(p.rounds) + [res];
      assert Received(n.rounds)[..|Received(p.rounds)|] == Received(p.rounds);
      SleepsStay(p.rounds, n.rounds, p.slept);
    }
  }

  lemma SendKeeps(p: Pipe)
    requires Conserved(p) && Paced(p)
    ensures Conserved(NextPipe(p, Send)) && Paced(NextPipe(p, Send))
  {
  }

  lemma BreakKeeps(p: Pipe)
    requires Conserved(p) && Paced(p)
    ensures Conserved(NextPipe(p, Break)) && Paced(NextPipe(p, Break))
  {
  }

  lemma ConsumeKeeps(p: Pipe)
    requires Conserved(p) && Paced(p)
    ensures Conserved(NextPipe(p, Consume)) && Paced(NextPipe(p, Consume))
  {
  }

  lemma PipeKeeps(p: Pipe, s: PipeStep)
    requires Conserved(p) && Paced(p)
    ensures Conserved(NextPipe(p, s)) && Paced(NextPipe(p, s))
  {
    hide Conserved, Paced;
    match s
    case DialFails => FailureKeeps(p, DialFailed);
    case OpenFails => FailureKeeps(p, OpenFailed);
    case Subscribe => SubscribeKeeps(p);
    case Receive(res) => ReceiveKeeps(p, res);
    case Send => SendKeeps(p);
    case Break => BreakKeeps(p);
    case Consume => ConsumeKeeps(p);
  }

  /** Nothing is lost, invented, repeated or reordered between Tetragon and the agent, over any number of reconnects
      and in any interleaving with the consumer; the channel stays bounded, and the loop sleeps after every round as
      StreamTetragonEvents does. */
  lemma {:induction false} PipelineConserves(steps: seq<PipeStep>)
    ensures Conserved(RunPipe(steps)) && Paced(RunPipe(steps))
  {
    if steps == [] {
      DelayDoubles(0);
    } else {
      PipelineConserves(steps[..|steps| - 1]);
      PipeKeeps(RunPipe(steps[..|steps| - 1]), steps[|steps| - 1]);
    }
  }
}
