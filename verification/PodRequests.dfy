/** The effective request of a pod with sidecars, over quantities already parsed. An absent quantity counts as zero. */
module PodRequests {
  import opened Options

  type Amount = r: real | r >= 0.0

  datatype Resource = Cpu | Memory

  datatype Request = Request(cpu: Option<Amount>, memory: Option<Amount>)

  /** sidecar: an init container with restartPolicy Always. */
  datatype Container = Container(request: Request, sidecar: bool)

  datatype Pod = Pod(containers: seq<Container>, inits: seq<Container>, podLevel: Request, overhead: Request)

  datatype Usage = Usage(cpu: Amount, memory: Amount)

  const NOTHING := Usage(0.0, 0.0)

  function Larger(a: Amount, b: Amount): (m: Amount)
    ensures m >= a && m >= b && (m == a || m == b)
  {
    if a < b then b else a
  }

  function Asked(r: Resource, q: Request): Amount {
    var amount := if r.Cpu? then q.cpu else q.memory;
    if amount.Some? then amount.value else 0.0
  }

  function Load(r: Resource, running: seq<Container>): Amount {
    if running == [] then 0.0 else Load(r, running[..|running| - 1]) + Asked(r, running[|running| - 1].request)
  }

  // ---- the start-up simulation -------------------------------------------------------------------------

  /** The containers running at each stage: every init container in turn beside the sidecars already up,
      and at the end the regular containers beside all sidecars. */
  function StartUp(up: seq<Container>, inits: seq<Container>, containers: seq<Container>): seq<seq<Container>>
    decreases |inits|
  {
    if inits == [] then [up + containers]
    else
      var next := inits[0];
      [up + [next]] + StartUp(if next.sidecar then up + [next] else up, inits[1..], containers)
  }

  function Peak(r: Resource, stages: seq<seq<Container>>): Amount {
    if stages == [] then 0.0 else Larger(Load(r, stages[0]), Peak(r, stages[1..]))
  }

  /** The peak is the least bound on every stage. */
  lemma {:induction false} PeakIsTight(r: Resource, stages: seq<seq<Container>>)
    ensures forall i :: 0 <= i < |stages| ==> Load(r, stages[i]) <= Peak(r, stages)
    ensures stages != [] ==> exists i :: 0 <= i < |stages| && Load(r, stages[i]) == Peak(r, stages)
  {
    if stages != [] {
      PeakIsTight(r, stages[1..]);
      if Load(r, stages[0]) == Peak(r, stages) {
        assert Load(r, stages[0]) == Peak(r, stages);
      } else {
        var i :| 0 <= i < |stages| - 1 && Load(r, stages[1..][i]) == Peak(r, stages[1..]);
        assert stages[i + 1] == stages[1..][i];
      }
    }
  }

  /** What the scheduler must find room for. */
  function Effective(r: Resource, pod: Pod): Amount {
    Larger(Peak(r, StartUp([], pod.inits, pod.containers)), Asked(r, pod.podLevel)) + Asked(r, pod.overhead)
  }

  // ---- the one-pass computation ------------------------------------------------------------------------

  method AddQuantity(target: Usage, q: Request) returns (sum: Usage)
    ensures sum.cpu == target.cpu + Asked(Cpu, q) && sum.memory == target.memory + Asked(Memory, q)
    ensures sum.cpu == target.cpu + if q.cpu == None then 0.0 else q.cpu.value
    ensures sum.memory == target.memory + if q.memory == None then 0.0 else q.memory.value
  {
    sum := target;
    if q.cpu.Some? { sum := sum.(cpu := sum.cpu + q.cpu.value); }
    if q.memory.Some? { sum := sum.(memory := sum.memory + q.memory.value); }
  }

  method Total(containers: seq<Container>) returns (sum: Usage)
    ensures sum.cpu == Load(Cpu, containers) && sum.memory == Load(Memory, containers)
  {
    sum := NOTHING;
    for i := 0 to |containers|
      invariant sum.cpu == Load(Cpu, containers[..i]) && sum.memory == Load(Memory, containers[..i])
    {
      assert containers[..i + 1][..i] == containers[..i];
      sum := AddQuantity(sum, containers[i].request);
    }
    assert containers[..|containers|] == containers;
  }

  lemma LoadOfMore(r: Resource, running: seq<Container>, c: Container)
    ensures Load(r, running + [c]) == Load(r, running) + Asked(r, c.request)
  {
    assert (running + [c])[..|running|] == running;
  }

  lemma {:induction false} LoadOfConcat(r: Resource, a: seq<Container>, b: seq<Container>)
    ensures Load(r, a + b) == Load(r, a) + Load(r, b)
  {
    if b == [] {
      assert a + b == a;
    } else {
      var n := |b| - 1;
      assert a + b == (a + b[..n]) + [b[n]];
      LoadOfMore(r, a + b[..n], b[n]);
      LoadOfConcat(r, a, b[..n]);
    }
  }

  function Rest(r: Resource, up: seq<Container>, pod: Pod, i: nat): Amount
    requires i <= |pod.inits|
  {
    Peak(r, StartUp(up, pod.inits[i..], pod.containers))
  }

  function Started(up: seq<Container>, next: Container): seq<Container> {
    if next.sidecar then up + [next] else up
  }

  /** What the pass knows before stage i: the load of the sidecars that are up, and the highest load so far. */
  predicate Known(r: Resource, pod: Pod, up: seq<Container>, i: nat, load: Amount, peak: Amount)
    requires i <= |pod.inits|
  {
    load == Load(r, up) && Rest(r, [], pod, 0) == Larger(peak, Rest(r, up, pod, i))
  }

  /** One stage of the simulation: the load beside `next` joins the peak, and a sidecar stays up. */
  lemma NextStage(r: Resource, pod: Pod, up: seq<Container>, i: nat, load: Amount, peak: Amount)
    requires i < |pod.inits| && Known(r, pod, up, i, load, peak)
    ensures var next := pod.inits[i];
            var running := load + Asked(r, next.request);
            Known(r, pod, Started(up, next), i + 1, if next.sidecar then running else load, Larger(peak, running))
  {
    var next := pod.inits[i];
    var rest := StartUp(Started(up, next), pod.inits[i + 1..], pod.containers);
    assert pod.inits[i..][1..] == pod.inits[i + 1..];
    LoadOfMore(r, up, next);
    PeakOfMore(r, up + [next], rest);
    LargerIsAssociative(peak, Load(r, up + [next]), Peak(r, rest));
  }

  lemma PeakOfMore(r: Resource, stage: seq<Container>, stages: seq<seq<Container>>)
    ensures Peak(r, [stage] + stages) == Larger(Load(r, stage), Peak(r, stages))
  {
    assert ([stage] + stages)[1..] == stages;
  }

  lemma LargerIsAssociative(a: Amount, b: Amount, c: Amount)
    ensures Larger(a, Larger(b, c)) == Larger(Larger(a, b), c)
  {
  }

  lemma LastStage(r: Resource, pod: Pod, up: seq<Container>, load: Amount, peak: Amount)
    requires Known(r, pod, up, |pod.inits|, load, peak)
    ensures Rest(r, [], pod, 0) == Larger(peak, load + Load(r, pod.containers))
  {
    LoadOfConcat(r, up, pod.containers);
    assert Peak(r, [up + pod.containers]) == Load(r, up + pod.containers);
  }

  lemma FirstStage(r: Resource, pod: Pod)
    ensures Known(r, pod, [], 0, 0.0, 0.0)
  {
  }

  lemma LoadOfOne(r: Resource, c: Container)
    ensures Load(r, [c]) == Asked(r, c.request)
  {
    assert [] + [c] == [c];
    LoadOfMore(r, [], c);
  }

  /** One pass over the init containers: the load of the sidecars, and the highest load met on the way. */
  method InitPeak(pod: Pod) returns (restartable: Usage, initPeak: Usage)
    ensures Rest(Cpu, [], pod, 0) == Larger(initPeak.cpu, restartable.cpu + Load(Cpu, pod.containers))
    ensures Rest(Memory, [], pod, 0) == Larger(initPeak.memory, restartable.memory + Load(Memory, pod.containers))
  {
    restartable, initPeak := NOTHING, NOTHING;
    ghost var up: seq<Container> := [];
    FirstStage(Cpu, pod);
    FirstStage(Memory, pod);
    for i := 0 to |pod.inits|
      invariant Known(Cpu, pod, up, i, restartable.cpu, initPeak.cpu)
      invariant Known(Memory, pod, up, i, restartable.memory, initPeak.memory)
    {
      var container := pod.inits[i];
      var current := Total([container]);
      LoadOfOne(Cpu, container);
      LoadOfOne(Memory, container);
      NextStage(Cpu, pod, up, i, restartable.cpu, initPeak.cpu);
      NextStage(Memory, pod, up, i, restartable.memory, initPeak.memory);
      if container.sidecar {
        restartable := Usage(restartable.cpu + current.cpu, restartable.memory + current.memory);
        initPeak := Usage(Larger(initPeak.cpu, restartable.cpu), Larger(initPeak.memory, restartable.memory));
      } else {
        initPeak := Usage(Larger(initPeak.cpu, restartable.cpu + current.cpu),
                          Larger(initPeak.memory, restartable.memory + current.memory));
      }
      up := Started(up, container);
    }
    LastStage(Cpu, pod, up, restartable.cpu, initPeak.cpu);
    LastStage(Memory, pod, up, restartable.memory, initPeak.memory);
  }

  /** The one-pass computation finds the peak of the whole start-up simulation. */
  method PodRequest(pod: Pod) returns (result: Usage)
    ensures result.cpu == Effective(Cpu, pod) && result.memory == Effective(Memory, pod)
  {
    var regular := Total(pod.containers);
    var restartable, initPeak := InitPeak(pod);
    var podLevel := AddQuantity(NOTHING, pod.podLevel);
    var overhead := AddQuantity(NOTHING, pod.overhead);
    EffectiveFrom(Cpu, pod, restartable.cpu, initPeak.cpu);
    EffectiveFrom(Memory, pod, restartable.memory, initPeak.memory);
    result := Usage(
      Larger(Larger(regular.cpu + restartable.cpu, initPeak.cpu), podLevel.cpu) + overhead.cpu,
      Larger(Larger(regular.memory + restartable.memory, initPeak.memory), podLevel.memory) + overhead.memory);
  }

  lemma EffectiveFrom(r: Resource, pod: Pod, restartable: Amount, initPeak: Amount)
    requires Rest(r, [], pod, 0) == Larger(initPeak, restartable + Load(r, pod.containers))
    ensures Effective(r, pod)
            == Larger(Larger(Load(r, pod.containers) + restartable, initPeak), Asked(r, pod.podLevel))
                + Asked(r, pod.overhead)
  {
    assert pod.inits[0..] == pod.inits;
  }

  // ---- the simpler form --------------------------------------------------------------------------------

  function LargestInit(r: Resource, inits: seq<Container>): Amount {
    if inits == [] then 0.0 else Larger(Asked(r, inits[0].request), LargestInit(r, inits[1..]))
  }

  /** The semantic assessment's form, which knows neither sidecars nor pod-level requests. */
  function SimpleRequest(r: Resource, pod: Pod): Amount {
    Larger(Load(r, pod.containers), LargestInit(r, pod.inits)) + Asked(r, pod.overhead)
  }

  lemma {:induction false} PeakCoversParts(r: Resource, up: seq<Container>, inits: seq<Container>,
                                           containers: seq<Container>)
    ensures Peak(r, StartUp(up, inits, containers)) >= Load(r, containers)
    ensures Peak(r, StartUp(up, inits, containers)) >= LargestInit(r, inits)
    decreases |inits|
  {
    if inits == [] {
      LoadOfConcat(r, up, containers);
    } else {
      LoadOfMore(r, up, inits[0]);
      PeakCoversParts(r, if inits[0].sidecar then up + [inits[0]] else up, inits[1..], containers);
    }
  }

  lemma {:induction false} PeakWithoutSidecars(r: Resource, inits: seq<Container>, containers: seq<Container>)
    requires forall c :: c in inits ==> !c.sidecar
    ensures Peak(r, StartUp([], inits, containers)) == Larger(LargestInit(r, inits), Load(r, containers))
    decreases |inits|
  {
    if inits == [] {
      assert [] + containers == containers;
      assert Peak(r, [containers]) == Load(r, containers);
    } else {
      LoadOfMore(r, [], inits[0]);
      assert [] + [inits[0]] == [inits[0]];
      PeakWithoutSidecars(r, inits[1..], containers);
    }
  }

  /** The full form never asks for less, and for the same without sidecars when the pod-level request
      does not exceed the rest. */
  lemma EffectiveRefinesSimple(r: Resource, pod: Pod)
    ensures Effective(r, pod) >= SimpleRequest(r, pod)
    ensures (forall c :: c in pod.inits ==> !c.sidecar) ==>
              (Effective(r, pod) == SimpleRequest(r, pod) <==>
               Asked(r, pod.podLevel) <= Larger(Load(r, pod.containers), LargestInit(r, pod.inits)))
  {
    var peak := Peak(r, StartUp([], pod.inits, pod.containers));
    var load, largest := Load(r, pod.containers), LargestInit(r, pod.inits);
    PeakCoversParts(r, [], pod.inits, pod.containers);
    MaximaCompare(peak, load, largest, Asked(r, pod.podLevel), Asked(r, pod.overhead));
    if forall c :: c in pod.inits ==> !c.sidecar {
      PeakWithoutSidecars(r, pod.inits, pod.containers);
    }
  }

  lemma MaximaCompare(peak: Amount, load: Amount, largest: Amount, podLevel: Amount, overhead: Amount)
    requires peak >= load && peak >= largest
    ensures Larger(peak, podLevel) + overhead >= Larger(load, largest) + overhead
    ensures peak == Larger(largest, load) ==>
              (Larger(peak, podLevel) + overhead == Larger(load, largest) + overhead <==>
                  podLevel <= Larger(load, largest))
  {
  }
}
