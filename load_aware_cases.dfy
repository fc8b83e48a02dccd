/**
 * The three cases of TestLoadAware: two machines with 4 CPUs (4000
 * milli-CPU) and 16Gi of memory (in bytes), the default resource specs
 * (cpu and memory, weight 1 each), and a best-effort pod to score.
 */
module LoadAwareCases {
  import opened LoadAware

  const Cpu: string := "cpu"
  const Memory: string := "memory"
  const Mi: nat := 1048576
  const Gi: nat := 1073741824

  const DefaultSpecs: seq<ResourceSpec> := [ResourceSpec(Cpu, 1), ResourceSpec(Memory, 1)]
  const MachineAllocatable: map<string, nat> := map[Cpu := 4000, Memory := 16 * Gi]
  const PodRequests1: map<string, nat> := map[Cpu := 1000, Memory := 1 * Gi]
  const PodRequests2: map<string, nat> := map[Cpu := 2000, Memory := 2 * Gi]

  function Machine(pods: seq<Pod>): NodeState {
    NodeState(MachineAllocatable, pods)
  }

  /** With the default specs the score is the truncated mean of the CPU and memory scores. */
  lemma DefaultSpecsScore(pods: seq<Pod>, t: PodResourceType, charged: map<string, nat>)
    ensures HasCapacity(Machine(pods), DefaultSpecs) && TotalWeight(DefaultSpecs) == 2
    ensures Score(Machine(pods), t, charged, DefaultSpecs)
         == TruncDiv(ResourceScore(4000, Used(Machine(pods), t, charged, Cpu))
                     + ResourceScore(16 * Gi, Used(Machine(pods), t, charged, Memory)), 2)
  {
    assert Cpu != Memory by { assert |Cpu| != |Memory|; }
    var rest := DefaultSpecs[1..];
    assert DefaultSpecs[0] == ResourceSpec(Cpu, 1) && rest == [ResourceSpec(Memory, 1)];
    assert rest[1..] == [];
    assert TotalWeight(rest) == 1;
    assert Capacity(Machine(pods), Cpu) == 4000;
    assert Capacity(Machine(pods), Memory) == 16 * Gi;
    assert WeightedSum(Machine(pods), t, charged, rest)
        == ResourceScore(16 * Gi, Used(Machine(pods), t, charged, Memory));
  }

  /** On a machine holding one pod, usage is the charge plus that pod's request if it shares the class. */
  lemma OnePodUsed(p: Pod, t: PodResourceType, charged: map<string, nat>, r: string)
    ensures Used(Machine([p]), t, charged, r)
         == Amount(charged, r) + (if p.resourceType == t then Amount(p.requests, r) else 0)
  {
    assert [p][1..] == [];
    assert AssignedRequest([p], t, r)
        == (if p.resourceType == t then Amount(p.requests, r) else 0) + AssignedRequest([], t, r);
  }

  /**
   * "nothing scheduled, nothing requested": both empty machines score 97
   * for an empty best-effort pod whatever it is charged within this box of
   * CPU and memory charges, which holds the 100m / 200Mi non-zero request
   * defaults of Kubernetes.
   */
  lemma {:induction false} NothingScheduledScores97(cpuCharge: nat, memoryCharge: nat)
    requires 81 <= cpuCharge <= 120 && 171798692 <= memoryCharge <= 343597383
    ensures Score(Machine([]), BestEffortPod, map[Cpu := cpuCharge, Memory := memoryCharge], DefaultSpecs) == 97
  {
    var charged := map[Cpu := cpuCharge, Memory := memoryCharge];
    assert Cpu != Memory by { assert |Cpu| != |Memory|; }
    DefaultSpecsScore([], BestEffortPod, charged);
    assert Used(Machine([]), BestEffortPod, charged, Cpu) == cpuCharge;
    assert Used(Machine([]), BestEffortPod, charged, Memory) == memoryCharge;
    assert ResourceScore(4000, cpuCharge) == 97;
    assert ResourceScore(16 * Gi, memoryCharge) == 98;
  }

  /** The default non-zero requests fall in that box. */
  lemma DefaultChargeScores97()
    ensures Score(Machine([]), BestEffortPod, map[Cpu := 100, Memory := 200 * Mi], DefaultSpecs) == 97
  {
    NothingScheduledScores97(100, 200 * Mi);
  }

  /**
   * The worked comment above that case charges 250m of CPU and 0.2Gi of
   * memory, which under the formula gives 93 and 98 and a node score of
   * 95, not the 97 the case asserts. (Its memory lines also divide by
   * 10000 where the 16Gi capacity is meant.)
   */
  lemma CommentChargeScores95()
    ensures Score(Machine([]), BestEffortPod, map[Cpu := 250, Memory := 214748364], DefaultSpecs) == 95
  {
    var charged := map[Cpu := 250, Memory := 214748364];
    assert Cpu != Memory by { assert |Cpu| != |Memory|; }
    DefaultSpecsScore([], BestEffortPod, charged);
    assert Used(Machine([]), BestEffortPod, charged, Cpu) == 250;
    assert Used(Machine([]), BestEffortPod, charged, Memory) == 214748364;
    assert ResourceScore(4000, 250) == 93;
    assert ResourceScore(16 * Gi, 214748364) == 98;
  }

  /** A pod charged nothing scores the maximum on an empty machine: the 97 case charges something. */
  lemma NoChargeScoresMax()
    ensures Score(Machine([]), BestEffortPod, map[], DefaultSpecs) == MaxNodeScore
  {
    DefaultSpecsScore([], BestEffortPod, map[]);
  }

  /**
   * "different size pods scheduled": machine1 holds a 1-CPU/1Gi and
   * machine2 a 2-CPU/2Gi best-effort pod; the incoming 1-CPU/1Gi pod is
   * counted with them, so machine1 scores (50 + 87) / 2 = 68 and machine2
   * (25 + 81) / 2 = 53, strictly lower.
   */
  lemma SameTypePodsCounted()
    ensures Score(Machine([Pod(BestEffortPod, PodRequests1)]), BestEffortPod, PodRequests1, DefaultSpecs) == 68
    ensures Score(Machine([Pod(BestEffortPod, PodRequests2)]), BestEffortPod, PodRequests1, DefaultSpecs) == 53
  {
    OnePodMachineScore(Pod(BestEffortPod, PodRequests1), 2000, 2 * Gi);
    assert ResourceScore(4000, 2000) == 50 && ResourceScore(16 * Gi, 2 * Gi) == 87;
    OnePodMachineScore(Pod(BestEffortPod, PodRequests2), 3000, 3 * Gi);
    assert ResourceScore(4000, 3000) == 25 && ResourceScore(16 * Gi, 3 * Gi) == 81;
  }

  /**
   * "gt pods will be ignored": the same machines holding Guaranteed pods
   * score as if empty, (75 + 93) / 2 = 84 each.
   */
  lemma OtherTypePodsIgnored()
    ensures Score(Machine([Pod(GuaranteedPod, PodRequests1)]), BestEffortPod, PodRequests1, DefaultSpecs) == 84
    ensures Score(Machine([Pod(GuaranteedPod, PodRequests2)]), BestEffortPod, PodRequests1, DefaultSpecs) == 84
  {
    OnePodMachineScore(Pod(GuaranteedPod, PodRequests1), 1000, Gi);
    OnePodMachineScore(Pod(GuaranteedPod, PodRequests2), 1000, Gi);
    assert ResourceScore(4000, 1000) == 75 && ResourceScore(16 * Gi, Gi) == 93;
  }

  /** Scoring the 1-CPU/1Gi best-effort pod on a machine holding `p`, given the usage that pod leads to. */
  lemma OnePodMachineScore(p: Pod, cpuUsed: nat, memoryUsed: nat)
    requires cpuUsed == 1000 + (if p.resourceType == BestEffortPod then Amount(p.requests, Cpu) else 0)
    requires memoryUsed == Gi + (if p.resourceType == BestEffortPod then Amount(p.requests, Memory) else 0)
    ensures Score(Machine([p]), BestEffortPod, PodRequests1, DefaultSpecs)
         == TruncDiv(ResourceScore(4000, cpuUsed) + ResourceScore(16 * Gi, memoryUsed), 2)
  {
    assert Cpu != Memory by { assert |Cpu| != |Memory|; }
    DefaultSpecsScore([p], BestEffortPod, PodRequests1);
    OnePodUsed(p, BestEffortPod, PodRequests1, Cpu);
    OnePodUsed(p, BestEffortPod, PodRequests1, Memory);
    assert Amount(PodRequests1, Cpu) == 1000 && Amount(PodRequests1, Memory) == Gi;
    assert Used(Machine([p]), BestEffortPod, PodRequests1, Cpu) == cpuUsed;
    assert Used(Machine([p]), BestEffortPod, PodRequests1, Memory) == memoryUsed;
  }
}
