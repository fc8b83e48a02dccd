/**
 * Load-aware node scoring, as the worked comments and assertions of
 * pkg/scheduler/framework/plugins/loadaware/load_aware_test.go state it.
 * Per configured resource r:
 *   used_r  = the incoming pod's charged request
 *           + the requests of the node's pods of the same resource type
 *   score_r = ((capacity_r - used_r) * MaxNodeScore) / capacity_r
 * and the node score is sum(weight_r * score_r) / sum(weight_r), both
 * divisions truncating toward zero as Go's integer division does.
 */
module LoadAware {

  const MaxNodeScore: int := 100

  /** The pod resource-type classes; pods of one class are invisible to the other's scoring. */
  datatype PodResourceType = BestEffortPod | GuaranteedPod

  /** A pod already on the node: its class and its requests by resource name. */
  datatype Pod = Pod(resourceType: PodResourceType, requests: map<string, nat>)

  /** One configured resource: its name and its weight in the average. */
  datatype ResourceSpec = ResourceSpec(name: string, weight: nat)

  /** What scoring reads of a node: allocatable amounts by resource name and the assigned pods. */
  datatype NodeState = NodeState(allocatable: map<string, nat>, pods: seq<Pod>)

  /** An amount from a resource list; an absent resource counts as zero. */
  function Amount(list: map<string, nat>, r: string): nat {
    if r in list then list[r] else 0
  }

  /** Requests of `r` summed over the pods of class `t`; pods of the other class add nothing. */
  function AssignedRequest(pods: seq<Pod>, t: PodResourceType, r: string): (total: nat)
    ensures (forall i :: 0 <= i < |pods| ==> pods[i].resourceType != t) ==> total == 0
    ensures forall i :: 0 <= i < |pods| && pods[i].resourceType == t ==> Amount(pods[i].requests, r) <= total
  {
    if pods == [] then 0
    else (if pods[0].resourceType == t then Amount(pods[0].requests, r) else 0)
         + AssignedRequest(pods[1..], t, r)
  }

  /** Usage of `r` seen when scoring a pod of class `t` charged `charged`. */
  function Used(node: NodeState, t: PodResourceType, charged: map<string, nat>, r: string): (u: nat)
    ensures Amount(charged, r) <= u
    ensures (forall i :: 0 <= i < |node.pods| ==> node.pods[i].resourceType != t) ==> u == Amount(charged, r)
    ensures forall i :: 0 <= i < |node.pods| && node.pods[i].resourceType == t ==>
              Amount(charged, r) + Amount(node.pods[i].requests, r) <= u
  {
    Amount(charged, r) + AssignedRequest(node.pods, t, r)
  }

  /** Go's integer division for a positive divisor: the quotient truncated toward zero. */
  function TruncDiv(a: int, b: int): (q: int)
    requires b > 0
    ensures a >= 0 ==> 0 <= q && q * b <= a < (q + 1) * b
    ensures a < 0 ==> q <= 0 && (q - 1) * b < a <= q * b
  {
    if a >= 0 then DivBracket(a, b); a / b else DivBracket(-a, b); -((-a) / b)
  }

  /** Euclidean division of a non-negative dividend brackets it between consecutive multiples. */
  lemma DivBracket(a: int, b: int)
    requires a >= 0 && b > 0
    ensures 0 <= a / b && (a / b) * b <= a < (a / b + 1) * b
    ensures (-(a / b) - 1) * b < -a <= -(a / b) * b
  {
    var q, r := a / b, a % b;
    assert a == q * b + r && 0 <= r < b;
    assert (q + 1) * b == q * b + b;
    assert (-q - 1) * b == -((q + 1) * b);
    assert -q * b == -(q * b);
  }

  /** Truncating division by a positive divisor is monotone in the dividend. */
  lemma TruncDivMonotone(a: int, a': int, b: int)
    requires b > 0 && a <= a'
    ensures TruncDiv(a, b) <= TruncDiv(a', b)
  {
    var q, q' := TruncDiv(a, b), TruncDiv(a', b);
    if q > q' {
      if a >= 0 {
        MulMonotone(q' + 1, q, b);
      } else if a' < 0 {
        MulMonotone(q', q - 1, b);
      }
    }
  }

  lemma MulMonotone(x: int, y: int, b: int)
    requires x <= y && b >= 0
    ensures x * b <= y * b
  {
  }

  /** The score of one resource; at most MaxNodeScore, and MaxNodeScore exactly when nothing is used. */
  function ResourceScore(capacity: int, used: int): (s: int)
    requires capacity > 0
    ensures 0 <= used <= capacity ==> 0 <= s <= MaxNodeScore
    ensures used >= 0 ==> s <= MaxNodeScore && (s == MaxNodeScore <==> used == 0)
  {
    ResourceScoreBounds(capacity, used);
    TruncDiv((capacity - used) * MaxNodeScore, capacity)
  }

  lemma ResourceScoreBounds(capacity: int, used: int)
    requires capacity > 0
    ensures var s := TruncDiv((capacity - used) * MaxNodeScore, capacity);
      && (0 <= used <= capacity ==> 0 <= s <= MaxNodeScore)
      && (used >= 0 ==> s <= MaxNodeScore && (s == MaxNodeScore <==> used == 0))
  {
    var a := (capacity - used) * MaxNodeScore;
    var s := TruncDiv(a, capacity);
    if used >= 0 {
      assert a <= MaxNodeScore * capacity;
      if a >= 0 {
        assert s * capacity <= MaxNodeScore * capacity;
        MulCancel(s, MaxNodeScore, capacity);
        if used == 0 {
          assert MaxNodeScore * capacity < (s + 1) * capacity;
          MulCancel(MaxNodeScore, s + 1, capacity);
        } else {
          assert a < MaxNodeScore * capacity;
        }
      }
    }
  }

  /** Cancelling a positive factor. */
  lemma MulCancel(x: int, y: int, b: int)
    requires b > 0
    ensures x * b <= y * b ==> x <= y
    ensures x * b < y * b ==> x < y
  {
  }

  /** More usage never raises a resource's score. */
  lemma ResourceScoreMonotone(capacity: int, used: int, used': int)
    requires capacity > 0 && used <= used'
    ensures ResourceScore(capacity, used') <= ResourceScore(capacity, used)
  {
    TruncDivMonotone((capacity - used') * MaxNodeScore, (capacity - used) * MaxNodeScore, capacity);
  }

  function Capacity(node: NodeState, r: string): nat {
    Amount(node.allocatable, r)
  }

  function TotalWeight(specs: seq<ResourceSpec>): nat {
    if specs == [] then 0 else specs[0].weight + TotalWeight(specs[1..])
  }

  /** Every configured resource has a positive allocatable amount on the node. */
  predicate HasCapacity(node: NodeState, specs: seq<ResourceSpec>) {
    forall i :: 0 <= i < |specs| ==> Capacity(node, specs[i].name) > 0
  }

  /** Every configured resource fits: usage does not exceed capacity. */
  predicate Fits(node: NodeState, t: PodResourceType, charged: map<string, nat>, specs: seq<ResourceSpec>) {
    forall i :: 0 <= i < |specs| ==> Used(node, t, charged, specs[i].name) <= Capacity(node, specs[i].name)
  }

  /** Nothing of any configured resource is in use. */
  predicate Unused(node: NodeState, t: PodResourceType, charged: map<string, nat>, specs: seq<ResourceSpec>) {
    forall i :: 0 <= i < |specs| ==> Used(node, t, charged, specs[i].name) == 0
  }

  /**
   * The weighted sum of the resource scores: never above MaxNodeScore times
   * the total weight, and equal to it when nothing is in use.
   */
  function WeightedSum(node: NodeState, t: PodResourceType, charged: map<string, nat>, specs: seq<ResourceSpec>): (sum: int)
    requires HasCapacity(node, specs)
    ensures sum <= MaxNodeScore * TotalWeight(specs)
    ensures Unused(node, t, charged, specs) ==> sum == MaxNodeScore * TotalWeight(specs)
  {
    if specs == [] then 0
    else
      var s := ResourceScore(Capacity(node, specs[0].name), Used(node, t, charged, specs[0].name));
      MulMonotone(s, MaxNodeScore, specs[0].weight);
      specs[0].weight * s + WeightedSum(node, t, charged, specs[1..])
  }

  /**
   * The node's score for a pod of class `t` whose requests are charged as
   * `charged`: never above MaxNodeScore, and MaxNodeScore when nothing of
   * any configured resource is in use.
   */
  function Score(node: NodeState, t: PodResourceType, charged: map<string, nat>, specs: seq<ResourceSpec>): (score: int)
    requires HasCapacity(node, specs) && TotalWeight(specs) > 0
    ensures score <= MaxNodeScore
    ensures Unused(node, t, charged, specs) ==> score == MaxNodeScore
  {
    TruncDivAtMost(WeightedSum(node, t, charged, specs), MaxNodeScore, TotalWeight(specs));
    TruncDivExact(MaxNodeScore, TotalWeight(specs));
    TruncDiv(WeightedSum(node, t, charged, specs), TotalWeight(specs))
  }

  /** A dividend at most k times the divisor has a truncated quotient at most k. */
  lemma TruncDivAtMost(a: int, k: int, b: int)
    requires b > 0 && a <= k * b
    ensures TruncDiv(a, b) <= k
  {
    var q := TruncDiv(a, b);
    if a >= 0 {
      MulCancel(q, k, b);
    } else {
      MulCancel(q - 1, k, b);
    }
  }

  /** An exact multiple divides back to its factor. */
  lemma TruncDivExact(k: int, b: int)
    requires k >= 0 && b > 0
    ensures TruncDiv(k * b, b) == k
  {
    MulMonotone(0, k, b);
    var q := TruncDiv(k * b, b);
    MulCancel(q, k, b);
    MulCancel(k, q + 1, b);
  }

  // ---------------------------------------------------------------------
  // Properties

  /** When everything fits, the weighted sum lies between 0 and MaxNodeScore times the total weight. */
  lemma {:induction false} WeightedSumInRange(node: NodeState, t: PodResourceType, charged: map<string, nat>, specs: seq<ResourceSpec>)
    requires HasCapacity(node, specs) && Fits(node, t, charged, specs)
    ensures 0 <= WeightedSum(node, t, charged, specs) <= MaxNodeScore * TotalWeight(specs)
  {
    if specs != [] {
      WeightedSumInRange(node, t, charged, specs[1..]);
      var s := ResourceScore(Capacity(node, specs[0].name), Used(node, t, charged, specs[0].name));
      MulMonotone(0, s, specs[0].weight);
      MulMonotone(s, MaxNodeScore, specs[0].weight);
    }
  }

  /** Scores lie on the 0..MaxNodeScore scale when every configured resource fits. */
  lemma ScoreInRange(node: NodeState, t: PodResourceType, charged: map<string, nat>, specs: seq<ResourceSpec>)
    requires HasCapacity(node, specs) && TotalWeight(specs) > 0 && Fits(node, t, charged, specs)
    ensures 0 <= Score(node, t, charged, specs) <= MaxNodeScore
  {
    WeightedSumInRange(node, t, charged, specs);
    var w := TotalWeight(specs);
    var q := Score(node, t, charged, specs);
    if q > MaxNodeScore {
      MulMonotone(MaxNodeScore + 1, q, w);
    }
  }

  /** Two nodes with the same allocatable amounts, the second at least as used on every resource. */
  predicate MoreLoaded(a: NodeState, b: NodeState, t: PodResourceType, charged: map<string, nat>, specs: seq<ResourceSpec>) {
    a.allocatable == b.allocatable
    && forall i :: 0 <= i < |specs| ==> Used(a, t, charged, specs[i].name) <= Used(b, t, charged, specs[i].name)
  }

  lemma {:induction false} WeightedSumMonotone(a: NodeState, b: NodeState, t: PodResourceType, charged: map<string, nat>, specs: seq<ResourceSpec>)
    requires HasCapacity(a, specs) && MoreLoaded(a, b, t, charged, specs)
    ensures HasCapacity(b, specs)
    ensures WeightedSum(b, t, charged, specs) <= WeightedSum(a, t, charged, specs)
  {
    if specs != [] {
      var rest := specs[1..];
      assert HasCapacity(a, rest) && MoreLoaded(a, b, t, charged, rest) by {
        forall i | 0 <= i < |rest| ensures rest[i] == specs[i + 1] { }
      }
      WeightedSumMonotone(a, b, t, charged, rest);
      var r, w := specs[0].name, specs[0].weight;
      var sa := ResourceScore(Capacity(a, r), Used(a, t, charged, r));
      var sb := ResourceScore(Capacity(b, r), Used(b, t, charged, r));
      ResourceScoreMonotone(Capacity(a, r), Used(a, t, charged, r), Used(b, t, charged, r));
      MulMonotone(sb, sa, w);
      assert WeightedSum(a, t, charged, specs) == w * sa + WeightedSum(a, t, charged, rest);
      assert WeightedSum(b, t, charged, specs) == w * sb + WeightedSum(b, t, charged, rest);
    }
  }

  /** A more-loaded node never scores higher than an otherwise identical less-loaded one. */
  lemma MoreLoadedScoresNoHigher(a: NodeState, b: NodeState, t: PodResourceType, charged: map<string, nat>, specs: seq<ResourceSpec>)
    requires HasCapacity(a, specs) && TotalWeight(specs) > 0 && MoreLoaded(a, b, t, charged, specs)
    ensures HasCapacity(b, specs)
    ensures Score(b, t, charged, specs) <= Score(a, t, charged, specs)
  {
    WeightedSumMonotone(a, b, t, charged, specs);
    TruncDivMonotone(WeightedSum(b, t, charged, specs), WeightedSum(a, t, charged, specs), TotalWeight(specs));
  }

  /** A pod appended to the node adds its requests only when it is of the class being scored. */
  lemma {:induction false} AssignedRequestAppend(pods: seq<Pod>, p: Pod, t: PodResourceType, r: string)
    ensures AssignedRequest(pods + [p], t, r)
         == AssignedRequest(pods, t, r) + (if p.resourceType == t then Amount(p.requests, r) else 0)
  {
    if pods != [] {
      assert (pods + [p])[1..] == pods[1..] + [p];
      AssignedRequestAppend(pods[1..], p, t, r);
    }
  }

  /** Weighted sums agree on nodes whose capacity and usage agree on every configured resource. */
  lemma {:induction false} WeightedSumDependsOnUsage(a: NodeState, b: NodeState, t: PodResourceType, charged: map<string, nat>, specs: seq<ResourceSpec>)
    requires HasCapacity(a, specs) && a.allocatable == b.allocatable
    requires forall i :: 0 <= i < |specs| ==> Used(a, t, charged, specs[i].name) == Used(b, t, charged, specs[i].name)
    ensures HasCapacity(b, specs)
    ensures WeightedSum(a, t, charged, specs) == WeightedSum(b, t, charged, specs)
  {
    if specs != [] {
      WeightedSumDependsOnUsage(a, b, t, charged, specs[1..]);
    }
  }

  /** A pod of the other resource type placed on the node leaves the score unchanged. */
  lemma OtherTypePodIgnored(node: NodeState, p: Pod, t: PodResourceType, charged: map<string, nat>, specs: seq<ResourceSpec>)
    requires HasCapacity(node, specs) && TotalWeight(specs) > 0 && p.resourceType != t
    ensures HasCapacity(NodeState(node.allocatable, node.pods + [p]), specs)
    ensures Score(NodeState(node.allocatable, node.pods + [p]), t, charged, specs) == Score(node, t, charged, specs)
  {
    var node' := NodeState(node.allocatable, node.pods + [p]);
    forall i | 0 <= i < |specs| ensures Used(node, t, charged, specs[i].name) == Used(node', t, charged, specs[i].name) {
      AssignedRequestAppend(node.pods, p, t, specs[i].name);
    }
    WeightedSumDependsOnUsage(node, node', t, charged, specs);
  }

  /** A pod of the same resource type placed on the node never raises the score. */
  lemma SameTypePodNeverRaisesScore(node: NodeState, p: Pod, t: PodResourceType, charged: map<string, nat>, specs: seq<ResourceSpec>)
    requires HasCapacity(node, specs) && TotalWeight(specs) > 0 && p.resourceType == t
    ensures HasCapacity(NodeState(node.allocatable, node.pods + [p]), specs)
    ensures Score(NodeState(node.allocatable, node.pods + [p]), t, charged, specs) <= Score(node, t, charged, specs)
  {
    var node' := NodeState(node.allocatable, node.pods + [p]);
    forall i | 0 <= i < |specs| ensures Used(node, t, charged, specs[i].name) <= Used(node', t, charged, specs[i].name) {
      AssignedRequestAppend(node.pods, p, t, specs[i].name);
    }
    MoreLoadedScoresNoHigher(node, node', t, charged, specs);
  }
}
