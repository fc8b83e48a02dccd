/**
 * framework.NodeHashSlice, seen from the outside: a list of NodeInfos in
 * which no two entries share a node name. `Add` refuses a name that is
 * already present and `Del` refuses one that is absent. Its internal index
 * and the order it keeps are not modelled: the contracts speak of which
 * entries are present and how many, never of their positions.
 */
module HashSlice {
  import opened NodeInfos

  /** No node name occurs twice. */
  ghost predicate DistinctNames(s: seq<NodeInfo>) {
    forall i, j :: 0 <= i < j < |s| ==> s[i].name != s[j].name
  }

  /** The node names present in `s`. */
  function Names(s: seq<NodeInfo>): set<string> {
    set e | e in s :: e.name
  }

  /** `s` without the entries named `x`, keeping the others. */
  function Without(s: seq<NodeInfo>, x: string): (r: seq<NodeInfo>)
    ensures forall e :: e in r <==> e in s && e.name != x
  {
    if s == [] then []
    else if s[0].name == x then Without(s[1..], x)
    else [s[0]] + Without(s[1..], x)
  }

  /** The first entry's name does not occur in the rest of a duplicate-free list. */
  lemma HeadNameFresh(s: seq<NodeInfo>)
    requires DistinctNames(s) && s != []
    ensures s[0].name !in Names(s[1..])
  {
  }

  /** Removing a name from a duplicate-free list removes exactly one entry if the name is there. */
  lemma {:induction false} WithoutOne(s: seq<NodeInfo>, x: string)
    requires DistinctNames(s)
    ensures DistinctNames(Without(s, x))
    ensures |Without(s, x)| == if x in Names(s) then |s| - 1 else |s|
  {
    if s != [] {
      assert DistinctNames(s[1..]);
      WithoutOne(s[1..], x);
      assert Names(s) == {s[0].name} + Names(s[1..]);
      HeadNameFresh(s);
      var rest := Without(s[1..], x);
      if s[0].name != x {
        forall i, j | 0 <= i < j < |[s[0]] + rest|
          ensures ([s[0]] + rest)[i].name != ([s[0]] + rest)[j].name
        {
          if i == 0 {
            assert ([s[0]] + rest)[j] in rest;
          }
        }
      }
    }
  }

  /** A duplicate-free list has as many entries as names. */
  lemma {:induction false} NamesCount(s: seq<NodeInfo>)
    requires DistinctNames(s)
    ensures |Names(s)| == |s|
  {
    if s != [] {
      assert DistinctNames(s[1..]);
      NamesCount(s[1..]);
      assert Names(s) == {s[0].name} + Names(s[1..]);
      HeadNameFresh(s);
    }
  }

  class NodeHashSlice {
    var nodes: seq<NodeInfo>

    ghost predicate Valid()
      reads this
    {
      DistinctNames(nodes)
    }

    /** NewNodeHashSlice */
    constructor ()
      ensures Valid() && nodes == []
    {
      nodes := [];
    }

    /** Adds `n` unless an entry with its name is present; `ok` is false on that duplicate. */
    method Add(n: NodeInfo) returns (ok: bool)
      requires Valid()
      modifies this
      ensures Valid()
      ensures ok <==> n.name !in Names(old(nodes))
      ensures ok ==> |nodes| == |old(nodes)| + 1 && forall e :: e in nodes <==> e in old(nodes) || e == n
      ensures !ok ==> nodes == old(nodes)
    {
      ok := n.name !in Names(nodes);
      if ok {
        nodes := nodes + [n];
        forall i, j | 0 <= i < j < |nodes| ensures nodes[i].name != nodes[j].name {
          if j == |nodes| - 1 {
            assert old(nodes)[i] in old(nodes);
          }
        }
      }
    }

    /** Removes the entry named like `n`; `ok` is false when there is none. */
    method Del(n: NodeInfo) returns (ok: bool)
      requires Valid()
      modifies this
      ensures Valid()
      ensures ok <==> n.name in Names(old(nodes))
      ensures ok ==> |nodes| == |old(nodes)| - 1 && forall e :: e in nodes <==> e in old(nodes) && e.name != n.name
      ensures !ok ==> nodes == old(nodes)
    {
      ok := n.name in Names(nodes);
      if ok {
        WithoutOne(nodes, n.name);
        nodes := Without(nodes, n.name);
      }
    }
  }
}
