/** The stack of blocks still to be looked at, with its membership bit set. */
module Worklist {
  import D = Dataflow

  /** The list holds exactly the pending nodes, each once. */
  ghost predicate Holds(worklist: seq<nat>, pending: set<nat>, n: nat) {
    && (forall i :: 0 <= i < |worklist| ==> worklist[i] < n)
    && (forall i, j :: 0 <= i < j < |worklist| ==> worklist[i] != worklist[j])
    && (forall x :: x in pending <==> x in worklist)
  }

  lemma PopHolds(worklist: seq<nat>, pending: set<nat>, n: nat)
    requires Holds(worklist, pending, n) && worklist != []
    ensures var last := |worklist| - 1;
            worklist[last] < n && worklist[last] in pending && Holds(worklist[..last], pending - {worklist[last]}, n)
  {
    var last := |worklist| - 1;
    assert worklist == worklist[..last] + [worklist[last]];
  }

  method UnionOf(nodes: seq<nat>, sets: seq<set<nat>>) returns (u: set<nat>)
    requires forall k :: 0 <= k < |nodes| ==> nodes[k] < |sets|
    ensures u == D.Union(nodes, sets)
  {
    u := {};
    for k := 0 to |nodes|
      invariant D.Union(nodes, sets) == u + D.Union(nodes[k..], sets)
    {
      assert nodes[k..][0] == nodes[k] && nodes[k..][1..] == nodes[k + 1..];
      u := u + sets[nodes[k]];
    }
  }

  /** Push every node that is not already waiting. */
  method Enqueue(nodes: seq<nat>, worklist: seq<nat>, pending: set<nat>, ghost n: nat)
    returns (list: seq<nat>, waiting: set<nat>)
    requires Holds(worklist, pending, n) && forall k :: 0 <= k < |nodes| ==> nodes[k] < n
    ensures Holds(list, waiting, n)
    ensures forall x :: x in waiting <==> x in pending || x in nodes
  {
    list, waiting := worklist, pending;
    for k := 0 to |nodes|
      invariant Holds(list, waiting, n)
      invariant forall x :: x in waiting <==> x in pending || x in nodes[..k]
    {
      assert nodes[..k + 1] == nodes[..k] + [nodes[k]];
      if nodes[k] !in waiting {
        assert nodes[k] !in list;
        list, waiting := list + [nodes[k]], waiting + {nodes[k]};
      }
    }
    assert nodes[..|nodes|] == nodes;
  }

  /** Every node waits at the start. */
  method AllNodes(n: nat) returns (worklist: seq<nat>, pending: set<nat>)
    ensures Holds(worklist, pending, n)
    ensures forall x: nat :: x < n ==> x in pending
  {
    worklist, pending := [], {};
    for i := 0 to n
      invariant Holds(worklist, pending, n)
      invariant forall x: nat :: x in pending <==> x < i
    {
      worklist, pending := worklist + [i], pending + {i};
    }
  }
}
