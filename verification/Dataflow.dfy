/**
Gen/kill dataflow on a graph: what a worklist run keeps, why it ends, and that its result is
exactly what a statement about paths says. Liveness and move analysis are two instances.
*/
module Dataflow {
  type Fact = nat

  /** Facts at a node come from the nodes in `from`; the node adds `gen` and stops `kill`. */
  datatype Problem = Problem(from: seq<seq<nat>>, gen: seq<set<Fact>>, kill: seq<set<Fact>>)

  ghost predicate Valid(p: Problem) {
    && |p.gen| == |p.from| && |p.kill| == |p.from|
    && forall b, k :: 0 <= b < |p.from| && 0 <= k < |p.from[b]| ==> p.from[b][k] < |p.from|
  }

  /** The union of the sets of the listed nodes. */
  function Union(nodes: seq<nat>, sets: seq<set<Fact>>): set<Fact>
    requires forall k :: 0 <= k < |nodes| ==> nodes[k] < |sets|
  {
    if nodes == [] then {} else sets[nodes[0]] + Union(nodes[1..], sets)
  }

  lemma {:induction false} UnionIs(nodes: seq<nat>, sets: seq<set<Fact>>, v: Fact)
    requires forall k :: 0 <= k < |nodes| ==> nodes[k] < |sets|
    ensures v in Union(nodes, sets) <==> exists k :: 0 <= k < |nodes| && v in sets[nodes[k]]
  {
    if nodes != [] {
      UnionIs(nodes[1..], sets, v);
      if v in Union(nodes[1..], sets) {
        var k :| 0 <= k < |nodes[1..]| && v in sets[nodes[1..][k]];
        assert v in sets[nodes[k + 1]];
      }
      if k :| 0 <= k < |nodes| && v in sets[nodes[k]] {
        if k > 0 {
          assert v in sets[nodes[1..][k - 1]];
        }
      }
    }
  }

  /** A node's own transfer. */
  function Transfer(p: Problem, b: nat, entry: set<Fact>): set<Fact>
    requires b < |p.gen| && b < |p.kill|
  {
    p.gen[b] + (entry - p.kill[b])
  }

  // ----- the statement about paths -----

  /** A path against the flow from its first node to one that generates v, with no kill in between. */
  ghost predicate Carries(p: Problem, path: seq<nat>, v: Fact)
    requires Valid(p)
  {
    && path != [] && path[0] < |p.from|
    && if |path| == 1 then v in p.gen[path[0]]
       else path[1] in p.from[path[0]] && v !in p.kill[path[0]] && Carries(p, path[1..], v)
  }

  /** v holds after node b's transfer. */
  ghost predicate Holds(p: Problem, b: nat, v: Fact)
    requires Valid(p)
  {
    exists path :: path != [] && path[0] == b && Carries(p, path, v)
  }

  /** v arrives at node b from some node it depends on. */
  ghost predicate Arrives(p: Problem, b: nat, v: Fact)
    requires Valid(p) && b < |p.from|
  {
    exists k :: 0 <= k < |p.from[b]| && Holds(p, p.from[b][k], v)
  }

  lemma HoldsUnfold(p: Problem, b: nat, v: Fact)
    requires Valid(p) && b < |p.from|
    ensures Holds(p, b, v) <==> v in p.gen[b] || (v !in p.kill[b] && Arrives(p, b, v))
  {
    if v in p.gen[b] {
      assert Carries(p, [b], v);
    } else if v !in p.kill[b] && Arrives(p, b, v) {
      var k :| 0 <= k < |p.from[b]| && Holds(p, p.from[b][k], v);
      var path :| path != [] && path[0] == p.from[b][k] && Carries(p, path, v);
      assert ([b] + path)[1..] == path;
      assert Carries(p, [b] + path, v);
    }
    if Holds(p, b, v) && v !in p.gen[b] {
      var path :| path != [] && path[0] == b && Carries(p, path, v);
      var k :| 0 <= k < |p.from[b]| && p.from[b][k] == path[1];
      assert Holds(p, p.from[b][k], v);
    }
  }

  // ----- solutions of the equations -----

  ghost predicate Solves(p: Problem, entry: seq<set<Fact>>, exit: seq<set<Fact>>)
    requires Valid(p)
  {
    && |entry| == |p.from| && |exit| == |p.from|
    && forall b :: 0 <= b < |p.from| ==> Settled(p, entry, exit, b)
  }

  ghost predicate Settled(p: Problem, entry: seq<set<Fact>>, exit: seq<set<Fact>>, b: nat)
    requires Valid(p) && |entry| == |p.from| && |exit| == |p.from| && b < |p.from|
  {
    entry[b] == Union(p.from[b], exit) && exit[b] == Transfer(p, b, entry[b])
  }

  /** Every solution holds at least what the paths say. */
  lemma {:induction false} PathsInSolution(p: Problem, entry: seq<set<Fact>>, exit: seq<set<Fact>>, path: seq<nat>,
                                           v: Fact)
    requires Valid(p) && Solves(p, entry, exit) && Carries(p, path, v)
    ensures v in exit[path[0]]
    decreases |path|
  {
    var b := path[0];
    assert Settled(p, entry, exit, b);
    if |path| > 1 {
      PathsInSolution(p, entry, exit, path[1..], v);
      UnionIs(p.from[b], exit, v);
    }
  }

  // ----- the worklist -----

  /** `from` turned around: who must be looked at again when a node changes. */
  ghost predicate Dependents(p: Problem, deps: seq<seq<nat>>)
    requires Valid(p)
  {
    && |deps| == |p.from|
    && (forall b, k :: 0 <= b < |deps| && 0 <= k < |deps[b]| ==> deps[b][k] < |deps|)
    && (forall a, b :: 0 <= a < |deps| && 0 <= b < |deps| && b in p.from[a] ==> a in deps[b])
  }

  /** The sets are justified by paths, still below the equations, and settled off the worklist. */
  ghost predicate Inv(p: Problem, entry: seq<set<Fact>>, exit: seq<set<Fact>>, pending: set<nat>)
    requires Valid(p)
  {
    && |entry| == |p.from| && |exit| == |p.from|
    && (forall b, v :: 0 <= b < |p.from| && v in exit[b] ==> Holds(p, b, v))
    && (forall b :: 0 <= b < |p.from| ==> Below(p, entry, exit, b))
    && (forall b :: 0 <= b < |p.from| && b !in pending ==> Settled(p, entry, exit, b))
  }

  ghost predicate Below(p: Problem, entry: seq<set<Fact>>, exit: seq<set<Fact>>, b: nat)
    requires Valid(p) && |entry| == |p.from| && |exit| == |p.from| && b < |p.from|
  {
    entry[b] <= Union(p.from[b], exit) && exit[b] <= Transfer(p, b, Union(p.from[b], exit))
  }

  lemma {:induction false} UnionGrows(nodes: seq<nat>, sets: seq<set<Fact>>, b: nat, bigger: set<Fact>)
    requires b < |sets| && sets[b] <= bigger
    requires forall k :: 0 <= k < |nodes| ==> nodes[k] < |sets|
    ensures Union(nodes, sets) <= Union(nodes, sets[b := bigger])
    ensures b !in nodes ==> Union(nodes, sets) == Union(nodes, sets[b := bigger])
  {
    if nodes != [] {
      UnionGrows(nodes[1..], sets, b, bigger);
    }
  }

  /** Recomputing one pending node keeps the invariant once its dependents are pending again. */
  lemma StepKeepsInv(p: Problem, deps: seq<seq<nat>>, entry: seq<set<Fact>>, exit: seq<set<Fact>>, pending: set<nat>,
                     b: nat, entry': seq<set<Fact>>, exit': seq<set<Fact>>, pending': set<nat>)
    requires Valid(p) && Dependents(p, deps) && Inv(p, entry, exit, pending) && b < |p.from|
    requires var e := Union(p.from[b], exit); entry' == entry[b := e] && exit' == exit[b := Transfer(p, b, e)]
    requires pending - {b} <= pending' && (exit'[b] != exit[b] ==> forall a :: a in deps[b] ==> a in pending')
    ensures Inv(p, entry', exit', pending')
    ensures entry[b] <= entry'[b] && exit[b] <= exit'[b]
  {
    assert Below(p, entry, exit, b);
    forall v | v in exit'[b]
      ensures Holds(p, b, v)
    {
      HoldsUnfold(p, b, v);
      UnionIs(p.from[b], exit, v);
      if v !in p.gen[b] {
        var k :| 0 <= k < |p.from[b]| && v in exit[p.from[b][k]];
        assert Holds(p, p.from[b][k], v);
      }
    }
    forall a | 0 <= a < |p.from|
      ensures Below(p, entry', exit', a)
      ensures a !in pending' ==> Settled(p, entry', exit', a)
    {
      UnionGrows(p.from[a], exit, b, exit'[b]);
      assert Below(p, entry, exit, a);
      if a !in pending' && a != b {
        assert Settled(p, entry, exit, a);
        if exit'[b] == exit[b] {
          assert exit' == exit;
        } else {
          assert b !in p.from[a];
        }
      } else if a !in pending' {
        if exit'[b] == exit[b] {
          assert exit' == exit;
        } else {
          assert b !in p.from[b];
        }
      }
    }
  }

  /** Starting from empty sets with every node pending. */
  lemma StartInv(p: Problem, pending: set<nat>)
    requires Valid(p) && forall b :: 0 <= b < |p.from| ==> b in pending
    ensures Inv(p, seq(|p.from|, _ => {}), seq(|p.from|, _ => {}), pending)
  {
  }

  /** With nothing pending, the sets solve the equations and mean exactly what the paths say. */
  lemma DoneExact(p: Problem, entry: seq<set<Fact>>, exit: seq<set<Fact>>)
    requires Valid(p) && Inv(p, entry, exit, {})
    ensures Solves(p, entry, exit)
    ensures forall b, v :: 0 <= b < |p.from| ==> (v in exit[b] <==> Holds(p, b, v))
    ensures forall b, v :: 0 <= b < |p.from| ==> (v in entry[b] <==> Arrives(p, b, v))
  {
    forall b, v | 0 <= b < |p.from|
      ensures v in exit[b] <==> Holds(p, b, v)
    {
      if Holds(p, b, v) {
        var path :| path != [] && path[0] == b && Carries(p, path, v);
        PathsInSolution(p, entry, exit, path, v);
      }
    }
    forall b, v | 0 <= b < |p.from|
      ensures v in entry[b] <==> Arrives(p, b, v)
    {
      assert Settled(p, entry, exit, b);
      UnionIs(p.from[b], exit, v);
      if v in entry[b] {
        var k :| 0 <= k < |p.from[b]| && v in exit[p.from[b][k]];
        assert Holds(p, p.from[b][k], v);
      }
      if Arrives(p, b, v) {
        var k :| 0 <= k < |p.from[b]| && Holds(p, p.from[b][k], v);
        assert v in exit[p.from[b][k]];
      }
    }
  }

  /** The result is the least solution. */
  lemma DoneLeast(p: Problem, entry: seq<set<Fact>>, exit: seq<set<Fact>>,
                  other: seq<set<Fact>>, other': seq<set<Fact>>)
    requires Valid(p) && Inv(p, entry, exit, {}) && Solves(p, other, other')
    ensures forall b :: 0 <= b < |p.from| ==> exit[b] <= other'[b] && entry[b] <= other[b]
  {
    DoneExact(p, entry, exit);
    forall b, v | 0 <= b < |p.from| && v in exit[b]
      ensures v in other'[b]
    {
      var path :| path != [] && path[0] == b && Carries(p, path, v);
      PathsInSolution(p, other, other', path, v);
    }
    forall b, v | 0 <= b < |p.from| && v in entry[b]
      ensures v in other[b]
    {
      assert Settled(p, entry, exit, b) && Settled(p, other, other', b);
      UnionIs(p.from[b], exit, v);
      UnionIs(p.from[b], other', v);
    }
  }

  // ----- termination: the sets only grow inside a finite universe -----

  function Total(sets: seq<set<Fact>>): nat {
    if sets == [] then 0 else |sets[0]| + Total(sets[1..])
  }

  lemma {:induction false} TotalUpdate(sets: seq<set<Fact>>, b: nat, bigger: set<Fact>)
    requires b < |sets|
    ensures Total(sets[b := bigger]) == Total(sets) - |sets[b]| + |bigger|
  {
    if b == 0 {
      assert sets[0 := bigger][1..] == sets[1..];
    } else {
      assert sets[b := bigger][1..] == sets[1..][b - 1 := bigger];
      TotalUpdate(sets[1..], b - 1, bigger);
    }
  }

  lemma {:induction false} TotalBound(sets: seq<set<Fact>>, universe: set<Fact>)
    requires forall k :: 0 <= k < |sets| ==> sets[k] <= universe
    ensures Total(sets) <= |sets| * |universe|
  {
    if sets != [] {
      SubsetSize(sets[0], universe);
      TotalBound(sets[1..], universe);
    }
  }

  lemma {:induction false} SubsetSize(small: set<Fact>, big: set<Fact>)
    requires small <= big
    ensures |small| <= |big|
    ensures small != big ==> |small| < |big|
  {
    assert big == small + (big - small);
    assert |big| == |small| + |big - small|;
    if small != big {
      assert big - small != {};
    }
  }

  /** Everything any node generates. */
  function Universe(gen: seq<set<Fact>>): set<Fact> {
    if gen == [] then {} else gen[0] + Universe(gen[1..])
  }

  lemma {:induction false} GenInUniverse(gen: seq<set<Fact>>, b: nat)
    requires b < |gen|
    ensures gen[b] <= Universe(gen)
  {
    if b > 0 {
      GenInUniverse(gen[1..], b - 1);
    }
  }

  lemma {:induction false} CarriedInUniverse(p: Problem, path: seq<nat>, v: Fact)
    requires Valid(p) && Carries(p, path, v)
    ensures v in Universe(p.gen)
    decreases |path|
  {
    if |path| == 1 {
      GenInUniverse(p.gen, path[0]);
    } else {
      CarriedInUniverse(p, path[1..], v);
    }
  }

  /** How much the sets can still grow. */
  ghost function Room(p: Problem, entry: seq<set<Fact>>, exit: seq<set<Fact>>): int {
    2 * (|p.from| * |Universe(p.gen)|) - Total(entry) - Total(exit)
  }

  lemma RoomNonNegative(p: Problem, entry: seq<set<Fact>>, exit: seq<set<Fact>>, pending: set<nat>)
    requires Valid(p) && Inv(p, entry, exit, pending)
    ensures Room(p, entry, exit) >= 0
  {
    forall b, v | 0 <= b < |p.from| && v in exit[b]
      ensures v in Universe(p.gen)
    {
      assert Holds(p, b, v);
      var path :| path != [] && path[0] == b && Carries(p, path, v);
      CarriedInUniverse(p, path, v);
    }
    forall b, v | 0 <= b < |p.from| && v in entry[b]
      ensures v in Universe(p.gen)
    {
      assert Below(p, entry, exit, b);
      UnionIs(p.from[b], exit, v);
    }
    TotalBound(entry, Universe(p.gen));
    TotalBound(exit, Universe(p.gen));
  }

  /** A change at b uses up room. */
  lemma RoomShrinks(p: Problem, entry: seq<set<Fact>>, exit: seq<set<Fact>>, b: nat, e: set<Fact>, x: set<Fact>)
    requires b < |entry| && b < |exit| && entry[b] <= e && exit[b] <= x && (entry[b] != e || exit[b] != x)
    ensures Room(p, entry[b := e], exit[b := x]) < Room(p, entry, exit)
  {
    TotalUpdate(entry, b, e);
    TotalUpdate(exit, b, x);
    SubsetSize(entry[b], e);
    SubsetSize(exit[b], x);
  }
}
