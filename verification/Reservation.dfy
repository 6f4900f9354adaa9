/**
Two-phase borrows: where a mutable loan is still only reserved, because no statement has read its
reference yet (crates/glyim-borrowck/src/twophase.rs).
*/
module Reservation {
  import opened Mir
  import opened Visitor
  import opened Wrappers
  import opened Int64

  /** What the analysis looks at: which statements read the reference, the edges, and the loan. */
  datatype Cfg = Cfg(readsRef: seq<seq<bool>>, next: seq<seq<nat>>, loanBlock: nat, loanStmt: nat)

  ghost predicate Valid(g: Cfg) {
    && |g.next| == |g.readsRef|
    && (forall b, k :: 0 <= b < |g.next| && 0 <= k < |g.next[b]| ==> g.next[b][k] < |g.next|)
    && g.loanBlock < |g.readsRef| && g.loanStmt < |g.readsRef[g.loanBlock]|
  }

  function CfgOf(body: Body, block: nat, stmt: nat, dest: Local): Cfg {
    Cfg(seq(|body.blocks|, b requires 0 <= b < |body.blocks| =>
          seq(|body.blocks[b].statements|, i requires 0 <= i < |body.blocks[b].statements| =>
            StatementReads(body.blocks[b].statements[i], dest))),
        SuccessorLists(body), block, stmt)
  }

  // ----- the algorithm as a step function -----

  /** No statement of block b in [i, j) reads the reference. */
  predicate Clear(g: Cfg, b: nat, i: nat, j: nat)
    requires b < |g.readsRef| && j <= |g.readsRef[b]|
  {
    forall k :: i <= k < j ==> !g.readsRef[b][k]
  }

  /** The points of a block, from `start` on, before the first read; all or none as `current` says. */
  function Bits(g: Cfg, b: nat, start: nat, current: bool): set<nat>
    requires b < |g.readsRef|
  {
    set i: nat | start <= i <= |g.readsRef[b]| && current && Clear(g, b, start, i)
  }

  function ExitBit(g: Cfg, b: nat, start: nat, current: bool): bool
    requires b < |g.readsRef|
  {
    current && Clear(g, b, start, |g.readsRef[b]|)
  }

  datatype State = State(bits: seq<set<nat>>, entry: seq<bool>, exit: seq<bool>, queue: seq<nat>)

  ghost predicate Shaped(g: Cfg, s: State) {
    && Valid(g)
    && |s.bits| == |g.readsRef| && |s.entry| == |g.readsRef| && |s.exit| == |g.readsRef|
    && (forall k :: 0 <= k < |s.queue| ==> s.queue[k] < |g.readsRef|)
    && (forall j, k :: 0 <= j < k < |s.queue| ==> s.queue[j] != s.queue[k])
  }

  predicate SomePredExits(g: Cfg, exit: seq<bool>, b: nat)
    requires |exit| == |g.next|
  {
    exists a :: 0 <= a < |g.next| && b in g.next[a] && exit[a]
  }

  /** Recompute a successor's entry from all its predecessors; queue it if that changed. */
  function Visit(g: Cfg, s: State, b: nat): (r: State)
    requires Shaped(g, s) && b < |g.readsRef|
    ensures Shaped(g, r) && r.bits == s.bits && r.exit == s.exit
  {
    var e := SomePredExits(g, s.exit, b);
    if e == s.entry[b] then s
    else s.(entry := s.entry[b := e], queue := if b in s.queue then s.queue else s.queue + [b])
  }

  ghost function VisitAll(g: Cfg, s: State, blocks: seq<nat>): (r: State)
    requires Shaped(g, s) && forall k :: 0 <= k < |blocks| ==> blocks[k] < |g.readsRef|
    ensures Shaped(g, r) && r.bits == s.bits && r.exit == s.exit
    decreases |blocks|
  {
    if blocks == [] then s else VisitAll(g, Visit(g, s, blocks[0]), blocks[1..])
  }

  ghost function Step(g: Cfg, s: State): (r: State)
    requires Shaped(g, s) && s.queue != []
    ensures Shaped(g, r)
  {
    var b, popped := s.queue[0], s.(queue := s.queue[1..]);
    var bits, exit := Bits(g, b, 0, s.entry[b]), ExitBit(g, b, 0, s.entry[b]);
    if bits == s.bits[b] && exit == s.exit[b] then popped
    else VisitAll(g, popped.(bits := s.bits[b := bits], exit := s.exit[b := exit]), g.next[b])
  }

  /** Queue the given blocks, once each, with their entries set. */
  ghost function Seed(g: Cfg, s: State, blocks: seq<nat>): (r: State)
    requires Shaped(g, s) && forall k :: 0 <= k < |blocks| ==> blocks[k] < |g.readsRef|
    ensures Shaped(g, r)
    decreases |blocks|
  {
    if blocks == [] then s
    else if s.entry[blocks[0]] then Seed(g, s, blocks[1..])
    else
      var queue := if blocks[0] in s.queue then s.queue else s.queue + [blocks[0]];
      Seed(g, s.(entry := s.entry[blocks[0] := true], queue := queue), blocks[1..])
  }

  ghost function Start(g: Cfg): (r: State)
    requires Valid(g)
    ensures Shaped(g, r)
  {
    var n, b, from := |g.readsRef|, g.loanBlock, g.loanStmt + 1;
    var exit := ExitBit(g, b, from, true);
    var s := State(seq(n, _ => {})[b := Bits(g, b, from, true)], seq(n, _ => false), seq(n, _ => false)[b := exit], []);
    if exit then Seed(g, s, g.next[b]) else s
  }

  ghost function Iterate(g: Cfg, s: State, k: nat): (r: State)
    requires Shaped(g, s)
    ensures Shaped(g, r)
    decreases k
  {
    if k == 0 || s.queue == [] then s else Iterate(g, Step(g, s), k - 1)
  }

  // ----- the algorithm as the loops it is -----

  method Transfer(g: Cfg, b: nat, start: nat, initial: bool) returns (bits: set<nat>, exit: bool)
    requires b < |g.readsRef| && start <= |g.readsRef[b]|
    ensures bits == Bits(g, b, start, initial) && exit == ExitBit(g, b, start, initial)
  {
    var n := |g.readsRef[b]|;
    bits := {};
    var current := initial;
    for i := start to n
      invariant current == (initial && Clear(g, b, start, i))
      invariant bits == set j: nat | start <= j < i && initial && Clear(g, b, start, j)
    {
      if current {
        bits := bits + {i};
      }
      if g.readsRef[b][i] {
        current := false;
      }
    }
    if current {
      bits := bits + {n};
    }
    exit := current;
  }

  /**
  Run the analysis for at most `fuel` turns of its loop: the reserved points of every block, or
  None when the worklist is not empty by then.
  */
  method Compute(g: Cfg, predecessors: seq<seq<nat>>, fuel: nat) returns (r: Option<seq<set<nat>>>)
    requires Valid(g) && |predecessors| == |g.next|
    requires forall a, b :: 0 <= a < |g.next| && 0 <= b < |g.next| ==> (a in predecessors[b] <==> b in g.next[a])
    requires forall b, k :: 0 <= b < |g.next| && 0 <= k < |predecessors[b]| ==> predecessors[b][k] < |g.next|
    ensures var s := Iterate(g, Start(g), fuel); r == if s.queue == [] then Some(s.bits) else None
  {
    hide Bits, ExitBit;
    var n, lb := |g.readsRef|, g.loanBlock;
    var bits0, exit0 := Transfer(g, lb, g.loanStmt + 1, true);
    var s := State(seq(n, _ => {})[lb := bits0], seq(n, _ => false), seq(n, _ => false)[lb := exit0], []);
    if exit0 {
      ghost var seeded := s;
      for k := 0 to |g.next[lb]|
        invariant Shaped(g, s)
        invariant Seed(g, seeded, g.next[lb]) == Seed(g, s, g.next[lb][k..])
      {
        var succ := g.next[lb][k];
        assert g.next[lb][k..][0] == succ && g.next[lb][k..][1..] == g.next[lb][k + 1..];
        if !s.entry[succ] {
          s := s.(entry := s.entry[succ := true], queue := if succ in s.queue then s.queue else s.queue + [succ]);
        }
      }
      assert g.next[lb][|g.next[lb]|..] == [];
    }
    for turn := 0 to fuel
      invariant Shaped(g, s) && Iterate(g, Start(g), fuel) == Iterate(g, s, fuel - turn)
    {
      if s.queue == [] {
        return Some(s.bits);
      }
      s := Turn(g, predecessors, s);
    }
    r := if s.queue == [] then Some(s.bits) else None;
  }

  method Turn(g: Cfg, predecessors: seq<seq<nat>>, s: State) returns (r: State)
    requires Shaped(g, s) && s.queue != [] && |predecessors| == |g.next|
    requires forall a, b :: 0 <= a < |g.next| && 0 <= b < |g.next| ==> (a in predecessors[b] <==> b in g.next[a])
    requires forall b, k :: 0 <= b < |g.next| && 0 <= k < |predecessors[b]| ==> predecessors[b][k] < |g.next|
    ensures r == Step(g, s)
  {
    hide Bits, ExitBit;
    var b := s.queue[0];
    var bits, exit := Transfer(g, b, 0, s.entry[b]);
    r := s.(queue := s.queue[1..]);
    if bits != s.bits[b] || exit != s.exit[b] {
      r := r.(bits := s.bits[b := bits], exit := s.exit[b := exit]);
      ghost var first := r;
      for k := 0 to |g.next[b]|
        invariant Shaped(g, r) && VisitAll(g, first, g.next[b]) == VisitAll(g, r, g.next[b][k..])
      {
        var succ := g.next[b][k];
        assert g.next[b][k..][0] == succ && g.next[b][k..][1..] == g.next[b][k + 1..];
        var entry := AnyExits(g, predecessors[succ], succ, r.exit);
        if entry != r.entry[succ] {
          r := r.(entry := r.entry[succ := entry], queue := if succ in r.queue then r.queue else r.queue + [succ]);
        }
      }
      assert g.next[b][|g.next[b]|..] == [];
    }
  }

  method AnyExits(g: Cfg, preds: seq<nat>, succ: nat, exit: seq<bool>) returns (r: bool)
    requires Valid(g) && |exit| == |g.next|
    requires forall k :: 0 <= k < |preds| ==> preds[k] < |exit|
    requires forall a :: 0 <= a < |g.next| ==> (a in preds <==> succ in g.next[a])
    ensures r == SomePredExits(g, exit, succ)
  {
    for k := 0 to |preds|
      invariant forall j :: 0 <= j < k ==> !exit[preds[j]]
    {
      if exit[preds[k]] {
        assert preds[k] in preds;
        return true;
      }
    }
    r := false;
  }

  // ----- the statement about paths -----

  /** Blocks from a successor of the loan's block to the last one, none of them read in before it. */
  ghost predicate ReservedPath(g: Cfg, path: seq<nat>)
    requires Valid(g)
  {
    && path != []
    && var last := path[|path| - 1];
       && last < |g.readsRef|
       && if |path| == 1 then
            last in g.next[g.loanBlock] && Clear(g, g.loanBlock, g.loanStmt + 1, |g.readsRef[g.loanBlock]|)
          else
            var prev := path[|path| - 2];
            ReservedPath(g, path[..|path| - 1]) && last in g.next[prev] && Clear(g, prev, 0, |g.readsRef[prev]|)
  }

  /** Some path from just after the loan reaches the start of b with no statement reading on the way. */
  ghost predicate Reached(g: Cfg, b: nat)
    requires Valid(g)
  {
    exists path :: ReservedPath(g, path) && path[|path| - 1] == b
  }

  /** Some path from just after the loan reaches point (b, i) with no statement reading on the way. */
  ghost predicate Reserved(g: Cfg, b: nat, i: nat)
    requires Valid(g) && b < |g.readsRef|
  {
    && i <= |g.readsRef[b]|
    && ((b == g.loanBlock && g.loanStmt < i && Clear(g, b, g.loanStmt + 1, i)) || (Reached(g, b) && Clear(g, b, 0, i)))
  }

  lemma ReachedNext(g: Cfg, a: nat, b: nat)
    requires Valid(g) && Reached(g, a) && a < |g.readsRef| && b in g.next[a] && Clear(g, a, 0, |g.readsRef[a]|)
    ensures Reached(g, b)
  {
    var path :| ReservedPath(g, path) && path[|path| - 1] == a;
    assert (path + [b])[..|path + [b]| - 1] == path;
    assert ReservedPath(g, path + [b]);
  }

  lemma ReachedFirst(g: Cfg, b: nat)
    requires Valid(g) && b in g.next[g.loanBlock] && Clear(g, g.loanBlock, g.loanStmt + 1, |g.readsRef[g.loanBlock]|)
    ensures Reached(g, b)
  {
    assert ReservedPath(g, [b]);
  }
}
