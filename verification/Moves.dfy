/**
Move analysis: which paths have been moved out of, or lost their storage, at each point
(crates/glyim-borrowck/src/move_analysis.rs).
*/
module Moves {
  import opened Mir
  import opened Visitor
  import opened Worklist
  import opened Wrappers
  import opened Int64
  import D = Dataflow

  // ----- move paths: each local, and each field of a struct, tuple or array local -----

  datatype MovePath = MovePath(place: Place, children: seq<nat>)

  datatype Arena = Arena(paths: seq<MovePath>, roots: seq<nat>)

  function FieldPlace(l: nat, f: nat): Place
    requires l < 0x1_0000_0000
  {
    Place(l as Local, [Field(f)])
  }

  /** Local l has a root path, and one child path for each of its fields, in order. */
  ghost predicate Rooted(a: Arena, l: nat, fields: nat)
    requires l < 0x1_0000_0000
  {
    && l < |a.roots| && a.roots[l] < |a.paths|
    && var root := a.paths[a.roots[l]];
       && root.place == Place(l as Local, [])
       && |root.children| == fields
       && forall f :: 0 <= f < fields ==>
          root.children[f] < |a.paths| && a.paths[root.children[f]] == MovePath(FieldPlace(l, f), [])
  }

  function FieldCount(count: Option<nat>): nat {
    if count.Some? then count.value else 0
  }

  /** Exactly the paths of the given locals, no place twice. */
  ghost predicate Tracks(a: Arena, counts: seq<Option<nat>>) {
    && |counts| <= 0x1_0000_0000 && |a.roots| == |counts|
    && (forall l :: 0 <= l < |counts| ==> Rooted(a, l, FieldCount(counts[l])))
    && (forall i, j :: 0 <= i < j < |a.paths| ==> a.paths[i].place != a.paths[j].place)
    && (forall i :: 0 <= i < |a.paths| ==> a.paths[i].place.local as nat < |counts|)
  }

  method BuildMovePaths(counts: seq<Option<nat>>) returns (a: Arena)
    requires |counts| <= 0x1_0000_0000
    ensures Tracks(a, counts)
  {
    hide Rooted;
    a := Arena([], []);
    for l := 0 to |counts|
      invariant Tracks(a, counts[..l])
    {
      ghost var before := a;
      a := AddLocal(a, l, FieldCount(counts[l]));
      Extended(before, a, counts, l);
    }
    assert counts[..|counts|] == counts;
  }

  /** Add the root of a local and its fields one by one. */
  method AddLocal(before: Arena, l: nat, fields: nat) returns (a: Arena)
    requires l < 0x1_0000_0000 && l == |before.roots|
    ensures |a.paths| == |before.paths| + 1 + fields && a.paths[..|before.paths|] == before.paths
    ensures a.roots == before.roots + [|before.paths|] && Rooted(a, l, fields)
    ensures forall k :: |before.paths| < k < |a.paths| ==> a.paths[k].place == FieldPlace(l, k - |before.paths| - 1)
  {
    var root := |before.paths|;
    var children: seq<nat>, made: seq<MovePath> := [], [];
    for f := 0 to fields
      invariant |children| == f && |made| == f
      invariant forall k :: 0 <= k < f ==> children[k] == root + 1 + k && made[k] == MovePath(FieldPlace(l, k), [])
    {
      children := children + [root + 1 + |made|];
      made := made + [MovePath(FieldPlace(l, f), [])];
    }
    var head := [MovePath(Place(l as Local, []), children)];
    a := Arena(before.paths + head + made, before.roots + [root]);
    assert forall k :: 0 <= k < |made| ==> a.paths[root + 1 + k] == made[k];
    assert a.paths[root] == head[0];
    forall k | root < k < |a.paths|
      ensures a.paths[k].place == FieldPlace(l, k - root - 1)
    {
      assert a.paths[k] == made[k - root - 1];
    }
  }

  lemma Extended(before: Arena, a: Arena, counts: seq<Option<nat>>, l: nat)
    requires l < |counts| <= 0x1_0000_0000 && Tracks(before, counts[..l])
    requires |before.paths| < |a.paths| && a.paths[..|before.paths|] == before.paths
    requires a.roots == before.roots + [|before.paths|] && Rooted(a, l, FieldCount(counts[l]))
    requires forall k :: |before.paths| < k < |a.paths| ==> a.paths[k].place == FieldPlace(l, k - |before.paths| - 1)
    ensures Tracks(a, counts[..l + 1])
  {
    var to := counts[..l + 1];
    assert forall i :: 0 <= i < |before.paths| ==> a.paths[i] == before.paths[i] by {
      assert forall i :: 0 <= i < |before.paths| ==> a.paths[..|before.paths|][i] == a.paths[i];
    }
    forall x | 0 <= x < |to|
      ensures Rooted(a, x, FieldCount(to[x]))
    {
      if x < l {
        assert Rooted(before, x, FieldCount(counts[..l][x]));
      }
    }
    forall i | 0 <= i < |a.paths|
      ensures a.paths[i].place.local as nat < |to|
      ensures i >= |before.paths| ==> a.paths[i].place.local as nat == l
    {
      if i < |before.paths| {
        assert a.paths[i] == before.paths[i];
      }
    }
    forall i, j | 0 <= i < j < |a.paths|
      ensures a.paths[i].place != a.paths[j].place
    {
      if j < |before.paths| {
        assert a.paths[i] == before.paths[i] && a.paths[j] == before.paths[j];
      } else if i < |before.paths| {
        assert a.paths[i] == before.paths[i];
      }
    }
  }

  /** The child standing for field f, if there is one. */
  function ChildFor(a: Arena, at: nat, f: nat): Option<nat> {
    if at < |a.paths| then SearchField(a, a.paths[at].children, f) else None
  }

  function SearchField(a: Arena, children: seq<nat>, f: nat): (r: Option<nat>)
    ensures r.Some? ==> r.value < |a.paths|
  {
    if children == [] then None
    else if children[0] < |a.paths| && IsField(a.paths[children[0]].place, f) then Some(children[0])
    else SearchField(a, children[1..], f)
  }

  predicate IsField(p: Place, f: nat) {
    p.projection != [] && p.projection[|p.projection| - 1] == Field(f)
  }

  /** These projections make the lookup add a path of its own; bodies with them are not modelled. */
  predicate GrowsPaths(x: ProjectionElem) {
    x.Downcast? || (x.ConstantIndex? && !x.fromEnd)
  }

  predicate Fixed(p: Place) {
    forall k :: 0 <= k < |p.projection| ==> !GrowsPaths(p.projection[k])
  }

  function Walk(a: Arena, at: nat, proj: seq<ProjectionElem>): nat
    decreases |proj|
  {
    if proj == [] then at
    else if proj[0].Index? then Walk(a, at, proj[1..])
    else if proj[0].Field? then
      var child := ChildFor(a, at, proj[0].field);
      if child.Some? then Walk(a, child.value, proj[1..]) else at
    else at
  }

  /** The tracked path a place belongs to. */
  function Find(a: Arena, p: Place): Option<nat> {
    if p.local as nat < |a.roots| then Some(Walk(a, a.roots[p.local], p.projection)) else None
  }

  method FindChild(a: Arena, at: nat, f: nat) returns (r: Option<nat>)
    requires at < |a.paths|
    ensures r == ChildFor(a, at, f)
  {
    var children := a.paths[at].children;
    for k := 0 to |children|
      invariant SearchField(a, children, f) == SearchField(a, children[k..], f)
    {
      assert children[k..][0] == children[k] && children[k..][1..] == children[k + 1..];
      if children[k] < |a.paths| && IsField(a.paths[children[k]].place, f) {
        return Some(children[k]);
      }
    }
    r := None;
  }

  method RunFind(a: Arena, p: Place) returns (r: Option<nat>)
    requires Fixed(p) && forall l :: 0 <= l < |a.roots| ==> a.roots[l] < |a.paths|
    ensures r == Find(a, p)
  {
    if p.local as nat >= |a.roots| {
      return None;
    }
    var at: nat := a.roots[p.local];
    for k := 0 to |p.projection|
      invariant at < |a.paths| && Find(a, p) == Some(Walk(a, at, p.projection[k..]))
    {
      var x := p.projection[k];
      assert p.projection[k..][0] == x && p.projection[k..][1..] == p.projection[k + 1..];
      if x.Field? {
        var child := FindChild(a, at, x.field);
        if child.None? {
          return Some(at);
        }
        at := child.value;
      } else if !x.Index? {
        return Some(at);
      }
    }
    r := Some(at);
  }

  /** What a place is tracked as: its first field when that is a path of its own, otherwise its local. */
  function Tracked(l: Local, fields: nat, proj: seq<ProjectionElem>): Place
    decreases |proj|
  {
    if proj == [] then Place(l, [])
    else if proj[0].Index? then Tracked(l, fields, proj[1..])
    else if proj[0].Field? && proj[0].field < fields then FieldPlace(l as nat, proj[0].field)
    else Place(l, [])
  }

  lemma {:induction false} SearchRoot(a: Arena, l: nat, fields: nat, k: nat, f: nat)
    requires l < 0x1_0000_0000 && Rooted(a, l, fields) && k <= fields && (f < fields ==> k <= f)
    ensures var children := a.paths[a.roots[l]].children;
            SearchField(a, children[k..], f) == if f < fields then Some(children[f]) else None
    decreases fields - k
  {
    var children := a.paths[a.roots[l]].children;
    if k < fields {
      assert children[k..][0] == children[k] && children[k..][1..] == children[k + 1..];
      assert a.paths[children[k]].place == FieldPlace(l, k);
      if k != f {
        SearchRoot(a, l, fields, k + 1, f);
      }
    }
  }

  lemma {:induction false} WalkStays(a: Arena, at: nat, proj: seq<ProjectionElem>)
    requires at < |a.paths| && a.paths[at].children == []
    ensures Walk(a, at, proj) == at
    decreases |proj|
  {
    if proj != [] && proj[0].Index? {
      WalkStays(a, at, proj[1..]);
    }
  }

  lemma {:induction false} WalkFromRoot(a: Arena, l: nat, fields: nat, proj: seq<ProjectionElem>)
    requires l < 0x1_0000_0000 && Rooted(a, l, fields)
    ensures var r := Walk(a, a.roots[l], proj); r < |a.paths| && a.paths[r].place == Tracked(l as Local, fields, proj)
    decreases |proj|
  {
    if proj != [] {
      if proj[0].Index? {
        WalkFromRoot(a, l, fields, proj[1..]);
      } else if proj[0].Field? {
        var root := a.paths[a.roots[l]];
        SearchRoot(a, l, fields, 0, proj[0].field);
        assert root.children[0..] == root.children;
        if proj[0].field < fields {
          var child := root.children[proj[0].field];
          assert a.paths[child] == MovePath(FieldPlace(l, proj[0].field), []);
          WalkStays(a, child, proj[1..]);
        }
      }
    }
  }

  /** Lookup finds the path of the longest tracked prefix, for every declared local and no other. */
  lemma FindMeans(a: Arena, counts: seq<Option<nat>>, p: Place)
    requires Tracks(a, counts) && Fixed(p)
    ensures Find(a, p).Some? <==> p.local as nat < |counts|
    ensures Find(a, p).Some? ==>
              && Find(a, p).value < |a.paths|
              && a.paths[Find(a, p).value].place == Tracked(p.local, FieldCount(counts[p.local]), p.projection)
  {
    if p.local as nat < |counts| {
      assert Rooted(a, p.local as nat, FieldCount(counts[p.local]));
      WalkFromRoot(a, p.local as nat, FieldCount(counts[p.local]), p.projection);
    }
  }

  // ----- what a statement does to the two sets -----

  /** Moving out of places of some types copies instead; `copies` stands for that question to the type checker. */
  datatype Ctx = Ctx(arena: Arena, copies: Place -> bool)

  /** A path and its children. */
  function WithChildren(a: Arena, at: nat): set<nat> {
    {at} + if at < |a.paths| then set c | c in a.paths[at].children else {}
  }

  function Group(a: Arena, p: Place): set<nat> {
    var at := Find(a, p);
    if at.Some? then WithChildren(a, at.value) else {}
  }

  function RvalueOperands(r: Rvalue): seq<Operand> {
    match r
    case Use(o) => [o]
    case Ref(_, _) => []
    case BinaryOp(_, a, b) => [a, b]
    case UnaryOp(_, o) => [o]
    case Aggregate(os) => os
    case Discriminant(_) => []
    case Len(_) => []
    case Cast(o) => [o]
    case Repeat(o) => [o]
  }

  function OperandMoves(c: Ctx, os: seq<Operand>): set<nat> {
    if os == [] then {}
    else (if os[0].Move? && !c.copies(os[0].place) then Group(c.arena, os[0].place) else {}) + OperandMoves(c, os[1..])
  }

  /** The two problems run side by side: values moved out, and storage that has ended. */
  datatype Which = Moved | Dead

  function Gen(c: Ctx, w: Which, s: Statement): set<nat> {
    match s
    case Assign(_, r) => if w.Moved? then OperandMoves(c, RvalueOperands(r)) else {}
    case StorageLive(_) => {}
    case StorageDead(l) => Group(c.arena, Place(l, []))
    case Nop => {}
  }

  function Inits(c: Ctx, s: Statement): set<nat> {
    match s
    case Assign(p, _) => Group(c.arena, p)
    case StorageLive(l) => Group(c.arena, Place(l, []))
    case StorageDead(_) => {}
    case Nop => {}
  }

  function CallInits(c: Ctx, t: Terminator): set<nat> {
    if t.Call? then Group(c.arena, t.destination) else {}
  }

  /** The statement's own effect: an assignment gives its destination a value before its operands are moved out. */
  function Apply(c: Ctx, w: Which, s: Statement, before: set<nat>): set<nat> {
    (before - Inits(c, s)) + Gen(c, w, s)
  }

  function Scan(c: Ctx, w: Which, ss: seq<Statement>, before: set<nat>): set<nat>
    decreases |ss|
  {
    if ss == [] then before else Apply(c, w, ss[|ss| - 1], Scan(c, w, ss[..|ss| - 1], before))
  }

  function AllGen(c: Ctx, w: Which, ss: seq<Statement>): set<nat>
    decreases |ss|
  {
    if ss == [] then {} else AllGen(c, w, ss[..|ss| - 1]) + Gen(c, w, ss[|ss| - 1])
  }

  function AllInits(c: Ctx, ss: seq<Statement>): set<nat>
    decreases |ss|
  {
    if ss == [] then {} else AllInits(c, ss[..|ss| - 1]) + Inits(c, ss[|ss| - 1])
  }

  function BlockInits(c: Ctx, bb: BasicBlock): set<nat> {
    AllInits(c, bb.statements) + CallInits(c, bb.terminator)
  }

  /** The gen/kill problem: facts flow from the predecessors, storage ends never into the entry block. */
  function MoveProblem(body: Body, c: Ctx, w: Which, preds: seq<seq<nat>>): D.Problem
    requires |preds| == |body.blocks|
  {
    var n := |body.blocks|;
    D.Problem(seq(n, b requires 0 <= b < n => if w.Dead? && b == 0 then [] else preds[b]),
              seq(n, b requires 0 <= b < n => AllGen(c, w, body.blocks[b].statements) - BlockInits(c, body.blocks[b])),
              seq(n, b requires 0 <= b < n => BlockInits(c, body.blocks[b])))
  }

  // ----- what the sets mean -----

  /** Generated by one of the first i statements and not initialised by a later one of them. */
  ghost predicate SetLast(c: Ctx, w: Which, ss: seq<Statement>, i: nat, v: nat)
    requires i <= |ss|
  {
    exists j :: 0 <= j < i && v in Gen(c, w, ss[j]) && NoInit(c, ss, j + 1, i, v)
  }

  ghost predicate NoInit(c: Ctx, ss: seq<Statement>, from: nat, to: nat, v: nat)
    requires to <= |ss|
  {
    forall k :: from <= k < to ==> v !in Inits(c, ss[k])
  }

  ghost predicate SomeGen(c: Ctx, w: Which, ss: seq<Statement>, v: nat) {
    exists j :: 0 <= j < |ss| && v in Gen(c, w, ss[j])
  }

  lemma {:induction false} ScanExact(c: Ctx, w: Which, ss: seq<Statement>, i: nat, before: set<nat>, v: nat)
    requires i <= |ss|
    ensures v in Scan(c, w, ss[..i], before) <==> SetLast(c, w, ss, i, v) || (v in before && NoInit(c, ss, 0, i, v))
  {
    hide Gen, Inits;
    if i > 0 {
      assert ss[..i][i - 1] == ss[i - 1] && ss[..i][..i - 1] == ss[..i - 1];
      ScanExact(c, w, ss, i - 1, before, v);
      if v in Gen(c, w, ss[i - 1]) {
        assert NoInit(c, ss, i, i, v);
      }
      if SetLast(c, w, ss, i - 1, v) && v !in Inits(c, ss[i - 1]) {
        var j :| 0 <= j < i - 1 && v in Gen(c, w, ss[j]) && NoInit(c, ss, j + 1, i - 1, v);
        assert NoInit(c, ss, j + 1, i, v);
      }
      if SetLast(c, w, ss, i, v) && v !in Gen(c, w, ss[i - 1]) {
        var j :| 0 <= j < i && v in Gen(c, w, ss[j]) && NoInit(c, ss, j + 1, i, v);
        assert j < i - 1 && NoInit(c, ss, j + 1, i - 1, v);
      }
    }
  }

  lemma {:induction false} TotalsExact(c: Ctx, w: Which, ss: seq<Statement>, i: nat, v: nat)
    requires i <= |ss|
    ensures v in AllGen(c, w, ss[..i]) <==> exists j :: 0 <= j < i && v in Gen(c, w, ss[j])
    ensures v in AllInits(c, ss[..i]) <==> !NoInit(c, ss, 0, i, v)
  {
    hide Gen, Inits;
    if i > 0 {
      assert ss[..i][i - 1] == ss[i - 1] && ss[..i][..i - 1] == ss[..i - 1];
      TotalsExact(c, w, ss, i - 1, v);
    }
  }

  // ----- block summaries against the statements -----

  /** What the block's statements and then its call really do to the set. */
  function ThroughBlock(c: Ctx, w: Which, bb: BasicBlock, before: set<nat>): set<nat> {
    Scan(c, w, bb.statements, before) - CallInits(c, bb.terminator)
  }

  /** What the dataflow takes the block to do. */
  function BySummary(c: Ctx, w: Which, bb: BasicBlock, before: set<nat>): set<nat> {
    (before + AllGen(c, w, bb.statements)) - BlockInits(c, bb)
  }

  /** Initialised in the block, and moved out again by the time it ends. */
  ghost predicate MovedAfterInit(c: Ctx, w: Which, bb: BasicBlock, v: nat) {
    var ss := bb.statements;
    !NoInit(c, ss, 0, |ss|, v) && SetLast(c, w, ss, |ss|, v) && v !in CallInits(c, bb.terminator)
  }

  /**
  A summary forgets the order of the statements: it agrees with them on every path that is not both
  initialised and last moved in the block, and misses exactly those that are.
  */
  lemma SummaryVersusStatements(c: Ctx, w: Which, bb: BasicBlock, before: set<nat>, v: nat)
    ensures v in BySummary(c, w, bb, before) ==> v in ThroughBlock(c, w, bb, before)
    ensures v in ThroughBlock(c, w, bb, before) && v !in BySummary(c, w, bb, before) <==> MovedAfterInit(c, w, bb, v)
  {
    hide Gen, Inits, CallInits;
    var ss := bb.statements;
    assert ss[..|ss|] == ss;
    ScanExact(c, w, ss, |ss|, before, v);
    TotalsExact(c, w, ss, |ss|, v);
    if (exists j :: 0 <= j < |ss| && v in Gen(c, w, ss[j])) && NoInit(c, ss, 0, |ss|, v) {
      var j :| 0 <= j < |ss| && v in Gen(c, w, ss[j]);
      assert NoInit(c, ss, j + 1, |ss|, v);
    }
  }

  /** In particular the two are one transformer when no path is both initialised and generated in the block. */
  lemma DisjointSummaryExact(c: Ctx, w: Which, bb: BasicBlock, before: set<nat>)
    requires AllGen(c, w, bb.statements) !! AllInits(c, bb.statements)
    ensures BySummary(c, w, bb, before) == ThroughBlock(c, w, bb, before)
  {
    hide Gen, Inits, CallInits, Scan, BySummary, ThroughBlock;
    var ss := bb.statements;
    assert ss[..|ss|] == ss;
    forall v: nat
      ensures v in BySummary(c, w, bb, before) <==> v in ThroughBlock(c, w, bb, before)
    {
      SummaryVersusStatements(c, w, bb, before, v);
      TotalsExact(c, w, ss, |ss|, v);
    }
  }

  // ----- paths through the control-flow graph -----

  ghost predicate Initialises(c: Ctx, bb: BasicBlock, v: nat) {
    !NoInit(c, bb.statements, 0, |bb.statements|, v) || v in CallInits(c, bb.terminator)
  }

  /** Blocks ..., path[1], path[0] follow branches from one that moves v; no block on the way initialises it. */
  ghost predicate Flows(body: Body, c: Ctx, w: Which, path: seq<nat>, v: nat) {
    && path != [] && path[0] < |body.blocks| && !Initialises(c, body.blocks[path[0]], v)
    && if |path| == 1 then SomeGen(c, w, body.blocks[path[0]].statements, v)
       else
         && path[1] < |body.blocks| && path[0] in Successors(body.blocks[path[1]].terminator)
         && !(w.Dead? && path[0] == 0)
         && Flows(body, c, w, path[1..], v)
  }

  /** Some path leads from a block that moves v to block b, and none of its blocks initialises v. */
  ghost predicate FlowsInto(body: Body, c: Ctx, w: Which, b: nat, v: nat) {
    && !(w.Dead? && b == 0)
    && exists path ::
         Flows(body, c, w, path, v) && path[0] < |body.blocks| && b in Successors(body.blocks[path[0]].terminator)
  }

  ghost predicate Predecessors(body: Body, preds: seq<seq<nat>>) {
    && |preds| == |body.blocks|
    && (forall a: nat, b: nat :: a < |preds| && b < |preds| ==>
        (a in preds[b] <==> b in Successors(body.blocks[a].terminator)))
    && (forall b, k :: 0 <= b < |preds| && 0 <= k < |preds[b]| ==> preds[b][k] < |preds|)
  }

  lemma GenExact(c: Ctx, w: Which, bb: BasicBlock, v: nat)
    ensures v in AllGen(c, w, bb.statements) - BlockInits(c, bb) <==>
            SomeGen(c, w, bb.statements, v) && !Initialises(c, bb, v)
    ensures v in BlockInits(c, bb) <==> Initialises(c, bb, v)
  {
    hide Gen, Inits, CallInits;
    var ss := bb.statements;
    assert ss[..|ss|] == ss;
    TotalsExact(c, w, ss, |ss|, v);
  }

  lemma {:induction false} FlowsAgree(body: Body, c: Ctx, w: Which, preds: seq<seq<nat>>, path: seq<nat>, v: nat)
    requires Predecessors(body, preds) && D.Valid(MoveProblem(body, c, w, preds))
    ensures Flows(body, c, w, path, v) <==> D.Carries(MoveProblem(body, c, w, preds), path, v)
    decreases |path|
  {
    hide AllGen, BlockInits, SomeGen, Initialises;
    if path != [] && path[0] < |body.blocks| {
      GenExact(c, w, body.blocks[path[0]], v);
      if |path| > 1 {
        FlowsAgree(body, c, w, preds, path[1..], v);
      }
    }
  }

  lemma ArrivesIsFlow(body: Body, c: Ctx, w: Which, preds: seq<seq<nat>>, b: nat, v: nat)
    requires Predecessors(body, preds) && D.Valid(MoveProblem(body, c, w, preds)) && b < |body.blocks|
    ensures D.Arrives(MoveProblem(body, c, w, preds), b, v) <==> FlowsInto(body, c, w, b, v)
  {
    hide D.Arrives, FlowsInto;
    if D.Arrives(MoveProblem(body, c, w, preds), b, v) {
      ArrivesFlows(body, c, w, preds, b, v);
    }
    if FlowsInto(body, c, w, b, v) {
      FlowArrives(body, c, w, preds, b, v);
    }
  }

  lemma ArrivesFlows(body: Body, c: Ctx, w: Which, preds: seq<seq<nat>>, b: nat, v: nat)
    requires Predecessors(body, preds) && D.Valid(MoveProblem(body, c, w, preds)) && b < |body.blocks|
    requires D.Arrives(MoveProblem(body, c, w, preds), b, v)
    ensures FlowsInto(body, c, w, b, v)
  {
    hide AllGen, BlockInits, Successors, D.Carries, SomeGen, Initialises;
    var p := MoveProblem(body, c, w, preds);
    var k :| 0 <= k < |p.from[b]| && D.Holds(p, p.from[b][k], v);
    var path :| path != [] && path[0] == p.from[b][k] && D.Carries(p, path, v);
    FlowsAgree(body, c, w, preds, path, v);
    assert preds[b][k] in preds[b] && path[0] == preds[b][k];
  }

  lemma FlowArrives(body: Body, c: Ctx, w: Which, preds: seq<seq<nat>>, b: nat, v: nat)
    requires Predecessors(body, preds) && D.Valid(MoveProblem(body, c, w, preds)) && b < |body.blocks|
    requires FlowsInto(body, c, w, b, v)
    ensures D.Arrives(MoveProblem(body, c, w, preds), b, v)
  {
    hide AllGen, BlockInits, Successors, D.Carries, SomeGen, Initialises;
    var p := MoveProblem(body, c, w, preds);
    var path :| Flows(body, c, w, path, v) && path[0] < |body.blocks|
      && b in Successors(body.blocks[path[0]].terminator);
    FlowsAgree(body, c, w, preds, path, v);
    assert path[0] in preds[b];
    var k :| 0 <= k < |preds[b]| && preds[b][k] == path[0];
    assert p.from[b][k] == path[0];
    assert D.Holds(p, p.from[b][k], v);
  }

  // ----- the dataflow -----

  /** The lookups of the analysis never add a path. */
  predicate Trackable(body: Body) {
    forall b :: 0 <= b < |body.blocks| ==> TrackableBlock(body.blocks[b])
  }

  predicate TrackableBlock(bb: BasicBlock) {
    && (forall k :: 0 <= k < |bb.statements| && bb.statements[k].Assign? ==>
          Fixed(bb.statements[k].dest) && forall p <- RvalueReads(bb.statements[k].rvalue) :: Fixed(p))
    && (bb.terminator.Call? ==> Fixed(bb.terminator.destination))
  }

  method CollectEffects(c: Ctx, bb: BasicBlock) returns (moves: set<nat>, deads: set<nat>, inits: set<nat>)
    ensures moves == AllGen(c, Moved, bb.statements) && deads == AllGen(c, Dead, bb.statements)
    ensures inits == BlockInits(c, bb)
  {
    hide Gen, Inits, CallInits;
    var ss := bb.statements;
    moves, deads, inits := {}, {}, {};
    for k := 0 to |ss|
      invariant moves == AllGen(c, Moved, ss[..k]) && deads == AllGen(c, Dead, ss[..k]) && inits == AllInits(c, ss[..k])
    {
      assert ss[..k + 1][k] == ss[k] && ss[..k + 1][..k] == ss[..k];
      moves, deads, inits := moves + Gen(c, Moved, ss[k]), deads + Gen(c, Dead, ss[k]), inits + Inits(c, ss[k]);
    }
    assert ss[..|ss|] == ss;
    inits := inits + CallInits(c, bb.terminator);
  }

  method CollectAll(body: Body, c: Ctx) returns (moves: seq<set<nat>>, deads: seq<set<nat>>, inits: seq<set<nat>>)
    ensures |moves| == |deads| == |inits| == |body.blocks|
    ensures forall b :: 0 <= b < |body.blocks| ==>
              && moves[b] == AllGen(c, Moved, body.blocks[b].statements)
              && deads[b] == AllGen(c, Dead, body.blocks[b].statements)
              && inits[b] == BlockInits(c, body.blocks[b])
  {
    hide AllGen, BlockInits;
    moves, deads, inits := [], [], [];
    for b := 0 to |body.blocks|
      invariant |moves| == |deads| == |inits| == b
      invariant forall x :: 0 <= x < b ==>
                  && moves[x] == AllGen(c, Moved, body.blocks[x].statements)
                  && deads[x] == AllGen(c, Dead, body.blocks[x].statements)
                  && inits[x] == BlockInits(c, body.blocks[x])
    {
      var m, d, i := CollectEffects(c, body.blocks[b]);
      moves, deads, inits := moves + [m], deads + [d], inits + [i];
    }
  }

  lemma ProblemReady(body: Body, c: Ctx, w: Which, preds: seq<seq<nat>>)
    requires TargetsExist(body) && Predecessors(body, preds)
    ensures D.Valid(MoveProblem(body, c, w, preds))
            && D.Dependents(MoveProblem(body, c, w, preds), SuccessorLists(body))
  {
    hide AllGen, BlockInits;
  }

  /** One of the two problems at one block: its new sets, and what recomputing them keeps. */
  lemma HalfStep(p: D.Problem, deps: seq<seq<nat>>, ins: seq<set<nat>>, outs: seq<set<nat>>, before: set<nat>, bi: nat,
                 newIn: set<nat>, newOut: set<nat>, after: set<nat>)
    requires D.Valid(p) && D.Dependents(p, deps) && D.Inv(p, ins, outs, before) && bi < |p.from|
    requires newIn == D.Union(p.from[bi], outs) && newOut == D.Transfer(p, bi, newIn)
    requires before - {bi} <= after
    requires newOut != outs[bi] ==> forall a :: a in deps[bi] ==> a in after
    ensures |ins| == |outs| == |p.from| && D.Inv(p, ins[bi := newIn], outs[bi := newOut], after)
    ensures D.Room(p, ins, outs) >= D.Room(p, ins[bi := newIn], outs[bi := newOut]) >= 0
    ensures newIn != ins[bi] || newOut != outs[bi] ==>
              D.Room(p, ins[bi := newIn], outs[bi := newOut]) < D.Room(p, ins, outs)
  {
    hide D.Room, D.Union, D.Transfer;
    D.StepKeepsInv(p, deps, ins, outs, before, bi, ins[bi := newIn], outs[bi := newOut], after);
    D.RoomNonNegative(p, ins[bi := newIn], outs[bi := newOut], after);
    if newIn != ins[bi] || newOut != outs[bi] {
      D.RoomShrinks(p, ins, outs, bi, newIn, newOut);
    } else {
      assert ins[bi := newIn] == ins && outs[bi := newOut] == outs;
    }
  }

  /**
  On entry to each block, the paths moved out, and those whose storage ended, in some block and not
  initialised since along some path of blocks.
  */
  method ComputeMoveDataflow(body: Body, c: Ctx) returns (movedIn: seq<set<nat>>, deadIn: seq<set<nat>>)
    requires TargetsExist(body) && Trackable(body)
    ensures |movedIn| == |deadIn| == |body.blocks|
    ensures forall b, v :: 0 <= b < |body.blocks| ==> (v in movedIn[b] <==> FlowsInto(body, c, Moved, b, v))
    ensures forall b, v :: 0 <= b < |body.blocks| ==> (v in deadIn[b] <==> FlowsInto(body, c, Dead, b, v))
  {
    hide AllGen, BlockInits, D.Inv, D.Room, D.Union, D.Arrives, D.Valid, D.Dependents, FlowsInto, Trackable;
    var n := |body.blocks|;
    var moves, deads, inits := CollectAll(body, c);
    var successors, predecessors := BuildEdges(body);
    assert forall a: nat :: a < n ==> successors[a] == Successors(body.blocks[a].terminator);
    assert Predecessors(body, predecessors);
    ghost var pm, pd := MoveProblem(body, c, Moved, predecessors), MoveProblem(body, c, Dead, predecessors);
    ProblemReady(body, c, Moved, predecessors);
    ProblemReady(body, c, Dead, predecessors);
    var movedOut: seq<set<nat>>, deadOut: seq<set<nat>> := seq(n, _ => {}), seq(n, _ => {});
    movedIn, deadIn := seq(n, _ => {}), seq(n, _ => {});
    var worklist, inWorklist := AllNodes(n);
    D.StartInv(pm, inWorklist);
    D.StartInv(pd, inWorklist);
    RoomsStart(pm, pd, n, inWorklist);
    while worklist != []
      invariant |movedIn| == n && |movedOut| == n && |deadIn| == n && |deadOut| == n
      invariant D.Inv(pm, movedIn, movedOut, inWorklist) && D.Inv(pd, deadIn, deadOut, inWorklist)
      invariant D.Room(pm, movedIn, movedOut) >= 0 && D.Room(pd, deadIn, deadOut) >= 0
      invariant Holds(worklist, inWorklist, n)
      decreases D.Room(pm, movedIn, movedOut) + D.Room(pd, deadIn, deadOut), |worklist|
    {
      ghost var before := inWorklist;
      var bi := worklist[|worklist| - 1];
      PopHolds(worklist, inWorklist, n);
      worklist, inWorklist := worklist[..|worklist| - 1], inWorklist - {bi};
      var newMovedIn := UnionOf(predecessors[bi], movedOut);
      var newMovedOut := (newMovedIn + moves[bi]) - inits[bi];
      var newDeadIn := {};
      if bi != 0 {
        newDeadIn := UnionOf(predecessors[bi], deadOut);
      }
      assert pd.from[bi] == if bi == 0 then [] else predecessors[bi];
      NothingArrives(pd.from[bi], deadOut);
      var newDeadOut := (newDeadIn + deads[bi]) - inits[bi];
      assert newMovedOut == D.Transfer(pm, bi, newMovedIn) && newDeadOut == D.Transfer(pd, bi, newDeadIn);
      ghost var m0, x0, d0, y0 := movedIn, movedOut, deadIn, deadOut;
      if newMovedIn != movedIn[bi] || newMovedOut != movedOut[bi] || newDeadIn != deadIn[bi]
        || newDeadOut != deadOut[bi] {
        movedIn, movedOut := movedIn[bi := newMovedIn], movedOut[bi := newMovedOut];
        deadIn, deadOut := deadIn[bi := newDeadIn], deadOut[bi := newDeadOut];
        worklist, inWorklist := Enqueue(successors[bi], worklist, inWorklist, n);
      } else {
        assert movedIn[bi := newMovedIn] == movedIn && movedOut[bi := newMovedOut] == movedOut;
        assert deadIn[bi := newDeadIn] == deadIn && deadOut[bi := newDeadOut] == deadOut;
      }
      HalfStep(pm, successors, m0, x0, before, bi, newMovedIn, newMovedOut, inWorklist);
      HalfStep(pd, successors, d0, y0, before, bi, newDeadIn, newDeadOut, inWorklist);
    }
    assert inWorklist == {};
    D.DoneExact(pm, movedIn, movedOut);
    D.DoneExact(pd, deadIn, deadOut);
    forall b: nat, v: nat | b < n
      ensures v in movedIn[b] <==> FlowsInto(body, c, Moved, b, v)
      ensures v in deadIn[b] <==> FlowsInto(body, c, Dead, b, v)
    {
      ArrivesIsFlow(body, c, Moved, predecessors, b, v);
      ArrivesIsFlow(body, c, Dead, predecessors, b, v);
    }
  }

  lemma NothingArrives(from: seq<nat>, outs: seq<set<nat>>)
    requires forall k :: 0 <= k < |from| ==> from[k] < |outs|
    ensures from == [] ==> D.Union(from, outs) == {}
  {
  }

  lemma RoomsStart(pm: D.Problem, pd: D.Problem, n: nat, pending: set<nat>)
    requires D.Valid(pm) && D.Valid(pd) && |pm.from| == n && |pd.from| == n
    requires D.Inv(pm, seq(n, _ => {}), seq(n, _ => {}), pending)
             && D.Inv(pd, seq(n, _ => {}), seq(n, _ => {}), pending)
    ensures D.Room(pm, seq(n, _ => {}), seq(n, _ => {})) >= 0 && D.Room(pd, seq(n, _ => {}), seq(n, _ => {})) >= 0
  {
    D.RoomNonNegative(pm, seq(n, _ => {}), seq(n, _ => {}), pending);
    D.RoomNonNegative(pd, seq(n, _ => {}), seq(n, _ => {}), pending);
  }

  // ----- before each statement -----

  /** v is moved (or dead) before statement i of block b. */
  ghost predicate HoldsAt(body: Body, c: Ctx, w: Which, b: nat, i: nat, v: nat)
    requires b < |body.blocks| && i <= |body.blocks[b].statements|
  {
    var ss := body.blocks[b].statements;
    SetLast(c, w, ss, i, v) || (NoInit(c, ss, 0, i, v) && FlowsInto(body, c, w, b, v))
  }

  /** The set holds exactly those. */
  ghost predicate Means(body: Body, c: Ctx, w: Which, b: nat, i: nat, marked: set<nat>)
    requires b < |body.blocks| && i <= |body.blocks[b].statements|
  {
    forall v: nat :: v in marked <==> HoldsAt(body, c, w, b, i, v)
  }

  method ComputeStmtMoved(c: Ctx, ss: seq<Statement>, movedIn: set<nat>, deadIn: set<nat>)
    returns (moved: seq<set<nat>>, dead: seq<set<nat>>)
    ensures |moved| == |dead| == |ss| + 1
    ensures forall i :: 0 <= i <= |ss| ==>
              moved[i] == Scan(c, Moved, ss[..i], movedIn) && dead[i] == Scan(c, Dead, ss[..i], deadIn)
  {
    hide Apply;
    moved, dead := [movedIn], [deadIn];
    for i := 0 to |ss|
      invariant |moved| == |dead| == i + 1
      invariant forall k :: 0 <= k <= i ==>
                  moved[k] == Scan(c, Moved, ss[..k], movedIn) && dead[k] == Scan(c, Dead, ss[..k], deadIn)
    {
      assert ss[..i + 1][i] == ss[i] && ss[..i + 1][..i] == ss[..i];
      moved, dead := moved + [Apply(c, Moved, ss[i], moved[i])], dead + [Apply(c, Dead, ss[i], dead[i])];
    }
  }

  // ----- uses -----

  /** A place a statement uses; an operand of a copied type may be used after a move. */
  datatype Usage = Usage(place: Place, asOperand: bool)

  function OperandUses(os: seq<Operand>): seq<Usage> {
    if os == [] then []
    else (if os[0].Constant? then [] else [Usage(os[0].place, true)]) + OperandUses(os[1..])
  }

  function StatementUses(s: Statement): seq<Usage> {
    if !s.Assign? then []
    else if s.rvalue.Ref? then [Usage(s.rvalue.borrowed, false)]
    else if s.rvalue.Discriminant? || s.rvalue.Len? then [Usage(s.rvalue.place, false)]
    else OperandUses(RvalueOperands(s.rvalue))
  }

  datatype UseError = UseOfDead | UseOfPartlyDead | UseOfMoved | UseOfPartlyMoved

  /** A bare local also answers for its fields. */
  function AnyChildIn(a: Arena, p: Place, marked: set<nat>): bool {
    && p.projection == []
    && p.local as nat < |a.roots| && a.roots[p.local] < |a.paths|
    && exists k :: 0 <= k < |a.paths[a.roots[p.local]].children| && a.paths[a.roots[p.local]].children[k] in marked
  }

  function FoundIn(a: Arena, p: Place, marked: set<nat>): bool {
    Find(a, p).Some? && Find(a, p).value in marked
  }

  /** Storage first, whatever the type; then moves, unless the use is of a copied type. */
  function CheckUse(c: Ctx, u: Usage, moved: set<nat>, dead: set<nat>): Option<UseError> {
    if FoundIn(c.arena, u.place, dead) then Some(UseOfDead)
    else if AnyChildIn(c.arena, u.place, dead) then Some(UseOfPartlyDead)
    else if u.asOperand && c.copies(u.place) then None
    else if FoundIn(c.arena, u.place, moved) then Some(UseOfMoved)
    else if AnyChildIn(c.arena, u.place, moved) then Some(UseOfPartlyMoved)
    else None
  }

  datatype MoveError = MoveError(error: UseError, place: Place, block: nat, stmt: nat)

  predicate Touches(c: Ctx, p: Place, v: nat) {
    || Find(c.arena, p) == Some(v)
    || (p.projection == [] && p.local as nat < |c.arena.roots| && c.arena.roots[p.local] < |c.arena.paths| &&
        v in c.arena.paths[c.arena.roots[p.local]].children)
  }

  /**
  A use of a place is an error exactly when a path it touches is dead, or is moved and the use is
  not of a copied type.
  */
  lemma CheckUseMeans(c: Ctx, u: Usage, moved: set<nat>, dead: set<nat>)
    ensures CheckUse(c, u, moved, dead).Some? <==>
            || (exists v: nat :: v in dead && Touches(c, u.place, v))
            || (!(u.asOperand && c.copies(u.place)) && exists v: nat :: v in moved && Touches(c, u.place, v))
  {
    UseMeans(c, u.place, moved);
    UseMeans(c, u.place, dead);
  }

  lemma UseMeans(c: Ctx, p: Place, marked: set<nat>)
    ensures FoundIn(c.arena, p, marked) || AnyChildIn(c.arena, p, marked) <==>
            exists v: nat :: v in marked && Touches(c, p, v)
  {
    hide Find;
    if FoundIn(c.arena, p, marked) {
      assert Touches(c, p, Find(c.arena, p).value);
    }
    if AnyChildIn(c.arena, p, marked) {
      var children := c.arena.paths[c.arena.roots[p.local]].children;
      var k :| 0 <= k < |children| && children[k] in marked;
      assert Touches(c, p, children[k]);
    }
  }

  /** The error e comes from a use at its point, checked against what holds there. */
  ghost predicate UseAfterMove(body: Body, c: Ctx, e: MoveError) {
    && e.block < |body.blocks| && e.stmt < |body.blocks[e.block].statements|
    && exists moved: set<nat>, dead: set<nat>, asOperand: bool ::
         && Means(body, c, Moved, e.block, e.stmt, moved) && Means(body, c, Dead, e.block, e.stmt, dead)
         && Usage(e.place, asOperand) in StatementUses(body.blocks[e.block].statements[e.stmt])
         && CheckUse(c, Usage(e.place, asOperand), moved, dead) == Some(e.error)
  }

  /**
  A place is reported at a statement exactly when one of its uses there touches a path that is dead,
  or that is moved unless the use copies.
  */
  lemma UseReportedExactly(body: Body, c: Ctx, b: nat, i: nat, place: Place, moved: set<nat>, dead: set<nat>)
    requires b < |body.blocks| && i < |body.blocks[b].statements|
    requires Means(body, c, Moved, b, i, moved) && Means(body, c, Dead, b, i, dead)
    ensures (exists kind :: UseAfterMove(body, c, MoveError(kind, place, b, i))) <==>
            exists u :: u in StatementUses(body.blocks[b].statements[i]) && u.place == place && Wrong(body, c, b, i, u)
  {
    hide UseAfterMove, HoldsAt, CheckUse, StatementUses, Touches;
    var uses := StatementUses(body.blocks[b].statements[i]);
    forall u
      ensures Wrong(body, c, b, i, u) <==> CheckUse(c, u, moved, dead).Some?
    {
      CheckUseMeans(c, u, moved, dead);
    }
    forall kind
      ensures UseAfterMove(body, c, MoveError(kind, place, b, i)) <==>
              exists u :: u in uses && u.place == place && CheckUse(c, u, moved, dead) == Some(kind)
    {
      UseHere(body, c, MoveError(kind, place, b, i), moved, dead);
    }
    if u :| u in uses && u.place == place && Wrong(body, c, b, i, u) {
      assert UseAfterMove(body, c, MoveError(CheckUse(c, u, moved, dead).value, place, b, i));
    }
  }

  ghost predicate Wrong(body: Body, c: Ctx, b: nat, i: nat, u: Usage)
    requires b < |body.blocks| && i <= |body.blocks[b].statements|
  {
    || (exists v: nat :: HoldsAt(body, c, Dead, b, i, v) && Touches(c, u.place, v))
    || (&& !(u.asOperand && c.copies(u.place))
        && exists v: nat :: HoldsAt(body, c, Moved, b, i, v) && Touches(c, u.place, v))
  }

  method CheckUses(c: Ctx, uses: seq<Usage>, moved: set<nat>, dead: set<nat>, b: nat, i: nat, before: seq<MoveError>)
    returns (errors: seq<MoveError>)
    ensures forall e :: e in errors <==>
              e in before ||
              (&& e.block == b && e.stmt == i
               && exists u :: u in uses && u.place == e.place && CheckUse(c, u, moved, dead) == Some(e.error))
  {
    hide CheckUse;
    errors := before;
    for k := 0 to |uses|
      invariant forall e :: e in errors <==>
                  e in before ||
                  (e.block == b && e.stmt == i &&
                   exists u :: u in uses[..k] && u.place == e.place && CheckUse(c, u, moved, dead) == Some(e.error))
    {
      assert uses[..k + 1] == uses[..k] + [uses[k]];
      assert uses[k] in uses[..k + 1] && forall u :: u in uses[..k] ==> u in uses[..k + 1];
      var r := CheckUse(c, uses[k], moved, dead);
      if r.Some? {
        errors := errors + [MoveError(r.value, uses[k].place, b, i)];
      }
    }
    assert uses[..|uses|] == uses;
  }

  ghost predicate Before(e: MoveError, b: nat, i: nat) {
    e.block < b || (e.block == b && e.stmt < i)
  }

  /** Every use of a dead or moved path in a statement, and nothing else, is an error. */
  method CheckMoves(body: Body, counts: seq<Option<nat>>, copies: Place -> bool)
    returns (c: Ctx, errors: seq<MoveError>)
    requires TargetsExist(body) && Trackable(body) && |counts| == |body.locals| <= 0x1_0000_0000
    ensures Tracks(c.arena, counts) && c.copies == copies
    ensures forall e :: e in errors <==> UseAfterMove(body, c, e)
  {
    hide UseAfterMove, FlowsInto, CheckUse, Tracks, StatementUses, TargetsExist, Trackable;
    var arena := BuildMovePaths(counts);
    c := Ctx(arena, copies);
    errors := [];
    if |arena.paths| == 0 {
      NoPathsNoErrors(body, c, counts);
      return;
    }
    var movedIn, deadIn := ComputeMoveDataflow(body, c);
    for b := 0 to |body.blocks|
      invariant forall e :: e in errors <==> Before(e, b, 0) && UseAfterMove(body, c, e)
    {
      errors := CheckBlock(body, c, b, movedIn[b], deadIn[b], errors);
    }
    forall e
      ensures UseAfterMove(body, c, e) ==> e.block < |body.blocks|
    {
      if UseAfterMove(body, c, e) {
        UsePoint(body, c, e);
      }
    }
  }

  lemma UsePoint(body: Body, c: Ctx, e: MoveError)
    requires UseAfterMove(body, c, e)
    ensures e.block < |body.blocks| && e.stmt < |body.blocks[e.block].statements|
  {
  }

  method CheckBlock(body: Body, c: Ctx, b: nat, movedIn: set<nat>, deadIn: set<nat>, before: seq<MoveError>)
    returns (errors: seq<MoveError>)
    requires b < |body.blocks|
    requires forall v: nat :: v in movedIn <==> FlowsInto(body, c, Moved, b, v)
    requires forall v: nat :: v in deadIn <==> FlowsInto(body, c, Dead, b, v)
    requires forall e :: e in before <==> Before(e, b, 0) && UseAfterMove(body, c, e)
    ensures forall e :: e in errors <==> Before(e, b + 1, 0) && UseAfterMove(body, c, e)
  {
    hide UseAfterMove, FlowsInto, CheckUse, StatementUses, Scan, HoldsAt;
    var ss := body.blocks[b].statements;
    var moved, dead := ComputeStmtMoved(c, ss, movedIn, deadIn);
    errors := before;
    for i := 0 to |ss|
      invariant forall e :: e in errors <==> Before(e, b, i) && UseAfterMove(body, c, e)
    {
      errors := CheckUses(c, StatementUses(ss[i]), moved[i], dead[i], b, i, errors);
      HoldsExact(body, c, Moved, b, i, movedIn);
      HoldsExact(body, c, Dead, b, i, deadIn);
      forall e: MoveError | e.block == b && e.stmt == i
        ensures UseAfterMove(body, c, e) <==>
                exists u :: u in StatementUses(ss[i]) && u.place == e.place
                  && CheckUse(c, u, moved[i], dead[i]) == Some(e.error)
      {
        UseHere(body, c, e, moved[i], dead[i]);
      }
    }
    forall e
      ensures UseAfterMove(body, c, e) ==> e.block == b ==> e.stmt < |ss|
    {
      if UseAfterMove(body, c, e) {
        UsePoint(body, c, e);
      }
    }
  }

  lemma HoldsExact(body: Body, c: Ctx, w: Which, b: nat, i: nat, before: set<nat>)
    requires b < |body.blocks| && i <= |body.blocks[b].statements|
    requires forall v: nat :: v in before <==> FlowsInto(body, c, w, b, v)
    ensures Means(body, c, w, b, i, Scan(c, w, body.blocks[b].statements[..i], before))
  {
    hide Scan, FlowsInto, SetLast, NoInit;
    forall v: nat
      ensures v in Scan(c, w, body.blocks[b].statements[..i], before) <==> HoldsAt(body, c, w, b, i, v)
    {
      ScanExact(c, w, body.blocks[b].statements, i, before, v);
    }
  }

  lemma UseHere(body: Body, c: Ctx, e: MoveError, moved: set<nat>, dead: set<nat>)
    requires e.block < |body.blocks| && e.stmt < |body.blocks[e.block].statements|
    requires Means(body, c, Moved, e.block, e.stmt, moved) && Means(body, c, Dead, e.block, e.stmt, dead)
    ensures UseAfterMove(body, c, e) <==>
            exists u :: u in StatementUses(body.blocks[e.block].statements[e.stmt]) && u.place == e.place &&
                        CheckUse(c, u, moved, dead) == Some(e.error)
  {
    hide HoldsAt, CheckUse, StatementUses;
    var uses := StatementUses(body.blocks[e.block].statements[e.stmt]);
    if UseAfterMove(body, c, e) {
      var moved', dead', asOperand :|
        && Means(body, c, Moved, e.block, e.stmt, moved') && Means(body, c, Dead, e.block, e.stmt, dead')
        && Usage(e.place, asOperand) in uses
        && CheckUse(c, Usage(e.place, asOperand), moved', dead') == Some(e.error);
      assert moved' == moved && dead' == dead;
    }
    if u :| u in uses && u.place == e.place && CheckUse(c, u, moved, dead) == Some(e.error) {
      assert u == Usage(e.place, u.asOperand);
    }
  }

  lemma SomePath(a: Arena, counts: seq<Option<nat>>)
    requires Tracks(a, counts)
    ensures |counts| > 0 ==> |a.paths| > 0
  {
    if |counts| > 0 {
      assert Rooted(a, 0, FieldCount(counts[0]));
    }
  }

  /** Without locals there are no paths, and no use is wrong. */
  lemma NoPathsNoErrors(body: Body, c: Ctx, counts: seq<Option<nat>>)
    requires Tracks(c.arena, counts) && |c.arena.paths| == 0
    ensures forall e :: !UseAfterMove(body, c, e)
  {
    SomePath(c.arena, counts);
    forall e
      ensures !UseAfterMove(body, c, e)
    {
    }
  }

  // ----- a use after a move that goes unseen -----

  /** x := 5; y := move x; then in the next block z := move x. */
  function MovedTwice(): Body {
    var x, y, z := Place(1, []), Place(2, []), Place(3, []);
    Body([BasicBlock([Assign(x, Use(Constant(CInt(5)))), Assign(y, Use(Move(x)))], Goto(1)),
          BasicBlock([Assign(z, Use(Move(x)))], Return)],
         [TUnit, TOther, TOther, TOther])
  }

  /**
  No type is copied, x is moved when block 0 ends, and block 1 moves it again: the summary of block 0
  says initialised, so nothing is reported.
  */
  lemma SecondMoveMissed(c: Ctx, e: MoveError)
    requires Tracks(c.arena, [None, None, None, None]) && c.copies == (_ => false)
    ensures TargetsExist(MovedTwice()) && Trackable(MovedTwice())
    ensures var x := Find(c.arena, Place(1, []));
            && x.Some? && x.value in ThroughBlock(c, Moved, MovedTwice().blocks[0], {})
            && MovedAfterInit(c, Moved, MovedTwice().blocks[0], x.value)
            && 1 in Successors(MovedTwice().blocks[0].terminator)
            && Move(Place(1, [])) in RvalueOperands(MovedTwice().blocks[1].statements[0].rvalue)
    ensures !UseAfterMove(MovedTwice(), c, e)
  {
    hide UseAfterMove, HoldsAt, Tracks, Rooted;
    var body := MovedTwice();
    XFound(c);
    var x := Find(c.arena, Place(1, [])).value;
    BlockMovesX(c, x);
    MovedTwiceUses(e.block, e.stmt);
    if UseAfterMove(body, c, e) {
      UsePoint(body, c, e);
      UseTouches(body, c, e, x);
      XNeverHolds(c, x, e.block, e.stmt);
    }
  }

  lemma XFound(c: Ctx)
    requires Tracks(c.arena, [None, None, None, None])
    ensures 1 < |c.arena.roots| && c.arena.roots[1] < |c.arena.paths| && c.arena.paths[c.arena.roots[1]].children == []
    ensures Find(c.arena, Place(1, [])) == Some(c.arena.roots[1]) && Group(c.arena, Place(1, [])) == {c.arena.roots[1]}
    ensures c.arena.roots[1] !in Group(c.arena, Place(2, [])) && c.arena.roots[1] !in Group(c.arena, Place(3, []))
  {
    var counts: seq<Option<nat>> := [None, None, None, None];
    assert Rooted(c.arena, 1, FieldCount(counts[1]));
    assert Rooted(c.arena, 2, FieldCount(counts[2]));
    assert Rooted(c.arena, 3, FieldCount(counts[3]));
  }

  lemma BlockMovesX(c: Ctx, x: nat)
    requires Group(c.arena, Place(1, [])) == {x} && x !in Group(c.arena, Place(2, [])) && c.copies == (_ => false)
    ensures x in ThroughBlock(c, Moved, MovedTwice().blocks[0], {})
            && MovedAfterInit(c, Moved, MovedTwice().blocks[0], x)
  {
    hide Group;
    var bb := MovedTwice().blocks[0];
    var ss := bb.statements;
    assert OperandMoves(c, [Move(Place(1, []))]) == Group(c.arena, Place(1, [])) by {
      assert [Move(Place(1, []))][1..] == [];
    }
    assert x in Gen(c, Moved, ss[1]) && x in Inits(c, ss[0]);
    assert NoInit(c, ss, 2, 2, x) && SetLast(c, Moved, ss, 2, x);
    assert ss[..2] == ss;
    ScanExact(c, Moved, ss, 2, {}, x);
  }

  lemma MovedTwiceUses(b: nat, i: nat)
    ensures TargetsExist(MovedTwice()) && Trackable(MovedTwice())
    ensures var body := MovedTwice();
            b < |body.blocks| && i < |body.blocks[b].statements| ==>
              forall u :: u in StatementUses(body.blocks[b].statements[i]) ==> u.place == Place(1, [])
  {
    var body := MovedTwice();
    assert Successors(body.blocks[0].terminator) == [1] && Successors(body.blocks[1].terminator) == [];
    assert [Move(Place(1, []))][1..] == [];
  }

  lemma UseTouches(body: Body, c: Ctx, e: MoveError, x: nat)
    requires UseAfterMove(body, c, e) && e.block < |body.blocks| && e.stmt < |body.blocks[e.block].statements|
    requires forall u :: u in StatementUses(body.blocks[e.block].statements[e.stmt]) ==> u.place == Place(1, [])
    requires forall v: nat :: Touches(c, Place(1, []), v) ==> v == x
    ensures HoldsAt(body, c, Moved, e.block, e.stmt, x) || HoldsAt(body, c, Dead, e.block, e.stmt, x)
  {
    hide CheckUse, HoldsAt, Touches, StatementUses;
    var moved, dead, asOperand :|
      && Means(body, c, Moved, e.block, e.stmt, moved) && Means(body, c, Dead, e.block, e.stmt, dead)
      && Usage(e.place, asOperand) in StatementUses(body.blocks[e.block].statements[e.stmt])
      && CheckUse(c, Usage(e.place, asOperand), moved, dead) == Some(e.error);
    CheckUseMeans(c, Usage(e.place, asOperand), moved, dead);
  }

  lemma XNeverHolds(c: Ctx, x: nat, b: nat, i: nat)
    requires Group(c.arena, Place(1, [])) == {x} && x !in Group(c.arena, Place(3, []))
    requires b < 2 && i < |MovedTwice().blocks[b].statements|
    ensures !HoldsAt(MovedTwice(), c, Moved, b, i, x) && !HoldsAt(MovedTwice(), c, Dead, b, i, x)
  {
    hide Group;
    var body := MovedTwice();
    var ss := body.blocks[0].statements;
    assert OperandMoves(c, []) == {};
    assert [Constant(CInt(5))][1..] == [];
    assert Gen(c, Moved, ss[0]) == {};
    assert Successors(body.blocks[0].terminator) == [1] && Successors(body.blocks[1].terminator) == [];
    assert x in Inits(c, ss[0]) && Initialises(c, body.blocks[0], x);
  }
}
