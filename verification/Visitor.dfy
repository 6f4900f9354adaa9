/** Reads and successors of MIR constructs (crates/glyim-borrowck/src/visitor.rs). */
module Visitor {
  import opened Mir
  import opened Wrappers

  function OperandReads(o: Operand): seq<Place> {
    if o.Constant? then [] else [o.place]
  }

  function OperandsReads(os: seq<Operand>): seq<Place> {
    if os == [] then [] else OperandReads(os[0]) + OperandsReads(os[1..])
  }

  /** Every place an rvalue reads, in walk order. */
  function RvalueReads(r: Rvalue): seq<Place> {
    match r
    case Use(o) => OperandReads(o)
    case Ref(p, _) => [p]
    case BinaryOp(_, a, b) => OperandReads(a) + OperandReads(b)
    case UnaryOp(_, o) => OperandReads(o)
    case Aggregate(os) => OperandsReads(os)
    case Discriminant(p) => [p]
    case Len(p) => [p]
    case Cast(o) => OperandReads(o)
    case Repeat(o) => OperandReads(o)
  }

  /** Every place a terminator reads; a drop moves out and reads nothing. */
  function TerminatorReads(t: Terminator): seq<Place> {
    match t
    case SwitchInt(o, _, _, _) => OperandReads(o)
    case Call(f, args, _, _, _) => OperandReads(f) + OperandsReads(args)
    case Assert(o, _, _, _) => OperandReads(o)
    case _ => []
  }

  predicate ReadsLocal(places: seq<Place>, v: nat) {
    exists k :: 0 <= k < |places| && places[k].local == v
  }

  function LocalsOf(places: seq<Place>): (r: set<nat>)
    ensures forall v :: v in r <==> ReadsLocal(places, v)
  {
    set k | 0 <= k < |places| :: places[k].local as nat
  }

  predicate StatementReads(s: Statement, v: nat) {
    s.Assign? && ReadsLocal(RvalueReads(s.rvalue), v)
  }

  /** The local an assignment writes, whatever the projection. */
  predicate Assigns(s: Statement, v: nat) {
    s.Assign? && s.dest.local == v
  }

  function ArmTargets(arms: seq<Arm>): seq<nat> {
    if arms == [] then [] else [arms[0].target as nat] + ArmTargets(arms[1..])
  }

  function Listed(b: Option<Block>): seq<nat> {
    if b.Some? then [b.value as nat] else []
  }

  function Successors(t: Terminator): seq<nat> {
    match t
    case Goto(b) => [b as nat]
    case SwitchInt(_, _, arms, otherwise) => ArmTargets(arms) + [otherwise as nat]
    case Return => []
    case Unreachable => []
    case Call(_, _, _, resume, cleanup) => Listed(resume) + Listed(cleanup)
    case Assert(_, _, b, cleanup) => [b as nat] + Listed(cleanup)
    case Drop(_, b, cleanup) => [b as nat] + Listed(cleanup)
  }

  /** All branches stay inside the body; the analyses index their tables by block. */
  predicate TargetsExist(body: Body) {
    forall b, k :: 0 <= b < |body.blocks| && 0 <= k < |Successors(body.blocks[b].terminator)| ==>
                     Successors(body.blocks[b].terminator)[k] < |body.blocks|
  }

  function SuccessorLists(body: Body): (r: seq<seq<nat>>)
    ensures |r| == |body.blocks|
  {
    seq(|body.blocks|, b requires 0 <= b < |body.blocks| => Successors(body.blocks[b].terminator))
  }

  method AddEdges(before: seq<seq<nat>>, a: nat, out: seq<nat>) returns (after: seq<seq<nat>>)
    requires forall k :: 0 <= k < |out| ==> out[k] < |before|
    ensures |after| == |before|
    ensures forall x, b :: 0 <= b < |after| ==> (x in after[b] <==> x in before[b] || (x == a && b in out))
  {
    after := before;
    for k := 0 to |out|
      invariant |after| == |before|
      invariant forall x, b :: 0 <= b < |after| ==> (x in after[b] <==> x in before[b] || (x == a && b in out[..k]))
    {
      assert out[..k + 1] == out[..k] + [out[k]];
      after := after[out[k] := after[out[k]] + [a]];
    }
    assert out[..|out|] == out;
  }

  /** Successor and predecessor lists, as the analyses build them once up front. */
  method BuildEdges(body: Body) returns (successors: seq<seq<nat>>, predecessors: seq<seq<nat>>)
    requires TargetsExist(body)
    ensures successors == SuccessorLists(body)
    ensures |predecessors| == |body.blocks|
    ensures forall a, b :: 0 <= a < |body.blocks| && 0 <= b < |body.blocks| ==>
                             (a in predecessors[b] <==> b in successors[a])
    ensures forall b, k :: 0 <= b < |predecessors| && 0 <= k < |predecessors[b]| ==> predecessors[b][k] < |body.blocks|
  {
    var n := |body.blocks|;
    successors := [];
    predecessors := seq(n, _ => []);
    for a := 0 to n
      invariant successors == SuccessorLists(body)[..a] && |predecessors| == n
      invariant forall x, b :: 0 <= x < n && 0 <= b < n ==>
                                 (x in predecessors[b] <==> x < a && b in SuccessorLists(body)[x])
      invariant forall b, x :: 0 <= b < n && x in predecessors[b] ==> x < n
    {
      var out := Successors(body.blocks[a].terminator);
      predecessors := AddEdges(predecessors, a, out);
      successors := successors + [out];
      assert SuccessorLists(body)[..a + 1] == SuccessorLists(body)[..a] + [out];
    }
    assert SuccessorLists(body)[..n] == SuccessorLists(body);
    forall b, k | 0 <= b < n && 0 <= k < |predecessors[b]|
      ensures predecessors[b][k] < n
    {
      assert predecessors[b][k] in predecessors[b];
    }
  }
}
