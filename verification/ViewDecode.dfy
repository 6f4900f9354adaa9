/**
One pass over a decoded blueprint rebuilds the view's skeleton with fragments flattened, and finds
each slot's anchor again.
*/
module ViewDecode {
  import opened Blueprint
  import opened ViewEncode
  import opened Int64
  import opened Wrappers

  // ----- the skeleton a view stands for -----

  datatype Skeleton =
    | Elem(tag: u32, props: seq<Prop>, slots: seq<nat>, children: seq<Skeleton>)
    | Run(text: string)
    | Mount(slot: nat)

  function FlatPieces(pieces: seq<Piece>, slots: seq<Option<nat>>): seq<Skeleton> {
    if pieces == [] || slots == [] then []
    else
      [if pieces[0].Static? then Run(pieces[0].text) else Mount(HoleSlot(slots[0]))]
      + FlatPieces(pieces[1..], slots[1..])
  }

  /** A slotless region leaves a mount point that no slot has. */
  function Flat(v: View, n: Node): seq<Skeleton>
    decreases n, 0
  {
    match n
    case Element(tag, props, slots, children) => [Elem(tag, props, slots, FlatAll(v, children))]
    case TextRun(pieces, slots) => FlatPieces(pieces, slots)
    case Region(region) =>
      var slot := RegionSlot(v.slots, region);
      [Mount(if slot.Some? then slot.value else RegionMarker(None))]
    case Fragment(children) => FlatAll(v, children)
  }

  function FlatAll(v: View, ns: seq<Node>): seq<Skeleton>
    decreases ns, 1
  {
    if ns == [] then [] else Flat(v, ns[0]) + FlatAll(v, ns[1..])
  }

  /** Regions of the tree that have no slot. */
  function Slotless(v: View, n: Node): nat
    decreases n, 0
  {
    match n
    case Element(_, _, _, children) => SlotlessAll(v, children)
    case TextRun(_, _) => 0
    case Region(region) => if RegionSlot(v.slots, region).Some? then 0 else 1
    case Fragment(children) => SlotlessAll(v, children)
  }

  function SlotlessAll(v: View, ns: seq<Node>): nat
    decreases ns, 1
  {
    if ns == [] then 0 else Slotless(v, ns[0]) + SlotlessAll(v, ns[1..])
  }

  // ----- the reader -----

  /** An element being read: its attributes until Enter, its children after. */
  datatype Frame = Frame(tag: u32, node: nat, props: seq<Prop>, slots: seq<nat>, open: bool, children: seq<Skeleton>)

  datatype Reader = Reader(roots: seq<Skeleton>, stack: seq<Frame>, counter: nat, anchors: seq<Anchor>)

  predicate TakesChildren(r: Reader) {
    r.stack == [] || r.stack[0].open
  }

  function AddChildren(r: Reader, children: seq<Skeleton>): Reader {
    if r.stack == [] then r.(roots := r.roots + children)
    else r.(stack := [r.stack[0].(children := r.stack[0].children + children)] + r.stack[1..])
  }

  /** None when the op does not fit where it stands or names no string. */
  function Read(r: Reader, op: Op, strings: seq<string>): Option<Reader> {
    match op
    case Create(tag) =>
      if !TakesChildren(r) then None
      else Some(r.(stack := [Frame(tag, r.counter, [], [], false, [])] + r.stack, counter := r.counter + 1))
    case StaticProp(prop, text) =>
      if TakesChildren(r) || text >= |strings| then None
      else Some(r.(stack := [r.stack[0].(props := r.stack[0].props + [Prop(prop, strings[text])])] + r.stack[1..]))
    case Text(text) =>
      if !TakesChildren(r) || text >= |strings| then None
      else Some(AddChildren(r, [Run(strings[text])]))
    case Enter =>
      if TakesChildren(r) then None
      else Some(r.(stack := [r.stack[0].(open := true)] + r.stack[1..]))
    case Leave =>
      if r.stack == [] || !r.stack[0].open then None
      else
        var f := r.stack[0];
        Some(AddChildren(r.(stack := r.stack[1..]), [Elem(f.tag, f.props, f.slots, f.children)]))
    case SlotMarker(slot) =>
      if TakesChildren(r) then
        Some(AddChildren(r.(counter := r.counter + 1, anchors := r.anchors + [Anchor(slot, r.counter)]), [Mount(slot)]))
      else
        var f := r.stack[0];
        Some(r.(stack := [f.(slots := f.slots + [slot as nat])] + r.stack[1..],
                anchors := r.anchors + [Anchor(slot, f.node)]))
  }

  function ReadAll(r: Reader, ops: seq<Op>, strings: seq<string>): Option<Reader>
    decreases |ops|
  {
    if ops == [] then Some(r)
    else
      var next := Read(r, ops[0], strings);
      if next.None? then None else ReadAll(next.value, ops[1..], strings)
  }

  function Start(): Reader {
    Reader([], [], 0, [])
  }

  lemma {:induction false} ReadSplit(r: Reader, a: seq<Op>, b: seq<Op>, strings: seq<string>)
    ensures ReadAll(r, a + b, strings) ==
            var mid := ReadAll(r, a, strings); if mid.None? then None else ReadAll(mid.value, b, strings)
    decreases |a|
  {
    hide Read;
    if a == [] {
      assert a + b == b;
    } else {
      assert (a + b)[0] == a[0] && (a + b)[1..] == a[1..] + b;
      var next := Read(r, a[0], strings);
      if next.Some? {
        ReadSplit(next.value, a[1..], b, strings);
      }
    }
  }

  // ----- reading what was emitted -----

  predicate AllFit(ops: seq<Op>) {
    forall k :: 0 <= k < |ops| ==> Fits(ops[k])
  }

  predicate SlotsFit(anchors: seq<Anchor>) {
    forall k :: 0 <= k < |anchors| ==> anchors[k].slot < PAYLOADS
  }

  /** An emission whose slots survive the encoding, against a table that its own is a prefix of. */
  predicate Sound(e: Out, table: seq<string>) {
    SlotsFit(e.anchors) && e.strings <= table && |table| <= TWO_32 && Distinct(table)
  }

  lemma SoundParts(a: Out, b: Out, table: seq<string>)
    requires Sound(Then(a, b), table) && a.strings <= b.strings
    ensures Sound(a, table) && Sound(b, table)
  {
    var t := Then(a, b);
    assert forall k :: 0 <= k < |a.anchors| ==> t.anchors[k] == a.anchors[k];
    assert forall k :: 0 <= k < |b.anchors| ==> t.anchors[|a.anchors| + k] == b.anchors[k];
  }

  lemma SoundTable(e: Out, table: seq<string>)
    requires Sound(e, table)
    ensures e.strings <= table && |table| <= TWO_32 && Distinct(table)
  {
  }

  lemma InternGrows(strings: seq<string>, s: string, table: seq<string>)
    requires Interned(strings, s).1 <= table && |table| <= TWO_32 && Distinct(table)
    ensures strings <= Interned(strings, s).1
    ensures var id := Interned(strings, s).0; id < |table| && table[id] == s
  {
    hide Interned, Distinct;
    PrefixDistinct(strings, s, table);
    InternKeeps(strings, s);
  }

  lemma PrefixDistinct(strings: seq<string>, s: string, table: seq<string>)
    requires Interned(strings, s).1 <= table && Distinct(table)
    ensures Distinct(strings)
  {
    hide IndexOf;
    assert strings <= table;
    assert forall i :: 0 <= i < |strings| ==> strings[i] == table[i];
  }

  /** The reader after an emission at a place that takes children. */
  function Gained(r: Reader, e: Out, children: seq<Skeleton>): Reader {
    AddChildren(r.(counter := e.counter, anchors := r.anchors + e.anchors), children)
  }

  lemma GainTwice(r: Reader, a: Out, x: seq<Skeleton>, b: Out, y: seq<Skeleton>)
    requires TakesChildren(r)
    ensures Gained(Gained(r, a, x), b, y) == Gained(r, Then(a, b), x + y)
    ensures TakesChildren(Gained(r, a, x)) && Gained(r, a, x).counter == a.counter
  {
    assert (r.anchors + a.anchors) + b.anchors == r.anchors + (a.anchors + b.anchors);
    if r.stack == [] {
      assert (r.roots + x) + y == r.roots + (x + y);
    } else {
      var f := r.stack[0];
      assert (f.children + x) + y == f.children + (x + y);
      assert Gained(r, a, x).stack[1..] == r.stack[1..];
    }
  }

  lemma GainNothing(r: Reader, strings: seq<string>)
    ensures Gained(r, Out([], [], [], strings, r.counter), []) == r
  {
    assert r.anchors + [] == r.anchors;
    if r.stack == [] {
      assert r.roots + [] == r.roots;
    } else {
      assert r.stack[0].children + [] == r.stack[0].children && [r.stack[0]] + r.stack[1..] == r.stack;
    }
  }

  // ----- each part grows the table -----

  lemma {:induction false} PropsGrow(props: seq<Prop>, strings: seq<string>, counter: nat)
    ensures strings <= EmitProps(props, strings, counter).strings
    ensures Distinct(strings) ==> Distinct(EmitProps(props, strings, counter).strings)
  {
    hide IndexOf, Distinct;
    if props != [] {
      if Distinct(strings) { InternKeeps(strings, props[0].value); }
      PropsGrow(props[1..], Interned(strings, props[0].value).1, counter);
    }
  }

  lemma {:induction false} PiecesGrow(pieces: seq<Piece>, slots: seq<Option<nat>>, strings: seq<string>, counter: nat)
    ensures strings <= EmitPieces(pieces, slots, strings, counter).strings
    ensures Distinct(strings) ==> Distinct(EmitPieces(pieces, slots, strings, counter).strings)
  {
    hide IndexOf, Distinct;
    if pieces != [] && slots != [] {
      if pieces[0].Static? && Distinct(strings) { InternKeeps(strings, pieces[0].text); }
      var first := EmitPiece(pieces[0], slots[0], strings, counter);
      PiecesGrow(pieces[1..], slots[1..], first.strings, first.counter);
    }
  }

  lemma ElementStrings(v: View, n: Node, strings: seq<string>, counter: nat)
    requires n.Element?
    ensures EmitNode(v, n, strings, counter).strings ==
            EmitNodes(v, n.children, EmitProps(n.props, strings, counter + 1).strings, counter + 1).strings
  {
    hide EmitNode, EmitNodes, EmitProps, EmitSlots;
    ElementIs(v, n, strings, counter);
  }

  lemma {:induction false} NodeGrows(v: View, n: Node, strings: seq<string>, counter: nat)
    ensures strings <= EmitNode(v, n, strings, counter).strings
    ensures Distinct(strings) ==> Distinct(EmitNode(v, n, strings, counter).strings)
    decreases n, 0
  {
    hide Distinct;
    match n
    case Element(_, props, _, children) =>
      ElementStrings(v, n, strings, counter);
      PropsGrow(props, strings, counter + 1);
      NodesGrow(v, children, EmitProps(props, strings, counter + 1).strings, counter + 1);
    case TextRun(pieces, slots) => PiecesGrow(pieces, slots, strings, counter);
    case Region(_) =>
    case Fragment(children) => NodesGrow(v, children, strings, counter);
  }

  lemma {:induction false} NodesGrow(v: View, ns: seq<Node>, strings: seq<string>, counter: nat)
    ensures strings <= EmitNodes(v, ns, strings, counter).strings
    ensures Distinct(strings) ==> Distinct(EmitNodes(v, ns, strings, counter).strings)
    decreases ns, 1
  {
    hide EmitNode, Distinct;
    if ns != [] {
      var first := EmitNode(v, ns[0], strings, counter);
      NodeGrows(v, ns[0], strings, counter);
      NodesGrow(v, ns[1..], first.strings, first.counter);
    }
  }

  // ----- and is read back -----

  /** The element being read, with more attributes. */
  function WithAttrs(r: Reader, props: seq<Prop>, slots: seq<nat>, anchors: seq<Anchor>): Reader
    requires r.stack != []
  {
    var f := r.stack[0];
    r.(stack := [f.(props := f.props + props, slots := f.slots + slots)] + r.stack[1..], anchors := r.anchors + anchors)
  }

  lemma {:induction false} ReadProps(r: Reader, props: seq<Prop>, strings: seq<string>, counter: nat,
                                     table: seq<string>)
    requires !TakesChildren(r) && Sound(EmitProps(props, strings, counter), table)
    ensures ReadAll(r, EmitProps(props, strings, counter).ops, table) == Some(WithAttrs(r, props, [], []))
    decreases |props|
  {
    hide Interned, Sound, Read, WithAttrs;
    AttrsTwice(r, [], [], [], [], [], []);
    if props != [] {
      var p := props[0];
      var (id, after) := Interned(strings, p.value);
      var rest := EmitProps(props[1..], after, counter);
      PropsGrow(props[1..], after, counter);
      SoundParts(Out([StaticProp(p.id, id)], [], [], after, counter), rest, table);
      SoundTable(Out([StaticProp(p.id, id)], [], [], after, counter), table);
      InternGrows(strings, p.value, table);
      PropStep(r, p, id, table);
      var next := WithAttrs(r, [p], [], []);
      ReadProps(next, props[1..], after, counter, table);
      ReadCons(r, StaticProp(p.id, id), rest.ops, table);
      AttrsTwice(r, [p], [], [], props[1..], [], []);
      var slots: seq<nat>, anchors: seq<Anchor> := [], [];
      assert [p] + props[1..] == props && slots + slots == slots && anchors + anchors == anchors;
    }
  }

  lemma PropStep(r: Reader, p: Prop, id: u32, table: seq<string>)
    requires !TakesChildren(r) && id < |table| && table[id] == p.value
    ensures Read(r, StaticProp(p.id, id), table) == Some(WithAttrs(r, [p], [], []))
    ensures !TakesChildren(WithAttrs(r, [p], [], []))
  {
    assert r.stack[0].slots + [] == r.stack[0].slots && r.anchors + [] == r.anchors;
  }

  lemma AttrsTwice(r: Reader, p: seq<Prop>, s: seq<nat>, a: seq<Anchor>, p': seq<Prop>, s': seq<nat>, a': seq<Anchor>)
    requires r.stack != []
    ensures WithAttrs(WithAttrs(r, p, s, a), p', s', a') == WithAttrs(r, p + p', s + s', a + a')
    ensures WithAttrs(r, [], [], []) == r
  {
    var f := r.stack[0];
    assert (f.props + p) + p' == f.props + (p + p') && (f.slots + s) + s' == f.slots + (s + s');
    assert (r.anchors + a) + a' == r.anchors + (a + a');
    assert WithAttrs(r, p, s, a).stack[1..] == r.stack[1..];
    assert f.props + [] == f.props && f.slots + [] == f.slots && r.anchors + [] == r.anchors;
    assert [f] + r.stack[1..] == r.stack;
  }

  lemma ReadCons(r: Reader, op: Op, ops: seq<Op>, table: seq<string>)
    ensures ReadAll(r, [op] + ops, table) ==
            var next := Read(r, op, table); if next.None? then None else ReadAll(next.value, ops, table)
  {
    assert ([op] + ops)[0] == op && ([op] + ops)[1..] == ops;
  }

  lemma {:induction false} ReadSlots(r: Reader, slots: seq<nat>, strings: seq<string>, counter: nat, table: seq<string>)
    requires !TakesChildren(r) && Sound(EmitSlots(slots, r.stack[0].node, strings, counter), table)
    ensures var e := EmitSlots(slots, r.stack[0].node, strings, counter);
            ReadAll(r, e.ops, table) == Some(WithAttrs(r, [], slots, e.anchors))
    decreases |slots|
  {
    hide Sound, Read, WithAttrs;
    AttrsTwice(r, [], [], [], [], [], []);
    if slots != [] {
      var node, id := r.stack[0].node, slots[0];
      var first := Out([SlotMarker(CutSlot(id))], [Anchor(id, node)], [], strings, counter);
      var rest := EmitSlots(slots[1..], node, strings, counter);
      SlotsCount(slots[1..], node, strings, counter);
      SoundParts(first, rest, table);
      SlotStep(r, id, first, table);
      var next := WithAttrs(r, [], [id], [Anchor(id, node)]);
      ReadSlots(next, slots[1..], strings, counter, table);
      ReadCons(r, SlotMarker(CutSlot(id)), rest.ops, table);
      AttrsTwice(r, [], [id], [Anchor(id, node)], [], slots[1..], rest.anchors);
      var props: seq<Prop> := [];
      assert [id] + slots[1..] == slots && props + props == props;
    }
  }

  lemma SlotStep(r: Reader, id: nat, e: Out, table: seq<string>)
    requires !TakesChildren(r) && Sound(e, table) && e.anchors == [Anchor(id, r.stack[0].node)]
    ensures Read(r, SlotMarker(CutSlot(id)), table) == Some(WithAttrs(r, [], [id], e.anchors))
    ensures !TakesChildren(WithAttrs(r, [], [id], e.anchors))
            && WithAttrs(r, [], [id], e.anchors).stack[0].node == r.stack[0].node
  {
    assert e.anchors[0].slot < PAYLOADS;
    assert r.stack[0].props + [] == r.stack[0].props;
  }

  lemma PieceStep(r: Reader, piece: Piece, slot: Option<nat>, strings: seq<string>, table: seq<string>)
    requires TakesChildren(r) && Sound(EmitPiece(piece, slot, strings, r.counter), table)
    ensures var e := EmitPiece(piece, slot, strings, r.counter);
            ReadAll(r, e.ops, table) == Some(Gained(r, e, FlatPieces([piece], [slot])))
  {
    var e := EmitPiece(piece, slot, strings, r.counter);
    assert [piece][1..] == [] && [slot][1..] == [] && e.ops[1..] == [];
    assert FlatPieces([piece][1..], [slot][1..]) == [];
    assert FlatPieces([piece], [slot]) == [if piece.Static? then Run(piece.text) else Mount(HoleSlot(slot))];
    if piece.Static? {
      InternGrows(strings, piece.text, table);
      assert r.anchors + [] == r.anchors;
    } else {
      assert e.anchors[0].slot < PAYLOADS;
    }
  }

  lemma {:induction false} ReadPieces(r: Reader, pieces: seq<Piece>, slots: seq<Option<nat>>, strings: seq<string>,
                                      table: seq<string>)
    requires TakesChildren(r) && Sound(EmitPieces(pieces, slots, strings, r.counter), table)
    ensures var e := EmitPieces(pieces, slots, strings, r.counter);
            ReadAll(r, e.ops, table) == Some(Gained(r, e, FlatPieces(pieces, slots)))
    decreases |pieces|
  {
    hide Sound, Read, Gained, TakesChildren;
    if pieces == [] || slots == [] {
      GainNothing(r, strings);
    } else {
      var first := EmitPiece(pieces[0], slots[0], strings, r.counter);
      var rest := EmitPieces(pieces[1..], slots[1..], first.strings, first.counter);
      PiecesGrow(pieces[1..], slots[1..], first.strings, first.counter);
      SoundParts(first, rest, table);
      PieceStep(r, pieces[0], slots[0], strings, table);
      var here := FlatPieces([pieces[0]], [slots[0]]);
      GainTwice(r, first, here, rest, FlatPieces(pieces[1..], slots[1..]));
      ReadPieces(Gained(r, first, here), pieces[1..], slots[1..], first.strings, table);
      ReadSplit(r, first.ops, rest.ops, table);
      assert here == [if pieces[0].Static? then Run(pieces[0].text) else Mount(HoleSlot(slots[0]))] by {
        assert [pieces[0]][1..] == [];
      }
    }
  }

  lemma ReadRegion(r: Reader, v: View, n: Node, strings: seq<string>, table: seq<string>)
    requires n.Region? && TakesChildren(r) && Sound(EmitNode(v, n, strings, r.counter), table) && Slotless(v, n) == 0
    ensures var e := EmitNode(v, n, strings, r.counter); ReadAll(r, e.ops, table) == Some(Gained(r, e, Flat(v, n)))
  {
    var e := EmitNode(v, n, strings, r.counter);
    assert e.ops[1..] == [];
    assert e.anchors[0].slot < PAYLOADS;
  }

  lemma {:induction false} ReadNode(r: Reader, v: View, n: Node, strings: seq<string>, table: seq<string>)
    requires TakesChildren(r) && Sound(EmitNode(v, n, strings, r.counter), table) && Slotless(v, n) == 0
    ensures var e := EmitNode(v, n, strings, r.counter); ReadAll(r, e.ops, table) == Some(Gained(r, e, Flat(v, n)))
    decreases n, 1
  {
    hide Sound, Read, Gained, TakesChildren, ReadAll;
    match n
    case Element(_, _, _, _) => ReadElement(r, v, n, strings, table);
    case TextRun(pieces, slots) => ReadPieces(r, pieces, slots, strings, table);
    case Region(_) => ReadRegion(r, v, n, strings, table);
    case Fragment(children) => ReadNodes(r, v, children, strings, table);
  }

  lemma {:induction false} ReadNodes(r: Reader, v: View, ns: seq<Node>, strings: seq<string>, table: seq<string>)
    requires TakesChildren(r) && Sound(EmitNodes(v, ns, strings, r.counter), table) && SlotlessAll(v, ns) == 0
    ensures var e := EmitNodes(v, ns, strings, r.counter);
            ReadAll(r, e.ops, table) == Some(Gained(r, e, FlatAll(v, ns)))
    decreases ns, 2
  {
    hide Sound, Read, Gained, TakesChildren, EmitNode, Flat;
    if ns == [] {
      GainNothing(r, strings);
    } else {
      var first := EmitNode(v, ns[0], strings, r.counter);
      var rest := EmitNodes(v, ns[1..], first.strings, first.counter);
      NodesGrow(v, ns[1..], first.strings, first.counter);
      SoundParts(first, rest, table);
      ReadNode(r, v, ns[0], strings, table);
      GainTwice(r, first, Flat(v, ns[0]), rest, FlatAll(v, ns[1..]));
      ReadNodes(Gained(r, first, Flat(v, ns[0])), v, ns[1..], first.strings, table);
      ReadSplit(r, first.ops, rest.ops, table);
    }
  }

  /** Create, attributes, Enter, children and Leave give back the one element. */
  lemma {:induction false} ReadElement(r: Reader, v: View, n: Node, strings: seq<string>, table: seq<string>)
    requires n.Element? && TakesChildren(r) && Sound(EmitNode(v, n, strings, r.counter), table) && Slotless(v, n) == 0
    ensures var e := EmitNode(v, n, strings, r.counter); ReadAll(r, e.ops, table) == Some(Gained(r, e, Flat(v, n)))
    decreases n, 0
  {
    hide Sound, Read, Gained, TakesChildren, EmitNode, EmitNodes, EmitProps, EmitSlots, ReadAll, WithAttrs;
    var c := r.counter;
    var props := EmitProps(n.props, strings, c + 1);
    var slots := EmitSlots(n.slots, c, props.strings, c + 1);
    var children := EmitNodes(v, n.children, props.strings, c + 1);
    var head, enter := Out([Create(n.tag)], [], [], strings, c + 1), Out([Enter], [], [], props.strings, c + 1);
    var leave := Out([Leave], [], [], children.strings, children.counter);
    ElementIs(v, n, strings, c);
    PropsGrow(n.props, strings, c + 1);
    PropsCount(n.props, strings, c + 1);
    SlotsCount(n.slots, c, props.strings, c + 1);
    NodesGrow(v, n.children, props.strings, c + 1);
    SoundElement(head, props, slots, enter, children, leave, table);
    var r1 := r.(stack := [Frame(n.tag, c, [], [], false, [])] + r.stack, counter := c + 1);
    var r2 := WithAttrs(r1, n.props, [], []);
    var frame := Frame(n.tag, c, n.props, n.slots, true, []);
    var r4 := r.(stack := [frame] + r.stack, counter := c + 1, anchors := r.anchors + slots.anchors);
    Opening(r, n, slots.anchors, table);
    ReadProps(r1, n.props, strings, c + 1, table);
    ReadSlots(r2, n.slots, props.strings, c + 1, table);
    ReadNodes(r4, v, n.children, props.strings, table);
    var r5 := Gained(r4, children, FlatAll(v, n.children));
    var all := EmitNode(v, n, strings, c);
    ElementAnchors(head, props, slots, enter, children, leave);
    Closing(r, n, frame, slots.anchors, children, FlatAll(v, n.children), all, table);
    ReadSix(r, head.ops, props.ops, slots.ops, enter.ops, children.ops, leave.ops, table);
  }

  lemma SoundElement(head: Out, props: Out, slots: Out, enter: Out, children: Out, leave: Out, table: seq<string>)
    requires head.strings <= props.strings == slots.strings == enter.strings <= children.strings == leave.strings
    requires Sound(Then(Then(Then(Then(Then(head, props), slots), enter), children), leave), table)
    ensures Sound(props, table) && Sound(slots, table) && Sound(children, table)
  {
    hide Sound;
    SoundParts(Then(Then(Then(Then(head, props), slots), enter), children), leave, table);
    SoundParts(Then(Then(Then(head, props), slots), enter), children, table);
    SoundParts(Then(Then(head, props), slots), enter, table);
    SoundParts(Then(head, props), slots, table);
    SoundParts(head, props, table);
  }

  lemma ElementAnchors(head: Out, props: Out, slots: Out, enter: Out, children: Out, leave: Out)
    requires head.anchors == [] && props.anchors == [] && enter.anchors == [] && leave.anchors == []
    ensures Then(Then(Then(Then(Then(head, props), slots), enter), children), leave).anchors ==
            slots.anchors + children.anchors
  {
  }

  /** From Create to Enter. */
  lemma Opening(r: Reader, n: Node, anchors: seq<Anchor>, table: seq<string>)
    requires n.Element? && TakesChildren(r)
    ensures var r1 := r.(stack := [Frame(n.tag, r.counter, [], [], false, [])] + r.stack, counter := r.counter + 1);
            var r2 := WithAttrs(r1, n.props, [], []);
            var r3 := WithAttrs(r2, [], n.slots, anchors);
            var frame := Frame(n.tag, r.counter, n.props, n.slots, true, []);
            var r4 := r.(stack := [frame] + r.stack, counter := r.counter + 1, anchors := r.anchors + anchors);
            && ReadAll(r, [Create(n.tag)], table) == Some(r1) && !TakesChildren(r1)
            && !TakesChildren(r2) && r2.stack[0].node == r.counter
            && ReadAll(r3, [Enter], table) == Some(r4) && TakesChildren(r4)
  {
    assert [Create(n.tag)][1..] == [] && [Enter][1..] == [];
    var r1 := r.(stack := [Frame(n.tag, r.counter, [], [], false, [])] + r.stack, counter := r.counter + 1);
    assert [] + n.props == n.props && n.props + [] == n.props && [] + n.slots == n.slots;
    assert r.anchors + [] == r.anchors;
    var r2 := WithAttrs(r1, n.props, [], []);
    assert r1.stack[1..] == r.stack && r2.stack[1..] == r.stack;
    var r3 := WithAttrs(r2, [], n.slots, anchors);
    assert r3.stack[1..] == r.stack && r3.stack[0].props == n.props && r3.stack[0].slots == n.slots;
    assert r3.anchors == r.anchors + anchors;
    var r4 := Read(r3, Enter, table).value;
    assert r4.stack == [r4.stack[0]] + r.stack;
  }

  /** Leave, back in the element's parent. */
  lemma Closing(r: Reader, n: Node, frame: Frame, anchors: seq<Anchor>, children: Out, flat: seq<Skeleton>, all: Out,
                table: seq<string>)
    requires n.Element? && TakesChildren(r) && frame == Frame(n.tag, r.counter, n.props, n.slots, true, [])
    requires all.counter == children.counter && all.anchors == anchors + children.anchors
    ensures var r4 := r.(stack := [frame] + r.stack, counter := r.counter + 1, anchors := r.anchors + anchors);
            ReadAll(Gained(r4, children, flat), [Leave], table) ==
            Some(Gained(r, all, [Elem(n.tag, n.props, n.slots, flat)]))
  {
    var r4 := r.(stack := [frame] + r.stack, counter := r.counter + 1, anchors := r.anchors + anchors);
    assert [Leave][1..] == [];
    assert [] + flat == flat && r4.stack[1..] == r.stack;
    assert Gained(r4, children, flat).stack[1..] == r.stack;
    assert (r.anchors + anchors) + children.anchors == r.anchors + all.anchors;
  }

  lemma ReadSix(r: Reader, a: seq<Op>, b: seq<Op>, c: seq<Op>, d: seq<Op>, e: seq<Op>, f: seq<Op>, table: seq<string>)
    requires ReadAll(r, a, table).Some?
    requires var r1 := ReadAll(r, a, table).value; ReadAll(r1, b, table).Some?
    requires var r2 := ReadAll(ReadAll(r, a, table).value, b, table).value; ReadAll(r2, c, table).Some?
    requires var r3 := ReadAll(ReadAll(ReadAll(r, a, table).value, b, table).value, c, table).value;
             ReadAll(r3, d, table).Some?
    ensures var r3 := ReadAll(ReadAll(ReadAll(r, a, table).value, b, table).value, c, table).value;
            var r4 := ReadAll(r3, d, table).value;
            var r5 := ReadAll(r4, e, table);
            r5.Some? ==> ReadAll(r, ((((a + b) + c) + d) + e) + f, table) == ReadAll(r5.value, f, table)
  {
    hide ReadAll;
    ReadSplit(r, a, b, table);
    ReadSplit(r, a + b, c, table);
    ReadSplit(r, (a + b) + c, d, table);
    ReadSplit(r, ((a + b) + c) + d, e, table);
    ReadSplit(r, (((a + b) + c) + d) + e, f, table);
  }

  // ----- the theorem -----

  /** Ids of the tree that fit their fields: every slot known, and every region with a slot. */
  predicate TreeFits(v: View, n: Node)
    decreases n, 0
  {
    match n
    case Element(tag, props, slots, children) =>
      && tag < PAYLOADS && (forall k :: 0 <= k < |props| ==> props[k].id < PROPS)
      && (forall k :: 0 <= k < |slots| ==> slots[k] < PAYLOADS) && AllTreeFits(v, children)
    case TextRun(pieces, slots) =>
      forall k :: 0 <= k < |pieces| && k < |slots| && pieces[k].Hole? ==> slots[k].Some? && slots[k].value < PAYLOADS
    case Region(region) => RegionSlot(v.slots, region).Some? && RegionSlot(v.slots, region).value < PAYLOADS
    case Fragment(children) => AllTreeFits(v, children)
  }

  predicate AllTreeFits(v: View, ns: seq<Node>)
    decreases ns, 1
  {
    ns == [] || (TreeFits(v, ns[0]) && AllTreeFits(v, ns[1..]))
  }

  predicate OutFits(e: Out) {
    AllFit(e.ops) && SlotsFit(e.anchors)
  }

  lemma ThenFits(a: Out, b: Out)
    requires OutFits(a) && OutFits(b)
    ensures OutFits(Then(a, b))
  {
  }

  lemma InternFits(strings: seq<string>, s: string, table: seq<string>)
    requires Interned(strings, s).1 <= table && |table| <= TEXTS && Distinct(table)
    ensures Interned(strings, s).0 < TEXTS
  {
    hide Interned, Distinct;
    InternGrows(strings, s, table);
  }

  lemma {:induction false} PropsFit(props: seq<Prop>, strings: seq<string>, counter: nat, table: seq<string>)
    requires (forall k :: 0 <= k < |props| ==> props[k].id < PROPS)
    requires EmitProps(props, strings, counter).strings <= table && |table| <= TEXTS && Distinct(table)
    ensures OutFits(EmitProps(props, strings, counter))
  {
    hide Interned, Distinct;
    if props != [] {
      var (id, after) := Interned(strings, props[0].value);
      PropsGrow(props[1..], after, counter);
      InternFits(strings, props[0].value, table);
      PropsFit(props[1..], after, counter, table);
      ThenFits(Out([StaticProp(props[0].id, id)], [], [], after, counter), EmitProps(props[1..], after, counter));
    }
  }

  lemma {:induction false} SlotsAllFit(slots: seq<nat>, node: nat, strings: seq<string>, counter: nat)
    requires forall k :: 0 <= k < |slots| ==> slots[k] < PAYLOADS
    ensures OutFits(EmitSlots(slots, node, strings, counter))
  {
    if slots != [] {
      SlotsAllFit(slots[1..], node, strings, counter);
      ThenFits(Out([SlotMarker(CutSlot(slots[0]))], [Anchor(slots[0], node)], [], strings, counter),
               EmitSlots(slots[1..], node, strings, counter));
    }
  }

  lemma {:induction false} PiecesFit(pieces: seq<Piece>, slots: seq<Option<nat>>, strings: seq<string>, counter: nat,
                                     table: seq<string>)
    requires forall k :: 0 <= k < |pieces| && k < |slots| && pieces[k].Hole? ==>
             slots[k].Some? && slots[k].value < PAYLOADS
    requires EmitPieces(pieces, slots, strings, counter).strings <= table && |table| <= TEXTS && Distinct(table)
    ensures OutFits(EmitPieces(pieces, slots, strings, counter))
  {
    hide Interned, Distinct;
    if pieces != [] && slots != [] {
      var first := EmitPiece(pieces[0], slots[0], strings, counter);
      PiecesGrow(pieces[1..], slots[1..], first.strings, first.counter);
      if pieces[0].Static? {
        InternFits(strings, pieces[0].text, table);
      }
      PiecesFit(pieces[1..], slots[1..], first.strings, first.counter, table);
      ThenFits(first, EmitPieces(pieces[1..], slots[1..], first.strings, first.counter));
    }
  }

  lemma {:induction false} NodeFits(v: View, n: Node, strings: seq<string>, counter: nat, table: seq<string>)
    requires TreeFits(v, n) && EmitNode(v, n, strings, counter).strings <= table && |table| <= TEXTS && Distinct(table)
    ensures OutFits(EmitNode(v, n, strings, counter))
    decreases n, 1
  {
    hide Distinct, EmitNodes, EmitProps, EmitSlots, EmitPieces;
    match n
    case Element(_, _, _, _) => ElementNodeFits(v, n, strings, counter, table);
    case TextRun(pieces, slots) => PiecesFit(pieces, slots, strings, counter, table);
    case Region(_) =>
    case Fragment(children) => NodesFit(v, children, strings, counter, table);
  }

  lemma {:induction false} ElementNodeFits(v: View, n: Node, strings: seq<string>, counter: nat, table: seq<string>)
    requires n.Element? && TreeFits(v, n)
    requires EmitNode(v, n, strings, counter).strings <= table && |table| <= TEXTS && Distinct(table)
    ensures OutFits(EmitNode(v, n, strings, counter))
    decreases n, 0
  {
    hide Distinct, EmitNode, EmitNodes, EmitProps, EmitSlots, EmitPieces, AllTreeFits, Then;
    var c := counter + 1;
    var p := EmitProps(n.props, strings, c);
    var s := EmitSlots(n.slots, counter, p.strings, c);
    var b := EmitNodes(v, n.children, p.strings, c);
    ElementStrings(v, n, strings, counter);
    NodesGrow(v, n.children, p.strings, c);
    PropsFit(n.props, strings, c, table);
    SlotsAllFit(n.slots, counter, p.strings, c);
    NodesFit(v, n.children, p.strings, c, table);
    ElementIs(v, n, strings, counter);
    ElementFits(Out([Create(n.tag)], [], [], strings, c), p, s, Out([Enter], [], [], p.strings, c), b,
                Out([Leave], [], [], b.strings, b.counter));
  }

  lemma ElementFits(a: Out, b: Out, c: Out, d: Out, e: Out, f: Out)
    requires OutFits(a) && OutFits(b) && OutFits(c) && OutFits(d) && OutFits(e) && OutFits(f)
    ensures OutFits(Then(Then(Then(Then(Then(a, b), c), d), e), f))
  {
    hide OutFits, Then;
    ThenFits(a, b);
    ThenFits(Then(a, b), c);
    ThenFits(Then(Then(a, b), c), d);
    ThenFits(Then(Then(Then(a, b), c), d), e);
    ThenFits(Then(Then(Then(Then(a, b), c), d), e), f);
  }

  lemma {:induction false} NodesFit(v: View, ns: seq<Node>, strings: seq<string>, counter: nat, table: seq<string>)
    requires AllTreeFits(v, ns) && EmitNodes(v, ns, strings, counter).strings <= table && |table| <= TEXTS
             && Distinct(table)
    ensures OutFits(EmitNodes(v, ns, strings, counter))
    decreases ns, 2
  {
    hide Distinct, EmitNode;
    if ns != [] {
      var first := EmitNode(v, ns[0], strings, counter);
      NodesGrow(v, ns[1..], first.strings, first.counter);
      NodeFits(v, ns[0], strings, counter, table);
      NodesFit(v, ns[1..], first.strings, first.counter, table);
      ThenFits(first, EmitNodes(v, ns[1..], first.strings, first.counter));
    }
  }

  /** Small ids and a small string table are enough for every op to fit. */
  lemma ViewFits(v: View)
    requires AllTreeFits(v, v.roots) && |EmitView(v).strings| <= TEXTS
    ensures OutFits(EmitView(v))
  {
    hide EmitNodes, AllTreeFits;
    NodesGrow(v, v.roots, [], 0);
    NodesFit(v, v.roots, [], 0, EmitView(v).strings);
  }

  // ----- a region without a slot leaves an op that does not fit -----

  lemma FitsSplit(a: Out, b: Out)
    requires AllFit(Then(a, b).ops)
    ensures AllFit(a.ops) && AllFit(b.ops)
  {
    var ops := Then(a, b).ops;
    assert forall k :: 0 <= k < |a.ops| ==> ops[k] == a.ops[k];
    assert forall k :: 0 <= k < |b.ops| ==> ops[|a.ops| + k] == b.ops[k];
  }

  lemma {:induction false} NodeHasSlots(v: View, n: Node, strings: seq<string>, counter: nat)
    requires AllFit(EmitNode(v, n, strings, counter).ops)
    ensures Slotless(v, n) == 0
    decreases n, 0
  {
    hide EmitNodes, EmitProps, EmitSlots, EmitPieces, AllFit;
    match n
    case Element(_, _, _, children) =>
      ElementHasSlots(v, n, strings, counter);
      NodesHaveSlots(v, children, EmitProps(n.props, strings, counter + 1).strings, counter + 1);
    case TextRun(_, _) =>
    case Region(_) => RegionHasSlot(v, n, strings, counter);
    case Fragment(children) => NodesHaveSlots(v, children, strings, counter);
  }

  lemma RegionHasSlot(v: View, n: Node, strings: seq<string>, counter: nat)
    requires n.Region? && AllFit(EmitNode(v, n, strings, counter).ops)
    ensures Slotless(v, n) == 0
  {
    assert Fits(EmitNode(v, n, strings, counter).ops[0]);
  }

  lemma ElementHasSlots(v: View, n: Node, strings: seq<string>, counter: nat)
    requires n.Element? && AllFit(EmitNode(v, n, strings, counter).ops)
    ensures AllFit(EmitNodes(v, n.children, EmitProps(n.props, strings, counter + 1).strings, counter + 1).ops)
  {
    hide EmitNodes, EmitProps, EmitSlots, AllFit, Then;
    var c := counter + 1;
    var p := EmitProps(n.props, strings, c);
    var s := EmitSlots(n.slots, counter, p.strings, c);
    var b := EmitNodes(v, n.children, p.strings, c);
    ElementIs(v, n, strings, counter);
    var head := Then(Then(Then(Out([Create(n.tag)], [], [], strings, c), p), s), Out([Enter], [], [], p.strings, c));
    FitsSplit(Then(head, b), Out([Leave], [], [], b.strings, b.counter));
    FitsSplit(head, b);
  }

  lemma {:induction false} NodesHaveSlots(v: View, ns: seq<Node>, strings: seq<string>, counter: nat)
    requires AllFit(EmitNodes(v, ns, strings, counter).ops)
    ensures SlotlessAll(v, ns) == 0
    decreases ns, 1
  {
    hide EmitNode, Slotless, AllFit, Then;
    if ns != [] {
      var first := EmitNode(v, ns[0], strings, counter);
      FitsSplit(first, EmitNodes(v, ns[1..], first.strings, first.counter));
      NodeHasSlots(v, ns[0], strings, counter);
      NodesHaveSlots(v, ns[1..], first.strings, first.counter);
    }
  }

  // ----- reading loses nothing -----

  predicate SameKind(a: Op, b: Op) {
    match a
    case Create(_) => b.Create?
    case StaticProp(_, _) => b.StaticProp?
    case Text(_) => b.Text?
    case Enter => b.Enter?
    case Leave => b.Leave?
    case SlotMarker(_) => b.SlotMarker?
  }

  lemma KindKept(op: Op)
    ensures SameKind(op, DecodeWord(EncodeOp(op)))
  {
    hide PackProp;
    match op
    case Create(tag) => SplitWord(0, tag);
    case StaticProp(prop, text) => SplitWord(1, PackProp(prop, text));
    case Text(text) => SplitWord(2, text);
    case Enter => SplitWord(3, 0);
    case Leave => SplitWord(4, 0);
    case SlotMarker(slot) => SplitWord(5, slot);
  }

  predicate Level(s: seq<Frame>, t: seq<Frame>) {
    |s| == |t| && forall k :: 0 <= k < |s| ==> s[k].node == t[k].node && s[k].open == t[k].open
  }

  /** Two readers that have come as far: the same elements open at the same nodes. */
  predicate Abreast(a: Reader, b: Reader) {
    a.counter == b.counter && Level(a.stack, b.stack)
  }

  lemma LevelPush(f: Frame, s: seq<Frame>, g: Frame, t: seq<Frame>)
    requires Level(s, t) && f.node == g.node && f.open == g.open
    ensures Level([f] + s, [g] + t)
  {
  }

  lemma LevelPop(s: seq<Frame>, t: seq<Frame>)
    requires Level(s, t) && s != []
    ensures t != [] && Level(s[1..], t[1..]) && s[0].node == t[0].node && s[0].open == t[0].open
  {
  }

  /** Replacing the top frame by one at the same node. */
  lemma LevelTop(f: Frame, s: seq<Frame>, g: Frame, t: seq<Frame>)
    requires Level(s, t) && s != [] && t != [] && f.node == g.node && f.open == g.open
    ensures Level([f] + s[1..], [g] + t[1..])
  {
    hide Level;
    LevelPop(s, t);
    LevelPush(f, s[1..], g, t[1..]);
  }

  lemma StayAbreast(a: Reader, b: Reader, x: Op, y: Op, strings: seq<string>)
    requires Abreast(a, b) && SameKind(x, y) && Read(a, x, strings).Some? && Read(b, y, strings).Some?
    ensures Abreast(Read(a, x, strings).value, Read(b, y, strings).value)
  {
    hide Level;
    var c, d := Read(a, x, strings).value.stack, Read(b, y, strings).value.stack;
    if a.stack != [] {
      LevelPop(a.stack, b.stack);
    }
    BothEmpty(a.stack, b.stack);
    if x.Create? {
      LevelPush(c[0], a.stack, d[0], b.stack);
    } else if x.Leave? {
      if a.stack[1..] != [] {
        LevelPop(a.stack[1..], b.stack[1..]);
        LevelTop(c[0], a.stack[1..], d[0], b.stack[1..]);
      }
    } else if a.stack != [] {
      LevelTop(c[0], a.stack, d[0], b.stack);
    }
  }

  lemma BothEmpty(s: seq<Frame>, t: seq<Frame>)
    requires Level(s, t)
    ensures s == [] <==> t == []
  {
  }

  lemma ReadOneApart(a: Reader, b: Reader, x: Op, y: Op, strings: seq<string>)
    requires Abreast(a, b) && SameKind(x, y) && Distinct(strings)
    requires Read(a, x, strings).Some? && Read(b, y, strings).Some?
    ensures Abreast(Read(a, x, strings).value, Read(b, y, strings).value)
    ensures Read(a, x, strings) == Read(b, y, strings) ==> a == b && x == y
  {
    hide Read, Abreast, SameKind, Distinct;
    StayAbreast(a, b, x, y, strings);
    if Read(a, x, strings) == Read(b, y, strings) {
      SameBefore(a, b, x, y, strings);
    }
  }

  lemma LastEqual<T>(p: seq<T>, x: T, q: seq<T>, y: T)
    requires p + [x] == q + [y]
    ensures p == q && x == y
  {
    assert (p + [x])[..|p|] == p && (q + [y])[..|q|] == q;
    assert (p + [x])[|p|] == x && (q + [y])[|q|] == y;
  }

  lemma TopEqual(f: Frame, s: seq<Frame>, g: Frame, t: seq<Frame>)
    requires [f] + s == [g] + t
    ensures f == g && s == t
  {
    assert ([f] + s)[0] == f && ([g] + t)[0] == g && ([f] + s)[1..] == s && ([g] + t)[1..] == t;
  }

  lemma ChildEqual(a: Reader, b: Reader, x: Skeleton, y: Skeleton)
    requires Abreast(a, b) && AddChildren(a, [x]) == AddChildren(b, [y])
    ensures a == b && x == y
  {
    if a.stack == [] {
      LastEqual(a.roots, x, b.roots, y);
    } else {
      var f, g := a.stack[0], b.stack[0];
      TopEqual(f.(children := f.children + [x]), a.stack[1..], g.(children := g.children + [y]), b.stack[1..]);
      LastEqual(f.children, x, g.children, y);
      assert a.stack == [f] + a.stack[1..] && b.stack == [g] + b.stack[1..];
    }
  }

  lemma SameBefore(a: Reader, b: Reader, x: Op, y: Op, strings: seq<string>)
    requires Abreast(a, b) && SameKind(x, y) && Distinct(strings)
    requires Read(a, x, strings).Some? && Read(a, x, strings) == Read(b, y, strings)
    ensures a == b && x == y
  {
    hide AddChildren;
    var r := Read(a, x, strings).value;
    match x {
      case Create(tag) =>
        TopEqual(Frame(tag, a.counter, [], [], false, []), a.stack, Frame(y.tag, b.counter, [], [], false, []),
                 b.stack);
      case StaticProp(prop, text) => PropEqual(a, b, x, y, strings);
      case Text(text) => ChildEqual(a, b, Run(strings[text]), Run(strings[y.text]));
      case Enter => EnterEqual(a, b, strings);
      case Leave => LeaveEqual(a, b, strings);
      case SlotMarker(slot) =>
        if TakesChildren(a) {
          MountEqual(a, b, slot, y.slot, strings);
        } else {
          SlotEqual(a, b, slot, y.slot, strings);
        }
    }
  }

  lemma PropEqual(a: Reader, b: Reader, x: Op, y: Op, strings: seq<string>)
    requires x.StaticProp? && y.StaticProp? && Distinct(strings)
    requires Read(a, x, strings).Some? && Read(a, x, strings) == Read(b, y, strings)
    ensures a == b && x == y
  {
    var f, g := a.stack[0], b.stack[0];
    var p, q := Prop(x.prop, strings[x.text]), Prop(y.prop, strings[y.text]);
    TopEqual(f.(props := f.props + [p]), a.stack[1..], g.(props := g.props + [q]), b.stack[1..]);
    LastEqual(f.props, p, g.props, q);
    assert a.stack == [f] + a.stack[1..] && b.stack == [g] + b.stack[1..];
  }

  lemma EnterEqual(a: Reader, b: Reader, strings: seq<string>)
    requires Read(a, Enter, strings).Some? && Read(a, Enter, strings) == Read(b, Enter, strings)
    ensures a == b
  {
    var f, g := a.stack[0], b.stack[0];
    TopEqual(f.(open := true), a.stack[1..], g.(open := true), b.stack[1..]);
    assert a.stack == [f] + a.stack[1..] && b.stack == [g] + b.stack[1..];
  }

  lemma LeaveEqual(a: Reader, b: Reader, strings: seq<string>)
    requires Abreast(a, b) && Read(a, Leave, strings).Some? && Read(a, Leave, strings) == Read(b, Leave, strings)
    ensures a == b
  {
    var f, g := a.stack[0], b.stack[0];
    var a', b' := a.(stack := a.stack[1..]), b.(stack := b.stack[1..]);
    assert Abreast(a', b');
    ChildEqual(a', b', Elem(f.tag, f.props, f.slots, f.children), Elem(g.tag, g.props, g.slots, g.children));
    assert a.stack == [f] + a.stack[1..] && b.stack == [g] + b.stack[1..];
  }

  lemma MountEqual(a: Reader, b: Reader, s: u32, t: u32, strings: seq<string>)
    requires Abreast(a, b) && TakesChildren(a)
    requires Read(a, SlotMarker(s), strings) == Read(b, SlotMarker(t), strings)
    ensures a == b && s == t
  {
    var a' := a.(counter := a.counter + 1, anchors := a.anchors + [Anchor(s, a.counter)]);
    var b' := b.(counter := b.counter + 1, anchors := b.anchors + [Anchor(t, b.counter)]);
    ChildEqual(a', b', Mount(s), Mount(t));
    LastEqual(a.anchors, Anchor(s, a.counter), b.anchors, Anchor(t, b.counter));
  }

  lemma SlotEqual(a: Reader, b: Reader, s: u32, t: u32, strings: seq<string>)
    requires Abreast(a, b) && !TakesChildren(a)
    requires Read(a, SlotMarker(s), strings) == Read(b, SlotMarker(t), strings)
    ensures a == b && s == t
  {
    var f, g := a.stack[0], b.stack[0];
    TopEqual(f.(slots := f.slots + [s as nat]), a.stack[1..], g.(slots := g.slots + [t as nat]), b.stack[1..]);
    LastEqual(f.slots, s as nat, g.slots, t as nat);
    LastEqual(a.anchors, Anchor(s, f.node), b.anchors, Anchor(t, g.node));
    assert a.stack == [f] + a.stack[1..] && b.stack == [g] + b.stack[1..];
  }

  /** Streams of the same kinds of ops that read alike are the same stream. */
  lemma {:induction false} ReadApart(a: Reader, b: Reader, xs: seq<Op>, ys: seq<Op>, strings: seq<string>)
    requires Abreast(a, b) && Distinct(strings) && |xs| == |ys|
    requires forall k :: 0 <= k < |xs| ==> SameKind(xs[k], ys[k])
    requires ReadAll(a, xs, strings).Some? && ReadAll(a, xs, strings) == ReadAll(b, ys, strings)
    ensures a == b && xs == ys
    decreases |xs|
  {
    hide Read, SameKind, Abreast, Distinct;
    if xs != [] {
      ReadOneApart(a, b, xs[0], ys[0], strings);
      ReadApart(Read(a, xs[0], strings).value, Read(b, ys[0], strings).value, xs[1..], ys[1..], strings);
      assert xs == [xs[0]] + xs[1..] && ys == [ys[0]] + ys[1..];
    }
  }

  /** A stream that can be read reads the same after encoding and decoding exactly when every op of it fits. */
  lemma ReadingExact(ops: seq<Op>, strings: seq<string>)
    requires Distinct(strings) && ReadAll(Start(), ops, strings).Some?
    ensures ReadAll(Start(), Decoded(Words(ops)), strings) == ReadAll(Start(), ops, strings) <==> AllFit(ops)
  {
    hide ReadAll, Fits, EncodeOp, DecodeWord, SameKind, Distinct;
    StreamRoundTrip(ops);
    if ReadAll(Start(), Decoded(Words(ops)), strings) == ReadAll(Start(), ops, strings) {
      forall k | 0 <= k < |ops|
        ensures SameKind(ops[k], Decoded(Words(ops))[k])
      {
        KindKept(ops[k]);
      }
      ReadApart(Start(), Start(), ops, Decoded(Words(ops)), strings);
    }
  }

  // ----- the round trip -----

  /** What one pass over the view's stream should give: the skeleton, and every slot at its anchor. */
  function Rebuilt(v: View): Reader {
    Reader(FlatAll(v, v.roots), [], EmitView(v).counter, EmitView(v).anchors)
  }

  lemma ViewRead(v: View)
    requires SlotsFit(EmitView(v).anchors) && |EmitView(v).strings| <= TWO_32 && SlotlessAll(v, v.roots) == 0
    ensures ReadAll(Start(), EmitView(v).ops, EmitView(v).strings) == Some(Rebuilt(v))
    ensures Distinct(EmitView(v).strings)
  {
    hide EmitNodes, ReadAll, FlatAll, SlotlessAll;
    var e := EmitView(v);
    NodesGrow(v, v.roots, [], 0);
    ReadNodes(Start(), v, v.roots, [], e.strings);
    assert [] + FlatAll(v, v.roots) == FlatAll(v, v.roots) && [] + e.anchors == e.anchors;
  }

  lemma {:induction false} SameMarkers(xs: seq<Op>, ys: seq<Op>)
    requires |xs| == |ys| && forall k :: 0 <= k < |xs| ==> SameKind(xs[k], ys[k])
    ensures |Markers(xs)| == |Markers(ys)|
    decreases |xs|
  {
    if xs != [] {
      SameMarkers(xs[1..], ys[1..]);
    }
  }

  lemma {:induction false} MarkersCut(words: seq<u32>)
    ensures forall k :: 0 <= k < |Markers(Decoded(words))| ==> Markers(Decoded(words))[k] < PAYLOADS
    decreases |words|
  {
    if words != [] {
      assert Decoded(words)[1..] == Decoded(words[1..]);
      MarkersCut(words[1..]);
    }
  }

  /** Anchors found in decoded words are of slots that fit, as many as there are markers. */
  lemma FoundAnchors(v: View)
    requires var e := EmitView(v); ReadAll(Start(), Decoded(Words(e.ops)), e.strings) == Some(Rebuilt(v))
    ensures SlotsFit(EmitView(v).anchors) && SlotlessAll(v, v.roots) == 0
  {
    hide ReadAll, FlatAll, EmitNodes, Markers, EncodeOp, DecodeWord, SameKind, SlotlessAll;
    var e := EmitView(v);
    var decoded := Decoded(Words(e.ops));
    MarkersAreAnchors(Start(), decoded, e.strings);
    assert SlotsOf(Start().anchors) == [] && SlotsOf(e.anchors) == Markers(decoded);
    MarkersCut(Words(e.ops));
    forall k | 0 <= k < |e.anchors|
      ensures e.anchors[k].slot < PAYLOADS
    {
      assert SlotsOf(e.anchors)[k] == e.anchors[k].slot;
    }
    forall k | 0 <= k < |e.ops|
      ensures SameKind(e.ops[k], decoded[k])
    {
      KindKept(e.ops[k]);
    }
    SameMarkers(e.ops, decoded);
    MarkersPairExactly(v);
  }

  /**
  Encoding a view and decoding it again in one pass gives the view's skeleton with fragments
  flattened and the original strings, and every slot anchored at the node it was anchored to, exactly
  when all of its ops and slots fit.
  */
  lemma ViewRoundTrip(v: View)
    requires |EmitView(v).strings| <= TWO_32
    ensures var e := EmitView(v);
            ReadAll(Start(), Decoded(Words(e.ops)), e.strings) == Some(Rebuilt(v)) <==> OutFits(e)
  {
    hide EmitNodes, ReadAll, Fits, Rebuilt, SlotlessAll, EmitView, AllFit, SlotsFit;
    var e := EmitView(v);
    if ReadAll(Start(), Decoded(Words(e.ops)), e.strings) == Some(Rebuilt(v)) {
      FoundAnchors(v);
      ViewRead(v);
      ReadingExact(e.ops, e.strings);
    }
    if OutFits(e) {
      ViewHasSlots(v);
      ViewRead(v);
      ReadingExact(e.ops, e.strings);
    }
  }

  lemma ViewHasSlots(v: View)
    requires AllFit(EmitView(v).ops)
    ensures SlotlessAll(v, v.roots) == 0
  {
    hide EmitNodes, AllFit;
    NodesHaveSlots(v, v.roots, [], 0);
  }

  // ----- markers, anchors and brackets of any stream that can be read -----

  function SlotsOf(anchors: seq<Anchor>): (r: seq<nat>)
    ensures |r| == |anchors|
  {
    seq(|anchors|, k requires 0 <= k < |anchors| => anchors[k].slot)
  }

  /** The k-th marker of a stream is the k-th anchor found by reading it. */
  lemma {:induction false} MarkersAreAnchors(r: Reader, ops: seq<Op>, strings: seq<string>)
    requires ReadAll(r, ops, strings).Some?
    ensures SlotsOf(ReadAll(r, ops, strings).value.anchors) == SlotsOf(r.anchors) + Markers(ops)
    decreases |ops|
  {
    if ops != [] {
      var next := Read(r, ops[0], strings).value;
      MarkersAreAnchors(next, ops[1..], strings);
      OneMarker(r, ops[0], strings);
    }
  }

  lemma OneMarker(r: Reader, op: Op, strings: seq<string>)
    requires Read(r, op, strings).Some?
    ensures SlotsOf(Read(r, op, strings).value.anchors) ==
            SlotsOf(r.anchors) + if op.SlotMarker? then [op.slot as nat] else []
  {
  }

  /** Running nesting depth; None when a Leave has no Enter. */
  function Nesting(ops: seq<Op>, depth: nat): Option<nat>
    decreases |ops|
  {
    if ops == [] then Some(depth)
    else if ops[0].Enter? then Nesting(ops[1..], depth + 1)
    else if ops[0].Leave? then (if depth == 0 then None else Nesting(ops[1..], depth - 1))
    else Nesting(ops[1..], depth)
  }

  function Opens(stack: seq<Frame>): nat {
    if stack == [] then 0 else (if stack[0].open then 1 else 0) + Opens(stack[1..])
  }

  lemma {:induction false} ReadNests(r: Reader, ops: seq<Op>, strings: seq<string>)
    requires ReadAll(r, ops, strings).Some?
    ensures Nesting(ops, Opens(r.stack)) == Some(Opens(ReadAll(r, ops, strings).value.stack))
    decreases |ops|
  {
    if ops != [] {
      OneNests(r, ops[0], strings);
      ReadNests(Read(r, ops[0], strings).value, ops[1..], strings);
    }
  }

  lemma OneNests(r: Reader, op: Op, strings: seq<string>)
    requires Read(r, op, strings).Some?
    ensures op.Leave? ==> Opens(r.stack) > 0
    ensures Opens(Read(r, op, strings).value.stack) ==
            Opens(r.stack) + (if op.Enter? then 1 else 0) - (if op.Leave? then 1 else 0)
  {
    var next := Read(r, op, strings).value.stack;
    if r.stack != [] {
      assert op.Create? || op.Leave? || (next != [] && next[1..] == r.stack[1..]);
      if op.Create? {
        assert next[1..] == r.stack;
      }
      if op.Leave? && r.stack[1..] != [] {
        assert next[1..] == r.stack[1..][1..];
      }
    }
  }

  /** The stream of a view is well bracketed, and its k-th marker is the k-th slot anchor. */
  lemma ViewStream(v: View)
    requires OutFits(EmitView(v)) && |EmitView(v).strings| <= TWO_32
    ensures var e := EmitView(v);
            Nesting(Decoded(Words(e.ops)), 0) == Some(0) && Markers(Decoded(Words(e.ops))) == SlotsOf(e.anchors)
  {
    hide ReadAll, Nesting, Markers, OutFits, FlatAll, EmitNodes;
    var e := EmitView(v);
    ViewRoundTrip(v);
    ReadNests(Start(), Decoded(Words(e.ops)), e.strings);
    MarkersAreAnchors(Start(), Decoded(Words(e.ops)), e.strings);
    assert SlotsOf(Start().anchors) == [];
  }

  // ----- markers without an anchor -----

  lemma {:induction false} MarkersSplit(a: seq<Op>, b: seq<Op>)
    ensures Markers(a + b) == Markers(a) + Markers(b)
    decreases |a|
  {
    if a == [] {
      assert a + b == b;
    } else {
      assert (a + b)[0] == a[0] && (a + b)[1..] == a[1..] + b;
      MarkersSplit(a[1..], b);
    }
  }

  predicate Surplus(e: Out, extra: nat) {
    |Markers(e.ops)| == |e.anchors| + extra
  }

  lemma ThenSurplus(a: Out, x: nat, b: Out, y: nat)
    requires Surplus(a, x) && Surplus(b, y)
    ensures Surplus(Then(a, b), x + y)
  {
    MarkersSplit(a.ops, b.ops);
  }

  lemma {:induction false} PartsSurplus(props: seq<Prop>, slots: seq<nat>, node: nat, strings: seq<string>,
                                        counter: nat)
    ensures Surplus(EmitProps(props, strings, counter), 0) && Surplus(EmitSlots(slots, node, strings, counter), 0)
    decreases |props| + |slots|
  {
    hide Interned;
    if props != [] {
      var (id, after) := Interned(strings, props[0].value);
      PartsSurplus(props[1..], [], node, after, counter);
      ThenSurplus(Out([StaticProp(props[0].id, id)], [], [], after, counter), 0, EmitProps(props[1..], after, counter),
                  0);
    }
    if slots != [] {
      PartsSurplus([], slots[1..], node, strings, counter);
      var first := Out([SlotMarker(CutSlot(slots[0]))], [Anchor(slots[0], node)], [], strings, counter);
      assert first.ops[1..] == [];
      ThenSurplus(first, 0, EmitSlots(slots[1..], node, strings, counter), 0);
    }
  }

  lemma {:induction false} PiecesSurplus(pieces: seq<Piece>, slots: seq<Option<nat>>, strings: seq<string>,
                                         counter: nat)
    ensures Surplus(EmitPieces(pieces, slots, strings, counter), 0)
  {
    hide Interned;
    if pieces != [] && slots != [] {
      var first := EmitPiece(pieces[0], slots[0], strings, counter);
      assert first.ops[1..] == [];
      PiecesSurplus(pieces[1..], slots[1..], first.strings, first.counter);
      ThenSurplus(first, 0, EmitPieces(pieces[1..], slots[1..], first.strings, first.counter), 0);
    }
  }

  lemma {:induction false} NodeSurplus(v: View, n: Node, strings: seq<string>, counter: nat)
    ensures Surplus(EmitNode(v, n, strings, counter), Slotless(v, n))
    decreases n, 0
  {
    hide EmitNodes, EmitProps, EmitSlots, EmitPieces;
    match n
    case Element(tag, props, slots, children) =>
      var c := counter + 1;
      var p := EmitProps(props, strings, c);
      var s := EmitSlots(slots, counter, p.strings, c);
      var b := EmitNodes(v, children, p.strings, c);
      PartsSurplus(props, slots, counter, strings, c);
      PartsSurplus(props, slots, counter, p.strings, c);
      NodesSurplus(v, children, p.strings, c);
      ElementIs(v, n, strings, counter);
      ElementSurplus(Out([Create(tag)], [], [], strings, c), p, s, Out([Enter], [], [], p.strings, c), b,
                     Out([Leave], [], [], b.strings, b.counter), SlotlessAll(v, children));
    case TextRun(pieces, slots) => PiecesSurplus(pieces, slots, strings, counter);
    case Region(_) => RegionSurplus(v, n, strings, counter);
    case Fragment(children) => NodesSurplus(v, children, strings, counter);
  }

  lemma PlainOp(e: Out)
    requires |e.ops| == 1 && !e.ops[0].SlotMarker? && e.anchors == []
    ensures Surplus(e, 0)
  {
    assert e.ops[1..] == [];
  }

  lemma RegionSurplus(v: View, n: Node, strings: seq<string>, counter: nat)
    requires n.Region?
    ensures Surplus(EmitNode(v, n, strings, counter), Slotless(v, n))
  {
    var e := EmitNode(v, n, strings, counter);
    assert e.ops[1..] == [] && Markers(e.ops[1..]) == [];
  }

  lemma ElementSurplus(a: Out, b: Out, c: Out, d: Out, e: Out, f: Out, extra: nat)
    requires |a.ops| == |d.ops| == |f.ops| == 1 && a.ops[0].Create? && d.ops[0].Enter? && f.ops[0].Leave?
    requires a.anchors == [] && d.anchors == [] && f.anchors == []
    requires Surplus(b, 0) && Surplus(c, 0) && Surplus(e, extra)
    ensures Surplus(Then(Then(Then(Then(Then(a, b), c), d), e), f), extra)
  {
    hide Then, Surplus;
    PlainOp(a);
    PlainOp(d);
    PlainOp(f);
    ThenSurplus(a, 0, b, 0);
    ThenSurplus(Then(a, b), 0, c, 0);
    ThenSurplus(Then(Then(a, b), c), 0, d, 0);
    ThenSurplus(Then(Then(Then(a, b), c), d), 0, e, extra);
    ThenSurplus(Then(Then(Then(Then(a, b), c), d), e), extra, f, 0);
  }

  lemma {:induction false} NodesSurplus(v: View, ns: seq<Node>, strings: seq<string>, counter: nat)
    ensures Surplus(EmitNodes(v, ns, strings, counter), SlotlessAll(v, ns))
    decreases ns, 1
  {
    hide EmitNode, Slotless;
    if ns != [] {
      var first := EmitNode(v, ns[0], strings, counter);
      NodeSurplus(v, ns[0], strings, counter);
      NodesSurplus(v, ns[1..], first.strings, first.counter);
      ThenSurplus(first, Slotless(v, ns[0]), EmitNodes(v, ns[1..], first.strings, first.counter),
                  SlotlessAll(v, ns[1..]));
    }
  }

  /** Markers and anchors pair up exactly when every region has a slot; each slotless one adds a lone marker. */
  lemma MarkersPairExactly(v: View)
    ensures |Markers(EmitView(v).ops)| == |EmitView(v).anchors| + SlotlessAll(v, v.roots)
  {
    NodesSurplus(v, v.roots, [], 0);
  }

  // ----- text fills -----

  /** The slots of the holes of a text, as far as both lists go. */
  function HolesIn(pieces: seq<Piece>, slots: seq<Option<nat>>): seq<nat> {
    if pieces == [] || slots == [] then []
    else (if pieces[0].Hole? then [HoleSlot(slots[0])] else []) + HolesIn(pieces[1..], slots[1..])
  }

  /** The slots of all text holes, in document order. */
  function HolesOf(n: Node): seq<nat>
    decreases n, 0
  {
    match n
    case Element(_, _, _, children) => HolesOfAll(children)
    case TextRun(pieces, slots) => HolesIn(pieces, slots)
    case Region(_) => []
    case Fragment(children) => HolesOfAll(children)
  }

  function HolesOfAll(ns: seq<Node>): seq<nat>
    decreases ns, 1
  {
    if ns == [] then [] else HolesOf(ns[0]) + HolesOfAll(ns[1..])
  }

  /** The fills are those slots, each anchored as the slot is. */
  predicate FillsAre(e: Out, slots: seq<nat>) {
    SlotsOf(e.fills) == slots && forall f <- e.fills :: f in e.anchors
  }

  lemma ThenFills(a: Out, x: seq<nat>, b: Out, y: seq<nat>)
    requires FillsAre(a, x) && FillsAre(b, y)
    ensures FillsAre(Then(a, b), x + y)
  {
    assert SlotsOf(a.fills + b.fills) == SlotsOf(a.fills) + SlotsOf(b.fills);
  }

  lemma NoFills(e: Out)
    requires e.fills == []
    ensures FillsAre(e, [])
  {
  }

  lemma {:induction false} PartsFillNothing(props: seq<Prop>, slots: seq<nat>, node: nat, strings: seq<string>,
                                            counter: nat)
    ensures EmitProps(props, strings, counter).fills == [] && EmitSlots(slots, node, strings, counter).fills == []
    decreases |props| + |slots|
  {
    hide Interned;
    if props != [] {
      PartsFillNothing(props[1..], [], node, Interned(strings, props[0].value).1, counter);
    }
    if slots != [] {
      PartsFillNothing([], slots[1..], node, strings, counter);
    }
  }

  lemma PieceFills(piece: Piece, slot: Option<nat>, strings: seq<string>, counter: nat)
    ensures FillsAre(EmitPiece(piece, slot, strings, counter), if piece.Hole? then [HoleSlot(slot)] else [])
  {
    hide Interned, HoleSlot;
    if piece.Hole? {
      var anchor := Anchor(HoleSlot(slot), counter);
      assert EmitPiece(piece, slot, strings, counter).fills == [anchor];
      assert SlotsOf([anchor]) == [HoleSlot(slot)];
    }
  }

  lemma {:induction false} PiecesFill(pieces: seq<Piece>, slots: seq<Option<nat>>, strings: seq<string>, counter: nat)
    ensures FillsAre(EmitPieces(pieces, slots, strings, counter), HolesIn(pieces, slots))
  {
    hide EmitPiece, FillsAre, HoleSlot, Then;
    if pieces == [] || slots == [] {
      NoFills(EmitPieces(pieces, slots, strings, counter));
    } else {
      var first := EmitPiece(pieces[0], slots[0], strings, counter);
      PieceFills(pieces[0], slots[0], strings, counter);
      PiecesFill(pieces[1..], slots[1..], first.strings, first.counter);
      ThenFills(first, if pieces[0].Hole? then [HoleSlot(slots[0])] else [],
                EmitPieces(pieces[1..], slots[1..], first.strings, first.counter), HolesIn(pieces[1..], slots[1..]));
    }
  }

  lemma {:induction false} NodeFills(v: View, n: Node, strings: seq<string>, counter: nat)
    ensures FillsAre(EmitNode(v, n, strings, counter), HolesOf(n))
    decreases n, 0
  {
    hide EmitNodes, EmitProps, EmitSlots, EmitPieces, FillsAre;
    match n
    case Element(_, props, slots, children) =>
      var c := counter + 1;
      var p := EmitProps(props, strings, c);
      PartsFillNothing(props, slots, counter, strings, c);
      PartsFillNothing(props, slots, counter, p.strings, c);
      NodesFill(v, children, p.strings, c);
      ElementIs(v, n, strings, counter);
      ElementFills(Out([Create(n.tag)], [], [], strings, c), p, EmitSlots(slots, counter, p.strings, c),
                   Out([Enter], [], [], p.strings, c), EmitNodes(v, children, p.strings, c), HolesOfAll(children));
    case TextRun(pieces, slots) => PiecesFill(pieces, slots, strings, counter);
    case Region(_) => NoFills(EmitNode(v, n, strings, counter));
    case Fragment(children) => NodesFill(v, children, strings, counter);
  }

  lemma ElementFills(a: Out, b: Out, c: Out, d: Out, e: Out, slots: seq<nat>)
    requires a.fills == [] && b.fills == [] && c.fills == [] && d.fills == [] && FillsAre(e, slots)
    ensures FillsAre(Then(Then(Then(Then(Then(a, b), c), d), e), Out([Leave], [], [], e.strings, e.counter)), slots)
  {
  }

  lemma {:induction false} NodesFill(v: View, ns: seq<Node>, strings: seq<string>, counter: nat)
    ensures FillsAre(EmitNodes(v, ns, strings, counter), HolesOfAll(ns))
    decreases ns, 1
  {
    hide EmitNode, FillsAre, HolesOf, Then;
    if ns == [] {
      NoFills(EmitNodes(v, ns, strings, counter));
    } else {
      var first := EmitNode(v, ns[0], strings, counter);
      NodeFills(v, ns[0], strings, counter);
      NodesFill(v, ns[1..], first.strings, first.counter);
      ThenFills(first, HolesOf(ns[0]), EmitNodes(v, ns[1..], first.strings, first.counter), HolesOfAll(ns[1..]));
    }
  }

  /** A view's fills are its text holes, in document order, each at the anchor of its slot. */
  lemma ViewFills(v: View)
    ensures FillsAre(EmitView(v), HolesOfAll(v.roots))
  {
    NodesFill(v, v.roots, [], 0);
  }
}
