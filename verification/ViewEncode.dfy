/** Encoding a view tree into a blueprint (crates/glyim-gsx/src/emit.rs, encode_view and encode_node). */
module ViewEncode {
  import opened Blueprint
  import opened Int64
  import opened Wrappers

  datatype Piece = Static(text: string) | Hole

  datatype Prop = Prop(id: u32, value: string)

  datatype Node =
    | Element(tag: u32, props: seq<Prop>, slots: seq<nat>, children: seq<Node>)
    | TextRun(pieces: seq<Piece>, holeSlots: seq<Option<nat>>)
    | Region(region: nat)
    | Fragment(children: seq<Node>)

  /** A slot, with its region when it stands for one. */
  datatype Slot = Slot(id: nat, region: Option<nat>)

  datatype View = View(roots: seq<Node>, slots: seq<Slot>)

  /** A slot id is a 64-bit usize. */
  const USIZE_LIMIT: nat := 0x1_0000_0000_0000_0000

  function RegionSlot(slots: seq<Slot>, region: nat): Option<nat> {
    if slots == [] then None
    else if slots[0].region == Some(region) then Some(slots[0].id)
    else RegionSlot(slots[1..], region)
  }

  /** Marker payloads: element and region slots are cut to 32 bits, text holes saturate. */
  function CutSlot(id: nat): u32 {
    id % TWO_32
  }

  function HoleSlot(slot: Option<nat>): nat {
    if slot.Some? then slot.value else USIZE_LIMIT - 1
  }

  function HoleMarker(slot: Option<nat>): u32 {
    var id := HoleSlot(slot);
    if id < TWO_32 then id else TWO_32 - 1
  }

  function RegionMarker(slot: Option<nat>): u32 {
    if slot.Some? then CutSlot(slot.value) else TWO_32 - 1
  }

  datatype Anchor = Anchor(slot: nat, node: nat)

  /** What encoding adds (ops, slot anchors, text fills), and the table and counter after it. */
  datatype Out = Out(ops: seq<Op>, anchors: seq<Anchor>, fills: seq<Anchor>, strings: seq<string>, counter: nat)

  function Then(a: Out, b: Out): Out {
    Out(a.ops + b.ops, a.anchors + b.anchors, a.fills + b.fills, b.strings, b.counter)
  }

  function EmitProps(props: seq<Prop>, strings: seq<string>, counter: nat): Out {
    if props == [] then Out([], [], [], strings, counter)
    else
      var (id, after) := Interned(strings, props[0].value);
      Then(Out([StaticProp(props[0].id, id)], [], [], after, counter), EmitProps(props[1..], after, counter))
  }

  function EmitSlots(slots: seq<nat>, node: nat, strings: seq<string>, counter: nat): Out {
    if slots == [] then Out([], [], [], strings, counter)
    else
      Then(Out([SlotMarker(CutSlot(slots[0]))], [Anchor(slots[0], node)], [], strings, counter),
           EmitSlots(slots[1..], node, strings, counter))
  }

  function EmitPiece(piece: Piece, slot: Option<nat>, strings: seq<string>, counter: nat): Out {
    if piece.Static? then
      var (id, after) := Interned(strings, piece.text);
      Out([Text(id)], [], [], after, counter)
    else
      var anchor := Anchor(HoleSlot(slot), counter);
      Out([SlotMarker(HoleMarker(slot))], [anchor], [anchor], strings, counter + 1)
  }

  /** The two lists are walked together, up to the end of the shorter. */
  function EmitPieces(pieces: seq<Piece>, slots: seq<Option<nat>>, strings: seq<string>, counter: nat): Out {
    if pieces == [] || slots == [] then Out([], [], [], strings, counter)
    else
      var first := EmitPiece(pieces[0], slots[0], strings, counter);
      Then(first, EmitPieces(pieces[1..], slots[1..], first.strings, first.counter))
  }

  function EmitNode(v: View, n: Node, strings: seq<string>, counter: nat): Out
    decreases n, 0
  {
    match n
    case Element(tag, props, slots, children) =>
      var head := Out([Create(tag)], [], [], strings, counter + 1);
      var attrs := Then(head, EmitProps(props, strings, counter + 1));
      var marks := Then(attrs, EmitSlots(slots, counter, attrs.strings, counter + 1));
      var open := Then(marks, Out([Enter], [], [], marks.strings, counter + 1));
      var body := Then(open, EmitNodes(v, children, open.strings, counter + 1));
      Then(body, Out([Leave], [], [], body.strings, body.counter))
    case TextRun(pieces, slots) => EmitPieces(pieces, slots, strings, counter)
    case Region(region) =>
      var slot := RegionSlot(v.slots, region);
      Out([SlotMarker(RegionMarker(slot))], if slot.Some? then [Anchor(slot.value, counter)]
          else [], [], strings, counter + 1)
    case Fragment(children) => EmitNodes(v, children, strings, counter)
  }

  function EmitNodes(v: View, ns: seq<Node>, strings: seq<string>, counter: nat): Out
    decreases ns, 1
  {
    if ns == [] then Out([], [], [], strings, counter)
    else
      var first := EmitNode(v, ns[0], strings, counter);
      Then(first, EmitNodes(v, ns[1..], first.strings, first.counter))
  }

  function EmitView(v: View): Out {
    EmitNodes(v, v.roots, [], 0)
  }

  // ----- the encoder -----

  /** Everything an encoder holds. */
  datatype Total = Total(words: seq<u32>, anchors: seq<Anchor>, fills: seq<Anchor>, strings: seq<string>, counter: nat)

  function Extend(t: Total, e: Out): Total {
    Total(t.words + Words(e.ops), t.anchors + e.anchors, t.fills + e.fills, e.strings, e.counter)
  }

  lemma ExtendThen(t: Total, a: Out, b: Out)
    ensures Extend(t, Then(a, b)) == Extend(Extend(t, a), b)
  {
    assert Words(a.ops + b.ops) == Words(a.ops) + Words(b.ops);
  }

  lemma ExtendNothing(t: Total)
    ensures Extend(t, Out([], [], [], t.strings, t.counter)) == t
  {
  }

  class Encoder {
    const bp: Blueprint
    var counter: nat
    var anchors: seq<Anchor>
    var fills: seq<Anchor>

    constructor ()
      ensures fresh(bp) && State() == Total([], [], [], [], 0)
    {
      bp := new Blueprint();
      counter, anchors, fills := 0, [], [];
    }

    ghost function State(): Total
      reads this, bp
    {
      Total(bp.ops, anchors, fills, bp.strings, counter)
    }

    method PushOp(op: Op)
      modifies bp
      ensures State() == Extend(old(State()), Out([op], [], [], old(State()).strings, old(State()).counter))
    {
      bp.PushOp(op);
      assert Words([op]) == [EncodeOp(op)];
    }

    method PushProps(props: seq<Prop>)
      modifies bp
      ensures State() == Extend(old(State()), EmitProps(props, old(State()).strings, old(State()).counter))
    {
      ghost var start := State();
      for k := 0 to |props|
        invariant Extend(start, EmitProps(props, start.strings, start.counter)) ==
                  Extend(State(), EmitProps(props[k..], State().strings, State().counter))
      {
        hide Extend, EncodeOp, Words;
        ghost var before := State();
        assert props[k..][0] == props[k] && props[k..][1..] == props[k + 1..];
        var id := bp.Intern(props[k].value);
        InternStep(before, State(), props[k].id, id);
        PushOp(StaticProp(props[k].id, id));
        ghost var one := Out([StaticProp(props[k].id, id)], [], [], State().strings, State().counter);
        ExtendThen(before, one, EmitProps(props[k + 1..], State().strings, State().counter));
      }
      assert props[|props|..] == [];
      ExtendNothing(State());
    }

    method PushMarker(marker: u32, anchor: Option<Anchor>, counter': nat)
      modifies this`anchors, this`counter, bp
      ensures State() == Extend(old(State()), Out([SlotMarker(marker)], if anchor.Some? then [anchor.value] else [], [],
                                                  old(State()).strings, counter'))
    {
      bp.PushOp(SlotMarker(marker));
      if anchor.Some? {
        anchors := anchors + [anchor.value];
      }
      counter := counter';
      assert Words([SlotMarker(marker)]) == [EncodeOp(SlotMarker(marker))];
    }

    method PushSlots(slots: seq<nat>, node: nat)
      modifies this`anchors, this`counter, bp
      ensures State() == Extend(old(State()), EmitSlots(slots, node, old(State()).strings, old(State()).counter))
    {
      ghost var start := State();
      for k := 0 to |slots|
        invariant Extend(start, EmitSlots(slots, node, start.strings, start.counter)) ==
                  Extend(State(), EmitSlots(slots[k..], node, State().strings, State().counter))
      {
        hide Extend, EncodeOp, Words;
        ghost var before := State();
        assert slots[k..][0] == slots[k] && slots[k..][1..] == slots[k + 1..];
        ghost var one :=
          Out([SlotMarker(CutSlot(slots[k]))], [Anchor(slots[k], node)], [], before.strings, before.counter);
        PushMarker(CutSlot(slots[k]), Some(Anchor(slots[k], node)), counter);
        assert State() == Extend(before, one);
        StateAfter(before, one);
        ExtendThen(before, one, EmitSlots(slots[k + 1..], node, before.strings, before.counter));
      }
      assert slots[|slots|..] == [];
      ExtendNothing(State());
    }

    method PushPiece(piece: Piece, slot: Option<nat>)
      modifies this`anchors, this`counter, this`fills, bp
      ensures State() == Extend(old(State()), EmitPiece(piece, slot, old(State()).strings, old(State()).counter))
    {
      hide EncodeOp;
      if piece.Static? {
        var id := bp.Intern(piece.text);
        bp.PushOp(Text(id));
        assert Words([Text(id)]) == [EncodeOp(Text(id))];
      } else {
        var anchor := Anchor(HoleSlot(slot), counter);
        bp.PushOp(SlotMarker(HoleMarker(slot)));
        assert Words([SlotMarker(HoleMarker(slot))]) == [EncodeOp(SlotMarker(HoleMarker(slot)))];
        counter := counter + 1;
        anchors, fills := anchors + [anchor], fills + [anchor];
      }
    }

    method PushPieces(pieces: seq<Piece>, slots: seq<Option<nat>>)
      modifies this`anchors, this`counter, this`fills, bp
      ensures State() == Extend(old(State()), EmitPieces(pieces, slots, old(State()).strings, old(State()).counter))
    {
      ghost var start := State();
      var n := if |pieces| < |slots| then |pieces| else |slots|;
      for k := 0 to n
        invariant Extend(start, EmitPieces(pieces, slots, start.strings, start.counter)) ==
                  Extend(State(), EmitPieces(pieces[k..], slots[k..], State().strings, State().counter))
      {
        hide Extend, EmitPiece;
        ghost var before := State();
        assert pieces[k..][0] == pieces[k] && pieces[k..][1..] == pieces[k + 1..];
        assert slots[k..][0] == slots[k] && slots[k..][1..] == slots[k + 1..];
        PushPiece(pieces[k], slots[k]);
        ghost var one := EmitPiece(pieces[k], slots[k], before.strings, before.counter);
        StateAfter(before, one);
        ExtendThen(before, one, EmitPieces(pieces[k + 1..], slots[k + 1..], one.strings, one.counter));
      }
      ExtendNothing(State());
    }

    method EncodeNode(v: View, n: Node)
      modifies this`anchors, this`counter, this`fills, bp
      ensures State() == Extend(old(State()), EmitNode(v, n, old(State()).strings, old(State()).counter))
      decreases n, 1
    {
      ghost var start := State();
      match n {
        case Element(tag, props, slots, children) => EncodeElement(v, n);
        case TextRun(pieces, slots) => PushPieces(pieces, slots);
        case Region(region) =>
          var slot := RegionSlot(v.slots, region);
          PushMarker(RegionMarker(slot), if slot.Some? then Some(Anchor(slot.value, counter)) else None, counter + 1);
        case Fragment(children) => EncodeNodes(v, children);
      }
    }

    method OpenElement(tag: u32)
      modifies this`counter, bp
      ensures State() ==
              Extend(old(State()), Out([Create(tag)], [], [], old(State()).strings, old(State()).counter + 1))
    {
      counter := counter + 1;
      bp.PushOp(Create(tag));
      assert Words([Create(tag)]) == [EncodeOp(Create(tag))];
    }

    method EncodeElement(v: View, n: Node)
      requires n.Element?
      modifies this`anchors, this`counter, this`fills, bp
      ensures State() == Extend(old(State()), EmitNode(v, n, old(State()).strings, old(State()).counter))
      decreases n, 0
    {
      hide Extend, EmitNode, EmitNodes, EmitProps, EmitSlots, Then;
      ghost var start := State();
      var node := counter;
      OpenElement(n.tag);
      ghost var head := Out([Create(n.tag)], [], [], start.strings, start.counter + 1);
      StateAfter(start, head);
      PushProps(n.props);
      ghost var props := EmitProps(n.props, head.strings, head.counter);
      PropsCount(n.props, head.strings, head.counter);
      ghost var attrs := Chain(start, head, props);
      assert State() == Extend(start, attrs);
      PushSlots(n.slots, node);
      ghost var slots := EmitSlots(n.slots, node, props.strings, head.counter);
      SlotsCount(n.slots, node, props.strings, head.counter);
      ghost var marks := Chain(start, attrs, slots);
      assert State() == Extend(start, marks);
      PushOp(Enter);
      ghost var open := Chain(start, marks, Out([Enter], [], [], props.strings, head.counter));
      assert State() == Extend(start, open);
      EncodeNodes(v, n.children);
      ghost var children := EmitNodes(v, n.children, props.strings, head.counter);
      ghost var body := Chain(start, open, children);
      assert State() == Extend(start, body);
      PushOp(Leave);
      ghost var all := Chain(start, body, Out([Leave], [], [], children.strings, children.counter));
      ElementIs(v, n, start.strings, start.counter);
    }

    method EncodeNodes(v: View, ns: seq<Node>)
      modifies this`anchors, this`counter, this`fills, bp
      ensures State() == Extend(old(State()), EmitNodes(v, ns, old(State()).strings, old(State()).counter))
      decreases ns, 2
    {
      ghost var start := State();
      for k := 0 to |ns|
        invariant Extend(start, EmitNodes(v, ns, start.strings, start.counter)) ==
                  Extend(State(), EmitNodes(v, ns[k..], State().strings, State().counter))
      {
        hide Extend, EmitNode;
        ghost var before := State();
        assert ns[k..][0] == ns[k] && ns[k..][1..] == ns[k + 1..];
        EncodeNode(v, ns[k]);
        ghost var one := EmitNode(v, ns[k], before.strings, before.counter);
        StateAfter(before, one);
        ExtendThen(before, one, EmitNodes(v, ns[k + 1..], one.strings, one.counter));
      }
      assert ns[|ns|..] == [];
      ExtendNothing(State());
    }
  }

  lemma StateAfter(t: Total, e: Out)
    ensures Extend(t, e).strings == e.strings && Extend(t, e).counter == e.counter
  {
  }

  /** A further step after `so far`, seen from the start. */
  ghost function Chain(start: Total, soFar: Out, next: Out): (r: Out)
    ensures r == Then(soFar, next) && Extend(start, r) == Extend(Extend(start, soFar), next)
    ensures Extend(start, r).strings == next.strings && Extend(start, r).counter == next.counter
  {
    ExtendThen(start, soFar, next);
    Then(soFar, next)
  }

  /** A full view from an empty encoder. */
  method EncodeView(v: View) returns (enc: Encoder)
    ensures fresh(enc) && fresh(enc.bp)
    ensures var e := EmitView(v);
            && enc.bp.ops == Words(e.ops) && enc.bp.strings == e.strings
            && enc.anchors == e.anchors && enc.fills == e.fills && enc.counter == e.counter
  {
    enc := new Encoder();
    enc.EncodeNodes(v, v.roots);
  }

  lemma InternStep(before: Total, between: Total, prop: u32, id: u32)
    requires between == before.(strings := between.strings)
    ensures Extend(between, Out([StaticProp(prop, id)], [], [], between.strings, between.counter)) ==
            Extend(before, Out([StaticProp(prop, id)], [], [], between.strings, between.counter))
  {
  }

  lemma {:induction false} PropsCount(props: seq<Prop>, strings: seq<string>, counter: nat)
    ensures EmitProps(props, strings, counter).counter == counter && EmitProps(props, strings, counter).anchors == []
  {
    if props != [] {
      PropsCount(props[1..], Interned(strings, props[0].value).1, counter);
    }
  }

  lemma {:induction false} SlotsCount(slots: seq<nat>, node: nat, strings: seq<string>, counter: nat)
    ensures EmitSlots(slots, node, strings, counter).counter == counter
    ensures EmitSlots(slots, node, strings, counter).strings == strings
  {
    if slots != [] {
      SlotsCount(slots[1..], node, strings, counter);
    }
  }

  lemma ElementIs(v: View, n: Node, strings: seq<string>, counter: nat)
    requires n.Element?
    ensures var props := EmitProps(n.props, strings, counter + 1);
            var slots := EmitSlots(n.slots, counter, props.strings, counter + 1);
            var children := EmitNodes(v, n.children, props.strings, counter + 1);
            var attrs := Then(Out([Create(n.tag)], [], [], strings, counter + 1), props);
            var open := Then(Then(attrs, slots), Out([Enter], [], [], props.strings, counter + 1));
            EmitNode(v, n, strings, counter) ==
            Then(Then(open, children), Out([Leave], [], [], children.strings, children.counter))
  {
    SlotsCount(n.slots, counter, EmitProps(n.props, strings, counter + 1).strings, counter + 1);
  }
}
