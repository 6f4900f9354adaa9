/**
What the two-phase analysis computes: exactly the points reached without a read of the reference,
if and only if the loan's own block is not entered again past an earlier read of it.
*/
module ReservationCorrectness {
  import opened Reservation
  import opened Mir
  import opened Visitor
  import opened Wrappers

  /**
  No statement at or before the loan in its block reads the reference, or no path of blocks without
  a read leads from the loan back to the start of its block.
  */
  ghost predicate LoanBlockQuiet(g: Cfg)
    requires Valid(g)
  {
    Clear(g, g.loanBlock, 0, g.loanStmt + 1) || !Reached(g, g.loanBlock)
  }

  ghost predicate Exact(g: Cfg, s: State)
    requires Shaped(g, s)
  {
    forall b: nat, i: nat :: b < |g.readsRef| ==> (i in s.bits[b] <==> Reserved(g, b, i))
  }

  // ----- what holds as long as nothing is taken back -----

  ghost predicate Processed(s: State, b: nat)
    requires b < |s.entry|
  {
    s.entry[b] && b !in s.queue
  }

  /** The block's own results, by whether it has been transferred from its start yet. */
  ghost predicate Transferred(g: Cfg, s: State, b: nat)
    requires Shaped(g, s) && b < |g.readsRef|
  {
    if Processed(s, b) then
      && s.bits[b] == Bits(g, b, 0, true) && s.exit[b] == ExitBit(g, b, 0, true)
      && (b == g.loanBlock ==> Clear(g, b, 0, g.loanStmt + 1))
    else if b == g.loanBlock then
      s.bits[b] == Bits(g, b, g.loanStmt + 1, true) && s.exit[b] == ExitBit(g, b, g.loanStmt + 1, true)
    else s.bits[b] == {} && !s.exit[b]
  }

  /** Every entry is justified by an exit and every exit has set its successors' entries. */
  ghost predicate Monotone(g: Cfg, s: State)
    requires Shaped(g, s)
  {
    Partial(g, s, g.loanBlock, [])
  }

  /** The same, with block b's exit not yet passed on to the blocks in `rest`. */
  ghost predicate Partial(g: Cfg, s: State, b: nat, rest: seq<nat>)
    requires Shaped(g, s)
  {
    Justified(g, s) && PassedOn(g, s, b, rest) && QueueEntered(g, s) && AllTransferred(g, s)
  }

  ghost predicate Justified(g: Cfg, s: State)
    requires Shaped(g, s)
  {
    forall t: nat :: t < |g.readsRef| && s.entry[t] ==> Reached(g, t) && SomePredExits(g, s.exit, t)
  }

  ghost predicate PassedOn(g: Cfg, s: State, b: nat, rest: seq<nat>)
    requires Shaped(g, s)
  {
    forall a: nat, k: nat :: a < |g.readsRef| && s.exit[a] && k < |g.next[a]| && !(a == b && g.next[a][k] in rest) ==>
                               s.entry[g.next[a][k]]
  }

  ghost predicate QueueEntered(g: Cfg, s: State)
    requires Shaped(g, s)
  {
    forall k :: 0 <= k < |s.queue| ==> s.entry[s.queue[k]]
  }

  ghost predicate AllTransferred(g: Cfg, s: State)
    requires Shaped(g, s)
  {
    forall t: nat :: t < |g.readsRef| ==> Transferred(g, s, t)
  }

  lemma ExitReaches(g: Cfg, s: State, a: nat, t: nat)
    requires Shaped(g, s) && a < |g.readsRef| && s.exit[a] && t in g.next[a] && t < |g.readsRef|
    requires Transferred(g, s, a) && (s.entry[a] ==> Reached(g, a))
    ensures Reached(g, t)
  {
    hide Bits, Reached;
    if Processed(s, a) {
      ReachedNext(g, a, t);
    } else {
      ReachedFirst(g, t);
    }
  }

  /** Entering a block puts it in the queue and leaves every other block as it was. */
  lemma EnterKeepsTransferred(g: Cfg, s: State, r: State, t: nat)
    requires Shaped(g, s) && Shaped(g, r) && AllTransferred(g, s)
    requires t < |g.readsRef| && !s.entry[t] && t !in s.queue
    requires r == s.(entry := s.entry[t := true], queue := s.queue + [t])
    ensures AllTransferred(g, r)
  {
    hide Bits, ExitBit, Clear;
    forall x: nat | x < |g.readsRef|
      ensures Transferred(g, r, x)
    {
      assert Transferred(g, s, x);
      assert Processed(r, x) == Processed(s, x) by {
        assert x in r.queue <==> x in s.queue || x == t;
      }
    }
  }

  lemma VisitKeeps(g: Cfg, s: State, b: nat, rest: seq<nat>)
    requires Shaped(g, s) && rest != [] && rest[0] < |g.readsRef| && Partial(g, s, b, rest)
    ensures Partial(g, Visit(g, s, rest[0]), b, rest[1..])
    ensures Pending(Visit(g, s, rest[0])) == Pending(s)
  {
    hide Bits, ExitBit, Clear, Reached, Transferred;
    var t := rest[0];
    var r := Visit(g, s, t);
    assert rest == [t] + rest[1..];
    if SomePredExits(g, s.exit, t) && !s.entry[t] {
      assert t !in s.queue by {
        hide PassedOn, Justified, AllTransferred;
      }
      EnterKeeps(g, s, t);
    } else {
      assert r == s by {
        hide PassedOn, AllTransferred;
      }
    }
    assert PassedOn(g, r, b, rest[1..]) by {
      hide Justified, AllTransferred, QueueEntered;
      forall a: nat, k: nat | a < |g.readsRef| && r.exit[a] && k < |g.next[a]| && !(a == b && g.next[a][k] in rest[1..])
        ensures r.entry[g.next[a][k]]
      {
        if g.next[a][k] == t {
          assert SomePredExits(g, s.exit, t);
        } else {
          assert s.entry[g.next[a][k]];
        }
      }
    }
  }

  lemma EnterKeeps(g: Cfg, s: State, t: nat)
    requires Shaped(g, s) && t < |g.readsRef| && Justified(g, s) && QueueEntered(g, s) && AllTransferred(g, s)
    requires SomePredExits(g, s.exit, t) && !s.entry[t] && t !in s.queue
    ensures var r := Visit(g, s, t);
            Justified(g, r) && QueueEntered(g, r) && AllTransferred(g, r) && Pending(r) == Pending(s)
  {
    hide Bits, ExitBit, Clear, Reached, Transferred;
    var r := Visit(g, s, t);
    EnterKeepsTransferred(g, s, r, t);
    FalsesUpdate(s.entry, t);
    var a :| 0 <= a < |g.next| && t in g.next[a] && s.exit[a];
    ExitReaches(g, s, a, t);
  }

  lemma {:induction false} VisitAllKeeps(g: Cfg, s: State, b: nat, rest: seq<nat>)
    requires Shaped(g, s) && (forall k :: 0 <= k < |rest| ==> rest[k] < |g.readsRef|) && Partial(g, s, b, rest)
    ensures Partial(g, VisitAll(g, s, rest), b, []) && Pending(VisitAll(g, s, rest)) == Pending(s)
    decreases |rest|
  {
    hide Partial, Visit;
    if rest != [] {
      VisitKeeps(g, s, b, rest);
      VisitAllKeeps(g, Visit(g, s, rest[0]), b, rest[1..]);
    }
  }

  // ----- the turns left -----

  function Falses(bits: seq<bool>): nat {
    if bits == [] then 0 else (if bits[0] then 0 else 1) + Falses(bits[1..])
  }

  lemma {:induction false} FalsesUpdate(bits: seq<bool>, k: nat)
    requires k < |bits| && !bits[k]
    ensures Falses(bits[k := true]) == Falses(bits) - 1
  {
    if k == 0 {
      assert bits[0 := true][1..] == bits[1..];
    } else {
      assert bits[k := true][1..] == bits[1..][k - 1 := true];
      FalsesUpdate(bits[1..], k - 1);
    }
  }

  lemma {:induction false} FalsesAll(bits: seq<bool>)
    requires forall k :: 0 <= k < |bits| ==> !bits[k]
    ensures Falses(bits) == |bits|
  {
    if bits != [] {
      FalsesAll(bits[1..]);
    }
  }

  /** Blocks waiting or not entered yet. */
  function Pending(s: State): nat {
    |s.queue| + Falses(s.entry)
  }

  // ----- one turn -----

  /** The state once the popped block's own results are stored, before its successors are visited. */
  ghost function Stored(g: Cfg, s: State): (r: State)
    requires Shaped(g, s) && s.queue != []
    ensures Shaped(g, r)
  {
    var b := s.queue[0];
    s.(queue := s.queue[1..], bits := s.bits[b := Bits(g, b, 0, s.entry[b])],
       exit := s.exit[b := ExitBit(g, b, 0, s.entry[b])])
  }

  /** Results only grow when a block is transferred from its start while nothing has been taken back. */
  lemma TransferGrows(g: Cfg, s: State)
    requires Shaped(g, s) && s.queue != [] && Monotone(g, s)
    requires s.queue[0] == g.loanBlock ==> Clear(g, g.loanBlock, 0, g.loanStmt + 1)
    ensures var b := s.queue[0]; s.entry[b] && (s.exit[b] ==> ExitBit(g, b, 0, true))
  {
    hide Justified, PassedOn, Reached;
    assert Transferred(g, s, s.queue[0]);
  }

  lemma StoredKeeps(g: Cfg, s: State)
    requires Shaped(g, s) && s.queue != [] && Monotone(g, s)
    requires s.queue[0] == g.loanBlock ==> Clear(g, g.loanBlock, 0, g.loanStmt + 1)
    ensures Partial(g, Stored(g, s), s.queue[0], g.next[s.queue[0]])
    ensures Pending(Stored(g, s)) == Pending(s) - 1
    ensures s.exit[s.queue[0]] == ExitBit(g, s.queue[0], 0, true) ==> Monotone(g, Stored(g, s))
  {
    hide Bits, ExitBit, Reached, Clear;
    var b, r := s.queue[0], Stored(g, s);
    TransferGrows(g, s);
    assert forall a: nat :: a < |g.readsRef| && s.exit[a] ==> r.exit[a];
    assert Justified(g, r) by {
      hide AllTransferred, PassedOn, QueueEntered;
      forall t: nat | t < |g.readsRef| && r.entry[t]
        ensures SomePredExits(g, r.exit, t)
      {
        var a :| 0 <= a < |g.next| && t in g.next[a] && s.exit[a];
        assert r.exit[a];
      }
    }
    assert PassedOn(g, r, b, g.next[b]) by {
      hide AllTransferred, Justified, QueueEntered;
    }
    assert AllTransferred(g, r) by {
      hide Justified, PassedOn;
      StoredTransfers(g, s);
    }
    if s.exit[b] == ExitBit(g, b, 0, true) {
      hide AllTransferred, Justified, QueueEntered;
      assert r.exit == s.exit;
      assert PassedOn(g, r, g.loanBlock, []);
    }
  }

  lemma StoredTransfers(g: Cfg, s: State)
    requires Shaped(g, s) && s.queue != [] && AllTransferred(g, s) && s.entry[s.queue[0]]
    requires s.queue[0] == g.loanBlock ==> Clear(g, g.loanBlock, 0, g.loanStmt + 1)
    ensures AllTransferred(g, Stored(g, s))
  {
    hide Bits, ExitBit, Clear;
    var b, r := s.queue[0], Stored(g, s);
    assert s.queue == [b] + s.queue[1..];
    forall x: nat | x < |g.readsRef|
      ensures Transferred(g, r, x)
    {
      assert Transferred(g, s, x);
      if x != b {
        assert Processed(r, x) == Processed(s, x);
      } else {
        assert b !in r.queue;
      }
    }
  }

  lemma StepIs(g: Cfg, s: State)
    requires Shaped(g, s) && s.queue != []
    ensures var b, r := s.queue[0], Stored(g, s);
            Step(g, s) == if r.bits[b] == s.bits[b] && r.exit[b] == s.exit[b] then r else VisitAll(g, r, g.next[b])
  {
    hide Bits, ExitBit, VisitAll;
    var b := s.queue[0];
    assert s.bits[b := s.bits[b]] == s.bits && s.exit[b := s.exit[b]] == s.exit;
  }

  lemma AllPassedOn(g: Cfg, s: State, b: nat)
    requires Shaped(g, s) && Partial(g, s, b, [])
    ensures Monotone(g, s)
  {
    hide Justified, QueueEntered, AllTransferred;
  }

  /** A turn that does not transfer the loan's block past an earlier read takes nothing back. */
  lemma StepKeeps(g: Cfg, s: State)
    requires Shaped(g, s) && s.queue != [] && Monotone(g, s)
    requires s.queue[0] == g.loanBlock ==> Clear(g, g.loanBlock, 0, g.loanStmt + 1)
    ensures Monotone(g, Step(g, s)) && Pending(Step(g, s)) == Pending(s) - 1
  {
    hide Bits, ExitBit, Step, VisitAll, Justified, PassedOn, AllTransferred, Clear;
    var b := s.queue[0];
    StepIs(g, s);
    StoredKeeps(g, s);
    assert s.entry[b];
    VisitAllKeeps(g, Stored(g, s), b, g.next[b]);
    AllPassedOn(g, VisitAll(g, Stored(g, s), g.next[b]), b);
  }

  // ----- the start -----

  lemma {:induction false} SeedKeeps(g: Cfg, s: State, rest: seq<nat>)
    requires Shaped(g, s) && (forall k :: 0 <= k < |rest| ==> rest[k] < |g.readsRef|)
    requires s.exit[g.loanBlock] && forall k :: 0 <= k < |rest| ==> rest[k] in g.next[g.loanBlock]
    requires Partial(g, s, g.loanBlock, rest)
    ensures Partial(g, Seed(g, s, rest), g.loanBlock, []) && Pending(Seed(g, s, rest)) == Pending(s)
    decreases |rest|
  {
    hide Partial, Visit;
    if rest != [] {
      assert SomePredExits(g, s.exit, rest[0]);
      VisitKeeps(g, s, g.loanBlock, rest);
      SeedIsVisit(g, s, rest);
      SeedKeeps(g, Visit(g, s, rest[0]), rest[1..]);
    }
  }

  lemma SeedIsVisit(g: Cfg, s: State, rest: seq<nat>)
    requires Shaped(g, s) && rest != [] && (forall k :: 0 <= k < |rest| ==> rest[k] < |g.readsRef|)
    requires SomePredExits(g, s.exit, rest[0])
    ensures Seed(g, s, rest) == Seed(g, Visit(g, s, rest[0]), rest[1..])
  {
  }

  lemma StartMonotone(g: Cfg)
    requires Valid(g)
    ensures Monotone(g, Start(g)) && Pending(Start(g)) == |g.readsRef|
  {
    hide Bits, ExitBit, Reached, Seed;
    var n, b, from := |g.readsRef|, g.loanBlock, g.loanStmt + 1;
    var exit := ExitBit(g, b, from, true);
    var s := State(seq(n, _ => {})[b := Bits(g, b, from, true)], seq(n, _ => false), seq(n, _ => false)[b := exit], []);
    FalsesAll(s.entry);
    if exit {
      assert PassedOn(g, s, b, g.next[b]);
      SeedKeeps(g, s, g.next[b]);
    } else {
      assert PassedOn(g, s, b, []);
    }
  }

  // ----- the end -----

  lemma {:induction false} PathEntered(g: Cfg, s: State, path: seq<nat>)
    requires Shaped(g, s) && s.queue == [] && Monotone(g, s) && ReservedPath(g, path)
    ensures s.entry[path[|path| - 1]]
    decreases |path|
  {
    hide Bits, Reached;
    var last := path[|path| - 1];
    var from := if |path| == 1 then g.loanBlock else path[|path| - 2];
    if |path| > 1 {
      PathEntered(g, s, path[..|path| - 1]);
    }
    assert Transferred(g, s, from);
    assert s.exit[from];
    var k :| 0 <= k < |g.next[from]| && g.next[from][k] == last;
  }

  lemma DoneExact(g: Cfg, s: State)
    requires Shaped(g, s) && s.queue == [] && Monotone(g, s)
    ensures Exact(g, s) && LoanBlockQuiet(g)
  {
    hide PassedOn;
    forall b: nat | b < |g.readsRef|
      ensures s.entry[b] <==> Reached(g, b)
    {
      if Reached(g, b) {
        var path :| ReservedPath(g, path) && path[|path| - 1] == b;
        PathEntered(g, s, path);
      }
    }
    hide Reached;
    assert Transferred(g, s, g.loanBlock);
    forall b: nat, i: nat | b < |g.readsRef|
      ensures i in s.bits[b] <==> Reserved(g, b, i)
    {
      assert Transferred(g, s, b);
    }
  }

  // ----- a read before the loan undoes the loan's own results -----

  ghost predicate Lost(g: Cfg, s: State)
    requires Shaped(g, s)
  {
    g.loanStmt + 1 !in s.bits[g.loanBlock]
  }

  lemma StepStaysLost(g: Cfg, s: State)
    requires Shaped(g, s) && s.queue != [] && !Clear(g, g.loanBlock, 0, g.loanStmt + 1)
    requires Lost(g, s) || s.queue[0] == g.loanBlock
    ensures Lost(g, Step(g, s))
  {
    hide VisitAll, Step;
    StepIs(g, s);
  }

  lemma {:induction false} StillMonotoneOrLost(g: Cfg, s: State, k: nat)
    requires Shaped(g, s) && (Monotone(g, s) || Lost(g, s)) && !Clear(g, g.loanBlock, 0, g.loanStmt + 1)
    ensures var r := Iterate(g, s, k); Monotone(g, r) || Lost(g, r)
    decreases k
  {
    hide Step, Partial, Clear, Lost;
    if k > 0 && s.queue != [] {
      if Monotone(g, s) && s.queue[0] != g.loanBlock {
        StepKeeps(g, s);
      } else {
        StepStaysLost(g, s);
      }
      StillMonotoneOrLost(g, Step(g, s), k - 1);
    }
  }

  lemma {:induction false} QuietEnds(g: Cfg, s: State, k: nat)
    requires Shaped(g, s) && Monotone(g, s) && LoanBlockQuiet(g) && Pending(s) <= k
    ensures var r := Iterate(g, s, k); Monotone(g, r) && r.queue == []
    decreases k
  {
    hide Step, Clear, Reached, Transferred, PassedOn;
    if s.queue != [] {
      StepKeeps(g, s);
      QuietEnds(g, Step(g, s), k - 1);
    }
  }

  /**
  The analysis ends with exactly the reserved points if and only if the loan's block is quiet, and
  then it takes at most one turn for each block.
  */
  lemma ReservationExact(g: Cfg)
    requires Valid(g)
    ensures LoanBlockQuiet(g) <==> exists k :: Iterate(g, Start(g), k).queue == [] && Exact(g, Iterate(g, Start(g), k))
    ensures LoanBlockQuiet(g) ==>
            Iterate(g, Start(g), |g.readsRef|).queue == [] && Exact(g, Iterate(g, Start(g), |g.readsRef|))
  {
    hide Start, Iterate, Exact, Partial, LoanBlockQuiet, Reached;
    StartMonotone(g);
    var s, n := Start(g), |g.readsRef|;
    if LoanBlockQuiet(g) {
      QuietEnds(g, s, n);
      DoneExact(g, Iterate(g, s, n));
    }
    if k :| Iterate(g, s, k).queue == [] && Exact(g, Iterate(g, s, k)) {
      if !LoanBlockQuiet(g) {
        NotExact(g, k);
      }
    }
  }

  /** Otherwise every run that ends has lost the point just after the loan. */
  lemma NotExact(g: Cfg, k: nat)
    requires Valid(g) && !LoanBlockQuiet(g) && Iterate(g, Start(g), k).queue == []
    ensures g.loanStmt + 1 !in Iterate(g, Start(g), k).bits[g.loanBlock]
    ensures Reserved(g, g.loanBlock, g.loanStmt + 1) && !Exact(g, Iterate(g, Start(g), k))
  {
    hide Start, Iterate, Partial, Reached;
    StartMonotone(g);
    StillMonotoneOrLost(g, Start(g), k);
    var r := Iterate(g, Start(g), k);
    if Monotone(g, r) {
      DoneExact(g, r);
    }
    assert Reserved(g, g.loanBlock, g.loanStmt + 1);
  }

  // ----- a body on which the analysis does not end -----

  /**
  Block 0 reads r, borrows into r and branches into the ring 1, 2, 3 or back to itself.
  */
  function RingBody(): Body {
    var r, x, y := Place(1, []), Place(2, []), Place(3, []);
    Body([BasicBlock([Assign(x, Use(Copy(r))), Assign(r, Ref(y, Mut(true)))],
                     SwitchInt(Copy(x), false, [Arm(1, 1)], 0)),
          BasicBlock([], Goto(2)), BasicBlock([], Goto(3)), BasicBlock([], Goto(1))],
         [TInt, TOther, TInt, TInt])
  }

  function Ring(): Cfg {
    Cfg([[true, false], [], [], []], [[1, 0], [2], [3], [1]], 0, 1)
  }

  lemma RingIsBody()
    ensures Valid(Ring()) && CfgOf(RingBody(), 0, 1, 1) == Ring()
  {
    hide StatementReads, Successors;
    RingReads();
    RingEdges();
    var g := CfgOf(RingBody(), 0, 1, 1);
    assert g.readsRef == Ring().readsRef by {
      forall b | 0 <= b < 4
        ensures g.readsRef[b] == Ring().readsRef[b]
      {
        assert b == 0 ==> g.readsRef[b] == [true, false];
        assert b > 0 ==> g.readsRef[b] == [];
      }
    }
    assert g.next == Ring().next by {
      assert g.next[0] == [1, 0] && g.next[1] == [2] && g.next[2] == [3] && g.next[3] == [1];
    }
  }

  lemma RingReads()
    ensures var blocks := RingBody().blocks;
            && |blocks| == 4 && |blocks[0].statements| == 2
            && StatementReads(blocks[0].statements[0], 1) && !StatementReads(blocks[0].statements[1], 1)
            && forall b :: 1 <= b < 4 ==> blocks[b].statements == []
  {
    var body := RingBody();
    assert RvalueReads(body.blocks[0].statements[0].rvalue)[0].local == 1;
  }

  lemma RingEdges()
    ensures var blocks := RingBody().blocks;
            && |blocks| == 4
            && Successors(blocks[0].terminator) == [1, 0] && Successors(blocks[1].terminator) == [2]
            && Successors(blocks[2].terminator) == [3] && Successors(blocks[3].terminator) == [1]
  {
    assert [Arm(1, 1)][0].target == 1 && [Arm(1, 1)][1..] == [];
    assert ArmTargets([Arm(1, 1)]) == [1];
  }

  lemma RingTransfer(b: nat, current: bool)
    requires b < 4
    ensures Bits(Ring(), b, 0, current) == if current then {0} else {}
    ensures ExitBit(Ring(), b, 0, current) == (current && b != 0)
    ensures Bits(Ring(), 0, 2, true) == {2} && ExitBit(Ring(), 0, 2, true)
  {
    assert Ring().readsRef[0][0];
    assert Clear(Ring(), b, 0, 0) && Clear(Ring(), 0, 2, 2);
    assert b == 0 ==> !Clear(Ring(), b, 0, 1) && !Clear(Ring(), b, 0, 2);
    assert b != 0 ==> |Ring().readsRef[b]| == 0;
  }

  lemma RingPreds(exit: seq<bool>, b: nat)
    requires |exit| == 4 && b < 4
    ensures SomePredExits(Ring(), exit, b) ==
            (if b == 0 then exit[0] else if b == 1 then exit[0] || exit[3] else exit[b - 1])
  {
    var next := Ring().next;
    assert next[0] == [1, 0] && next[1] == [2] && next[2] == [3] && next[3] == [1];
    assert b == 0 ==> b in next[0];
    assert b == 1 ==> b in next[0] && b in next[3];
    assert b == 2 ==> b in next[1];
    assert b == 3 ==> b in next[2];
  }

  /** One turn for a block of the ring, which has one successor. */
  lemma RingStep(s: State)
    requires Shaped(Ring(), s) && s.queue != [] && s.queue[0] != 0
    requires s.entry[s.queue[0]] != s.exit[s.queue[0]]
    ensures var b, g := s.queue[0], Ring();
            var t := if b == 3 then 1 else b + 1;
            var bits, exit := if s.entry[b] then {0} else {}, s.exit[b := s.entry[b]];
            Step(g, s) == Visit(g, s.(queue := s.queue[1..], bits := s.bits[b := bits], exit := exit), t)
  {
    hide Bits, ExitBit, Visit;
    var g, b := Ring(), s.queue[0];
    var t := if b == 3 then 1 else b + 1;
    RingTransfer(b, s.entry[b]);
    var r := Stored(g, s);
    StepIs(g, s);
    assert g.next[b] == [t] && [t][1..] == [];
    assert VisitAll(g, Visit(g, r, t), []) == Visit(g, r, t);
  }

  /** Two neighbours wait, each about to flip its exit; the third block is settled. */
  ghost predicate Chasing(s: State) {
    && Shaped(Ring(), s) && |s.queue| == 2 && !s.exit[0]
    && var x, y := s.queue[0], s.queue[1];
       var z := 6 - x - y;
       && x != 0 && y != 0 && x == (if y == 3 then 1 else y + 1)
       && s.entry[x] == s.exit[y] == !s.exit[x]
       && s.entry[y] == s.exit[z] == !s.exit[y]
       && s.entry[z] == s.exit[x] == s.exit[z]
  }

  lemma ChaseGoesOn(s: State)
    requires Chasing(s)
    ensures Chasing(Step(Ring(), s))
  {
    hide Bits, ExitBit, SomePredExits, Step;
    var g, x, y := Ring(), s.queue[0], s.queue[1];
    var z := 6 - x - y;
    RingStep(s);
    assert z == if x == 3 then 1 else x + 1;
    var exit := s.exit[x := s.entry[x]];
    RingPreds(exit, z);
    var bits := if s.entry[x] then {0} else {};
    var r := Visit(g, s.(queue := s.queue[1..], bits := s.bits[x := bits], exit := exit), z);
    assert s.queue[1..] == [y];
    assert r.queue == [y, z];
  }

  lemma {:induction false} ChaseNeverEnds(s: State, k: nat)
    requires Chasing(s)
    ensures Iterate(Ring(), s, k).queue != []
    decreases k
  {
    hide Step;
    if k > 0 {
      ChaseGoesOn(s);
      ChaseNeverEnds(Step(Ring(), s), k - 1);
    }
  }

  /** The turn for the loan's block, which has two successors. */
  lemma RingStepLoan(s: State)
    requires Shaped(Ring(), s) && s.queue != [] && s.queue[0] == 0
             && (s.exit[0] || s.bits[0] != if s.entry[0] then {0} else {})
    ensures var g, bits := Ring(), if s.entry[0] then {0} else {};
            var r := s.(queue := s.queue[1..], bits := s.bits[0 := bits], exit := s.exit[0 := false]);
            Step(g, s) == Visit(g, Visit(g, r, 1), 0)
  {
    hide Bits, ExitBit, Visit;
    var g := Ring();
    RingTransfer(0, s.entry[0]);
    var r := Stored(g, s);
    StepIs(g, s);
    assert g.next[0] == [1, 0] && [1, 0][1..] == [0] && [0][1..] == [];
    assert VisitAll(g, r, [1, 0]) == VisitAll(g, Visit(g, r, 1), [0]);
    assert VisitAll(g, Visit(g, r, 1), [0]) == VisitAll(g, Visit(g, Visit(g, r, 1), 0), []);
  }

  lemma RingStarts()
    ensures Valid(Ring())
            && Start(Ring()) ==
               State([{2}, {}, {}, {}], [true, true, false, false], [true, false, false, false], [1, 0])
  {
    hide Bits, ExitBit;
    var g := Ring();
    RingTransfer(0, true);
    var s := State([{2}, {}, {}, {}], [false, false, false, false], [true, false, false, false], []);
    assert State(seq(4, _ => {})[0 := {2}], seq(4, _ => false), seq(4, _ => false)[0 := true], []) == s;
    assert g.next[0] == [1, 0] && [1, 0][1..] == [0] && [0][1..] == [];
    var s1 := s.(entry := [false, true, false, false], queue := [1]);
    assert s.entry[1 := true] == s1.entry && [] + [1] == [1];
    assert Seed(g, s, [1, 0]) == Seed(g, s1, [0]);
    var s2 := s.(entry := [true, true, false, false], queue := [1, 0]);
    assert s1.entry[0 := true] == s2.entry && [1] + [0] == [1, 0];
    assert Seed(g, s1, [0]) == Seed(g, s2, []);
  }

  /** The states of the first five turns. */
  function Opening(): seq<State> {
    [State([{2}, {}, {}, {}], [true, true, false, false], [true, false, false, false], [1, 0]),
     State([{2}, {0}, {}, {}], [true, true, true, false], [true, true, false, false], [0, 2]),
     State([{0}, {0}, {}, {}], [false, false, true, false], [false, true, false, false], [2, 1, 0]),
     State([{0}, {0}, {0}, {}], [false, false, true, true], [false, true, true, false], [1, 0, 3]),
     State([{0}, {}, {0}, {}], [false, false, false, true], [false, false, true, false], [0, 3, 2]),
     State([{}, {}, {0}, {}], [false, false, false, true], [false, false, true, false], [3, 2])]
  }

  ghost predicate Turns(s: State, r: State) {
    Shaped(Ring(), s) && s.queue != [] && Step(Ring(), s) == r
  }

  lemma Opening0()
    ensures Turns(Opening()[0], Opening()[1])
  {
    hide Bits, ExitBit, SomePredExits, Step;
    var s, r := Opening()[0], Opening()[1];
    RingStep(s);
    RingPreds(r.exit, 2);
    assert s.bits[1 := {0}] == r.bits && s.exit[1 := true] == r.exit && s.entry[2 := true] == r.entry;
    assert s.queue[1..] == [0] && 2 !in [0] && [0] + [2] == r.queue;
  }

  lemma Opening1()
    ensures Turns(Opening()[1], Opening()[2])
  {
    hide Bits, ExitBit, SomePredExits, Step;
    var s, r := Opening()[1], Opening()[2];
    RingStepLoan(s);
    RingPreds(r.exit, 1);
    RingPreds(r.exit, 0);
    assert s.bits[0 := {0}] == r.bits && s.exit[0 := false] == r.exit && s.entry[1 := false][0 := false] == r.entry;
    assert s.queue[1..] == [2] && [2] + [1] == [2, 1] && [2, 1] + [0] == r.queue;
  }

  lemma Opening2()
    ensures Turns(Opening()[2], Opening()[3])
  {
    hide Bits, ExitBit, SomePredExits, Step;
    var s, r := Opening()[2], Opening()[3];
    RingStep(s);
    RingPreds(r.exit, 3);
    assert s.bits[2 := {0}] == r.bits && s.exit[2 := true] == r.exit && s.entry[3 := true] == r.entry;
    assert s.queue[1..] == [1, 0] && 3 !in [1, 0] && [1, 0] + [3] == r.queue;
  }

  lemma Opening3()
    ensures Turns(Opening()[3], Opening()[4])
  {
    hide Bits, ExitBit, SomePredExits, Step;
    var s, r := Opening()[3], Opening()[4];
    RingStep(s);
    RingPreds(r.exit, 2);
    assert s.bits[1 := {}] == r.bits && s.exit[1 := false] == r.exit && s.entry[2 := false] == r.entry;
    assert s.queue[1..] == [0, 3] && 2 !in [0, 3] && [0, 3] + [2] == r.queue;
  }

  lemma Opening4()
    ensures Turns(Opening()[4], Opening()[5]) && Chasing(Opening()[5])
  {
    hide Bits, ExitBit, SomePredExits, Step;
    var s, r := Opening()[4], Opening()[5];
    RingStepLoan(s);
    RingPreds(r.exit, 1);
    RingPreds(r.exit, 0);
    assert s.bits[0 := {}] == r.bits && s.exit[0 := false] == r.exit;
    assert s.queue[1..] == r.queue;
  }

  /** No number of turns ends the analysis of this body's only loan. */
  lemma RingNeverEnds(k: nat)
    ensures var g := CfgOf(RingBody(), 0, 1, 1);
            Valid(g) && !LoanBlockQuiet(g) && Iterate(g, Start(g), k).queue != []
  {
    hide Step, Chasing, Start, Ring, CfgOf, Iterate, LoanBlockQuiet, Shaped;
    RingIsBody();
    RingStarts();
    RingRuns(k);
    var g := Ring();
    if LoanBlockQuiet(g) {
      ReservationExact(g);
      RingRuns(|g.readsRef|);
    }
  }

  lemma RingRuns(k: nat)
    ensures Shaped(Ring(), Opening()[0]) && Iterate(Ring(), Opening()[0], k).queue != []
  {
    hide Step, Chasing, Ring, Iterate, Shaped;
    Opening0();
    Opening1();
    Opening2();
    Opening3();
    Opening4();
    ChaseEnds(Opening()[5], k);
    RingTurns(Opening(), 5, k);
  }

  lemma ChaseEnds(s: State, k: nat)
    requires Chasing(s)
    ensures Shaped(Ring(), s) && forall j: nat :: j <= k ==> Iterate(Ring(), s, j).queue != []
  {
    hide Iterate, Step;
    forall j: nat | j <= k
      ensures Iterate(Ring(), s, j).queue != []
    {
      ChaseNeverEnds(s, j);
    }
  }

  /** A run along the given states has not ended when the run from the last of them has not. */
  lemma {:induction false} RingTurns(states: seq<State>, last: nat, k: nat)
    requires |states| == last + 1 && Shaped(Ring(), states[last])
    requires forall i, j :: 0 <= i < last && j == i + 1 ==> Turns(states[i], states[j])
    requires forall j: nat :: j <= k ==> Iterate(Ring(), states[last], j).queue != []
    ensures Shaped(Ring(), states[0]) && Iterate(Ring(), states[0], k).queue != []
    decreases last
  {
    hide Step, Ring;
    if last > 0 {
      assert Turns(states[0], states[1]);
      if k > 0 {
        RingTurns(states[1..], last - 1, k - 1);
      }
    }
  }
}
