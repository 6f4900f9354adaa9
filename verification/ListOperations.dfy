/**
The operations on lists and cells that views use, defined on owned values, and which of them change
their receiver: what the lists of names in crates/glyim-gsx/src/analysis.rs stand for.
*/
module ListOperations {
  import opened GsxExpr
  import opened GsxRun
  import opened Reactivity
  import opened ReactivitySets
  import opened Wrappers

  // ----- the operations -----

  function Number(v: Value): int {
    if v.Atom? && v.lit.IntLit? then v.lit.i else 0
  }

  function Nth(args: seq<Value>, k: nat): Value {
    if k < |args| then args[k] else Absent
  }

  /** In front of the first item that is larger. */
  function Placed(x: Value, sorted: seq<Value>): seq<Value> {
    if sorted == [] || Number(x) < Number(sorted[0]) then [x] + sorted else [sorted[0]] + Placed(x, sorted[1..])
  }

  function Sorted(items: seq<Value>): seq<Value> {
    if items == [] then [] else Placed(items[0], Sorted(items[1..]))
  }

  function Without(items: seq<Value>, k: int): seq<Value> {
    if 0 <= k < |items| then items[..k] + items[k + 1..] else items
  }

  function Swapped(items: seq<Value>, i: int, j: int): seq<Value> {
    if 0 <= i < |items| && 0 <= j < |items| then items[i := items[j]][j := items[i]] else items
  }

  /** The receiver after the operation and its result; `left` is what the holder of a borrow leaves in the cell. */
  function Operation(name: string, v: Value, args: seq<Value>, left: Value -> Value): (Value, Value) {
    if name == "set" then (Nth(args, 0), Absent)
    else if name == "replace" then (Nth(args, 0), v)
    else if name == "take" then (Absent, v)
    else if name == "borrow_mut" then (left(v), v)
    else if v.List? then ListOperation(name, v.items, args)
    else (v, v)
  }

  function ListOperation(name: string, items: seq<Value>, args: seq<Value>): (Value, Value) {
    var i := Number(Nth(args, 0));
    if name == "push" then (List(items + [Nth(args, 0)]), Absent)
    else if name == "pop" then
      if items == [] then (List([]), Absent) else (List(items[..|items| - 1]), items[|items| - 1])
    else if name == "insert" then
      (if 0 <= i <= |items| then List(items[..i] + [Nth(args, 1)] + items[i..]) else List(items), Absent)
    else if name == "remove" then (List(Without(items, i)), if 0 <= i < |items| then items[i] else Absent)
    else if name == "swap" then (List(Swapped(items, i, Number(Nth(args, 1)))), Absent)
    else if name == "sort" then (List(Sorted(items)), Absent)
    else if name == "clear" then (List([]), Absent)
    else if name == "truncate" then (if 0 <= i < |items| then List(items[..i]) else List(items), Absent)
    else if name == "len" then (List(items), Atom(IntLit(|items|)))
    else if name == "get" then (List(items), if 0 <= i < |items| then items[i] else Absent)
    else if name == "contains" then (List(items), Atom(BoolLit(Nth(args, 0) in items)))
    else (List(items), List(items))
  }

  /** The same operations on lists called as functions: the first argument is what they work on. */
  function Called(name: string, vs: seq<Value>): (seq<Value>, Value) {
    if vs == [] || !vs[0].List? then (vs, Absent)
    else
      var (after, result) := ListOperation(name, vs[0].items, vs[1..]);
      ([after] + vs[1..], result)
  }

  // ----- which of them change what they work on -----

  ghost predicate ChangesReceiver(name: string) {
    exists v, args, left :: Operation(name, v, args, left).0 != v
  }

  ghost predicate ChangesArgument(name: string) {
    exists vs :: Called(name, vs).0 != vs
  }

  predicate InPlace(name: string) {
    || InPlaceOnLists(name)
    || name == "set" || name == "replace" || name == "take" || name == "borrow_mut"
  }

  predicate InPlaceOnLists(name: string) {
    || name == "push" || name == "pop" || name == "insert" || name == "remove" || name == "swap" || name == "sort"
    || name == "clear" || name == "truncate"
  }

  /** These ask for the items of their receiver or their number. */
  predicate Asks(name: string) {
    name == "iter" || name == "len" || name == "get" || name == "contains"
  }

  /** Two items out of order, on which each of the list operations has an effect. */
  function Pair(): seq<Value> {
    [Atom(IntLit(1)), Atom(IntLit(0))]
  }

  function PairArgs(name: string): seq<Value> {
    if name == "swap" then [Atom(IntLit(0)), Atom(IntLit(1))] else [Atom(IntLit(0)), Absent]
  }

  lemma PairChanges(name: string)
    requires InPlaceOnLists(name)
    ensures ListOperation(name, Pair(), PairArgs(name)).0 != List(Pair())
  {
    var items := Pair();
    if name == "sort" {
      SortedPair();
    } else if name == "swap" {
      assert Swapped(items, 0, 1)[0] != items[0];
    } else if name == "push" {
      assert |items + [Nth(PairArgs(name), 0)]| == 3;
    } else if name == "insert" {
      assert |items[..0] + [Absent] + items[0..]| == 3;
    } else if name == "remove" {
      assert |Without(items, 0)| == 1;
    }
  }

  lemma SortedPair()
    ensures Sorted(Pair()) == [Atom(IntLit(0)), Atom(IntLit(1))]
  {
    var items := Pair();
    assert items[1..] == [items[1]] && items[1..][1..] == [];
    assert Sorted(items[1..]) == [items[1]];
    assert [items[1]][1..] == [] && Placed(items[0], []) == [items[0]];
  }

  /** The methods that can change their receiver are exactly these. */
  lemma InPlaceExactly(name: string)
    ensures ChangesReceiver(name) <==> InPlace(name)
  {
    if InPlaceOnLists(name) {
      PairChanges(name);
      assert Operation(name, List(Pair()), PairArgs(name), v => v).0 != List(Pair());
    } else if name == "set" || name == "replace" {
      assert Operation(name, List([]), [Absent], v => v).0 != List([]);
    } else if name == "take" {
      assert Operation(name, List([]), [], v => v).0 != List([]);
    } else if name == "borrow_mut" {
      assert Operation(name, List([]), [], _ => Absent).0 != List([]);
    } else {
      forall v, args, left
        ensures Operation(name, v, args, left).0 == v
      {
      }
    }
  }

  /** And so are the functions that can change an argument. */
  lemma InPlaceCallExactly(name: string)
    ensures ChangesArgument(name) <==> InPlaceOnLists(name)
  {
    if InPlaceOnLists(name) {
      PairChanges(name);
      var vs := [List(Pair())] + PairArgs(name);
      assert vs[1..] == PairArgs(name) && Called(name, vs).0[0] != vs[0];
    } else {
      forall vs: seq<Value>
        ensures Called(name, vs).0 == vs
      {
        if vs != [] && vs[0].List? {
          assert Called(name, vs).0 == [vs[0]] + vs[1..];
        }
      }
    }
  }

  // ----- what the analysis makes of them -----

  lemma ListedNames(name: string)
    ensures MutatingMethod(name) <==> InPlace(name)
    ensures MutatingCall(name) <==> InPlaceOnLists(name)
    ensures SafeRead(name) <==> Asks(name)
  {
  }

  /** A method that can change a place is a write of it, with any arguments, and no other is. */
  lemma MethodWritten(name: string, recv: Expr, args: seq<Expr>, param: string)
    requires ArgPlace(recv, param).Some?
    ensures var path := ArgPlace(recv, param).value.steps;
            && (ChangesReceiver(name) ==> path in StepsOf(WriteSet(Method(recv, name, args), param)))
            && (!ChangesReceiver(name) ==> WriteSet(Method(recv, name, []), param) == {})
  {
    hide MutatingMethod, InPlace, ChangesReceiver, CollectWrites, StepsOf;
    InPlaceExactly(name);
    ListedNames(name);
    WritesAre(Method(recv, name, args), param, {});
    NoPaths();
    if !ChangesReceiver(name) {
      PlainMethod(recv, name, param);
    }
  }

  lemma NoPaths()
    ensures StepsOf({}) == {}
  {
  }

  lemma PlainMethod(recv: Expr, name: string, param: string)
    requires !MutatingMethod(name)
    ensures WriteSet(Method(recv, name, []), param) == {}
  {
    hide MutatingMethod;
    assert CollectAllWrites([], param, {}) == {};
  }

  /** A call that can change an argument is a write of every place among its arguments, and no other is. */
  lemma CallWritten(name: string, args: seq<Expr>, k: nat, param: string)
    requires k < |args| && ArgPlace(args[k], param).Some?
    ensures var path := ArgPlace(args[k], param).value.steps;
            && (ChangesArgument(name) ==> path in StepsOf(WriteSet(Call(name, args), param)))
            && (!ChangesArgument(name) ==> WriteSet(Call(name, [args[k]]), param) == {})
  {
    hide MutatingCall, InPlaceOnLists, ChangesArgument, CollectWrites, StepsOf;
    InPlaceCallExactly(name);
    ListedNames(name);
    WritesAre(Call(name, args), param, {});
    NoPaths();
    PathAmong(args, k, param);
    if !ChangesArgument(name) {
      PlainCall(name, args[k], param);
    }
  }

  lemma PlainCall(name: string, arg: Expr, param: string)
    requires !MutatingCall(name) && ArgPlace(arg, param).Some?
    ensures WriteSet(Call(name, [arg]), param) == {}
  {
    hide MutatingCall;
    var es := [arg];
    assert es[1..] == [] && CollectWrites(arg, param, {}) == {};
    assert CollectAllWrites(es[1..], param, {}) == {};
    assert CollectAllWrites(es, param, {}) == {};
  }

  lemma {:induction false} PathAmong(es: seq<Expr>, k: nat, param: string)
    requires k < |es| && ArgPlace(es[k], param).Some?
    ensures ArgPlace(es[k], param).value.steps in AllArgSteps(es, param)
    decreases |es|
  {
    if k > 0 {
      PathAmong(es[1..], k - 1, param);
    }
  }

  /** The receiver of every method is read, but for those that ask for its items or their number. */
  lemma MethodRead(name: string, recv: Expr, param: string)
    requires ArgPlace(recv, param).Some?
    ensures StepsOf(ReadSet(Method(recv, name, []), param)) ==
            ChainReads(recv, param, false) + if Asks(name) then {} else {ArgPlace(recv, param).value.steps}
  {
    hide SafeRead, Asks, CollectReads, StepsOf, ChainReads;
    ListedNames(name);
    ReadsAre(Method(recv, name, []), param, {});
    NoPaths();
    ArgIsChain(recv, param, false);
    assert AllReads([], param, false) == {};
  }

  // ----- the operations as a program's own -----

  /** Any program with these operations for its methods and functions. */
  function Owning(base: Host, left: Value -> Value): Host {
    base.(call := Called, method' := (name, v, args) => Operation(name, v, args, left),
          callMutates := InPlaceOnLists, methodMutates := InPlace)
  }

  /** The program changes a receiver or an argument just where it says so. */
  lemma OwningIsHonest(base: Host, left: Value -> Value)
    ensures forall name, v, args :: !Owning(base, left).methodMutates(name) ==>
              Owning(base, left).method'(name, v, args).0 == v
    ensures forall name, vs :: !Owning(base, left).callMutates(name) ==> Owning(base, left).call(name, vs).0 == vs
    ensures forall name :: Owning(base, left).methodMutates(name) ==> ChangesReceiver(name)
    ensures forall name :: Owning(base, left).callMutates(name) ==> ChangesArgument(name)
  {
    hide InPlace, InPlaceOnLists;
    forall name: string
      ensures ChangesReceiver(name) <==> InPlace(name)
      ensures ChangesArgument(name) <==> InPlaceOnLists(name)
    {
      InPlaceExactly(name);
      InPlaceCallExactly(name);
    }
  }
}
