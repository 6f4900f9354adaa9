/** The mid-level IR: control-flow graphs over locals (crates/glyim-mir/src/lib.rs). */
module Mir {
  import opened Int64
  import opened Wrappers

  type Local = u32
  type Block = u32

  datatype ProjectionElem =
    | Deref
    | Field(field: nat)
    | Index(index: Local)
    | Downcast(variant: nat)
    | ConstantIndex(offset: nat, fromEnd: bool)
    | Subslice(from: nat, to: nat, sliceFromEnd: bool)

  datatype Place = Place(local: Local, projection: seq<ProjectionElem>)

  datatype BinOp =
    | Add | Sub | Mul | Div | Rem
    | Eq | Ne | Lt | Gt | LtEq | GtEq
    | And | Or | BitAnd | BitOr | BitXor | Shl | Shr

  datatype UnOp = Not | Neg | DerefOp

  /** `CUnresolved` stands for the kinds that must be folded before code generation. */
  datatype MirConst =
    | CInt(i: int)
    | CUint(u: nat)
    | CBool(b: bool)
    | CChar(c: u32)
    | CUnit
    | CUnresolved

  datatype Operand = Copy(place: Place) | Move(place: Place) | Constant(value: MirConst)

  datatype BorrowKind = Shared | Unique | Mut(allowTwoPhase: bool)

  datatype Rvalue =
    | Use(operand: Operand)
    | Ref(borrowed: Place, kind: BorrowKind)
    | BinaryOp(binop: BinOp, left: Operand, right: Operand)
    | UnaryOp(unop: UnOp, operand: Operand)
    | Aggregate(operands: seq<Operand>)
    | Discriminant(place: Place)
    | Len(place: Place)
    | Cast(operand: Operand)
    | Repeat(operand: Operand)

  datatype Statement =
    | Assign(dest: Place, rvalue: Rvalue)
    | StorageLive(local: Local)
    | StorageDead(local: Local)
    | Nop

  datatype Arm = Arm(value: nat, target: Block)

  datatype Terminator =
    | Goto(target: Block)
    | SwitchInt(discr: Operand, onBool: bool, arms: seq<Arm>, otherwise: Block)
    | Return
    | Unreachable
    | Call(func: Operand, args: seq<Operand>, destination: Place, resume: Option<Block>, cleanup: Option<Block>)
    | Assert(cond: Operand, expected: bool, target: Block, cleanup: Option<Block>)
    | Drop(place: Place, target: Block, cleanup: Option<Block>)

  datatype BasicBlock = BasicBlock(statements: seq<Statement>, terminator: Terminator)

  datatype LocalTy = TInt | TBool | TUnit | TOther

  datatype Body = Body(blocks: seq<BasicBlock>, locals: seq<LocalTy>)
}
