/**
 * The slice of the compiler's mid-level IR (MIR) that the interpreter reads,
 * as plain immutable values. In the system these come from the host
 * compiler; here they are inputs.
 */
module Mir {
  import opened Prelude

  /** A local variable is named by its index; local 0 is the return slot. */
  type Local = nat

  /** A byte of a constant's allocation; `None` is an uninitialised byte. */
  type Byte = b: int | 0 <= b < 256

  /**
   * A type descriptor, reduced to the kinds the analysis tells apart.
   * `Int` and `Uint` stand for every signed and unsigned integer width,
   * `Other` for every remaining kind (references, structs, ...).
   */
  datatype Ty = Bool | Int | Uint | Float | Tuple(fields: seq<Ty>) | Other

  datatype LocalDecl = LocalDecl(ty: Ty)

  /** How a constant's value is given; only `Allocated` carries bytes. */
  datatype ConstantKind = Allocated(bytes: seq<Option<Byte>>) | OtherConstantKind

  datatype Const = Const(ty: Ty, kind: ConstantKind)

  datatype ProjectionElem = Deref | Field(index: nat) | OtherProjection

  datatype Place = Place(local: Local, projection: seq<ProjectionElem>)

  datatype Operand = Copy(place: Place) | Move(place: Place) | Constant(literal: Const)

  datatype BinOp =
    | Add | Sub | Mul | Div | Rem
    | BitXor | BitAnd | BitOr | Shl | Shr
    | Eq | Lt | Le | Ne | Ge | Gt
    | Offset

  /** `OtherRvalue` stands for every rvalue kind besides these three. */
  datatype Rvalue =
    | Use(operand: Operand)
    | BinaryOp(op: BinOp, left: Operand, right: Operand)
    | CheckedBinaryOp(op: BinOp, left: Operand, right: Operand)
    | OtherRvalue

  /** `OtherStatement` stands for every statement kind besides these two. */
  datatype Statement = Assign(place: Place, rvalue: Rvalue) | Deinit(place: Place) | OtherStatement

  /** A basic block; its terminator is not read by the interpreter and is omitted. */
  datatype BasicBlock = BasicBlock(statements: seq<Statement>)

  /** A function body: blocks in declaration order, all locals, and how many are arguments. */
  datatype Body = Body(blocks: seq<BasicBlock>, localDecls: seq<LocalDecl>, argCount: nat)
}
