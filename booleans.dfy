/** The four-point boolean lattice (src/domains/booleans.rs). */
module Booleans {
  import opened Prelude
  import Mir

  /**
   * Top stands for "true or false", Bot for "neither":
   *
   *          Top
   *        /     \
   *     False    True
   *        \     /
   *          Bot
   */
  datatype AbstractBool = Top | True | False | Bot

  /** The strict order of the lattice diagram, stated directly. */
  predicate Below(a: AbstractBool, b: AbstractBool) {
    (a == Bot && b != Bot) || (a != Top && b == Top)
  }

  /** The non-strict order of the lattice diagram. */
  predicate Le(a: AbstractBool, b: AbstractBool) {
    a == b || Below(a, b)
  }

  /** The concrete booleans an abstract boolean stands for. */
  function Gamma(a: AbstractBool): set<bool> {
    match a
    case Top => {false, true}
    case True => {true}
    case False => {false}
    case Bot => {}
  }

  /**
   * `partial_cmp`: Top is above and Bot below everything else, and
   * True and False are incomparable.
   */
  function PartialCmp(a: AbstractBool, b: AbstractBool): (r: Option<Ordering>)
    ensures r == Some(Less) <==> Below(a, b)
    ensures r == Some(Greater) <==> Below(b, a)
    ensures r == Some(Equal) <==> a == b
    ensures r == None <==> !Le(a, b) && !Le(b, a)
    ensures r == None <==> (a == True && b == False) || (a == False && b == True)
  {
    match (a, b)
    case (Top, Top) => Some(Equal)
    case (Top, _) => Some(Greater)
    case (_, Top) => Some(Less)
    case (Bot, Bot) => Some(Equal)
    case (Bot, _) => Some(Less)
    case (_, Bot) => Some(Greater)
    case (x, y) => if x == y then Some(Equal) else None
  }

  /** `join`: the greater operand when they are ordered, Top when they are not. */
  function Join(a: AbstractBool, b: AbstractBool): (r: AbstractBool)
    ensures Le(a, r) && Le(b, r)
    ensures forall c :: Le(a, c) && Le(b, c) ==> Le(r, c)
    ensures Gamma(a) + Gamma(b) <= Gamma(r)
  {
    match PartialCmp(a, b)
    case None => Top
    case Some(Equal) => a
    case Some(Less) => b
    case Some(Greater) => a
  }

  /** `widen`: on this finite lattice it agrees with `join` on every pair. */
  function Widen(a: AbstractBool, b: AbstractBool): (r: AbstractBool)
    ensures r == Join(a, b)
  {
    match (a, b)
    case (Top, _) => Top
    case (_, Top) => Top
    case (Bot, _) => b
    case (_, Bot) => a
    case (x, y) => if x == y then x else Top
  }

  /** `top`: the greatest element, whatever the receiver. */
  function TopOf(a: AbstractBool): (r: AbstractBool)
    ensures forall c :: Le(c, r)
    ensures Gamma(r) == {false, true}
  {
    Top
  }

  /** `From<bool>`: a concrete boolean becomes the matching definite value. */
  function FromBool(concrete: bool): (r: AbstractBool)
    ensures r != Top && r != Bot
    ensures Gamma(r) == {concrete}
  {
    if concrete then True else False
  }

  /** A boolean constant the source can convert: one known byte in an allocation. */
  predicate WellFormedBoolConst(c: Mir.Const) {
    c.ty == Mir.Bool && c.kind.Allocated? && |c.kind.bytes| == 1 && c.kind.bytes[0].Some?
  }

  /**
   * `From<&Const>`: byte 0 is false and every other byte is true. The other
   * shapes of constant make the source panic and are excluded.
   */
  function FromConst(c: Mir.Const): (r: AbstractBool)
    requires WellFormedBoolConst(c)
    ensures r == FromBool(c.kind.bytes[0].value != 0)
  {
    match c.kind.bytes[0].value
    case 0 => False
    case _ => True
  }

  /**
   * `equals`: Top on either side wins, then Bot on either side; two definite
   * values compare as concrete booleans. The result covers every concrete
   * comparison of values the operands stand for.
   */
  function Equals(a: AbstractBool, b: AbstractBool): (r: AbstractBool)
    ensures a == Top || b == Top ==> r == Top
    ensures a != Top && b != Top && (a == Bot || b == Bot) ==> r == Bot
    ensures a !in {Top, Bot} && b !in {Top, Bot} ==> r != Top && r != Bot && (r == True <==> a == b)
    ensures forall x, y :: x in Gamma(a) && y in Gamma(b) ==> (x == y) in Gamma(r)
  {
    match (a, b)
    case (Top, _) => Top
    case (_, Top) => Top
    case (Bot, _) => Bot
    case (_, Bot) => Bot
    case (x, y) => if x == y then True else False
  }

  /** The diagram's order is a partial order. */
  lemma LeIsPartialOrder(a: AbstractBool, b: AbstractBool, c: AbstractBool)
    ensures Le(a, a)
    ensures Le(a, b) && Le(b, a) ==> a == b
    ensures Le(a, b) && Le(b, c) ==> Le(a, c)
  {
  }

  /** The join table of the diagram. */
  lemma JoinTable(x: AbstractBool)
    ensures Join(True, False) == Top && Join(False, True) == Top
    ensures Join(Bot, x) == x && Join(x, Bot) == x
    ensures Join(x, Top) == Top && Join(Top, x) == Top
    ensures Join(x, x) == x
  {
  }

  lemma JoinCommutative(a: AbstractBool, b: AbstractBool)
    ensures Join(a, b) == Join(b, a)
  {
  }

  lemma JoinAssociative(a: AbstractBool, b: AbstractBool, c: AbstractBool)
    ensures Join(Join(a, b), c) == Join(a, Join(b, c))
  {
  }

  lemma EqualsCommutative(a: AbstractBool, b: AbstractBool)
    ensures Equals(a, b) == Equals(b, a)
  {
  }
}
