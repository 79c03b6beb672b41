/**
 * The abstract interpreter over a function body (src/interpreter.rs): the
 * eligibility gate, the signature summary, and the walk over blocks and
 * statements that rewrites a map from locals to abstract values.
 */
module Interpreter {
  import opened Prelude
  import opened Errors
  import opened Mir
  import B = Booleans
  import I = Intervals
  import V = Values
  import MirHelpers

  /** The interval operations for signed (i128) and unsigned (u128) intervals. */
  datatype Arithmetic = Arithmetic(signed: I.IntervalOps, unsigned: I.IntervalOps)

  type StateMap = map<Local, V.AbstractValue>

  /** The per-body program state, updated in place by statement evaluation. */
  class State {
    var locals: StateMap

    constructor ()
      ensures locals == map[]
    {
      locals := map[];
    }
  }

  /* ---------------- Eligibility ---------------- */

  function IsTuple(ty: Ty): (r: bool)
    ensures r <==> TupleFields(ty).Ok?
  {
    ty.Tuple?
  }

  /** The field types of a tuple type; any other type is an invalid argument. */
  function TupleFields(ty: Ty): (r: Result<seq<Ty>>)
    ensures r.Ok? ==> ty == Tuple(r.value)
    ensures r.Err? ==> !ty.Tuple? && r.error == New(InvalidArgumentError)
  {
    match ty
    case Tuple(params) => Ok(params)
    case _ => Err(New(InvalidArgumentError))
  }

  predicate IsNumeric(ty: Ty) {
    match ty
    case Int => true
    case Uint => true
    case Float => true
    case _ => false
  }

  predicate IsBool(ty: Ty) {
    ty == Bool
  }

  predicate IsNumericOrBool(ty: Ty) {
    IsNumeric(ty) || IsBool(ty)
  }

  /** A type the interpreter accepts, stated by cases: a scalar, or a tuple of scalars. */
  predicate Eligible(ty: Ty) {
    match ty
    case Bool => true
    case Int => true
    case Uint => true
    case Float => true
    case Tuple(fs) => forall j :: 0 <= j < |fs| ==> !fs[j].Tuple? && !fs[j].Other?
    case Other => false
  }

  /**
   * `can_interpret`: every local is a number, a boolean, or a tuple whose
   * fields are all numbers or booleans.
   */
  function CanInterpret(decls: seq<LocalDecl>): (r: bool)
    ensures r <==> forall k :: 0 <= k < |decls| ==> Eligible(decls[k].ty)
  {
    if decls == [] then true
    else
      var ty := decls[0].ty;
      && (|| IsNumericOrBool(ty)
          || (IsTuple(ty) && forall j :: 0 <= j < |TupleFields(ty).value| ==> IsNumericOrBool(TupleFields(ty).value[j])))
      && CanInterpret(decls[1..])
  }

  /** A nested tuple, or any type outside the scalar kinds, makes a body ineligible. */
  lemma IneligibleLocal(decls: seq<LocalDecl>, k: nat)
    requires k < |decls|
    requires decls[k].ty.Other? || (decls[k].ty.Tuple? && exists j :: 0 <= j < |decls[k].ty.fields| && decls[k].ty.fields[j].Tuple?)
    ensures !CanInterpret(decls)
  {
  }

  predicate HasFloat(ty: Ty) {
    ty == Float || (ty.Tuple? && exists j :: 0 <= j < |ty.fields| && ty.fields[j] == Float)
  }

  /**
   * On an eligible body, building a top value of a local's type fails
   * exactly when a float is involved: the gate admits floats but `new` does not.
   */
  lemma EligibleNewFailsOnlyOnFloat(decls: seq<LocalDecl>, k: nat)
    requires CanInterpret(decls) && k < |decls|
    ensures V.New(decls[k].ty).Err? <==> HasFloat(decls[k].ty)
  {
    var ty := decls[k].ty;
    assert Eligible(ty);
    if ty.Tuple? {
      if HasFloat(ty) {
        var j :| 0 <= j < |ty.fields| && ty.fields[j] == Float;
        assert !V.Supported(ty.fields[j]);
      } else {
        forall j | 0 <= j < |ty.fields| ensures V.Supported(ty.fields[j]) {
          assert !ty.fields[j].Tuple? && !ty.fields[j].Other? && ty.fields[j] != Float;
        }
      }
    }
  }

  /* ---------------- Summaries ---------------- */

  /**
   * `interpret_intervals`: the summary built from the signature alone, one
   * top value per argument type and one for the return type. An argument's
   * failure is reported before the return type's.
   */
  function InterpretIntervals(body: Body): (r: Result<V.AbstractFunction>)
    requires 1 <= |body.localDecls|
    ensures var (argTypes, returnType) := MirHelpers.GetFnTypes(body);
      && (r.Ok? <==> (forall k :: 0 <= k < |argTypes| ==> V.Supported(argTypes[k])) && V.Supported(returnType))
      && (r.Ok? ==>
            && |r.value.arguments| == |argTypes|
            && (forall k :: 0 <= k < |argTypes| ==> V.New(argTypes[k]) == Ok(r.value.arguments[k]))
            && V.New(returnType) == Ok(r.value.returnVal))
      && (V.NewAll(argTypes).Err? ==> r == Err(V.NewAll(argTypes).error))
      && (r.Err? ==> r.error == New(NotImplementedError))
  {
    var (argTypes, returnType) := MirHelpers.GetFnTypes(body);
    var abstractArgs := V.NewAll(argTypes);
    var abstractReturn := V.New(returnType);
    match (abstractArgs, abstractReturn)
    case (Ok(arguments), Ok(returnVal)) => Ok(V.AbstractFunction(arguments, returnVal))
    case (Err(e), _) => Err(e)
    case (_, Err(e)) => Err(e)
  }

  /**
   * `analyze_function`: an ineligible body is an interpreter error; an
   * eligible one gets exactly its signature summary.
   */
  function AnalyzeFunction(body: Body): (r: Result<V.AbstractFunction>)
    requires 1 <= |body.localDecls|
    ensures !CanInterpret(body.localDecls) ==> r == Err(New(InterpreterError))
    ensures CanInterpret(body.localDecls) ==> r == InterpretIntervals(body)
  {
    if CanInterpret(body.localDecls) then InterpretIntervals(body) else Err(New(InterpreterError))
  }

  /** `fn f(x: i32) -> i32 { x }` is summarised by its types: both sides full-range. */
  lemma IdentitySummary(blocks: seq<BasicBlock>)
    ensures AnalyzeFunction(Body(blocks, [LocalDecl(Int), LocalDecl(Int)], 1))
         == Ok(V.AbstractFunction([V.IntInterval(I.Interval(I.NegInf, I.Inf))], V.IntInterval(I.Interval(I.NegInf, I.Inf))))
  {
    var top := V.IntInterval(I.Interval(I.NegInf, I.Inf));
    assert MirHelpers.GetFnTypes(Body(blocks, [LocalDecl(Int), LocalDecl(Int)], 1)).0 == [Int];
    assert V.New(Int) == Ok(top);
    assert V.NewAll([Int]) == Ok([top]) by {
      assert [Int][0] == Int && [Int][1..] == [];
      assert V.NewAll([]) == Ok([]);
      assert [top] + [] == [top];
    }
  }

  /* ---------------- Operands, rvalues, binary operators ---------------- */

  /** Evaluating this operand does not hit the boolean-constant panic. */
  predicate OperandSafe(op: Operand) {
    op.Constant? && op.literal.ty == Bool ==> B.WellFormedBoolConst(op.literal)
  }

  /** `get_place_value`: the entry of the place's local; projections are not followed. */
  function GetPlaceValue(place: Place, state: StateMap): (r: Result<Option<V.AbstractValue>>)
    ensures r.Ok?
    ensures r.value.Some? <==> place.local in state
    ensures r.value.Some? ==> r.value.value == state[place.local]
  {
    Ok(if place.local in state then Some(state[place.local]) else None)
  }

  /**
   * `interpret_operand`: Copy and Move read the state (a missing local is an
   * interpreter error); a boolean constant is decoded, any other constant
   * is not implemented.
   */
  function InterpretOperand(op: Operand, state: StateMap): (r: Result<V.AbstractValue>)
    requires OperandSafe(op)
    ensures !op.Constant? ==> (r.Ok? <==> op.place.local in state)
    ensures !op.Constant? && r.Ok? ==> r.value == state[op.place.local]
    ensures !op.Constant? && r.Err? ==> r.error == New(InterpreterError)
    ensures op.Constant? ==> (r.Ok? <==> op.literal.ty == Bool)
    ensures op.Constant? && r.Ok? ==> r.value == V.Bool(B.FromConst(op.literal))
    ensures op.Constant? && r.Err? ==> r.error == New(NotImplementedError)
  {
    match op
    case Constant(c) =>
      if c.ty == Bool then Ok(V.Bool(B.FromConst(c))) else Err(New(NotImplementedError))
    case _ =>
      var value := GetPlaceValue(op.place, state).value;
      match value
      case Some(v) => Ok(v)
      case None => Err(New(InterpreterError))
  }

  /** The operator and operand variants for which a binary operation is defined. */
  predicate Defined(binop: BinOp, l: V.AbstractValue, r: V.AbstractValue) {
    var ints := (l.IntInterval? && r.IntInterval?) || (l.UintInterval? && r.UintInterval?);
    match binop
    case Add => ints
    case Eq => ints || (l.Bool? && r.Bool?)
    case Lt => ints
    case _ => false
  }

  /** Both operands are evaluated, left first, so the right one matters only if the left succeeds. */
  predicate BinopSafe(left: Operand, right: Operand, state: StateMap) {
    OperandSafe(left) && (InterpretOperand(left, state).Ok? ==> OperandSafe(right))
  }

  /**
   * The operator dispatch of `interpret_binop` on evaluated operands: Add on
   * matching intervals, Eq on matching booleans or intervals, Lt on matching
   * intervals; everything else is not implemented.
   */
  function ApplyBinop(ops: Arithmetic, binop: BinOp, l: V.AbstractValue, rt: V.AbstractValue): (r: Result<V.AbstractValue>)
    ensures r.Ok? <==> Defined(binop, l, rt)
    ensures r.Err? ==> r.error == New(NotImplementedError)
    ensures r.Ok? && binop == Add ==> if l.IntInterval? then r.value == V.IntInterval(ops.signed.add(l.i, rt.i))
                                      else r.value == V.UintInterval(ops.unsigned.add(l.u, rt.u))
    ensures r.Ok? && binop == Eq && l.Bool? ==> r.value == V.Bool(B.Equals(l.b, rt.b))
    ensures r.Ok? && binop == Eq && l.IntInterval? ==> r.value == V.Bool(ops.signed.equals(l.i, rt.i))
    ensures r.Ok? && binop == Eq && l.UintInterval? ==> r.value == V.Bool(ops.unsigned.equals(l.u, rt.u))
    ensures r.Ok? && binop == Lt && l.IntInterval? ==> r.value == V.Bool(ops.signed.lessThan(l.i, rt.i))
    ensures r.Ok? && binop == Lt && l.UintInterval? ==> r.value == V.Bool(ops.unsigned.lessThan(l.u, rt.u))
  {
    match binop
    case Add =>
      (match (l, rt)
       case (IntInterval(x), IntInterval(y)) => Ok(V.IntInterval(ops.signed.add(x, y)))
       case (UintInterval(x), UintInterval(y)) => Ok(V.UintInterval(ops.unsigned.add(x, y)))
       case _ => Err(New(NotImplementedError)))
    case Eq =>
      (match (l, rt)
       case (Bool(x), Bool(y)) => Ok(V.Bool(B.Equals(x, y)))
       case (IntInterval(x), IntInterval(y)) => Ok(V.Bool(ops.signed.equals(x, y)))
       case (UintInterval(x), UintInterval(y)) => Ok(V.Bool(ops.unsigned.equals(x, y)))
       case _ => Err(New(NotImplementedError)))
    case Lt =>
      (match (l, rt)
       case (IntInterval(x), IntInterval(y)) => Ok(V.Bool(ops.signed.lessThan(x, y)))
       case (UintInterval(x), UintInterval(y)) => Ok(V.Bool(ops.unsigned.lessThan(x, y)))
       case _ => Err(New(NotImplementedError)))
    case _ => Err(New(NotImplementedError))
  }

  /**
   * `interpret_binop`: both operands are evaluated, left first, and the first
   * failure is the result; then the operator is applied.
   */
  function InterpretBinop(ops: Arithmetic, binop: BinOp, left: Operand, right: Operand, state: StateMap): (r: Result<V.AbstractValue>)
    requires BinopSafe(left, right, state)
    ensures InterpretOperand(left, state).Err? ==> r == InterpretOperand(left, state)
    ensures InterpretOperand(left, state).Ok? && InterpretOperand(right, state).Err? ==> r == InterpretOperand(right, state)
    ensures InterpretOperand(left, state).Ok? && InterpretOperand(right, state).Ok? ==>
      r == ApplyBinop(ops, binop, InterpretOperand(left, state).value, InterpretOperand(right, state).value)
  {
    var leftVal :- InterpretOperand(left, state);
    var rightVal :- InterpretOperand(right, state);
    ApplyBinop(ops, binop, leftVal, rightVal)
  }

  predicate RvalueSafe(rvalue: Rvalue, state: StateMap) {
    match rvalue
    case Use(op) => OperandSafe(op)
    case BinaryOp(_, left, right) => BinopSafe(left, right, state)
    case CheckedBinaryOp(_, left, right) => BinopSafe(left, right, state)
    case OtherRvalue => true
  }

  /**
   * `interpret_rvalue`: a use is its operand; a checked operation pairs the
   * operation's value with a definite "no overflow" flag.
   */
  function InterpretRvalue(ops: Arithmetic, rvalue: Rvalue, state: StateMap): (r: Result<V.AbstractValue>)
    requires RvalueSafe(rvalue, state)
    ensures rvalue.Use? ==> r == InterpretOperand(rvalue.operand, state)
    ensures rvalue.BinaryOp? ==> r == InterpretBinop(ops, rvalue.op, rvalue.left, rvalue.right, state)
    ensures rvalue.CheckedBinaryOp? ==>
      var v := InterpretBinop(ops, rvalue.op, rvalue.left, rvalue.right, state);
      && (r.Ok? <==> v.Ok?)
      && (r.Ok? ==> r.value == V.Tuple([v.value, V.Bool(B.False)]))
      && (r.Err? ==> r.error == v.error)
    ensures rvalue.OtherRvalue? ==> r == Err(New(NotImplementedError))
  {
    match rvalue
    case Use(op) => InterpretOperand(op, state)
    case BinaryOp(op, left, right) => InterpretBinop(ops, op, left, right, state)
    case CheckedBinaryOp(op, left, right) =>
      var v :- InterpretBinop(ops, op, left, right, state);
      Ok(V.Tuple([v, V.Bool(B.False)]))
    case OtherRvalue => Err(New(NotImplementedError))
  }

  /* ---------------- Statements and blocks: specification ---------------- */

  predicate StatementSafe(statement: Statement, state: StateMap) {
    statement.Assign? ==> RvalueSafe(statement.rvalue, state)
  }

  /** The local a statement writes, if it writes one. */
  predicate Writes(statement: Statement, k: Local) {
    (statement.Assign? || statement.Deinit?) && statement.place.local == k
  }

  /**
   * The effect of `interpret_statement` on the state: an assignment whose
   * rvalue evaluates stores the value, a deinit stores `Uninit`; nothing
   * else changes, and a failure leaves the state as it was.
   */
  function ExecStatement(ops: Arithmetic, statement: Statement, state: StateMap): (res: (StateMap, Outcome))
    requires StatementSafe(statement, state)
    ensures res.1.Fail? ==> res.0 == state
    ensures state.Keys <= res.0.Keys
    ensures forall k :: k in res.0 && !Writes(statement, k) ==> k in state && res.0[k] == state[k]
    ensures statement.Assign? ==>
      var v := InterpretRvalue(ops, statement.rvalue, state);
      && (res.1.Pass? <==> v.Ok?)
      && (v.Ok? ==> statement.place.local in res.0 && res.0[statement.place.local] == v.value)
      && (v.Err? ==> res.1 == Fail(v.error))
    ensures statement.Deinit? ==> res.1.Pass? && statement.place.local in res.0 && res.0[statement.place.local] == V.Uninit
    ensures statement.OtherStatement? ==> res.1 == Fail(New(NotImplementedError))
  {
    match statement
    case Assign(place, rvalue) =>
      (match InterpretRvalue(ops, rvalue, state)
       case Ok(v) => (state[place.local := v], Pass)
       case Err(e) => (state, Fail(e)))
    case Deinit(place) => (state[place.local := V.Uninit], Pass)
    case OtherStatement => (state, Fail(New(NotImplementedError)))
  }

  /** No statement that actually runs hits the boolean-constant panic. */
  predicate BlockSafe(ops: Arithmetic, statements: seq<Statement>, state: StateMap)
    decreases |statements|
  {
    statements == [] ||
    (&& StatementSafe(statements[0], state)
     && (ExecStatement(ops, statements[0], state).1.Pass? ==>
           BlockSafe(ops, statements[1..], ExecStatement(ops, statements[0], state).0)))
  }

  /**
   * The effect of `interpret_block`: the statements in order, stopping at the
   * first failure with the updates made so far kept. Only locals written by
   * some statement of the block change.
   */
  function ExecBlock(ops: Arithmetic, statements: seq<Statement>, state: StateMap): (res: (StateMap, Outcome))
    requires BlockSafe(ops, statements, state)
    ensures state.Keys <= res.0.Keys
    ensures res.1.Fail? ==> statements != []
    decreases |statements|
  {
    if statements == [] then (state, Pass)
    else
      var (next, outcome) := ExecStatement(ops, statements[0], state);
      if outcome.Fail? then (next, outcome)
      else ExecBlock(ops, statements[1..], next)
  }

  /** A block never removes a local, and changes only locals that one of its statements writes. */
  lemma {:induction false} BlockFrame(ops: Arithmetic, statements: seq<Statement>, state: StateMap)
    requires BlockSafe(ops, statements, state)
    ensures state.Keys <= ExecBlock(ops, statements, state).0.Keys
    ensures forall k :: k in ExecBlock(ops, statements, state).0 && (k !in state || ExecBlock(ops, statements, state).0[k] != state[k]) ==>
      exists j :: 0 <= j < |statements| && Writes(statements[j], k)
    decreases |statements|
  {
    if statements != [] {
      var (next, outcome) := ExecStatement(ops, statements[0], state);
      if outcome.Pass? {
        BlockFrame(ops, statements[1..], next);
        var res := ExecBlock(ops, statements[1..], next);
        forall k | k in res.0 && (k !in state || res.0[k] != state[k])
          ensures exists j :: 0 <= j < |statements| && Writes(statements[j], k)
        {
          if !Writes(statements[0], k) {
            var j :| 0 <= j < |statements| - 1 && Writes(statements[1..][j], k);
            assert Writes(statements[j + 1], k);
          }
        }
      }
    }
  }

  /**
   * A block runs as its first k statements followed by the rest: when the
   * prefix fails, nothing after it runs and the prefix's updates are the result.
   */
  lemma {:induction false} BlockSplit(ops: Arithmetic, statements: seq<Statement>, state: StateMap, k: nat)
    requires BlockSafe(ops, statements, state)
    requires k <= |statements|
    ensures BlockSafe(ops, statements[..k], state)
    ensures var (mid, outcome) := ExecBlock(ops, statements[..k], state);
      && (outcome.Fail? ==> ExecBlock(ops, statements, state) == (mid, outcome))
      && (outcome.Pass? ==> BlockSafe(ops, statements[k..], mid) && ExecBlock(ops, statements, state) == ExecBlock(ops, statements[k..], mid))
    decreases k
  {
    if k == 0 {
      assert statements[..0] == [];
      assert statements[0..] == statements;
    } else {
      var (next, outcome) := ExecStatement(ops, statements[0], state);
      assert statements[..k][0] == statements[0];
      assert statements[..k][1..] == statements[1..][..k - 1];
      if outcome.Pass? {
        BlockSplit(ops, statements[1..], next, k - 1);
        assert statements[1..][k - 1..] == statements[k..];
      }
    }
  }

  /** `interpret_block` stops at the first failing statement; the earlier updates persist. */
  lemma StopsAtFirstFailure(ops: Arithmetic, statements: seq<Statement>, state: StateMap, k: nat)
    requires BlockSafe(ops, statements, state)
    requires k < |statements|
    requires BlockSafe(ops, statements[..k], state) && ExecBlock(ops, statements[..k], state).1.Pass?
    requires StatementSafe(statements[k], ExecBlock(ops, statements[..k], state).0)
    requires ExecStatement(ops, statements[k], ExecBlock(ops, statements[..k], state).0).1.Fail?
    ensures ExecBlock(ops, statements, state) == ExecStatement(ops, statements[k], ExecBlock(ops, statements[..k], state).0)
  {
    BlockSplit(ops, statements, state, k);
    var mid := ExecBlock(ops, statements[..k], state).0;
    assert statements[k..][0] == statements[k];
  }

  /**
   * Conversely, a failing block failed at some statement k: the statements
   * before k passed, and the block's result is that of statement k.
   */
  lemma {:induction false} FailureComesFromStatement(ops: Arithmetic, statements: seq<Statement>, state: StateMap)
    requires BlockSafe(ops, statements, state)
    ensures ExecBlock(ops, statements, state).1.Fail? ==>
      exists k :: 0 <= k < |statements|
        && BlockSafe(ops, statements[..k], state)
        && ExecBlock(ops, statements[..k], state).1.Pass?
        && StatementSafe(statements[k], ExecBlock(ops, statements[..k], state).0)
        && ExecBlock(ops, statements, state) == ExecStatement(ops, statements[k], ExecBlock(ops, statements[..k], state).0)
    decreases |statements|
  {
    if statements != [] && ExecBlock(ops, statements, state).1.Fail? {
      var (next, outcome) := ExecStatement(ops, statements[0], state);
      assert statements[..0] == [];
      if outcome.Pass? {
        FailureComesFromStatement(ops, statements[1..], next);
        var k :| 0 <= k < |statements| - 1
          && BlockSafe(ops, statements[1..][..k], next)
          && ExecBlock(ops, statements[1..][..k], next).1.Pass?
          && StatementSafe(statements[1..][k], ExecBlock(ops, statements[1..][..k], next).0)
          && ExecBlock(ops, statements[1..], next) == ExecStatement(ops, statements[1..][k], ExecBlock(ops, statements[1..][..k], next).0);
        assert statements[..k + 1][0] == statements[0];
        assert statements[..k + 1][1..] == statements[1..][..k];
        assert ExecBlock(ops, statements[..k + 1], state) == ExecBlock(ops, statements[1..][..k], next);
        assert statements[1..][k] == statements[k + 1];
      }
    }
  }

  /* ---------------- Bodies: specification ---------------- */

  predicate BlocksSafe(ops: Arithmetic, blocks: seq<BasicBlock>, state: StateMap)
    decreases |blocks|
  {
    blocks == [] ||
    (&& BlockSafe(ops, blocks[0].statements, state)
     && BlocksSafe(ops, blocks[1..], ExecBlock(ops, blocks[0].statements, state).0))
  }

  /**
   * The walk of `interpret_body` over the blocks: each block once, in index
   * order, on the state the previous one left; a failing block's error is
   * recorded and the walk goes on.
   */
  function ExecBlocks(ops: Arithmetic, blocks: seq<BasicBlock>, state: StateMap): (res: (StateMap, seq<Error>))
    requires BlocksSafe(ops, blocks, state)
    ensures |res.1| <= |blocks|
    decreases |blocks|
  {
    if blocks == [] then (state, [])
    else
      var (next, outcome) := ExecBlock(ops, blocks[0].statements, state);
      var (final, errors) := ExecBlocks(ops, blocks[1..], next);
      (final, (if outcome.Fail? then [outcome.error] else []) + errors)
  }

  /** Running two lists of blocks one after the other is running their concatenation. */
  lemma {:induction false} BlocksAppend(ops: Arithmetic, first: seq<BasicBlock>, second: seq<BasicBlock>, state: StateMap)
    requires BlocksSafe(ops, first + second, state)
    ensures BlocksSafe(ops, first, state)
    ensures BlocksSafe(ops, second, ExecBlocks(ops, first, state).0)
    ensures ExecBlocks(ops, first + second, state).0 == ExecBlocks(ops, second, ExecBlocks(ops, first, state).0).0
    ensures ExecBlocks(ops, first + second, state).1
         == ExecBlocks(ops, first, state).1 + ExecBlocks(ops, second, ExecBlocks(ops, first, state).0).1
    decreases |first|
  {
    if first == [] {
      assert first + second == second;
    } else {
      var statements := first[0].statements;
      assert (first + second)[0] == first[0];
      assert (first + second)[1..] == first[1..] + second;
      var next := ExecBlock(ops, statements, state).0;
      BlocksAppend(ops, first[1..], second, next);
      var head: seq<Error> := if ExecBlock(ops, statements, state).1.Fail? then [ExecBlock(ops, statements, state).1.error] else [];
      var errors1 := ExecBlocks(ops, first[1..], next).1;
      var errors2 := ExecBlocks(ops, second, ExecBlocks(ops, first[1..], next).0).1;
      assert ExecBlocks(ops, first, state).1 == head + errors1;
      assert ExecBlocks(ops, first + second, state).1 == head + (errors1 + errors2);
      AppendAssociative(head, errors1, errors2);
    }
  }

  /**
   * Regrouping a concatenation of error lists; kept as its own lemma so the
   * fact is used without the surrounding context of the callers.
   */
  lemma AppendAssociative<T>(a: seq<T>, b: seq<T>, c: seq<T>)
    ensures a + (b + c) == (a + b) + c
  {
  }

  /** One step of the walk: the block at index bb, then the blocks after it. */
  lemma ExecBlocksStep(ops: Arithmetic, blocks: seq<BasicBlock>, bb: nat, state: StateMap)
    requires bb < |blocks| && BlocksSafe(ops, blocks[bb..], state)
    ensures BlockSafe(ops, blocks[bb].statements, state)
    ensures var (next, outcome) := ExecBlock(ops, blocks[bb].statements, state);
      && BlocksSafe(ops, blocks[bb + 1..], next)
      && ExecBlocks(ops, blocks[bb..], state).0 == ExecBlocks(ops, blocks[bb + 1..], next).0
      && ExecBlocks(ops, blocks[bb..], state).1
         == (if outcome.Fail? then [outcome.error] else []) + ExecBlocks(ops, blocks[bb + 1..], next).1
  {
    assert blocks[bb..][0] == blocks[bb];
    assert blocks[bb..][1..] == blocks[bb + 1..];
  }

  /** The state seeded with the arguments: local i + 1 holds argument i, and nothing else is set. */
  function Seeded(args: seq<V.AbstractValue>): (m: StateMap)
    ensures forall k :: k in m <==> 1 <= k <= |args|
    ensures forall i :: 0 <= i < |args| ==> m[i + 1] == args[i]
  {
    if args == [] then map[]
    else Seeded(args[..|args| - 1])[|args| := args[|args| - 1]]
  }

  /** Seeding one more argument stores it at the next local. */
  lemma SeededExtend(args: seq<V.AbstractValue>, i: nat)
    requires i < |args|
    ensures Seeded(args[..i + 1]) == Seeded(args[..i])[i + 1 := args[i]]
  {
    assert args[..i + 1][..i] == args[..i];
  }

  const ArityMessage: string :=
    "Must supply same number of arguments as the function takes as input when interpretting it."

  /* ---------------- The interpreter ---------------- */

  /** `interpret_statement`, updating the state in place. */
  method InterpretStatement(ops: Arithmetic, statement: Statement, state: State) returns (r: Outcome)
    requires StatementSafe(statement, state.locals)
    modifies state
    ensures (state.locals, r) == ExecStatement(ops, statement, old(state.locals))
  {
    match statement
    case Assign(place, rvalue) =>
      var val := InterpretRvalue(ops, rvalue, state.locals);
      if val.Err? {
        return Fail(val.error);
      }
      state.locals := state.locals[place.local := val.value];
      return Pass;
    case Deinit(place) =>
      state.locals := state.locals[place.local := V.Uninit];
      return Pass;
    case OtherStatement =>
      return Fail(New(NotImplementedError));
  }

  /** `interpret_block`: the statements in order, returning at the first failure. */
  method InterpretBlock(ops: Arithmetic, block: BasicBlock, state: State) returns (r: Outcome)
    requires BlockSafe(ops, block.statements, state.locals)
    modifies state
    ensures (state.locals, r) == ExecBlock(ops, block.statements, old(state.locals))
  {
    var statements := block.statements;
    for i := 0 to |statements|
      invariant BlockSafe(ops, statements[i..], state.locals)
      invariant ExecBlock(ops, statements[i..], state.locals) == ExecBlock(ops, statements, old(state.locals))
    {
      assert statements[i..][0] == statements[i];
      assert statements[i..][1..] == statements[i + 1..];
      var outcome := InterpretStatement(ops, statements[i], state);
      if outcome.Fail? {
        return outcome;
      }
    }
    return Pass;
  }

  /**
   * `interpret_body`: the argument count must match the signature; the
   * arguments are stored at locals 1.., every block is run once in order,
   * and the final state is returned even when some blocks failed.
   */
  method InterpretBody(ops: Arithmetic, body: Body, argValues: seq<V.AbstractValue>) returns (r: Result<StateMap>)
    requires 1 <= |body.localDecls|
    requires |argValues| == |MirHelpers.GetFnTypes(body).0| ==> BlocksSafe(ops, body.blocks, Seeded(argValues))
    ensures |argValues| != |MirHelpers.GetFnTypes(body).0| ==> r == Err(WithMessage(InvalidArgumentError, ArityMessage))
    ensures |argValues| == |MirHelpers.GetFnTypes(body).0| ==> r == Ok(ExecBlocks(ops, body.blocks, Seeded(argValues)).0)
  {
    var state := new State();
    var errors: seq<Error> := [];

    var (argTypes, returnType) := MirHelpers.GetFnTypes(body);
    if |argValues| != |argTypes| {
      return Err(WithMessage(InvalidArgumentError, ArityMessage));
    }

    for i := 0 to |argValues|
      invariant state.locals == Seeded(argValues[..i])
    {
      SeededExtend(argValues, i);
      state.locals := state.locals[i + 1 := argValues[i]];
    }
    assert argValues[..|argValues|] == argValues;

    ghost var seeded := state.locals;
    var blocks := body.blocks;
    assert blocks[0..] == blocks;
    for bb := 0 to |blocks|
      invariant BlocksSafe(ops, blocks[bb..], state.locals)
      invariant ExecBlocks(ops, blocks[bb..], state.locals).0 == ExecBlocks(ops, blocks, seeded).0
      invariant errors + ExecBlocks(ops, blocks[bb..], state.locals).1 == ExecBlocks(ops, blocks, seeded).1
    {
      ExecBlocksStep(ops, blocks, bb, state.locals);
      ghost var rest := ExecBlocks(ops, blocks[bb..], state.locals);
      var result := InterpretBlock(ops, blocks[bb], state);
      ghost var earlier := errors;
      if result.Fail? {
        errors := errors + [result.error];
      }
      AppendAssociative(earlier, if result.Fail? then [result.error] else [], ExecBlocks(ops, blocks[bb + 1..], state.locals).1);
    }
    return Ok(state.locals);
  }

  /* ---------------- Properties of the walk ---------------- */

  /** Every value in the state is free of `Uninit`. */
  predicate AllInit(state: StateMap) {
    forall k :: k in state ==> V.NoUninit(state[k])
  }

  predicate NoDeinit(statements: seq<Statement>) {
    forall j :: 0 <= j < |statements| ==> !statements[j].Deinit?
  }

  /** An rvalue only yields `Uninit` by reading it from the state. */
  lemma RvalueKeepsInit(ops: Arithmetic, rvalue: Rvalue, state: StateMap)
    requires RvalueSafe(rvalue, state) && AllInit(state)
    requires InterpretRvalue(ops, rvalue, state).Ok?
    ensures V.NoUninit(InterpretRvalue(ops, rvalue, state).value)
  {
    if rvalue.CheckedBinaryOp? {
      var v := InterpretBinop(ops, rvalue.op, rvalue.left, rvalue.right, state).value;
      var t := InterpretRvalue(ops, rvalue, state).value;
      assert t.elems == [v, V.Bool(B.False)];
    }
  }

  /** Without Deinit statements, a state free of `Uninit` stays so through a block. */
  lemma {:induction false} BlockKeepsInit(ops: Arithmetic, statements: seq<Statement>, state: StateMap)
    requires BlockSafe(ops, statements, state) && AllInit(state) && NoDeinit(statements)
    ensures AllInit(ExecBlock(ops, statements, state).0)
    decreases |statements|
  {
    if statements != [] {
      var s := statements[0];
      if s.Assign? && InterpretRvalue(ops, s.rvalue, state).Ok? {
        RvalueKeepsInit(ops, s.rvalue, state);
      }
      var (next, outcome) := ExecStatement(ops, s, state);
      assert AllInit(next);
      if outcome.Pass? {
        assert NoDeinit(statements[1..]) by {
          forall j | 0 <= j < |statements| - 1 ensures !statements[1..][j].Deinit? {
            assert statements[1..][j] == statements[j + 1];
          }
        }
        BlockKeepsInit(ops, statements[1..], next);
      }
    }
  }

  /** Without Deinit statements in any block, a state free of `Uninit` stays so through the body. */
  lemma {:induction false} BlocksKeepInit(ops: Arithmetic, blocks: seq<BasicBlock>, state: StateMap)
    requires BlocksSafe(ops, blocks, state) && AllInit(state)
    requires forall b :: 0 <= b < |blocks| ==> NoDeinit(blocks[b].statements)
    ensures AllInit(ExecBlocks(ops, blocks, state).0)
    decreases |blocks|
  {
    if blocks != [] {
      BlockKeepsInit(ops, blocks[0].statements, state);
      var next := ExecBlock(ops, blocks[0].statements, state).0;
      assert forall b :: 0 <= b < |blocks| - 1 ==> blocks[1..][b] == blocks[b + 1];
      BlocksKeepInit(ops, blocks[1..], next);
    }
  }

  /**
   * A body whose only statement copies argument local 1 into local 2, run on
   * the point interval 3, ends with both locals holding that interval.
   */
  lemma CopyArgument(ops: Arithmetic)
    ensures var copy := Assign(Place(2, []), Use(Copy(Place(1, []))));
      var blocks := [BasicBlock([copy])];
      var args := [V.IntInterval(I.From(3))];
      && BlocksSafe(ops, blocks, Seeded(args))
      && ExecBlocks(ops, blocks, Seeded(args)).0 == map[1 := V.IntInterval(I.From(3)), 2 := V.IntInterval(I.From(3))]
  {
    var copy := Assign(Place(2, []), Use(Copy(Place(1, []))));
    var args := [V.IntInterval(I.From(3))];
    var m := Seeded(args);
    assert m == map[1 := V.IntInterval(I.From(3))];
    assert [copy][1..] == [];
    assert [BasicBlock([copy])][1..] == [];
    var after := m[2 := V.IntInterval(I.From(3))];
    assert ExecStatement(ops, copy, m) == (after, Pass);
    assert ExecBlock(ops, [copy], m) == (after, Pass);
    assert after == map[1 := V.IntInterval(I.From(3)), 2 := V.IntInterval(I.From(3))];
  }
}
