# Abstract interpretation over MIR, in Dafny

This project models a small abstract interpreter for the compiler's mid-level IR (MIR).
The interpreter computes conservative summaries of a function without running it. It has
three parts:

- three abstract domains:
  - a four-point boolean lattice (`Booleans`);
  - an interval lattice whose bounds may be infinite (`Intervals`);
  - a composite value domain over booleans, signed and unsigned intervals, tuples and a
    deinitialised marker (`Values`);
- reading a signature out of a body (`MirHelpers`);
- the interpreter (`Interpreter`), which has three jobs:
  - the eligibility gate;
  - the summary built from argument and return types;
  - one walk over a body's blocks and statements, which rewrites a map from locals to
    abstract values.

Six modules correspond to source files:

- `Booleans`, `Intervals` and `Values` to src/domains/booleans.rs, interval.rs and value.rs;
- `MirHelpers` to src/mir_helpers.rs;
- `Interpreter` to src/interpreter.rs;
- `Errors` to src/errors.rs.

The rest are support modules:

- `Prelude` holds Rust's `Option` and `Ordering`.
- `Mir` models the MIR that the host compiler supplies as plain datatypes.

The `AbstractDomain` trait of src/domains/domain.rs has no module of its own. Each domain
module defines its own `Join`, `Widen` and `TopOf`. `AbstractFunction` from
src/domains/function.rs is a datatype in `Values`.

The domains and the signature, summary, operand, rvalue and operator code are functions.
The source's in-place state is modelled as follows:

- The `&mut HashMap` is a `State` object with a `locals` map field.
- `InterpretStatement` and `InterpretBlock` are methods that update that field.
- `InterpretBody` is a method. It allocates a fresh `State`, seeds it in a loop, and walks
  the blocks in a loop.

Each of these methods is proved equal to a recursive specification function:
`ExecStatement`, `ExecBlock` and `ExecBlocks`. The properties are proved about those
functions.

Panics in the source become preconditions:

- joining or widening values of different variants, or Tuple values;
- a body without locals (`get_fn_types` unwraps the first declaration);
- a boolean constant that is not one known byte in an allocation.

For the last case, the interpreter's preconditions (`OperandSafe`, `BinopSafe`,
`RvalueSafe`, `StatementSafe`, `BlockSafe`, `BlocksSafe`) require only that the boolean
constants that actually get evaluated are well formed. They follow the source's evaluation
order: left operand before right, stop at the first failing statement, each block once.

Two gaps inside the source itself are handled as follows:

- src/domains/interval.rs defines no `equals`, `less_than` or `+` on intervals, yet
  src/interpreter.rs:220-236 calls them. The model receives them as parameters
  (`Intervals.IntervalOps`) and assumes nothing about them.
- The `AbstractValue` enum in src/domains/value.rs:9-21 has no deinitialised variant, but
  src/interpreter.rs:193 stores `AbstractValue::Uninit`. The model adds `Uninit` to
  `Values.AbstractValue`. The match in `top` (src/domains/value.rs:45-52) has no arm for it,
  so `Values.TopOf` requires a value without `Uninit`.

## Model

| member | source | states |
|---|---|---|
| `Booleans.PartialCmp` | src/domains/booleans.rs:22-38 | Less iff strictly below in the diagram, Greater iff strictly above, Equal iff identical, None exactly for True against False |
| `Booleans.Join` | src/domains/booleans.rs:49-56 | the result is an upper bound of both operands, below every other upper bound, and covers both operands' concrete booleans |
| `Booleans.Widen` | src/domains/booleans.rs:58-72 | widening equals join on every pair |
| `Booleans.TopOf` | src/domains/booleans.rs:74-76 | the result is above every element and stands for both booleans |
| `Booleans.FromBool` | src/domains/booleans.rs:79-86 | never Top or Bot; stands for exactly the given boolean |
| `Booleans.FromConst` | src/domains/booleans.rs:88-104 | for a Bool constant with one known byte: the same as converting "byte is nonzero" |
| `Booleans.Equals` | src/domains/booleans.rs:109-121 | Top on either side gives Top, else Bot on either side gives Bot, else a definite value that is True iff the operands are equal; sound for every concrete pair |
| `Booleans.LeIsPartialOrder` | src/domains/booleans.rs:15-21 | the diagram order is reflexive, antisymmetric and transitive |
| `Booleans.JoinTable` | src/domains/booleans.rs:49-56 | join(True, False) = Top, Bot is the identity, Top absorbs, join is idempotent |
| `Booleans.JoinCommutative` | src/domains/booleans.rs:49-56 | join is commutative |
| `Booleans.JoinAssociative` | src/domains/booleans.rs:49-56 | join is associative |
| `Booleans.EqualsCommutative` | src/domains/booleans.rs:109-121 | abstract equality is commutative |
| `Intervals.Cmp` | src/domains/interval.rs:26-37 | Less, Equal, Greater exactly as NegInf < Elem(x) < Inf with elements compared as integers |
| `Intervals.CmpTotalOrder` | src/domains/interval.rs:19-37 | the bound order is antisymmetric, irreflexive, transitive and total |
| `Intervals.Min` | src/domains/interval.rs:51 | `Ord::min` returns one of its operands and is below both |
| `Intervals.Max` | src/domains/interval.rs:52 | `Ord::max` returns one of its operands and is above both |
| `Intervals.Join` | src/domains/interval.rs:49-54 | each bound comes from an operand; the result contains both operands and is contained in every interval that contains both |
| `Intervals.JoinCommutative` | src/domains/interval.rs:49-54 | join is commutative |
| `Intervals.JoinAssociative` | src/domains/interval.rs:49-54 | join is associative |
| `Intervals.JoinIdempotent` | src/domains/interval.rs:49-54 | join is idempotent |
| `Intervals.Widen` | src/domains/interval.rs:56-69 | each bound is the receiver's or an infinity; a bound changes iff the new interval goes past it; the result contains the join |
| `Intervals.WidenStable` | src/domains/interval.rs:58-67 | widening by an interval inside the receiver's bounds returns the receiver |
| `Intervals.WidenChain` | src/domains/interval.rs:56-69 | the iterates start at the receiver and each is the widening of the previous one |
| `Intervals.WidenChangesEachBoundOnce` | src/domains/interval.rs:56-69 | along any sequence of widenings, the lower bound changes at most once and the upper bound at most once |
| `Intervals.LowerStaysNegInf` | src/domains/interval.rs:58-62 | once the lower bound is NegInf, widening keeps it there |
| `Intervals.UpperStaysInf` | src/domains/interval.rs:63-67 | once the upper bound is Inf, widening keeps it there |
| `Intervals.TopOf` | src/domains/interval.rs:71-76 | (NegInf, Inf) for any receiver, containing every interval |
| `Intervals.From` | src/domains/interval.rs:79-85 | lower = upper = Elem(v), so exactly v lies between the bounds |
| `Intervals.JoinOfPoints` | src/domains/interval.rs:49-54 | the join of two points is [min, max] |
| `Values.Join` | src/domains/value.rs:24-32 | for matching Bool, Int or Uint operands: keeps the variant and gives the least upper bound in the value order |
| `Values.Widen` | src/domains/value.rs:34-42 | keeps the variant and is above the join; booleans use boolean join (equal to boolean widen) and intervals use interval widening |
| `Values.TopOf` | src/domains/value.rs:44-53 | the result is top in every part, above the receiver, and a tuple keeps its length |
| `Values.TopFixedPoint` | src/domains/value.rs:44-53 | a value made only of tops is a fixed point of `top` |
| `Values.TopIdempotent` | src/domains/value.rs:44-53 | `top` is idempotent |
| `Values.New` | src/domains/value.rs:61-79 | succeeds iff the type is built from Bool, Int, Uint and tuples; the result is top everywhere and has the type's shape; other types give NotImplementedError |
| `Values.NewAll` | src/domains/value.rs:72-76 | collecting `new` over types succeeds iff every type is supported, and then gives `new` of each type in order |
| `Values.NewOfTuple` | src/domains/value.rs:72-76 | a tuple type gives a Tuple with `new(field)` for each field in order, and fails iff some field fails |
| `Values.NewScalars` | src/domains/value.rs:65-71 | Bool gives Bool(Top), Int and Uint give (NegInf, Inf), Float and other types give NotImplementedError |
| `Values.NewIsTop` | src/domains/value.rs:61-79 | whenever `new` succeeds, its result is a fixed point of `top` |
| `MirHelpers.GetFnTypes` | src/mir_helpers.rs:9-22 | the return type is local 0; there are min(arg_count, locals − 1) argument types, and argument i is local i + 1 |
| `Interpreter.IsTuple` | src/interpreter.rs:72-74 | true exactly when `tuple_fields` succeeds |
| `Interpreter.TupleFields` | src/interpreter.rs:77-82 | the fields of a tuple type; InvalidArgumentError for any other type |
| `Interpreter.CanInterpret` | src/interpreter.rs:84-110 | true iff every local is Int, Uint, Float or Bool, or a tuple whose fields are all Int, Uint, Float or Bool |
| `Interpreter.IneligibleLocal` | src/interpreter.rs:106-109 | a local of another kind, or a tuple with a tuple field, makes the body ineligible |
| `Interpreter.EligibleNewFailsOnlyOnFloat` | src/interpreter.rs:84-110 | on an eligible body, `new` of a local's type fails exactly when a float is involved |
| `Interpreter.InterpretIntervals` | src/interpreter.rs:133-148 | succeeds iff `new` succeeds on every argument type and on the return type; then arguments[i] = new(arg_types[i]) and return_val = new(return_type); an argument failure is the one reported |
| `Interpreter.AnalyzeFunction` | src/interpreter.rs:112-131 | InterpreterError when the gate refuses the body, otherwise exactly the summary |
| `Interpreter.IdentitySummary` | src/interpreter.rs:133-148 | the summary of an `i32 -> i32` function is the full signed range on both sides |
| `Interpreter.GetPlaceValue` | src/interpreter.rs:305-307 | always Ok; Some(the local's value) iff the local is in the state |
| `Interpreter.InterpretOperand` | src/interpreter.rs:244-302 | Copy/Move give the local's value, or InterpreterError if it is missing; a Bool constant is decoded; any other constant gives NotImplementedError |
| `Interpreter.ApplyBinop` | src/interpreter.rs:217-241 | defined exactly for Add on matching intervals, Eq on matching booleans or intervals, and Lt on matching intervals; otherwise NotImplementedError |
| `Interpreter.InterpretBinop` | src/interpreter.rs:214-242 | the left operand's failure wins, then the right operand's; otherwise the operator is applied to both values |
| `Interpreter.InterpretRvalue` | src/interpreter.rs:200-212 | Use is its operand; BinaryOp is the operation; CheckedBinaryOp gives Tuple[v, Bool(False)], or the operation's error; other rvalues give NotImplementedError |
| `Interpreter.ExecStatement` | src/interpreter.rs:185-198 | only the written local can change; on failure the state is unchanged; Assign stores the rvalue's value iff it evaluates; Deinit stores Uninit; other kinds give NotImplementedError |
| `Interpreter.ExecBlock` | src/interpreter.rs:178-183 | the statements run in order on the state each one leaves, stopping at the first failure; no local is removed, and a failing block is non-empty (its frame, split and first-failure properties are `BlockFrame`, `BlockSplit`, `StopsAtFirstFailure` and `FailureComesFromStatement`) |
| `Interpreter.BlockFrame` | src/interpreter.rs:178-183 | a block never removes a local and changes only locals that one of its statements writes |
| `Interpreter.BlockSplit` | src/interpreter.rs:178-183 | a block runs as a prefix followed by the rest; when the prefix fails nothing after it runs and its updates are kept |
| `Interpreter.StopsAtFirstFailure` | src/interpreter.rs:179-181 | if the statements before index k pass and statement k fails, then the block's result is the result of statement k |
| `Interpreter.FailureComesFromStatement` | src/interpreter.rs:179-181 | conversely, a failing block failed at some statement k: the statements before k passed, and the block's result is statement k's result |
| `Interpreter.ExecBlocks` | src/interpreter.rs:167-173 | each block runs once, in index order; at most one error is recorded per block |
| `Interpreter.ExecBlocksStep` | src/interpreter.rs:167-173 | one step of the walk: the current block on the current state, then the blocks after it |
| `Interpreter.BlocksAppend` | src/interpreter.rs:167-173 | running two block lists one after the other is running their concatenation, and the errors concatenate |
| `Interpreter.Seeded` | src/interpreter.rs:162-165 | the seeded state holds argument i at local i + 1 and no other local |
| `Interpreter.SeededExtend` | src/interpreter.rs:163-164 | seeding one more argument inserts it at the next local |
| `Interpreter.InterpretStatement` | src/interpreter.rs:185-198 | the new state and the outcome are those of `ExecStatement` on the old state |
| `Interpreter.InterpretBlock` | src/interpreter.rs:178-183 | the new state and the outcome are those of `ExecBlock` on the old state |
| `Interpreter.InterpretBody` | src/interpreter.rs:150-176 | a wrong argument count gives InvalidArgumentError with its message; otherwise Ok of the state after the whole walk from the seeded state, even when blocks failed |
| `Interpreter.RvalueKeepsInit` | src/interpreter.rs:200-212 | on a state without Uninit, an rvalue's value contains no Uninit |
| `Interpreter.BlockKeepsInit` | src/interpreter.rs:178-198 | a block without Deinit keeps a state free of Uninit |
| `Interpreter.BlocksKeepInit` | src/interpreter.rs:167-173 | a body without Deinit keeps a state free of Uninit |
| `Interpreter.CopyArgument` | src/interpreter.rs:150-176 | copying local 1 (seeded with [3, 3]) into local 2 gives the state {1 ↦ [3, 3], 2 ↦ [3, 3]} |

## Left out

- `get_sysroot` (src/interpreter.rs:32-40) runs a process, so it is I/O.
- `analyze_program` and `check_summaries` (src/interpreter.rs:44-70) are left out. They iterate over the crate and print results, which is driver and output code.
- All `debug!` logging is left out. The `errors` list of `interpret_body` is modelled: `InterpretBody` collects it in a local variable whose loop invariant ties it to `ExecBlocks`. As in the source, it is not returned.
- `AnalyzeFunction`: the debugging call `interpret_body(function, &vec![IntInterval(Interval::from(3))])`, whose result is only logged, is not modelled. A panic inside that call, from a malformed boolean constant, is not modelled either.
- `Interval::equals`, `Interval::less_than` and interval `+` have no bodies in the source. They are parameters (`Intervals.IntervalOps`, one record each for signed and unsigned intervals), and nothing is assumed about them.
- The 128-bit widths of i128/u128 are not modelled. Interval elements are unbounded integers. `new` only builds infinite bounds, and the arithmetic lives in the parameters above, so no modelled operation over- or underflows.
- The compiler APIs are replaced by plain datatypes in `Mir`:
  - One `Int` and one `Uint` type stand for every width.
  - `Other` stands for every type kind the analysis does not name.
  - `OtherStatement`, `OtherRvalue` and `OtherConstantKind` stand for the remaining statement, rvalue and constant kinds.
  - Block terminators are omitted, because the interpreter never reads them.
- Boolean constants that are not one known byte in an `Allocated` constant make the source panic. `Booleans.FromConst` excludes them with its precondition.
- Values.Join, Values.Widen: the panics on mismatched variants (and on Tuple pairs) are a precondition (`SameScalarVariant`), so those calls are not modelled.
- Values.TopOf: `top` has no match arm for `Uninit`, so the model requires a value without it (`NoUninit`) and says nothing about that case.
- There is no fixpoint loop: the source walks each block exactly once, and so does the model.
- Floats appear only as a type tag. There is no float arithmetic.
- The commented-out constant folding (src/interpreter.rs:255-298) and `follow_projection` (src/interpreter.rs:309-319) are not live code. Place projections are carried but never followed, as in the source.
- Error messages are modelled only for the one error that carries a message, the argument-count error.
- `src/domains/domain.rs`, `src/domains/function.rs`, `src/errors.rs`, `src/domains.rs` and `src/lib.rs` hold only declarations and module wiring. They are folded into the datatypes and per-domain functions.
- There is no concurrency in the core.
