/**
 * The composite value domain (src/domains/value.rs) and the function summary
 * (src/domains/function.rs).
 */
module Values {
  import opened Prelude
  import Errors
  import B = Booleans
  import I = Intervals
  import Mir

  /**
   * One abstract value per variant of the analysed program's scalar kinds.
   * `Uninit` marks a local that has been deinitialised.
   */
  datatype AbstractValue =
    | Bool(b: B.AbstractBool)
    | IntInterval(i: I.Interval)
    | UintInterval(u: I.Interval)
    | Tuple(elems: seq<AbstractValue>)
    | Uninit

  /** A summary of a function: one abstract value per argument, and one for the result. */
  datatype AbstractFunction = AbstractFunction(arguments: seq<AbstractValue>, returnVal: AbstractValue)

  /** No `Uninit` anywhere inside; `top` has no case for `Uninit`. */
  predicate NoUninit(v: AbstractValue) {
    match v
    case Uninit => false
    case Tuple(vs) => forall k :: 0 <= k < |vs| ==> NoUninit(vs[k])
    case _ => true
  }

  /** The pairs that `join` and `widen` accept: the same non-tuple, non-Uninit variant. */
  predicate SameScalarVariant(a: AbstractValue, c: AbstractValue) {
    (a.Bool? && c.Bool?) || (a.IntInterval? && c.IntInterval?) || (a.UintInterval? && c.UintInterval?)
  }

  /** The order of the composite domain: per variant, and elementwise on tuples. */
  predicate Le(a: AbstractValue, c: AbstractValue) {
    match (a, c)
    case (Bool(x), Bool(y)) => B.Le(x, y)
    case (IntInterval(x), IntInterval(y)) => I.Contains(y, x)
    case (UintInterval(x), UintInterval(y)) => I.Contains(y, x)
    case (Tuple(xs), Tuple(ys)) => |xs| == |ys| && forall k :: 0 <= k < |xs| ==> Le(xs[k], ys[k])
    case (Uninit, Uninit) => true
    case (_, _) => false
  }

  /** Every part is the top of its domain. */
  predicate IsTopValue(v: AbstractValue) {
    match v
    case Bool(x) => x == B.Top
    case IntInterval(x) => x == I.Interval(I.NegInf, I.Inf)
    case UintInterval(x) => x == I.Interval(I.NegInf, I.Inf)
    case Tuple(vs) => forall k :: 0 <= k < |vs| ==> IsTopValue(vs[k])
    case Uninit => false
  }

  /** `v` has the shape of type `ty`. */
  predicate Matches(v: AbstractValue, ty: Mir.Ty) {
    match (v, ty)
    case (Bool(_), Bool) => true
    case (IntInterval(_), Int) => true
    case (UintInterval(_), Uint) => true
    case (Tuple(vs), Tuple(fs)) => |vs| == |fs| && forall k :: 0 <= k < |vs| ==> Matches(vs[k], fs[k])
    case (_, _) => false
  }

  /** The types `new` can abstract: booleans, integers, and tuples of such types. */
  predicate Supported(ty: Mir.Ty) {
    match ty
    case Bool => true
    case Int => true
    case Uint => true
    case Tuple(fs) => forall k :: 0 <= k < |fs| ==> Supported(fs[k])
    case Float => false
    case Other => false
  }

  /** `join`: the least upper bound, computed in the operands' own domain. */
  function Join(a: AbstractValue, c: AbstractValue): (r: AbstractValue)
    requires SameScalarVariant(a, c)
    ensures SameScalarVariant(a, r)
    ensures Le(a, r) && Le(c, r)
    ensures forall d :: Le(a, d) && Le(c, d) ==> Le(r, d)
  {
    match (a, c)
    case (Bool(x), Bool(y)) => Bool(B.Join(x, y))
    case (IntInterval(x), IntInterval(y)) => IntInterval(I.Join(x, y))
    case (UintInterval(x), UintInterval(y)) => UintInterval(I.Join(x, y))
  }

  /**
   * `widen`: interval widening on intervals; on booleans the boolean `join`
   * is used (which agrees with boolean `widen`).
   */
  function Widen(a: AbstractValue, c: AbstractValue): (r: AbstractValue)
    requires SameScalarVariant(a, c)
    ensures SameScalarVariant(a, r)
    ensures Le(Join(a, c), r)
    ensures a.Bool? ==> r == Join(a, c) && r == Bool(B.Widen(a.b, c.b))
    ensures a.IntInterval? ==> r == IntInterval(I.Widen(a.i, c.i))
    ensures a.UintInterval? ==> r == UintInterval(I.Widen(a.u, c.u))
  {
    match (a, c)
    case (Bool(x), Bool(y)) => Bool(B.Join(x, y))
    case (IntInterval(x), IntInterval(y)) => IntInterval(I.Widen(x, y))
    case (UintInterval(x), UintInterval(y)) => UintInterval(I.Widen(x, y))
  }

  /** `top`: the same shape, with every part raised to the top of its domain. */
  function TopOf(v: AbstractValue): (r: AbstractValue)
    requires NoUninit(v)
    ensures IsTopValue(r)
    ensures Le(v, r)
    ensures v.Tuple? ==> r.Tuple? && |r.elems| == |v.elems|
  {
    match v
    case Bool(x) => Bool(B.TopOf(x))
    case IntInterval(x) => IntInterval(I.TopOf(x))
    case UintInterval(x) => UintInterval(I.TopOf(x))
    case Tuple(vs) => Tuple(seq(|vs|, k requires 0 <= k < |vs| => TopOf(vs[k])))
  }

  /**
   * `new`: the top value of a type. Booleans, signed and unsigned integers
   * map to the top of their domain, a tuple type to the tuple of its fields'
   * values; every other type, and a tuple with such a field, is not implemented.
   */
  function New(ty: Mir.Ty): (r: Errors.Result<AbstractValue>)
    ensures r.Ok? <==> Supported(ty)
    ensures r.Ok? ==> IsTopValue(r.value) && Matches(r.value, ty) && NoUninit(r.value)
    ensures r.Err? ==> r.error == Errors.New(Errors.NotImplementedError)
    decreases ty
  {
    match ty
    case Bool => Errors.Ok(Bool(B.Top))
    case Int => Errors.Ok(IntInterval(I.TopOf(I.From(0))))
    case Uint => Errors.Ok(UintInterval(I.TopOf(I.From(0))))
    case Tuple(fs) => (match NewAll(fs) case Ok(vs) => Errors.Ok(Tuple(vs)) case Err(e) => Errors.Err(e))
    case _ => Errors.Err(Errors.New(Errors.NotImplementedError))
  }

  /** `new` over a list of types, collected into a result: the first failure wins. */
  function NewAll(tys: seq<Mir.Ty>): (r: Errors.Result<seq<AbstractValue>>)
    ensures r.Ok? <==> forall k :: 0 <= k < |tys| ==> Supported(tys[k])
    ensures r.Ok? ==> |r.value| == |tys| && forall k :: 0 <= k < |tys| ==> New(tys[k]) == Errors.Ok(r.value[k])
    ensures r.Err? ==> r.error == Errors.New(Errors.NotImplementedError)
    decreases tys
  {
    if tys == [] then Errors.Ok([])
    else
      match New(tys[0])
      case Err(e) => Errors.Err(e)
      case Ok(v) =>
        match NewAll(tys[1..])
        case Err(e) => Errors.Err(e)
        case Ok(vs) => Errors.Ok([v] + vs)
  }

  /** A value made only of tops is a fixed point of `top`. */
  lemma {:induction false} TopFixedPoint(v: AbstractValue)
    requires IsTopValue(v)
    ensures NoUninit(v) && TopOf(v) == v
  {
    match v
    case Tuple(vs) =>
      forall k | 0 <= k < |vs|
        ensures NoUninit(vs[k]) && TopOf(vs[k]) == vs[k]
      {
        TopFixedPoint(vs[k]);
      }
      assert NoUninit(v);
      assert TopOf(v).elems == vs;
    case _ =>
  }

  /** `top` is idempotent. */
  lemma TopIdempotent(v: AbstractValue)
    requires NoUninit(v)
    ensures NoUninit(TopOf(v)) && TopOf(TopOf(v)) == TopOf(v)
  {
    TopFixedPoint(TopOf(v));
  }

  /** Whenever `new` succeeds, its result is a fixed point of `top`. */
  lemma NewIsTop(ty: Mir.Ty)
    requires New(ty).Ok?
    ensures TopOf(New(ty).value) == New(ty).value
  {
    TopFixedPoint(New(ty).value);
  }

  /** `new` on a tuple type: one `new(field)` per field in order, failing if any field fails. */
  lemma NewOfTuple(fs: seq<Mir.Ty>)
    ensures New(Mir.Tuple(fs)).Err? <==> exists k :: 0 <= k < |fs| && New(fs[k]).Err?
    ensures New(Mir.Tuple(fs)).Ok? ==>
      && New(Mir.Tuple(fs)).value.Tuple?
      && |New(Mir.Tuple(fs)).value.elems| == |fs|
      && forall k :: 0 <= k < |fs| ==> New(fs[k]) == Errors.Ok(New(Mir.Tuple(fs)).value.elems[k])
  {
  }

  /** `new` on the scalar types, and on the types it does not implement. */
  lemma NewScalars()
    ensures New(Mir.Bool) == Errors.Ok(Bool(B.Top))
    ensures New(Mir.Int) == Errors.Ok(IntInterval(I.Interval(I.NegInf, I.Inf)))
    ensures New(Mir.Uint) == Errors.Ok(UintInterval(I.Interval(I.NegInf, I.Inf)))
    ensures New(Mir.Float) == Errors.Err(Errors.New(Errors.NotImplementedError))
    ensures New(Mir.Other) == Errors.Err(Errors.New(Errors.NotImplementedError))
  {
  }
}
