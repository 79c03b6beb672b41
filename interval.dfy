/**
 * The interval lattice (src/domains/interval.rs). The source is generic in a
 * totally ordered element type and is used at i128 and u128; here the
 * elements are mathematical integers.
 */
module Intervals {
  import opened Prelude
  import Booleans

  /** A bound: a finite element or one of the two infinities. */
  datatype IntervalElem = Inf | Elem(v: int) | NegInf

  /** The inclusive range from `lower` to `upper`. */
  datatype Interval = Interval(lower: IntervalElem, upper: IntervalElem)

  /** The strict order of bounds, stated directly: NegInf < Elem(_) < Inf. */
  predicate Lt(x: IntervalElem, y: IntervalElem) {
    match (x, y)
    case (NegInf, NegInf) => false
    case (NegInf, _) => true
    case (Elem(a), Elem(b)) => a < b
    case (Elem(_), Inf) => true
    case (_, _) => false
  }

  predicate Le(x: IntervalElem, y: IntervalElem) {
    x == y || Lt(x, y)
  }

  /** `IntervalElem::cmp`: the infinities are compared first, then the elements. */
  function Cmp(x: IntervalElem, y: IntervalElem): (r: Ordering)
    ensures r == Less <==> Lt(x, y)
    ensures r == Equal <==> x == y
    ensures r == Greater <==> Lt(y, x)
  {
    match (x, y)
    case (Inf, Inf) => Equal
    case (Inf, _) => Greater
    case (_, Inf) => Less
    case (NegInf, NegInf) => Equal
    case (NegInf, _) => Less
    case (_, NegInf) => Greater
    case (Elem(a), Elem(b)) => if a < b then Less else if a == b then Equal else Greater
  }

  /** `Ord::min`: the first operand unless the second is strictly smaller. */
  function Min(x: IntervalElem, y: IntervalElem): (r: IntervalElem)
    ensures r == x || r == y
    ensures Le(r, x) && Le(r, y)
  {
    match Cmp(x, y)
    case Less => x
    case Equal => x
    case Greater => y
  }

  /** `Ord::max`: the second operand unless the first is strictly greater. */
  function Max(x: IntervalElem, y: IntervalElem): (r: IntervalElem)
    ensures r == x || r == y
    ensures Le(x, r) && Le(y, r)
  {
    match Cmp(x, y)
    case Less => y
    case Equal => y
    case Greater => x
  }

  /** `outer` reaches at least as far as `inner` on both sides. */
  predicate Contains(outer: Interval, inner: Interval) {
    Le(outer.lower, inner.lower) && Le(inner.upper, outer.upper)
  }

  /** `join`: the smallest interval that contains both operands. */
  function Join(a: Interval, b: Interval): (r: Interval)
    ensures r.lower == a.lower || r.lower == b.lower
    ensures r.upper == a.upper || r.upper == b.upper
    ensures Contains(r, a) && Contains(r, b)
    ensures forall c :: Contains(c, a) && Contains(c, b) ==> Contains(c, r)
  {
    Interval(Min(a.lower, b.lower), Max(a.upper, b.upper))
  }

  /**
   * `widen`: a bound that the new interval pushes outwards jumps to its
   * infinity; otherwise the receiver's bound is kept.
   */
  function Widen(a: Interval, b: Interval): (r: Interval)
    ensures r.lower == a.lower || r.lower == NegInf
    ensures r.upper == a.upper || r.upper == Inf
    ensures r.lower != a.lower <==> Lt(b.lower, a.lower)
    ensures r.upper != a.upper <==> Lt(a.upper, b.upper)
    ensures Contains(r, Join(a, b))
  {
    Interval(
      if Cmp(b.lower, a.lower) == Less then NegInf else a.lower,
      if Cmp(b.upper, a.upper) == Greater then Inf else a.upper)
  }

  /** `top`: (NegInf, Inf), whatever the receiver. */
  function TopOf(a: Interval): (r: Interval)
    ensures forall c :: Contains(r, c)
    ensures r.lower == NegInf && r.upper == Inf
  {
    Interval(NegInf, Inf)
  }

  /** `From<T>`: the interval holding exactly one value. */
  function From(v: int): (r: Interval)
    ensures r.lower == Elem(v) && r.upper == Elem(v)
    ensures forall x: int :: Le(r.lower, Elem(x)) && Le(Elem(x), r.upper) <==> x == v
  {
    Interval(Elem(v), Elem(v))
  }

  /**
   * The interval operations whose bodies are not part of this model
   * (`Interval::equals`, `Interval::less_than` and `+`); the interpreter
   * receives them as parameters.
   */
  datatype IntervalOps = IntervalOps(
    add: (Interval, Interval) -> Interval,
    equals: (Interval, Interval) -> Booleans.AbstractBool,
    lessThan: (Interval, Interval) -> Booleans.AbstractBool)

  /** `cmp` is a total order on bounds. */
  lemma CmpTotalOrder(x: IntervalElem, y: IntervalElem, z: IntervalElem)
    ensures Cmp(x, y) == Reverse(Cmp(y, x))
    ensures !Lt(x, x)
    ensures Lt(x, y) && Lt(y, z) ==> Lt(x, z)
    ensures x == y || Lt(x, y) || Lt(y, x)
  {
  }

  lemma JoinCommutative(a: Interval, b: Interval)
    ensures Join(a, b) == Join(b, a)
  {
  }

  lemma JoinAssociative(a: Interval, b: Interval, c: Interval)
    ensures Join(Join(a, b), c) == Join(a, Join(b, c))
  {
  }

  lemma JoinIdempotent(a: Interval)
    ensures Join(a, a) == a
  {
  }

  /** Widening by an interval that stays inside the receiver changes nothing. */
  lemma WidenStable(a: Interval, b: Interval)
    requires Le(a.lower, b.lower) && Le(b.upper, a.upper)
    ensures Widen(a, b) == a
  {
  }

  /** The join of two points is the range between them. */
  lemma JoinOfPoints(a: int, b: int)
    ensures Join(From(a), From(b)) == Interval(Elem(if a <= b then a else b), Elem(if a <= b then b else a))
  {
  }

  /** The iterates of widening the receiver `a` by each of `bs` in turn, `a` first. */
  function WidenChain(a: Interval, bs: seq<Interval>): (chain: seq<Interval>)
    ensures |chain| == |bs| + 1 && chain[0] == a
    ensures forall k :: 0 <= k < |bs| ==> chain[k + 1] == Widen(chain[k], bs[k])
    decreases bs
  {
    if bs == [] then [a] else [a] + WidenChain(Widen(a, bs[0]), bs[1..])
  }

  /** The number of places where the bound sequence `s` changes from one step to the next. */
  function Changes(s: seq<IntervalElem>): nat {
    if |s| < 2 then 0 else (if s[0] != s[1] then 1 else 0) + Changes(s[1..])
  }

  /** The lower bounds of a chain, in order. */
  function Lowers(chain: seq<Interval>): seq<IntervalElem>
  {
    seq(|chain|, k requires 0 <= k < |chain| => chain[k].lower)
  }

  /** The upper bounds of a chain, in order. */
  function Uppers(chain: seq<Interval>): seq<IntervalElem>
  {
    seq(|chain|, k requires 0 <= k < |chain| => chain[k].upper)
  }

  /**
   * However long the widening sequence, each bound changes at most once:
   * the lower bound only ever jumps to NegInf and the upper to Inf, where
   * they stay.
   */
  lemma {:induction false} WidenChangesEachBoundOnce(a: Interval, bs: seq<Interval>)
    ensures Changes(Lowers(WidenChain(a, bs))) <= 1
    ensures Changes(Uppers(WidenChain(a, bs))) <= 1
    decreases bs
  {
    var chain := WidenChain(a, bs);
    if bs != [] {
      var w := Widen(a, bs[0]);
      WidenChangesEachBoundOnce(w, bs[1..]);
      assert chain == [a] + WidenChain(w, bs[1..]);
      assert Lowers(chain)[1..] == Lowers(WidenChain(w, bs[1..]));
      assert Uppers(chain)[1..] == Uppers(WidenChain(w, bs[1..]));
      if w.lower != a.lower {
        LowerStaysNegInf(w, bs[1..]);
        ConstantNoChanges(Lowers(WidenChain(w, bs[1..])), NegInf);
      }
      if w.upper != a.upper {
        UpperStaysInf(w, bs[1..]);
        ConstantNoChanges(Uppers(WidenChain(w, bs[1..])), Inf);
      }
    }
  }

  lemma {:induction false} LowerStaysNegInf(a: Interval, bs: seq<Interval>)
    requires a.lower == NegInf
    ensures forall k :: 0 <= k < |bs| + 1 ==> WidenChain(a, bs)[k].lower == NegInf
    decreases bs
  {
    if bs != [] {
      LowerStaysNegInf(Widen(a, bs[0]), bs[1..]);
    }
  }

  lemma {:induction false} UpperStaysInf(a: Interval, bs: seq<Interval>)
    requires a.upper == Inf
    ensures forall k :: 0 <= k < |bs| + 1 ==> WidenChain(a, bs)[k].upper == Inf
    decreases bs
  {
    if bs != [] {
      UpperStaysInf(Widen(a, bs[0]), bs[1..]);
    }
  }

  lemma {:induction false} ConstantNoChanges(s: seq<IntervalElem>, e: IntervalElem)
    requires forall k :: 0 <= k < |s| ==> s[k] == e
    ensures Changes(s) == 0
  {
    if |s| >= 2 {
      ConstantNoChanges(s[1..], e);
    }
  }
}
