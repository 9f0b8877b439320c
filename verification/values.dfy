/**
  * Cells of a derived indicator column.
  *
  * pandas stores every indicator as a float column in which "no value yet"
  * is NaN and a division by zero yields an infinity.  The model keeps the
  * arithmetic exact: a cell is either undefined (NaN), an exact real, or one
  * of the two infinities.  The operations below follow the IEEE rules that
  * pandas inherits (NaN absorbs everything, inf - inf and 0 * inf are NaN,
  * finite / inf is 0, comparisons with NaN are false); signed zero is not
  * modelled.
  */
module Values {

  datatype Val = Undef | Fin(r: real) | PosInf | NegInf

  /** A gap-free column viewed as a column of cells. */
  function Lift(xs: seq<real>): (vs: seq<Val>)
    ensures |vs| == |xs|
    ensures forall i :: 0 <= i < |xs| ==> vs[i] == Fin(xs[i])
  {
    seq(|xs|, i requires 0 <= i < |xs| => Fin(xs[i]))
  }

  function Neg(a: Val): Val
  {
    match a
    case Undef => Undef
    case Fin(x) => Fin(-x)
    case PosInf => NegInf
    case NegInf => PosInf
  }

  /** `a + b`: NaN exactly when an operand is NaN or the sum is inf - inf; finite exactly when both operands are. */
  function Add(a: Val, b: Val): (r: Val)
    ensures r == Undef <==> a == Undef || b == Undef || (a == PosInf && b == NegInf) || (a == NegInf && b == PosInf)
    ensures r.Fin? <==> a.Fin? && b.Fin?
  {
    match (a, b)
    case (Undef, _) => Undef
    case (_, Undef) => Undef
    case (Fin(x), Fin(y)) => Fin(x + y)
    case (PosInf, NegInf) => Undef
    case (NegInf, PosInf) => Undef
    case (PosInf, _) => PosInf
    case (NegInf, _) => NegInf
    case (Fin(_), PosInf) => PosInf
    case (Fin(_), NegInf) => NegInf
  }

  /** `a - b`: NaN exactly when an operand is NaN or the difference is inf - inf; finite exactly when both operands are. */
  function Sub(a: Val, b: Val): (r: Val)
    ensures r == Undef <==> a == Undef || b == Undef || (a == PosInf && b == PosInf) || (a == NegInf && b == NegInf)
    ensures r.Fin? <==> a.Fin? && b.Fin?
  {
    Add(a, Neg(b))
  }

  /** Sign of a defined cell: -1, 0 or 1. */
  function Sign(a: Val): int
    requires a != Undef
  {
    match a
    case Fin(x) => if x > 0.0 then 1 else if x < 0.0 then -1 else 0
    case PosInf => 1
    case NegInf => -1
  }

  function InfOfSign(s: int): Val
  {
    if s > 0 then PosInf else if s < 0 then NegInf else Undef
  }

  /** `a * b`: NaN exactly when an operand is NaN or the product is 0 * inf; finite exactly when both operands are. */
  function Mul(a: Val, b: Val): (r: Val)
    ensures r == Undef <==>
              a == Undef || b == Undef ||
              (a == Fin(0.0) && (b == PosInf || b == NegInf)) || (b == Fin(0.0) && (a == PosInf || a == NegInf))
    ensures r.Fin? <==> a.Fin? && b.Fin?
  {
    match (a, b)
    case (Undef, _) => Undef
    case (_, Undef) => Undef
    case (Fin(x), Fin(y)) => Fin(x * y)
    case _ => InfOfSign(Sign(a) * Sign(b))
  }

  /**
    * `a / b`: NaN exactly when an operand is NaN, both are infinite, or
    * the quotient is 0 / 0; finite exactly when `a` is finite and `b` is
    * neither NaN nor zero.
    */
  function Div(a: Val, b: Val): (r: Val)
    ensures r == Undef <==>
              a == Undef || b == Undef ||
              ((a == PosInf || a == NegInf) && (b == PosInf || b == NegInf)) || (a == Fin(0.0) && b == Fin(0.0))
    ensures r.Fin? <==> a.Fin? && b != Undef && b != Fin(0.0)
  {
    match (a, b)
    case (Undef, _) => Undef
    case (_, Undef) => Undef
    case (Fin(x), Fin(y)) =>
      if y != 0.0 then Fin(x / y) else InfOfSign(Sign(a))
    case (Fin(_), _) => Fin(0.0)
    case (_, Fin(y)) =>
      if y < 0.0 then Neg(a) else a
    case _ => Undef
  }

  function Abs(a: Val): Val
  {
    match a
    case Undef => Undef
    case Fin(x) => Fin(if x < 0.0 then -x else x)
    case _ => PosInf
  }

  /** `a > b` on floats: false as soon as one side is NaN. */
  predicate Greater(a: Val, b: Val)
  {
    match (a, b)
    case (Fin(x), Fin(y)) => x > y
    case (PosInf, Fin(_)) => true
    case (PosInf, NegInf) => true
    case (Fin(_), NegInf) => true
    case _ => false
  }

  /** The larger of two cells, where an undefined cell is skipped. */
  function MaxSkipNa(a: Val, b: Val): (r: Val)
    ensures r == Undef <==> a == Undef && b == Undef
    ensures r == a || r == b
    ensures !Greater(a, r) && !Greater(b, r)
  {
    if a == Undef then b
    else if b == Undef then a
    else if Greater(b, a) then b
    else a
  }

  /** Row-wise `max(axis=1)` with pandas' default `skipna=True`. */
  function RowMax(vs: seq<Val>): (m: Val)
    ensures m == Undef <==> forall i :: 0 <= i < |vs| ==> vs[i] == Undef
    ensures forall i :: 0 <= i < |vs| ==> !Greater(vs[i], m)
    ensures m != Undef ==> exists i :: 0 <= i < |vs| && vs[i] == m
  {
    if vs == [] then Undef else MaxSkipNa(RowMax(vs[..|vs| - 1]), vs[|vs| - 1])
  }

  /** `np.log` applied to a cell, with `ln` standing for the real logarithm. */
  function LogVal(a: Val, ln: real -> real): Val
  {
    match a
    case Fin(x) => if x > 0.0 then Fin(ln(x)) else if x == 0.0 then NegInf else Undef
    case PosInf => PosInf
    case _ => Undef
  }
}
