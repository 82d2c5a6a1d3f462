/** Python's `Decimal` values modelled as exact rationals (the 28-digit
    context precision is not modelled). Two values are compared with `Eq`,
    never with `==`, since a rational has many representations. */
module Rationals {

  datatype Fraction = Fraction(num: int, den: int)

  type Rat = r: Fraction | r.den > 0 witness Fraction(0, 1)

  function Pow10(k: nat): (p: nat)
    ensures p >= 1
  {
    if k == 0 then 1 else 10 * Pow10(k - 1)
  }

  function FromInt(i: int): Rat { Fraction(i, 1) }

  /** The decimal `unscaled * 10^-scale`, e.g. Decimal("12.50") is (1250, 2). */
  function FromDecimal(unscaled: int, scale: nat): Rat { Fraction(unscaled, Pow10(scale)) }

  function Add(a: Rat, b: Rat): Rat { Fraction(a.num * b.den + b.num * a.den, a.den * b.den) }

  function Neg(a: Rat): Rat { Fraction(-a.num, a.den) }

  function Sub(a: Rat, b: Rat): Rat { Add(a, Neg(b)) }

  function Mul(a: Rat, b: Rat): Rat { Fraction(a.num * b.num, a.den * b.den) }

  predicate IsZero(a: Rat) { a.num == 0 }

  function Div(a: Rat, b: Rat): Rat
    requires !IsZero(b)
  {
    if b.num > 0 then Fraction(a.num * b.den, a.den * b.num)
    else Fraction(-a.num * b.den, a.den * -b.num)
  }

  predicate Eq(a: Rat, b: Rat) { a.num * b.den == b.num * a.den }

  predicate Lt(a: Rat, b: Rat) { a.num * b.den < b.num * a.den }

  predicate Positive(a: Rat) { a.num > 0 }

  function Abs(a: Rat): Rat { if a.num < 0 then Neg(a) else a }
}
