/** The basic calculator: +, -, * and /.  Python floats are modelled as
    exact reals. */
module Basic {
  import opened Outcomes

  /** The sum is the number from which taking away either operand leaves
      the other. */
  function Add(x: real, y: real): (r: real)
    ensures r - y == x && r - x == y
  {
    x + y
  }

  /** The difference is the number that gives back `x` when `y` is added. */
  function Subtract(x: real, y: real): (r: real)
    ensures r + y == x
  {
    x - y
  }

  /** The product is zero exactly when a factor is, and dividing it by a
      non-zero factor gives back the other. */
  function Multiply(x: real, y: real): (r: real)
    ensures r == 0.0 <==> x == 0.0 || y == 0.0
    ensures y != 0.0 ==> r / y == x
  {
    x * y
  }

  /** Division raises ZeroDivisionError exactly when the divisor is zero;
      otherwise the quotient is the number that gives back `x` when
      multiplied by `y`. */
  function Divide(x: real, y: real): (r: Result<real>)
    ensures r.Failure? <==> y == 0.0
    ensures r.Failure? ==> r.error == ZeroDivisionError
    ensures r.Success? ==> r.value * y == x
  {
    if y == 0.0 then Failure(ZeroDivisionError) else Success(x / y)
  }

  /** Subtraction undoes addition, and both addition and multiplication
      are commutative. */
  lemma AddSubtractInverse(x: real, y: real)
    ensures Subtract(Add(x, y), y) == x
    ensures Add(x, y) == Add(y, x)
    ensures Multiply(x, y) == Multiply(y, x)
  {
  }

  /** Division undoes multiplication by a non-zero factor, and dividing a
      product by zero fails. */
  lemma DivideInvertsMultiply(x: real, y: real)
    ensures y != 0.0 ==> Divide(Multiply(x, y), y) == Success(x)
    ensures y == 0.0 ==> Divide(Multiply(x, y), y) == Failure(ZeroDivisionError)
  {
  }
}
