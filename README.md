# Advanced calculator — verified model of its exact arithmetic

This project models the numeric core of `AdvancedCalculator` in
`main.py`: the basic calculator's `+ - * /`, the advanced calculator's
`factorial`, `exponents` and `logarithms`, and the financial calculator's
`emi_calculator` and `percentage_calculator`. On the inputs it covers,
each modelled operation returns a value, or the `ZeroDivisionError` or
`ValueError` the Python raises, or `None` for the logarithm search. The
Python can raise other exceptions that the model does not: float
`OverflowError` in `emi_calculator`, and `ZeroDivisionError` for `0` to a
negative power in `exponents` (see "## Left out").

Modules follow the source's three menus:

- `Outcomes` (`outcomes.dfy`): the `Error`, `Result` and `Option` datatypes.
- `Basic` (`basic.dfy`): `Add`, `Subtract`, `Multiply`, `Divide` over exact reals.
- `Advanced` (`advanced.dfy`): `Factorial` is a method with the source's
  counting-down loop. `Logarithms` is a method with the source's search
  loop and early return. Each is proved equal to a recursive
  specification function: `Fact` for factorial, and `FirstMatch` started
  at exponent 0 for the logarithm. `Exponents` is integer power for
  non-negative powers.
- `Financial` (`financial.dfy`): `EmiCalculator` and `PercentageCalculator`
  over exact reals. The loan and the annual rate are reals, as the
  docstring of `emi_calculator` documents them (an annual rate such as
  8.5). The duration is an integer. `Balance` is the month-by-month loan balance, used to
  show that the instalment pays the loan off.

Notes on the code as written:

- `factorial` has an early return guarded by `val == 0 and val == 1`
  (main.py:41). No value satisfies that guard. The model keeps the guard
  as written. Its postcondition shows that 0 and 1 still give 1 through
  the loop, so the unreachable guard does not change any result.
- With a zero annual rate, `emi_calculator` computes `a == 1` and then
  divides by `a - 1` (main.py:107). Python raises `ZeroDivisionError`
  there. The model checks the divisor the same way. It proves that this
  error happens exactly when the inputs are valid and the rate is zero.
- `logarithms` does not guard the bases 0 and 1. The model does not guard
  them either, and `Advanced.DegenerateBases` states what the search
  returns for them.

## Model

| member | source | states |
|---|---|---|
| `Basic.Add` | main.py:6-7 | the sum minus either operand is the other operand |
| `Basic.Subtract` | main.py:9-10 | the difference plus the subtrahend is the minuend |
| `Basic.Multiply` | main.py:12-13 | the product is zero exactly when a factor is zero; divided by a non-zero factor it gives back the other |
| `Basic.AddSubtractInverse` | main.py:6-13 | subtracting `y` undoes adding `y`; addition and multiplication are commutative |
| `Basic.Divide` | main.py:15-19 | fails with `ZeroDivisionError` exactly when the divisor is zero; otherwise the quotient times the divisor gives back the dividend |
| `Basic.DivideInvertsMultiply` | main.py:12-19 | `divide(multiply(x, y), y) == x` for every non-zero `y`; with `y == 0` it is `ZeroDivisionError` |
| `Advanced.Fact` | main.py:44-46 | n! is at least 1 and at least n |
| `Advanced.FactIsProduct` | main.py:44-46 | n! by its recurrence equals the product 1 * 2 * ... * n |
| `Advanced.FactValues` | main.py:41-48 | (n+1)! == (n+1) * n!, and 0! == 1, 1! == 1, 5! == 120 |
| `Advanced.Factorial` | main.py:38-48 | `ValueError` exactly for negative input; otherwise the counting-down loop returns n!, including 1 for 0 and 1 despite the unreachable guard |
| `Advanced.Exponents` | main.py:50-51 | `base ** power` for `power >= 0`: positive for a positive base, and zero exactly when a zero base has a positive power |
| `Advanced.ExponentsValues` | main.py:50-51 | `b ** 0 == 1`, `b ** (p+1) == b * b ** p`, `2 ** 10 == 1024` |
| `Advanced.ExponentsAdd` | main.py:50-51 | `b ** (m+n) == b ** m * b ** n` |
| `Advanced.ExponentsIncreasing` | main.py:50-51 | for a base of at least 2, powers are positive and strictly increase with the exponent |
| `Advanced.FirstMatch` | main.py:75-79 | the search from exponent `k` returns an exponent `i` in [k, 500) with `b ** i == a` and no match in [k, i); it returns `None` exactly when no exponent in [k, 500) matches |
| `Advanced.Logarithms` | main.py:73-79 | the loop returns what the search from exponent 0 returns: the least `i < 500` with `b ** i == a`, and `None` exactly when there is none |
| `Advanced.LogarithmOfPower` | main.py:73-79 | for a base of at least 2 and `k < 500`, `logarithms(b ** k, b) == k` |
| `Advanced.LogarithmExamples` | main.py:73-79 | `logarithms(1, b) == 0` for every `b`; `logarithms(8, 2) == 3`; `logarithms(7, 2)` is `None` |
| `Advanced.DegenerateBases` | main.py:73-79 | base 1: 0 for `a == 1`, else `None`; base 0: 0 for `a == 1`, 1 for `a == 0`, else `None` |
| `Financial.MonthlyRate` | main.py:102 | the monthly rate is the annual percentage divided by 1200; it is positive exactly when the annual rate is |
| `Financial.EmiCalculator` | main.py:83-109 | `ValueError` exactly when loan <= 0, months <= 0 or rate < 0. `ZeroDivisionError` exactly for valid inputs with a zero rate. Otherwise EMI * (a - 1) == loan * r * a, and loan * r < EMI <= loan * (1 + r) |
| `Financial.GrowthVanishesAtZeroRate` | main.py:102-107 | for one or more months, the divisor `a - 1` is zero exactly when the monthly rate is zero |
| `Financial.EmiBounds` | main.py:102-109 | any instalment that solves the EMI equation at a positive rate lies in (loan * r, loan * (1 + r)] |
| `Financial.EmiAmortises` | main.py:102-109 | each month the balance gains interest and then one instalment is paid; after `duration_months` payments the balance is exactly zero |
| `Financial.EmiExample` | main.py:83-109 | a loan of 100000 at 10% a year over 12 months gives an instalment between 8791.58 and 8791.60 |
| `Financial.EmiCoversLoan` | main.py:102-109 | the instalments over the whole duration add up to at least the principal |
| `Financial.PercentageCalculator` | main.py:111-113 | 100 times the result is `percentage * num` |
| `Financial.PercentageProperties` | main.py:111-113 | 100% of `num` is `num`; percentages of one number add; the two arguments commute; 50% of 200 is 100 |

## Left out

- `run` (main.py:115-233): the interactive menu and its console I/O. The `result` field that `run` overwrites is not modelled either.
- `square_root` (main.py:23-36): the Babylonian loop stops on a floating-point tolerance and has no iteration cap. Its termination and accuracy are floating-point properties.
- `nth_root` (main.py:53-62): `x ** (1 / n)` is a fractional floating-point power, so there is nothing exact to state.
- `sine_taylor` (main.py:64-71): it approximates sin(x) in floating point.
- Floating point: every float operation (`+ - * /`, the EMI formula, the percentage) is modelled over exact reals. Rounding is not modelled. For example, a positive annual rate so small that `1 + r` rounds to `1.0` gives `ZeroDivisionError` in Python, but the model gives a value.
- `Financial.EmiCalculator`: float overflow is not modelled. `(1 + r) ** duration_months` at main.py:105 raises `OverflowError` once the power passes about 1.8e308 (for example an annual rate of 1200 over 1100 months gives `2.0 ** 1100`). For such inputs the model returns a value.
- `Advanced.Exponents`: only non-negative powers are modelled. For a negative power Python returns a float when the base is non-zero, and raises `ZeroDivisionError` when the base is 0.
- `Advanced.Factorial`: only integer input is modelled. The menu passes a float, which `range` rejects with a `TypeError`.
- `Advanced.Logarithms`: only integer arguments are modelled, as the menu passes them. Float arguments would compare `b ** i` with `a` in floating point.
