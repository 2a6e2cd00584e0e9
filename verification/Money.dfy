/**
 * Amounts of money. A `Decimal` is an exact count of its smallest unit, 10^-28, that a 96-bit
 * coefficient with at most 28 decimal places can hold. Sums that it cannot hold are rounded.
 */
module Money {
  import opened Common

  /** One whole unit of a currency, in the smallest unit. */
  const ONE: int := 10_000_000_000_000_000_000_000_000_000

  const COEFFICIENT_MAX: int := 0xFFFF_FFFF_FFFF_FFFF_FFFF_FFFF

  /** Taking away at most `places` final zeros leaves a coefficient in range. */
  predicate FitsIn(n: int, places: nat)
    decreases places
  {
    || -COEFFICIENT_MAX <= n <= COEFFICIENT_MAX
    || (places > 0 && n % 10 == 0 && FitsIn(n / 10, places - 1))
  }

  predicate Fits(n: int) {
    FitsIn(n, 28)
  }

  type Decimal = n: int | Fits(n)

  const NOTHING: Decimal := 0

  /** What fits stays as it is. */
  predicate KeepsWhatFits(round: int -> Option<Decimal>, n: int) {
    Fits(n) ==> round(n) == Some(n)
  }

  /** The amount `d` does not lie between `n` and what `n` is rounded to. */
  predicate NoneBetween(round: int -> Option<Decimal>, n: int, d: int) {
    Fits(d) && round(n).Some? ==> (d <= n ==> d <= round(n).value) && (n <= d ==> round(n).value <= d)
  }

  /** Rounding of an exact result to one of the amounts next to it. A result out of range is refused. */
  ghost predicate Faithful(round: int -> Option<Decimal>) {
    && (forall n :: KeepsWhatFits(round, n))
    && forall n, d :: NoneBetween(round, n, d)
  }

  type Rounding = round: int -> Option<Decimal> | Faithful(round)
    ghost witness n => if Fits(n) then Some(n) else None

  /** `Decimal::checked_add`. */
  function CheckedAdd(round: Rounding, a: Decimal, b: Decimal): Option<Decimal> {
    round(a + b)
  }

  lemma AddingIsExact(round: Rounding, a: Decimal, b: Decimal)
    requires Fits(a + b)
    ensures CheckedAdd(round, a, b) == Some(a + b)
  {
    hide Fits;
    assert KeepsWhatFits(round, a + b);
  }

  /** Adding something that is not negative never makes less of an amount, rounded or not. */
  lemma AddingNeverShrinks(round: Rounding, a: Decimal, b: Decimal)
    requires b >= 0 && CheckedAdd(round, a, b).Some?
    ensures CheckedAdd(round, a, b).value >= a
  {
    hide Fits;
    assert NoneBetween(round, a + b, a);
  }

  /** Ten units and the smallest part of one are both amounts; their sum has a digit too many. */
  lemma SumThatMustBeRounded()
    ensures Fits(10 * ONE) && Fits(1) && !Fits(10 * ONE + 1)
  {
    assert FitsIn(ONE, 27);
  }

  datatype Money = Money(amount: Decimal, currency: string)

  predicate CurrencyChar(c: char) {
    'a' <= c <= 'z' || 'A' <= c <= 'Z' || '0' <= c <= '9' || c == '_' || c == '-'
  }

  predicate ValidCurrency(s: string) {
    3 <= |s| <= 24 && forall i :: 0 <= i < |s| ==> CurrencyChar(s[i])
  }
}
