/** Prices in the services are java.math.BigDecimal values. No operation of
    the modelled core computes on a price: prices are only copied from one
    record to another. A BigDecimal is an unscaled integer together with a
    scale, and two values with different scales are different objects, so
    the model keeps both parts. */
module Decimals {

  /** The number `unscaled * 10^(-scale)`. */
  datatype Decimal = Decimal(unscaled: int, scale: int)

  /** `BigDecimal.valueOf(long)`: the integer itself with scale zero. */
  function ValueOf(n: int): Decimal
  {
    Decimal(n, 0)
  }

  /** `BigDecimal.ZERO`. */
  const Zero: Decimal := Decimal(0, 0)
}
