/** Physical quantities and units of measurement, whose integer codes are grouped by hundreds. */
module Units {
  datatype PhysicalQuantity = Identity | Temperature | Humidity | Illuminance | Ratio

  function QuantityCode(q: PhysicalQuantity): nat
  {
    match q
    case Identity => 0
    case Temperature => 1
    case Humidity => 2
    case Illuminance => 3
    case Ratio => 4
  }

  /** `PhysicalQuantity(n)`: the member with value `n`, which must exist. */
  function QuantityFromCode(n: nat): (q: PhysicalQuantity)
    requires n <= 4
    ensures QuantityCode(q) == n
  {
    if n == 0 then Identity
    else if n == 1 then Temperature
    else if n == 2 then Humidity
    else if n == 3 then Illuminance
    else Ratio
  }

  datatype UnitOfMeasurement = UnitLess | Percentage | Celsius | Fahrenheit | HumidityPercentage | Lux

  function UnitCode(u: UnitOfMeasurement): nat
  {
    match u
    case UnitLess => 0
    case Percentage => 100
    case Celsius => 200
    case Fahrenheit => 201
    case HumidityPercentage => 300
    case Lux => 400
  }

  /** The `physical_quantity` property as the code computes it: the quantity whose value is the unit code divided by 100. */
  function PhysicalQuantityAsWritten(u: UnitOfMeasurement): (q: PhysicalQuantity)
    ensures QuantityCode(q) == UnitCode(u) / 100
  {
    QuantityFromCode(UnitCode(u) / 100)
  }

  /** As written, a percentage is a temperature, Celsius and Fahrenheit are humidities and lux is a ratio. */
  lemma QuantityAsWrittenDisagreesWithRanges()
    ensures PhysicalQuantityAsWritten(Percentage) == Temperature
    ensures PhysicalQuantityAsWritten(Celsius) == Humidity && PhysicalQuantityAsWritten(Fahrenheit) == Humidity
    ensures PhysicalQuantityAsWritten(HumidityPercentage) == Illuminance
    ensures PhysicalQuantityAsWritten(Lux) == Ratio
    ensures PhysicalQuantityAsWritten(Celsius) != Temperature
  {
  }

  /** The block of a hundred codes the unit enum assigns to each quantity. */
  function RangeStart(q: PhysicalQuantity): nat
  {
    match q
    case Identity => 0
    case Ratio => 100
    case Temperature => 200
    case Humidity => 300
    case Illuminance => 400
  }

  /** The quantity whose block of codes holds the unit's code. */
  function PhysicalQuantityOf(u: UnitOfMeasurement): (q: PhysicalQuantity)
    ensures RangeStart(q) <= UnitCode(u) < RangeStart(q) + 100
  {
    var block := UnitCode(u) / 100;
    if block == 0 then Identity
    else if block == 1 then Ratio
    else if block == 2 then Temperature
    else if block == 3 then Humidity
    else Illuminance
  }

  /** Every unit falls in exactly one block, and the corrected mapping names the quantity each unit measures. */
  lemma PhysicalQuantityOfMatchesRanges(u: UnitOfMeasurement, q: PhysicalQuantity)
    ensures RangeStart(q) <= UnitCode(u) < RangeStart(q) + 100 <==> q == PhysicalQuantityOf(u)
    ensures PhysicalQuantityOf(Celsius) == Temperature && PhysicalQuantityOf(Fahrenheit) == Temperature
    ensures PhysicalQuantityOf(Percentage) == Ratio && PhysicalQuantityOf(Lux) == Illuminance
    ensures PhysicalQuantityOf(HumidityPercentage) == Humidity && PhysicalQuantityOf(UnitLess) == Identity
  {
  }
}
