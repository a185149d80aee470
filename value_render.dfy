/**
 * How the dashboard writes a measured value: a number with one decimal or a
 * dash when there is none, and an emoji for the temperature and humidity
 * bands. JavaScript numbers are modelled as reals.
 */
module ValueRender {
  import opened Wrappers
  import opened Text

  /** `Math.round`-style tenths of a non-negative value: the nearest, the larger one on a tie. */
  function Tenths(x: real): (n: nat)
    requires x >= 0.0
    ensures (n as real) - 0.5 <= 10.0 * x < (n as real) + 0.5
  {
    (10.0 * x + 0.5).Floor
  }

  /** The digits of `n` tenths: the whole part, a point and one decimal. */
  function TenthsText(n: nat): (s: string)
    ensures |s| >= 3 && s[|s| - 2] == '.' && IsDigit(s[|s| - 1]) && '-' !in s
  {
    NatToDecimal(n / 10) + "." + [DigitChar(n % 10)]
  }

  /**
   * `Number.prototype.toFixed(1)`: the nearest multiple of a tenth, a tie
   * going to the larger magnitude, with a leading `-` for a negative value.
   */
  function FixedOne(x: real): (s: string)
    ensures |s| >= 3 && s[|s| - 2] == '.' && IsDigit(s[|s| - 1])
    ensures (s[0] == '-') == (x < 0.0)
  {
    if x < 0.0 then "-" + TenthsText(Tenths(-x)) else TenthsText(Tenths(x))
  }

  /** The value of the text `TenthsText` writes, in tenths. */
  function ReadTenths(s: string): (n: nat)
    requires |s| >= 3 && s[|s| - 2] == '.' && IsDigit(s[|s| - 1]) && AllDigits(s[..|s| - 2])
  {
    10 * DecimalValue(s[..|s| - 2]) + (s[|s| - 1] as int - '0' as int)
  }

  /** The text of `n` tenths reads back as `n`. */
  lemma TenthsTextRoundTrip(n: nat)
    ensures var s := TenthsText(n); AllDigits(s[..|s| - 2]) && ReadTenths(s) == n
  {
    var s := TenthsText(n);
    assert s[..|s| - 2] == NatToDecimal(n / 10);
    DecimalRoundTrip(n / 10);
  }

  /** The text `FixedOne` writes reads back within half a tenth of the value. */
  lemma FixedOneNearest(x: real)
    ensures var s := FixedOne(x);
      var digits := if x < 0.0 then s[1..] else s;
      |digits| >= 3 && digits[|digits| - 2] == '.' && IsDigit(digits[|digits| - 1]) &&
      AllDigits(digits[..|digits| - 2]) &&
      var v := ReadTenths(digits) as real / 10.0;
      var m := if x < 0.0 then -x else x;
      m - 0.05 < v <= m + 0.05
  {
    var m := if x < 0.0 then -x else x;
    var s := FixedOne(x);
    var digits := if x < 0.0 then s[1..] else s;
    assert digits == TenthsText(Tenths(m));
    TenthsTextRoundTrip(Tenths(m));
  }

  /** `renderNumber`: a dash for a missing value (JavaScript's `null` and `undefined`), one decimal otherwise. */
  function RenderNumber(value: Option<real>): (s: string)
    ensures s == "-" <==> value.None?
    ensures value.Some? ==> s == FixedOne(value.value)
  {
    if value.Some? then FixedOne(value.value) else "-"
  }

  lemma RenderNumberExamples()
    ensures RenderNumber(Some(21.0)) == "21.0"
    ensures RenderNumber(Some(21.25)) == "21.3"
    ensures RenderNumber(Some(-0.04)) == "-0.0"
  {
    assert Tenths(21.0) == 210 && Tenths(21.25) == 213 && Tenths(0.04) == 0;
    assert NatToDecimal(21) == "21" by {
      assert NatToDecimal(2) == "2";
    }
  }

  /** The temperature bands, coldest first. */
  datatype TemperatureBand = Freezing | Cold | Chilly | Cool | Comfortable | Warm | Hot

  function TemperatureRank(b: TemperatureBand): (r: nat)
    ensures r < 7
  {
    match b
    case Freezing => 0
    case Cold => 1
    case Chilly => 2
    case Cool => 3
    case Comfortable => 4
    case Warm => 5
    case Hot => 6
  }

  /** The band `tempEmojis` picks, in degrees Celsius. */
  function TemperatureBandOf(temp: real): (b: TemperatureBand)
    ensures b == Freezing <==> temp <= 0.0
    ensures b == Cold <==> 0.0 < temp < 10.0
    ensures b == Chilly <==> 10.0 <= temp < 15.0
    ensures b == Cool <==> 15.0 <= temp < 21.0
    ensures b == Comfortable <==> 21.0 <= temp < 32.0
    ensures b == Warm <==> 32.0 <= temp < 35.0
    ensures b == Hot <==> temp >= 35.0
  {
    if temp <= 0.0 then Freezing
    else if temp < 10.0 then Cold
    else if temp < 15.0 then Chilly
    else if temp < 21.0 then Cool
    else if temp < 32.0 then Comfortable
    else if temp < 35.0 then Warm
    else Hot
  }

  function TemperatureEmoji(b: TemperatureBand): string
  {
    match b
    case Freezing => "\U{2744}\U{FE0F}"
    case Cold => "\U{1F976}"
    case Chilly => "\U{1F628}"
    case Cool => "\U{1F62C}"
    case Comfortable => "\U{1F60A}"
    case Warm => "\U{1FAE0}"
    case Hot => "\U{1F975}"
  }

  /** `tempEmojis`. */
  function TempEmojis(temp: real): string
  {
    TemperatureEmoji(TemperatureBandOf(temp))
  }

  /** A warmer reading never gets a colder band. */
  lemma TemperatureMonotone(t1: real, t2: real)
    requires t1 <= t2
    ensures TemperatureRank(TemperatureBandOf(t1)) <= TemperatureRank(TemperatureBandOf(t2))
  {
  }

  /** Each band has its own emoji, so the emoji tells the band. */
  lemma TemperatureEmojiDistinct(b1: TemperatureBand, b2: TemperatureBand)
    requires b1 != b2
    ensures TemperatureEmoji(b1) != TemperatureEmoji(b2)
  {
    assert TemperatureEmoji(b1)[0] != TemperatureEmoji(b2)[0];
  }

  /** Zero is still freezing; every other limit opens the next band. */
  lemma TemperatureLimits()
    ensures TemperatureBandOf(0.0) == Freezing && TemperatureBandOf(10.0) == Chilly
    ensures TemperatureBandOf(21.0) == Comfortable && TemperatureBandOf(35.0) == Hot
  {
  }

  /** The humidity bands, driest first. */
  datatype HumidityBand = Parched | Dry | Pleasant | Humid | Soaked

  function HumidityRank(b: HumidityBand): (r: nat)
    ensures r < 5
  {
    match b
    case Parched => 0
    case Dry => 1
    case Pleasant => 2
    case Humid => 3
    case Soaked => 4
  }

  /** The band `humidEmojis` picks, in percent relative humidity. */
  function HumidityBandOf(humid: real): (b: HumidityBand)
    ensures b == Parched <==> humid < 10.0
    ensures b == Dry <==> 10.0 <= humid < 30.0
    ensures b == Pleasant <==> 30.0 <= humid <= 70.0
    ensures b == Humid <==> 70.0 < humid <= 90.0
    ensures b == Soaked <==> humid > 90.0
  {
    if humid < 10.0 then Parched
    else if humid < 30.0 then Dry
    else if humid <= 70.0 then Pleasant
    else if humid <= 90.0 then Humid
    else Soaked
  }

  function HumidityEmoji(b: HumidityBand): string
  {
    match b
    case Parched => "\U{1F525}"
    case Dry => "\U{1F335}"
    case Pleasant => "\U{1F44C}"
    case Humid => "\U{1F334}"
    case Soaked => "\U{1F4A6}"
  }

  /** `humidEmojis`. */
  function HumidEmojis(humid: real): string
  {
    HumidityEmoji(HumidityBandOf(humid))
  }

  /** A damper reading never gets a drier band. */
  lemma HumidityMonotone(h1: real, h2: real)
    requires h1 <= h2
    ensures HumidityRank(HumidityBandOf(h1)) <= HumidityRank(HumidityBandOf(h2))
  {
  }

  lemma HumidityEmojiDistinct(b1: HumidityBand, b2: HumidityBand)
    requires b1 != b2
    ensures HumidityEmoji(b1) != HumidityEmoji(b2)
  {
    assert HumidityEmoji(b1)[0] != HumidityEmoji(b2)[0];
  }

  /** 30 and 70 both fall in the comfortable band, 90 is still humid. */
  lemma HumidityLimits()
    ensures HumidityBandOf(30.0) == Pleasant && HumidityBandOf(70.0) == Pleasant
    ensures HumidityBandOf(10.0) == Dry && HumidityBandOf(90.0) == Humid
  {
  }
}
