/**
 * The colour and transparency stops of the dashboard's chart gradients. The
 * canvas gradient itself (`buildGradient`, colour parsing) is not modelled;
 * JavaScript numbers are reals.
 */
module Gradients {
  import opened Wrappers

  /** `ColorStop`: a colour at a position of the gradient, meant to lie in [0, 1]. */
  datatype ColorStop = ColorStop(position: real, color: string)

  /** `DiscreteColorStop`: a colour at a value of the chart's axis. */
  datatype DiscreteColorStop = DiscreteColorStop(atValue: real, color: string)

  /** `AlphaStop`: a transparency at a position of the gradient. */
  datatype AlphaStop = AlphaStop(position: real, alpha: real)

  /** `colorToColorStop`: one colour over the whole gradient. */
  function ColorToColorStop(color: string): (stops: seq<ColorStop>)
    ensures |stops| == 2 && stops[0].position == 0.0 && stops[1].position == 1.0
    ensures forall i :: 0 <= i < |stops| ==> stops[i].color == color
  {
    [ColorStop(0.0, color), ColorStop(1.0, color)]
  }

  /**
   * `convertDiscreteToColorStops`: each value's place between the axis
   * limits, not clamped, so a value beyond the limits lands outside [0, 1].
   * Equal limits divide by zero, which gives no real number.
   */
  function ConvertDiscreteToColorStops(discrete: seq<DiscreteColorStop>, lower: real, upper: real): (stops: seq<ColorStop>)
    requires lower != upper
    ensures |stops| == |discrete|
    ensures forall i :: 0 <= i < |stops| ==> stops[i].color == discrete[i].color
    ensures forall i :: 0 <= i < |stops| ==> lower + stops[i].position * (upper - lower) == discrete[i].atValue
  {
    seq(|discrete|, i requires 0 <= i < |discrete| =>
      ColorStop((discrete[i].atValue - lower) / (upper - lower), discrete[i].color))
  }

  /** On an increasing axis, the positions keep the order of the values, and the limits go to 0 and 1. */
  lemma ConvertKeepsOrder(discrete: seq<DiscreteColorStop>, lower: real, upper: real, i: nat, j: nat)
    requires lower < upper && i < |discrete| && j < |discrete|
    ensures var stops := ConvertDiscreteToColorStops(discrete, lower, upper);
      (discrete[i].atValue <= discrete[j].atValue <==> stops[i].position <= stops[j].position) &&
      (discrete[i].atValue == lower ==> stops[i].position == 0.0) &&
      (discrete[i].atValue == upper ==> stops[i].position == 1.0)
  {
    var stops := ConvertDiscreteToColorStops(discrete, lower, upper);
    var d := upper - lower;
    DivideMonotone(discrete[i].atValue - lower, discrete[j].atValue - lower, d);
    assert (upper - lower) / d == 1.0;
  }

  lemma DivideMonotone(x: real, y: real, d: real)
    requires d > 0.0
    ensures x <= y <==> x / d <= y / d
  {
    assert x == (x / d) * d && y == (y / d) * d;
  }

  /** A colour stop pair for one colour is the conversion of that colour at both axis limits. */
  lemma ColorToColorStopIsConversion(color: string, lower: real, upper: real)
    requires lower != upper
    ensures ColorToColorStop(color) ==
      ConvertDiscreteToColorStops([DiscreteColorStop(lower, color), DiscreteColorStop(upper, color)], lower, upper)
  {
    var w := upper - lower;
    assert (lower - lower) / w == 0.0;
    assert w / w == 1.0;
  }

  /** The vectors of the source's tests. */
  lemma ConvertExamples()
    ensures ConvertDiscreteToColorStops([DiscreteColorStop(0.2, "red")], 0.0, 1.0) == [ColorStop(0.2, "red")]
    ensures ConvertDiscreteToColorStops([DiscreteColorStop(0.2, "red")], 0.0, 0.5) == [ColorStop(0.4, "red")]
    ensures ConvertDiscreteToColorStops([DiscreteColorStop(0.2, "red"), DiscreteColorStop(0.8, "blue")], 0.0, 1.0) ==
      [ColorStop(0.2, "red"), ColorStop(0.8, "blue")]
  {
  }

  const EmptyStopsMessage: string := "Alpha stops array is empty"

  /** `Math.min(Math.max(position, 0), 1)`. */
  function Clamp(p: real): (c: real)
    ensures 0.0 <= c <= 1.0
    ensures 0.0 <= p <= 1.0 ==> c == p
    ensures p < 0.0 ==> c == 0.0
    ensures p > 1.0 ==> c == 1.0
  {
    if p < 0.0 then 0.0 else if p > 1.0 then 1.0 else p
  }

  /** The straight line through two stops, at `p`. */
  function Lerp(lo: AlphaStop, hi: AlphaStop, p: real): real
    requires lo.position < hi.position
  {
    ((hi.alpha - lo.alpha) / (hi.position - lo.position)) * (p - lo.position) + lo.alpha
  }

  /** Between two stops of different positions, the line stays between their alphas. */
  lemma LerpBetween(lo: AlphaStop, hi: AlphaStop, p: real)
    requires lo.position <= p < hi.position
    ensures lo.alpha <= hi.alpha ==> lo.alpha <= Lerp(lo, hi, p) <= hi.alpha
    ensures hi.alpha <= lo.alpha ==> hi.alpha <= Lerp(lo, hi, p) <= lo.alpha
    ensures Lerp(lo, hi, lo.position) == lo.alpha
  {
    var d := hi.position - lo.position;
    var x := p - lo.position;
    var t := x / d;
    FractionInUnit(x, d);
    var delta := hi.alpha - lo.alpha;
    ScaledFraction(delta, x, d);
    ScaleInUnit(delta, t);
    assert Lerp(lo, hi, p) == delta * t + lo.alpha;
    assert Lerp(lo, hi, lo.position) == (delta / d) * 0.0 + lo.alpha;
  }

  lemma ScaledFraction(a: real, x: real, d: real)
    requires d != 0.0
    ensures (a / d) * x == a * (x / d)
  {
    var q := a / d;
    var t := x / d;
    assert q * d == a && t * d == x;
    assert q * x == q * (t * d);
    assert q * (t * d) == (q * d) * t;
  }

  lemma FractionInUnit(x: real, d: real)
    requires 0.0 <= x < d
    ensures 0.0 <= x / d <= 1.0
  {
    DivideMonotone(x, d, d);
    DivideMonotone(0.0, x, d);
    assert d / d == 1.0;
  }

  lemma ScaleInUnit(delta: real, t: real)
    requires 0.0 <= t <= 1.0
    ensures delta >= 0.0 ==> 0.0 <= delta * t <= delta
    ensures delta <= 0.0 ==> delta <= delta * t <= 0.0
  {
    if delta >= 0.0 {
      assert delta * t <= delta * 1.0;
    } else {
      assert delta * t >= delta * 1.0;
    }
  }

  /**
   * The scan of the loop from index `i` on: the first stop past `p` and the
   * one before it bracket `p`; past the last stop, the last alpha.
   */
  function Scan(s: seq<AlphaStop>, p: real, i: nat): real
    requires 1 <= i <= |s| && s[i - 1].position <= p
    decreases |s| - i
  {
    if i == |s| then s[|s| - 1].alpha
    else if p < s[i].position then Lerp(s[i - 1], s[i], p)
    else Scan(s, p, i + 1)
  }

  /**
   * `interpolateAlpha` on the stops as they are after its sort: an error for
   * no stop, the one alpha for one stop, otherwise the line between the
   * stops that bracket the clamped position.
   */
  function Interpolate(s: seq<AlphaStop>, position: real): Result<real, string>
  {
    if |s| == 0 then Err(EmptyStopsMessage)
    else if |s| == 1 then Ok(s[0].alpha)
    else
      var p := Clamp(position);
      if p <= s[0].position then Ok(s[0].alpha) else Ok(Scan(s, p, 1))
  }

  /** Every alpha lies in [lo, hi]. */
  ghost predicate AlphasWithin(s: seq<AlphaStop>, lo: real, hi: real)
  {
    forall k :: 0 <= k < |s| ==> lo <= s[k].alpha <= hi
  }

  lemma {:induction false} ScanWithin(s: seq<AlphaStop>, p: real, i: nat, lo: real, hi: real)
    requires 1 <= i <= |s| && s[i - 1].position <= p && AlphasWithin(s, lo, hi)
    decreases |s| - i
    ensures lo <= Scan(s, p, i) <= hi
  {
    if i < |s| {
      if p < s[i].position {
        LerpBetween(s[i - 1], s[i], p);
      } else {
        ScanWithin(s, p, i + 1, lo, hi);
      }
    }
  }

  /** The result never leaves the range of the alphas, so alphas in [0, 1] give an alpha in [0, 1]. */
  lemma InterpolateWithin(s: seq<AlphaStop>, position: real, lo: real, hi: real)
    requires |s| >= 1 && AlphasWithin(s, lo, hi)
    ensures Interpolate(s, position).Ok?
    ensures lo <= Interpolate(s, position).value <= hi
  {
    if |s| >= 2 && Clamp(position) > s[0].position {
      ScanWithin(s, Clamp(position), 1, lo, hi);
    }
  }

  predicate Sorted(s: seq<AlphaStop>)
  {
    forall i, j :: 0 <= i < j < |s| ==> s[i].position <= s[j].position
  }

  lemma {:induction false} ScanPastLast(s: seq<AlphaStop>, p: real, i: nat)
    requires 1 <= i <= |s| && s[i - 1].position <= p && Sorted(s) && s[|s| - 1].position <= p
    decreases |s| - i
    ensures Scan(s, p, i) == s[|s| - 1].alpha
  {
    if i < |s| {
      ScanPastLast(s, p, i + 1);
    }
  }

  /**
   * On sorted stops, a position at or past the last stop gets the last alpha,
   * unless it is also at or before the first stop, which is checked first.
   */
  lemma InterpolatePastLast(s: seq<AlphaStop>, position: real)
    requires |s| >= 2 && Sorted(s) && Clamp(position) >= s[|s| - 1].position && Clamp(position) > s[0].position
    ensures Interpolate(s, position) == Ok(s[|s| - 1].alpha)
  {
    ScanPastLast(s, Clamp(position), 1);
  }

  predicate StrictlySorted(s: seq<AlphaStop>)
  {
    forall i, j :: 0 <= i < j < |s| ==> s[i].position < s[j].position
  }

  lemma {:induction false} ScanAtStop(s: seq<AlphaStop>, k: nat, i: nat)
    requires StrictlySorted(s) && k < |s| && 1 <= i <= k + 1 && s[i - 1].position <= s[k].position
    decreases |s| - i
    ensures Scan(s, s[k].position, i) == s[k].alpha
  {
    if i < |s| && i <= k {
      ScanAtStop(s, k, i + 1);
    }
  }

  /** On stops of distinct positions within [0, 1], the result at a stop's position is that stop's alpha. */
  lemma InterpolateAtStop(s: seq<AlphaStop>, k: nat)
    requires StrictlySorted(s) && k < |s| && 0.0 <= s[k].position <= 1.0
    ensures Interpolate(s, s[k].position) == Ok(s[k].alpha)
  {
    if |s| >= 2 && k > 0 {
      ScanAtStop(s, k, 1);
    }
  }

  /** The vectors of the source's tests, and the fade of the chart's line background halfway up. */
  lemma InterpolateExamples()
    ensures Interpolate([], 0.5) == Err("Alpha stops array is empty")
    ensures Interpolate([AlphaStop(0.2, 0.5)], 0.1) == Ok(0.5)
    ensures Interpolate([AlphaStop(0.2, 0.5)], 0.6) == Ok(0.5)
    ensures Interpolate([AlphaStop(0.0, 0.0), AlphaStop(1.0, 1.0)], 0.6) == Ok(0.6)
    ensures Interpolate([AlphaStop(0.1, 0.0), AlphaStop(1.0, 0.5)], 0.55) == Ok(0.25)
  {
  }

  /** The prefix `s[..n]` is sorted. */
  ghost predicate SortedPrefix(s: seq<AlphaStop>, n: nat)
  {
    forall x, y :: 0 <= x < y < n && y < |s| ==> s[x].position <= s[y].position
  }

  /**
   * Inserting `s[i]` into the sorted `s[..i]`: it has come down to index `j`;
   * `s[..i + 1]` without it is sorted, and everything after it is larger.
   */
  ghost predicate Inserting(s: seq<AlphaStop>, i: nat, j: nat)
  {
    j <= i < |s| &&
    (forall x, y :: 0 <= x < y <= i && x != j && y != j ==> s[x].position <= s[y].position) &&
    (forall y :: j < y <= i ==> s[j].position < s[y].position)
  }

  lemma InsertingStart(s: seq<AlphaStop>, i: nat)
    requires SortedPrefix(s, i) && i < |s|
    ensures Inserting(s, i, i)
  {
  }

  lemma InsertingSwap(s: seq<AlphaStop>, i: nat, j: nat)
    requires Inserting(s, i, j) && 0 < j && s[j - 1].position > s[j].position
    ensures Inserting(s[j - 1 := s[j]][j := s[j - 1]], i, j - 1)
    ensures multiset(s[j - 1 := s[j]][j := s[j - 1]]) == multiset(s)
  {
    var t := s[j - 1 := s[j]][j := s[j - 1]];
    forall x, y | 0 <= x < y <= i && x != j - 1 && y != j - 1
      ensures t[x].position <= t[y].position
    {
      if x == j {
        assert t[x] == s[j - 1];
      } else if y == j {
        assert t[y] == s[j - 1];
      }
    }
  }

  lemma InsertingDone(s: seq<AlphaStop>, i: nat, j: nat)
    requires Inserting(s, i, j) && (j == 0 || s[j - 1].position <= s[j].position)
    ensures SortedPrefix(s, i + 1)
  {
    forall x, y | 0 <= x < y < i + 1 && y < |s|
      ensures s[x].position <= s[y].position
    {
      if y == j && x < j - 1 {
        assert s[x].position <= s[j - 1].position;
      }
    }
  }

  /**
   * The in-place sort of `alphaStops.sort((a, b) => a.position - b.position)`,
   * as an insertion sort by adjacent swaps.
   */
  method SortByPosition(a: array<AlphaStop>)
    modifies a
    ensures Sorted(a[..])
    ensures multiset(a[..]) == multiset(old(a[..]))
  {
    for i := 0 to a.Length
      invariant SortedPrefix(a[..], i)
      invariant multiset(a[..]) == multiset(old(a[..]))
    {
      InsertingStart(a[..], i);
      var j := i;
      while j > 0 && a[j - 1].position > a[j].position
        invariant Inserting(a[..], i, j)
        invariant multiset(a[..]) == multiset(old(a[..]))
      {
        InsertingSwap(a[..], i, j);
        a[j - 1], a[j] := a[j], a[j - 1];
        j := j - 1;
      }
      InsertingDone(a[..], i, j);
    }
  }

  /**
   * `interpolateAlpha`: with two stops or more, the caller's array is first
   * sorted in place by position, then scanned for the stops around the
   * clamped position.
   */
  method InterpolateAlpha(alphaStops: array<AlphaStop>, position: real) returns (r: Result<real, string>)
    modifies alphaStops
    ensures alphaStops.Length <= 1 ==> alphaStops[..] == old(alphaStops[..])
    ensures alphaStops.Length >= 2 ==> Sorted(alphaStops[..]) && multiset(alphaStops[..]) == multiset(old(alphaStops[..]))
    ensures r == Interpolate(alphaStops[..], position)
  {
    if alphaStops.Length == 0 {
      return Err(EmptyStopsMessage);
    }
    if alphaStops.Length == 1 {
      return Ok(alphaStops[0].alpha);
    }
    SortByPosition(alphaStops);
    var posCapped := Clamp(position);
    if posCapped <= alphaStops[0].position {
      return Ok(alphaStops[0].alpha);
    }
    var alpha := ScanStops(alphaStops, posCapped);
    return Ok(alpha);
  }

  /** The loop of `interpolateAlpha` over the sorted stops, for a position past the first one. */
  method ScanStops(alphaStops: array<AlphaStop>, posCapped: real) returns (alpha: real)
    requires alphaStops.Length >= 1 && alphaStops[0].position <= posCapped
    ensures alpha == Scan(alphaStops[..], posCapped, 1)
  {
    ghost var s := alphaStops[..];
    for i := 1 to alphaStops.Length
      invariant s[i - 1].position <= posCapped
      invariant Scan(s, posCapped, 1) == Scan(s, posCapped, i)
    {
      if posCapped < alphaStops[i].position {
        assert s[i - 1] == alphaStops[i - 1] && s[i] == alphaStops[i];
        var m := (alphaStops[i].alpha - alphaStops[i - 1].alpha) / (alphaStops[i].position - alphaStops[i - 1].position);
        var x := posCapped - alphaStops[i - 1].position;
        var b := alphaStops[i - 1].alpha;
        assert m * x + b == Lerp(s[i - 1], s[i], posCapped);
        return m * x + b;
      }
    }
    return alphaStops[alphaStops.Length - 1].alpha;
  }
}
