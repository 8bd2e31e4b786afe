/** `getCapacityColor(current, max)`, written identically in the Agro
    Activities and Water Rides pages: the occupancy percentage
    `(current / max) * 100` is bucketed into red (at least 80), yellow
    (at least 60) or green. The body decides the buckets by integer
    cross-multiplication; the contract states them on the exact rational
    percentage. */
module Capacity {

  datatype Color = Green | Yellow | Red

  /** The Tailwind class each bucket renders as. */
  function ClassName(c: Color): string {
    match c
    case Green => "text-green-600"
    case Yellow => "text-yellow-600"
    case Red => "text-red-600"
  }

  /** Order of severity: green < yellow < red. */
  function Severity(c: Color): nat {
    match c
    case Green => 0
    case Yellow => 1
    case Red => 2
  }

  /** `(current / max) * 100`, exactly: never negative, 100 at full occupancy
      and at most 100 while the guests fit. */
  function Percentage(current: nat, max: nat): (p: real)
    requires max > 0
    ensures p >= 0.0
    ensures current <= max ==> p <= 100.0
    ensures current == max ==> p == 100.0
  {
    (current as real / max as real) * 100.0
  }

  /** Comparing the percentage with a threshold is the same as comparing `current * 100` with `threshold * max`. */
  lemma PercentageAtLeast(current: nat, max: nat, threshold: nat)
    requires max > 0
    ensures Percentage(current, max) >= threshold as real <==> current * 100 >= threshold * max
  {
    var q := current as real / max as real;
    assert q * max as real == current as real;
    var p := q * 100.0;
    assert p * max as real == (current * 100) as real;
    assert (threshold * max) as real == threshold as real * max as real;
    if p >= threshold as real {
      assert p * max as real >= threshold as real * max as real;
    } else {
      assert p * max as real < threshold as real * max as real;
    }
  }

  lemma ThresholdsAsIntegers(current: nat, max: nat)
    ensures max > 0 ==> (Percentage(current, max) >= 80.0 <==> current * 100 >= 80 * max)
    ensures max > 0 ==> (Percentage(current, max) >= 60.0 <==> current * 100 >= 60 * max)
  {
    if max > 0 {
      PercentageAtLeast(current, max, 80);
      PercentageAtLeast(current, max, 60);
    }
  }

  /** For `max == 0` the source divides by zero: `current / 0` is `Infinity` (red) when
      `current > 0`, and `NaN` (no comparison holds, so green) when `current == 0`. */
  function CapacityColor(current: nat, max: nat): (c: Color)
    ensures max > 0 ==> (c == Red <==> Percentage(current, max) >= 80.0)
    ensures max > 0 ==> (c == Yellow <==> 60.0 <= Percentage(current, max) < 80.0)
    ensures max > 0 ==> (c == Green <==> Percentage(current, max) < 60.0)
    ensures max == 0 ==> (c == Red <==> current > 0) && (c == Green <==> current == 0)
  {
    ThresholdsAsIntegers(current, max);
    if max == 0 then (if current > 0 then Red else Green)
    else if current * 100 >= 80 * max then Red
    else if current * 100 >= 60 * max then Yellow
    else Green
  }

  /** The buckets in integer arithmetic, as the page evaluates them on whole guest counts. */
  lemma CapacityColorInIntegers(current: nat, max: nat)
    requires max > 0
    ensures CapacityColor(current, max) == Red <==> current * 100 >= 80 * max
    ensures CapacityColor(current, max) == Yellow <==> 60 * max <= current * 100 < 80 * max
    ensures CapacityColor(current, max) == Green <==> current * 100 < 60 * max
  {
  }

  /** More guests for the same capacity never make the colour less severe. */
  lemma CapacityColorMonotone(current: nat, current': nat, max: nat)
    requires current <= current'
    ensures Severity(CapacityColor(current, max)) <= Severity(CapacityColor(current', max))
  {
  }

  /** The three buckets render as three different classes. */
  lemma ClassNamesDistinct(c: Color, d: Color)
    ensures ClassName(c) == ClassName(d) <==> c == d
  {
  }
}
