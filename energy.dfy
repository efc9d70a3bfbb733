/**
 * The per-frame arithmetic of `AudioReactive.start`'s `tick` in script.js:
 * a low-mid band of the byte spectrum is averaged, mapped affinely onto
 * [0, 1] with clamping, and blended into the running value by exponential
 * smoothing. Reals stand for the source's floating-point numbers.
 */
module Energy {

  /** One element of a `Uint8Array`. */
  newtype byte = b: int | 0 <= b < 256

  /** `analyser.frequencyBinCount` for the analyser's fftSize of 2048. */
  const BinCount: nat := 2048 / 2

  /** `Math.floor(n * 0.03)`, the first bin of the band: the largest whole
      number whose hundredfold is at most `3n`, and never past the buffer. */
  function BandStart(n: nat): (r: nat)
    ensures r * 100 <= n * 3 < r * 100 + 100
    ensures r <= n
  {
    n * 3 / 100
  }

  /** `Math.floor(n * 0.18)`, one past the last bin of the band: the largest
      whole number whose hundredfold is at most `18n`; the band it closes
      starts no later than it ends and lies inside the buffer. */
  function BandEnd(n: nat): (r: nat)
    ensures r * 100 <= n * 18 < r * 100 + 100
    ensures BandStart(n) <= r <= n
  {
    n * 18 / 100
  }

  /** `Math.max(1, end - start)`, the divisor of the average: never zero, at
      least the band's width, and equal to it whenever the band is not empty,
      so the average is then the band's true mean. */
  function Divisor(n: nat): (d: nat)
    ensures d >= 1 && d >= BandEnd(n) - BandStart(n)
    ensures BandEnd(n) - BandStart(n) >= 1 ==> d == BandEnd(n) - BandStart(n)
  {
    if BandEnd(n) - BandStart(n) > 1 then BandEnd(n) - BandStart(n) else 1
  }

  /** For the analyser's 1024 bins the band is [30, 184). */
  lemma BandOfAnalyser()
    ensures BandStart(BinCount) == 30 && BandEnd(BinCount) == 184 && Divisor(BinCount) == 154
  {
  }

  /** The sum of `buf[lo..hi]`. */
  function SumRange(buf: seq<byte>, lo: nat, hi: nat): (s: int)
    requires lo <= hi <= |buf|
    ensures 0 <= s <= 255 * (hi - lo)
    decreases hi - lo
  {
    if lo == hi then 0 else SumRange(buf, lo, hi - 1) + buf[hi - 1] as int
  }

  /** `sum / Math.max(1, end - start)`: the mean magnitude of the band, a
      value in the byte range. */
  function Average(buf: seq<byte>): (avg: real)
    ensures 0.0 <= avg <= 255.0
  {
    var sum := SumRange(buf, BandStart(|buf|), BandEnd(|buf|));
    QuotientAtMost(sum as real, Divisor(|buf|) as real, 255.0);
    sum as real / Divisor(|buf|) as real
  }

  lemma QuotientAtMost(x: real, y: real, c: real)
    requires 0.0 <= x <= c * y && y > 0.0
    ensures 0.0 <= x / y <= c
  {
    assert x / y * y == x;
  }

  lemma QuotientAtLeast(x: real, y: real, c: real)
    requires x >= c * y && y > 0.0
    ensures x / y >= c
  {
    assert x / y * y == x;
  }

  /** `Math.min(1, Math.max(0, (avg - 18) / 110))`: 0 at or below the floor
      of 18, 1 at or above 18 + 110, and a value in [0, 1] in all cases. */
  function Normalize(avg: real): (v: real)
    ensures 0.0 <= v <= 1.0
    ensures v == 0.0 <==> avg <= 18.0
    ensures v == 1.0 <==> avg >= 128.0
  {
    var x := (avg - 18.0) / 110.0;
    if x < 0.0 then 0.0 else if x > 1.0 then 1.0 else x
  }

  /** The value `v` one frame contributes: in [0, 1], 0 exactly when the
      band's average is at most 18 and 1 exactly when it is at least 128. */
  function Level(buf: seq<byte>): (v: real)
    ensures 0.0 <= v <= 1.0
    ensures v == 0.0 <==> Average(buf) <= 18.0
    ensures v == 1.0 <==> Average(buf) >= 128.0
  {
    Normalize(Average(buf))
  }

  /** `smooth * 0.92 + v * 0.08`: a convex combination, so the blend lies
      between the previous value and the new one, and stays in [0, 1] when
      both are. */
  function Smooth(prev: real, v: real): (r: real)
    ensures prev <= v ==> prev <= r <= v
    ensures v <= prev ==> v <= r <= prev
    ensures 0.0 <= prev <= 1.0 && 0.0 <= v <= 1.0 ==> 0.0 <= r <= 1.0
  {
    prev * 0.92 + v * 0.08
  }

  /** The loop of `tick`: sums the band of `buf` and returns its level. */
  method BandLevel(buf: seq<byte>) returns (v: real)
    ensures v == Level(buf)
    ensures 0.0 <= v <= 1.0
  {
    var start := BandStart(|buf|);
    var end := BandEnd(|buf|);
    var sum := 0;
    for i := start to end
      invariant sum == SumRange(buf, start, i)
    {
      sum := sum + buf[i] as int;
    }
    var avg := sum as real / Divisor(|buf|) as real;
    v := Normalize(avg);
  }

  /** Normalisation preserves order. */
  lemma NormalizeMonotone(a: real, b: real)
    requires a <= b
    ensures Normalize(a) <= Normalize(b)
  {
  }

  lemma {:induction false} SumRangeAgree(a: seq<byte>, b: seq<byte>, lo: nat, hi: nat)
    requires lo <= hi <= |a| && hi <= |b|
    requires forall i :: lo <= i < hi ==> a[i] == b[i]
    ensures SumRange(a, lo, hi) == SumRange(b, lo, hi)
    decreases hi - lo
  {
    if lo < hi {
      SumRangeAgree(a, b, lo, hi - 1);
    }
  }

  /** Bins outside the band never change the level. */
  lemma LevelIgnoresOutsideBand(a: seq<byte>, b: seq<byte>)
    requires |a| == |b|
    requires forall i :: BandStart(|a|) <= i < BandEnd(|a|) ==> a[i] == b[i]
    ensures Level(a) == Level(b)
  {
    SumRangeAgree(a, b, BandStart(|a|), BandEnd(|a|));
  }

  lemma {:induction false} SumRangeBounds(buf: seq<byte>, lo: nat, hi: nat, low: int, high: int)
    requires lo <= hi <= |buf|
    requires forall i :: lo <= i < hi ==> low <= buf[i] as int <= high
    ensures low * (hi - lo) <= SumRange(buf, lo, hi) <= high * (hi - lo)
    decreases hi - lo
  {
    if lo < hi {
      SumRangeBounds(buf, lo, hi - 1, low, high);
      assert low * (hi - lo) == low * (hi - 1 - lo) + low;
      assert high * (hi - lo) == high * (hi - 1 - lo) + high;
    }
  }

  /** A band that is loud throughout (every bin at least 128) gives level 1. */
  lemma LoudBandSaturates(buf: seq<byte>)
    requires BandStart(|buf|) < BandEnd(|buf|)
    requires forall i :: BandStart(|buf|) <= i < BandEnd(|buf|) ==> buf[i] >= 128
    ensures Level(buf) == 1.0
  {
    var lo, hi := BandStart(|buf|), BandEnd(|buf|);
    SumRangeBounds(buf, lo, hi, 128, 255);
    var sum := SumRange(buf, lo, hi);
    var d := Divisor(|buf|) as real;
    assert d == (hi - lo) as real;
    assert sum as real >= 128.0 * d;
    assert Average(buf) == sum as real / d;
    QuotientAtLeast(sum as real, d, 128.0);
  }

  /** A band that stays at or below the floor of 18 (an empty band included)
      gives level 0. */
  lemma QuietBandIsZero(buf: seq<byte>)
    requires forall i :: BandStart(|buf|) <= i < BandEnd(|buf|) ==> buf[i] <= 18
    ensures Level(buf) == 0.0
  {
    var lo, hi := BandStart(|buf|), BandEnd(|buf|);
    SumRangeBounds(buf, lo, hi, 0, 18);
    var sum := SumRange(buf, lo, hi);
    var d := Divisor(|buf|) as real;
    assert sum as real <= 18.0 * d;
    assert Average(buf) == sum as real / d;
    QuotientAtMost(sum as real, d, 18.0);
  }

  /** `k` frames of smoothing towards a fixed input `v`. */
  function SmoothSteps(prev: real, v: real, k: nat): real
    decreases k
  {
    if k == 0 then prev else SmoothSteps(Smooth(prev, v), v, k - 1)
  }

  function Power(x: real, k: nat): real
  {
    if k == 0 then 1.0 else x * Power(x, k - 1)
  }

  /** Each frame shrinks the distance to a fixed input by the factor 0.92. */
  lemma {:induction false} SmoothStepsDistance(prev: real, v: real, k: nat)
    ensures SmoothSteps(prev, v, k) - v == Power(0.92, k) * (prev - v)
    decreases k
  {
    if k > 0 {
      var next, p := Smooth(prev, v), Power(0.92, k - 1);
      SmoothStepsDistance(next, v, k - 1);
      assert SmoothSteps(prev, v, k) == SmoothSteps(next, v, k - 1);
      ScaleOneFrame(prev, v, next, p);
      assert Power(0.92, k) == 0.92 * p;
    }
  }

  /** One blend scales the distance to the input by 0.92, so `p` times the
      new distance is `0.92 p` times the old one. */
  lemma ScaleOneFrame(prev: real, v: real, next: real, p: real)
    requires next == prev * 0.92 + v * 0.08
    ensures p * (next - v) == (0.92 * p) * (prev - v)
  {
    assert next - v == 0.92 * (prev - v);
  }

  /** 0.92^k lies in (0, 1], falls with k, and is at most 23 / (23 + 2k). */
  lemma {:induction false} PowerBounds(k: nat)
    ensures 0.0 < Power(0.92, k) <= 1.0
    ensures Power(0.92, k + 1) < Power(0.92, k)
    ensures Power(0.92, k) * (23.0 + 2.0 * k as real) <= 23.0
  {
    if k > 0 {
      PowerBounds(k - 1);
      var p := Power(0.92, k - 1);
      assert Power(0.92, k) == 0.92 * p;
      assert Power(0.92, k) * (23.0 + 2.0 * k as real)
          == 0.92 * (p * (23.0 + 2.0 * (k - 1) as real)) + 0.92 * 2.0 * p;
    }
  }

  /** Fed a constant input, the smoothed value approaches it geometrically:
      after `k` frames the remaining distance is at most 23 / (23 + 2k) of
      the initial one, so it falls below any positive bound. */
  lemma SmoothConverges(prev: real, v: real, k: nat)
    ensures var d := SmoothSteps(prev, v, k) - v;
      (if d < 0.0 then -d else d) * (23.0 + 2.0 * k as real)
        <= 23.0 * (if prev - v < 0.0 then v - prev else prev - v)
  {
    SmoothStepsDistance(prev, v, k);
    PowerBounds(k);
    ScaledDistance(SmoothSteps(prev, v, k) - v, Power(0.92, k), prev - v, 23.0 + 2.0 * k as real);
  }

  /** If `d` is `p` times `x` for some `p` in (0, 1] with `p * w <= 23`, then
      `|d| * w <= 23 |x|`. */
  lemma ScaledDistance(d: real, p: real, x: real, w: real)
    requires d == p * x && 0.0 < p && p * w <= 23.0
    ensures (if d < 0.0 then -d else d) * w <= 23.0 * (if x < 0.0 then -x else x)
  {
    var e := if x < 0.0 then -x else x;
    if x < 0.0 {
      assert p * x <= 0.0;
      assert -d == p * e;
    } else {
      assert p * x >= 0.0;
      assert d == p * e;
    }
    assert (if d < 0.0 then -d else d) == p * e;
    assert p * e * w == (p * w) * e;
  }

  /** From 0 with a full-scale input the smoothed value is 1 - 0.92^k: 0.08
      after one frame, strictly rising and always below 1. */
  lemma RiseFromSilence(k: nat)
    ensures SmoothSteps(0.0, 1.0, k) == 1.0 - Power(0.92, k)
    ensures SmoothSteps(0.0, 1.0, 1) == 0.08
    ensures SmoothSteps(0.0, 1.0, k) < SmoothSteps(0.0, 1.0, k + 1) < 1.0
  {
    SmoothStepsDistance(0.0, 1.0, k);
    SmoothStepsDistance(0.0, 1.0, k + 1);
    PowerBounds(k);
    PowerBounds(k + 1);
  }
}
