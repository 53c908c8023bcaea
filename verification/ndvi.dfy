/**
  The vegetation index of `NDVI(array)`: for each pixel of a two-band raster
  (band 0 red, band 1 near-infrared) the index (NIR - red) / (NIR + red) is
  rescaled to 10000 + 10000 * index and cast to an unsigned 16-bit integer.
  A nodata mask (either band equal to 0) is computed alongside; the statement
  meant to write the sentinel 65535 under it is a comparison, so it never
  does. Bands are flattened to one sequence of pixels each; pixel values are
  exact reals.
 */
module Ndvi {
  import opened Wrappers

  /** numpy's `uint16`. */
  type UInt16 = x: int | 0 <= x < 0x1_0000

  /** The nodata value the zonal statistics are told to skip. */
  const NoData: UInt16 := 65535

  /** Rescaling: index -1 maps to 0, index 0 to 10000, index 1 to 20000. */
  const Offset: real := 10000.0
  const Scale: real := 10000.0

  /** A cast to an integer type that drops the fractional part (toward zero). */
  function Trunc(v: real): (k: int)
    ensures v >= 0.0 ==> 0 <= k && k as real <= v < k as real + 1.0
    ensures v <= 0.0 ==> k <= 0 && k as real - 1.0 < v <= k as real
  {
    if v >= 0.0 then v.Floor else -((-v).Floor)
  }

  /** The nodata rule of the index step: red is 0 or NIR is 0. */
  predicate IsNoData(red: real, nir: real) {
    red == 0.0 || nir == 0.0
  }

  /** The normalized difference (NIR - red) / (NIR + red). */
  function Index(red: real, nir: real): real
    requires red + nir != 0.0
  {
    (nir - red) / (nir + red)
  }

  /** The rescaled index equals 20000 times the NIR share of the two bands. */
  lemma RescaledShare(red: real, nir: real)
    requires red + nir != 0.0
    ensures Offset + Scale * Index(red, nir) == 20000.0 * nir / (red + nir)
  {
    var s := red + nir;
    calc {
      Offset + Scale * Index(red, nir);
      10000.0 * (s / s) + 10000.0 * ((nir - red) / s);
      (10000.0 * s + 10000.0 * (nir - red)) / s;
      20000.0 * nir / s;
    }
  }

  /** For bands with 0 <= NIR <= NIR + red, the share lies between 0 and 20000. */
  lemma ShareBounds(red: real, nir: real)
    requires 0.0 <= red && 0.0 <= nir && red + nir > 0.0
    ensures 0.0 <= 20000.0 * nir / (red + nir) <= 20000.0
    ensures red > 0.0 ==> 20000.0 * nir / (red + nir) < 20000.0
    ensures nir > 0.0 ==> 20000.0 * nir / (red + nir) > 0.0
  {
    var s := red + nir;
    var q := nir / s;
    assert q * s == nir;
    assert (1.0 - q) * s == red;
    SignOfFactor(q, s);
    SignOfFactor(1.0 - q, s);
    ScaleDiv(20000.0, nir, s);
  }

  /** With a positive factor s, the sign of a * s is the sign of a. */
  lemma SignOfFactor(a: real, s: real)
    requires s > 0.0
    ensures a * s >= 0.0 ==> a >= 0.0
    ensures a * s > 0.0 ==> a > 0.0
  {
    if a < 0.0 {
      assert (-a) * s > 0.0;
    } else if a == 0.0 {
      assert a * s == 0.0;
    }
  }

  lemma ShareBoundsWhenNonNegative(red: real, nir: real)
    requires red + nir != 0.0
    ensures 0.0 <= red && 0.0 <= nir ==> 0.0 <= 20000.0 * nir / (red + nir) <= 20000.0
    ensures 0.0 < red && 0.0 <= nir ==> 20000.0 * nir / (red + nir) < 20000.0
  {
    if 0.0 <= red && 0.0 <= nir {
      ShareBounds(red, nir);
    }
  }

  /**
    One output pixel: `(10000 + 10000*ndvi).astype(np.uint16)`. None where IEEE
    arithmetic decides the value and exact arithmetic cannot: a zero
    denominator (NaN or infinity) or a value outside what uint16 holds.
   */
  function Rescale(red: real, nir: real): (r: Option<UInt16>)
    ensures r.Some? ==> red + nir != 0.0
    ensures 0.0 <= red && 0.0 <= nir && red + nir > 0.0 ==> r.Some? && r.value <= 20000
    ensures 0.0 < red && 0.0 < nir ==> r.Some? && 0 <= r.value <= 19999
  {
    if red + nir == 0.0 then None
    else
      var v := Offset + Scale * Index(red, nir);
      RescaledShare(red, nir);
      ShareBoundsWhenNonNegative(red, nir);
      if -1.0 < v < 65536.0 then Some(Trunc(v)) else None
  }

  /**
    For positive bands the output is the integer k with
    k (red + NIR) <= 20000 NIR < (k + 1)(red + NIR): the rescaled index rounded down.
   */
  lemma RescaleExact(red: real, nir: real)
    requires 0.0 < red && 0.0 < nir
    ensures Rescale(red, nir).Some?
    ensures var k := Rescale(red, nir).value as real;
      k * (red + nir) <= 20000.0 * nir < (k + 1.0) * (red + nir)
  {
    RescaledShare(red, nir);
    ShareBounds(red, nir);
    var k := Rescale(red, nir).value as real;
    FloorScaled(20000.0 * nir, red + nir, k);
  }

  /** k <= x / s < k + 1 with s > 0 is k s <= x < (k + 1) s. */
  lemma FloorScaled(x: real, s: real, k: real)
    requires s > 0.0 && k <= x / s < k + 1.0
    ensures k * s <= x < (k + 1.0) * s
  {
    var v := x / s;
    assert v * s == x;
    var gap := k + 1.0 - v;
    assert gap * s > 0.0;
    assert (k + 1.0) * s == v * s + gap * s;
    assert x < (k + 1.0) * s;
    var rest := v - k;
    if rest > 0.0 {
      assert rest * s > 0.0;
    }
    assert v * s == k * s + rest * s;
  }

  /** The NIR share grows with NIR when red is held fixed. */
  lemma ShareMonotone(red: real, nir1: real, nir2: real)
    requires 0.0 <= red && 0.0 <= nir1 <= nir2 && red + nir1 > 0.0
    ensures 20000.0 * nir1 / (red + nir1) <= 20000.0 * nir2 / (red + nir2)
  {
    var s1, s2 := red + nir1, red + nir2;
    var q1, q2 := nir1 / s1, nir2 / s2;
    assert q1 * s1 == nir1 && q2 * s2 == nir2;
    assert (q2 - q1) * (s1 * s2) == nir2 * s1 - nir1 * s2;
    assert nir2 * s1 - nir1 * s2 == red * (nir2 - nir1);
    assert red * (nir2 - nir1) >= 0.0;
    assert s1 * s2 > 0.0;
    assert q1 <= q2;
    ScaleDiv(20000.0, nir1, s1);
    ScaleDiv(20000.0, nir2, s2);
  }

  lemma ScaleDiv(c: real, x: real, s: real)
    requires s != 0.0
    ensures c * x / s == c * (x / s)
  {
  }

  /** More near-infrared against the same red never lowers the output. */
  lemma RescaleMonotone(red: real, nir1: real, nir2: real)
    requires 0.0 <= red && 0.0 <= nir1 <= nir2 && red + nir1 > 0.0
    ensures Rescale(red, nir1).Some? && Rescale(red, nir2).Some?
    ensures Rescale(red, nir1).value <= Rescale(red, nir2).value
  {
    RescaledShare(red, nir1);
    RescaledShare(red, nir2);
    ShareMonotone(red, nir1, nir2);
    ShareBounds(red, nir1);
    ShareBounds(red, nir2);
  }

  /** The worked examples: (red 100, NIR 300) gives 15000 and (300, 100) gives 5000. */
  lemma RescaleExamples()
    ensures Rescale(100.0, 300.0) == Some(15000)
    ensures Rescale(300.0, 100.0) == Some(5000)
  {
  }

  /**
    The masked edges: red 0 gives the top of the scale, NIR 0 the bottom, and
    both 0 is left to IEEE arithmetic (0/0).
   */
  lemma RescaleEdges(red: real, nir: real)
    ensures red == 0.0 && nir > 0.0 ==> Rescale(red, nir) == Some(20000)
    ensures nir == 0.0 && red > 0.0 ==> Rescale(red, nir) == Some(0)
    ensures red == 0.0 && nir == 0.0 ==> Rescale(red, nir) == None
  {
    if red + nir != 0.0 {
      RescaledShare(red, nir);
      if red == 0.0 {
        assert 20000.0 * nir / nir == 20000.0;
      }
    }
  }

  // ---------------------------------------------------------------------
  // Whole bands
  // ---------------------------------------------------------------------

  /** `np.logical_or(NIR == 0, red == 0)`, pixel by pixel. */
  function NodataMask(red: seq<real>, nir: seq<real>): (mask: seq<bool>)
    requires |red| == |nir|
    ensures |mask| == |red|
    ensures forall i :: 0 <= i < |red| ==> (mask[i] <==> red[i] == 0.0 || nir[i] == 0.0)
  {
    if |red| == 0 then []
    else [IsNoData(red[0], nir[0])] + NodataMask(red[1..], nir[1..])
  }

  /** The rescale-and-cast, applied to every pixel of the two bands. */
  function RescaleBand(red: seq<real>, nir: seq<real>): (out: seq<Option<UInt16>>)
    requires |red| == |nir|
    ensures |out| == |red|
    ensures forall i :: 0 <= i < |red| ==> out[i] == Rescale(red[i], nir[i])
  {
    if |red| == 0 then []
    else [Rescale(red[0], nir[0])] + RescaleBand(red[1..], nir[1..])
  }

  /** The pixel facts of RescaleEdges and Rescale, for every pixel of a rescaled band. */
  lemma BandEdges(red: seq<real>, nir: seq<real>, out: seq<Option<UInt16>>)
    requires |red| == |nir| == |out|
    requires forall i :: 0 <= i < |out| ==> out[i] == Rescale(red[i], nir[i])
    ensures forall i :: 0 <= i < |out| && red[i] == 0.0 && nir[i] > 0.0 ==> out[i] == Some(20000)
    ensures forall i :: 0 <= i < |out| && nir[i] == 0.0 && red[i] > 0.0 ==> out[i] == Some(0)
    ensures forall i :: 0 <= i < |out| && 0.0 <= red[i] && 0.0 <= nir[i] && red[i] + nir[i] > 0.0 ==>
      (out[i].Some? && out[i].value <= 20000)
  {
    forall i | 0 <= i < |out|
      ensures red[i] == 0.0 && nir[i] > 0.0 ==> out[i] == Some(20000)
      ensures nir[i] == 0.0 && red[i] > 0.0 ==> out[i] == Some(0)
    {
      RescaleEdges(red[i], nir[i]);
    }
  }

  /** Two bands of equal length, band 0 red and band 1 NIR; further bands are ignored. */
  predicate TwoBands(img: seq<seq<real>>) {
    |img| >= 2 && |img[0]| == |img[1]|
  }

  /**
    `NDVI(array)` as written: one band of rescaled indices. The nodata mask is
    computed, but `ndvi[nodata] == 65535` only compares, so no pixel is
    replaced and a masked pixel keeps its rescaled value.
   */
  function Ndvi(img: seq<seq<real>>): (out: seq<Option<UInt16>>)
    requires TwoBands(img)
    ensures |out| == |img[0]|
    ensures forall i :: 0 <= i < |out| ==> out[i] == Rescale(img[0][i], img[1][i])
    ensures forall i :: 0 <= i < |out| && img[0][i] == 0.0 && img[1][i] > 0.0 ==> out[i] == Some(20000)
    ensures forall i :: 0 <= i < |out| && img[1][i] == 0.0 && img[0][i] > 0.0 ==> out[i] == Some(0)
    ensures forall i :: 0 <= i < |out| && 0.0 <= img[0][i] && 0.0 <= img[1][i] && img[0][i] + img[1][i] > 0.0 ==>
      (out[i].Some? && out[i].value <= 20000 && out[i] != Some(NoData))
  {
    var red, nir := img[0], img[1];
    var nodata := NodataMask(red, nir);
    var ndvi := RescaleBand(red, nir);
    // `ndvi[nodata] == 65535` evaluates a comparison and discards it: `nodata` is never applied
    BandEdges(red, nir, ndvi);
    ndvi
  }

  /** A sentinel written under a mask: `ndvi[mask] = 65535`. */
  function ApplyNoData(ndvi: seq<Option<UInt16>>, mask: seq<bool>): (out: seq<Option<UInt16>>)
    requires |ndvi| == |mask|
    ensures |out| == |ndvi|
    ensures forall i :: 0 <= i < |out| && mask[i] ==> out[i] == Some(NoData)
    ensures forall i :: 0 <= i < |out| && !mask[i] ==> out[i] == ndvi[i]
  {
    if |ndvi| == 0 then []
    else [if mask[0] then Some(NoData) else ndvi[0]] + ApplyNoData(ndvi[1..], mask[1..])
  }

  /**
    `NDVI(array)` with the sentinel assignment it evidently intends: masked
    pixels carry 65535, every other pixel its rescaled index. For non-negative
    bands the sentinel appears exactly on the masked pixels.
   */
  function NdviCorrected(img: seq<seq<real>>): (out: seq<Option<UInt16>>)
    requires TwoBands(img)
    ensures |out| == |img[0]|
    ensures forall i :: 0 <= i < |out| && (img[0][i] == 0.0 || img[1][i] == 0.0) ==> out[i] == Some(NoData)
    ensures forall i :: 0 <= i < |out| && img[0][i] != 0.0 && img[1][i] != 0.0 ==> out[i] == Rescale(img[0][i], img[1][i])
    ensures forall i :: 0 <= i < |out| && 0.0 <= img[0][i] && 0.0 <= img[1][i] ==>
      (out[i] == Some(NoData) <==> img[0][i] == 0.0 || img[1][i] == 0.0)
  {
    ApplyNoData(Ndvi(img), NodataMask(img[0], img[1]))
  }

  /**
    The discrepancy on two pixels: both are masked, yet the code as written
    returns 20000 and 0 for them where the corrected version returns 65535.
   */
  lemma SentinelNeverWritten()
    ensures NodataMask([0.0, 300.0], [100.0, 0.0]) == [true, true]
    ensures Ndvi([[0.0, 300.0], [100.0, 0.0]]) == [Some(20000), Some(0)]
    ensures NdviCorrected([[0.0, 300.0], [100.0, 0.0]]) == [Some(NoData), Some(NoData)]
  {
    var img := [[0.0, 300.0], [100.0, 0.0]];
    var out := Ndvi(img);
    assert out[0] == Some(20000) && out[1] == Some(0);
    var fixed := NdviCorrected(img);
    assert fixed[0] == Some(NoData) && fixed[1] == Some(NoData);
  }
}
