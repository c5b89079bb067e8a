/** How large an image is drawn on the page, and the resolution that gives it:
    ImageDisplayInfo, its DPI helpers, and the reduction of all the sizes one
    image is drawn at to the single size that decides its resampling.
    Points are 1/72 inch; f32 values are modelled as exact reals. */
module DisplayInfo {
  import opened Wrappers
  import opened RealFacts
  import opened PdfObject

  const POINTS_PER_INCH: real := 72.0

  datatype Pixels = Pixels(width: nat, height: nat)

  datatype ImageDisplayInfo = ImageDisplayInfo(
    pixelWidth: nat,
    pixelHeight: nat,
    displayWidthPoints: real,
    displayHeightPoints: real)
  {
    function EffectiveDpiX(): real {
      EffectiveDpi(pixelWidth, displayWidthPoints)
    }

    function EffectiveDpiY(): real {
      EffectiveDpi(pixelHeight, displayHeightPoints)
    }

    /** f32::max of the two axes. */
    function MaxEffectiveDpi(): (r: real)
      ensures r >= EffectiveDpiX() && r >= EffectiveDpiY()
      ensures r == EffectiveDpiX() || r == EffectiveDpiY()
    {
      if EffectiveDpiX() >= EffectiveDpiY() then EffectiveDpiX() else EffectiveDpiY()
    }

    /** The pixel size that shows the same display size at `targetDpi`. */
    function TargetPixelsForDpi(targetDpi: real): Pixels {
      Pixels(TargetAxis(displayWidthPoints, targetDpi), TargetAxis(displayHeightPoints, targetDpi))
    }
  }

  /** Pixels per inch along one axis; 0 for an axis drawn at no positive size. */
  function EffectiveDpi(pixels: nat, points: real): (r: real)
    ensures points > 0.0 ==> r * (points / POINTS_PER_INCH) == pixels as real
    ensures points <= 0.0 ==> r == 0.0
  {
    var inches := points / POINTS_PER_INCH;
    if inches > 0.0 then pixels as real / inches else 0.0
  }

  /** f32::round: to the nearest integer, halfway cases away from zero. */
  function RoundHalfAway(x: real): (r: int)
    ensures x >= 0.0 ==> x - 0.5 < r as real <= x + 0.5
    ensures x < 0.0 ==> x - 0.5 <= r as real < x + 0.5
  {
    if x >= 0.0 then (x + 0.5).Floor else -((0.5 - x).Floor)
  }

  /** Rust's saturating float-to-u32 cast, applied to an already rounded value. */
  function SaturateU32(n: int): (r: nat)
    ensures r < U32_LIMIT
    ensures 0 <= n < U32_LIMIT ==> r == n
    ensures n < 0 ==> r == 0
    ensures n >= U32_LIMIT ==> r == U32_LIMIT - 1
  {
    if n < 0 then 0 else if n >= U32_LIMIT then U32_LIMIT - 1 else n
  }

  /** One axis of target_pixels_for_dpi: round(points / 72 * dpi) as u32, at least 1.
      The result is the nearest integer to the exact target whenever that integer is
      a u32 of at least 1, and the nearer end of [1, u32::MAX] otherwise. */
  function TargetAxis(points: real, dpi: real): (n: nat)
    ensures 1 <= n < U32_LIMIT
    ensures var x := points / POINTS_PER_INCH * dpi;
            0.5 <= x < U32_LIMIT as real - 0.5 ==> x - 0.5 <= n as real <= x + 0.5
    ensures points / POINTS_PER_INCH * dpi < 0.5 ==> n == 1
    ensures points / POINTS_PER_INCH * dpi >= U32_LIMIT as real - 0.5 ==> n == U32_LIMIT - 1
  {
    var rounded := SaturateU32(RoundHalfAway(points / POINTS_PER_INCH * dpi));
    if rounded < 1 then 1 else rounded
  }

  /** The stand-in used when an image was never seen drawn: one point per pixel. */
  function PixelsAsPoints(width: nat, height: nat): ImageDisplayInfo {
    ImageDisplayInfo(width, height, width as real, height as real)
  }

  /** Without display information an image counts as 72 DPI on both axes. */
  lemma PixelsAsPointsIs72Dpi(width: nat, height: nat)
    requires width > 0 && height > 0
    ensures PixelsAsPoints(width, height).EffectiveDpiX() == POINTS_PER_INCH
    ensures PixelsAsPoints(width, height).EffectiveDpiY() == POINTS_PER_INCH
    ensures PixelsAsPoints(width, height).MaxEffectiveDpi() == POINTS_PER_INCH
  {
    DpiOfPointsPerPixel(width);
    DpiOfPointsPerPixel(height);
  }

  lemma DpiOfPointsPerPixel(n: nat)
    requires n > 0
    ensures EffectiveDpi(n, n as real) == POINTS_PER_INCH
  {
    var r := EffectiveDpi(n, n as real);
    assert r * (n as real / POINTS_PER_INCH) == POINTS_PER_INCH * (n as real / POINTS_PER_INCH);
    SameFactor(r, POINTS_PER_INCH, n as real / POINTS_PER_INCH);
  }

  /** Drawing an image k times as large divides its resolution by k. */
  lemma DpiInverselyProportional(pixels: nat, points: real, k: real)
    requires points > 0.0 && k > 0.0
    ensures EffectiveDpi(pixels, k * points) * k == EffectiveDpi(pixels, points)
  {
    MulPos(k, points);
    var r, s := EffectiveDpi(pixels, k * points), EffectiveDpi(pixels, points);
    assert r * (k * points / POINTS_PER_INCH) == pixels as real;
    assert s * (points / POINTS_PER_INCH) == pixels as real;
    assert (r * k) * (points / POINTS_PER_INCH) == pixels as real;
    SameFactor(r * k, s, points / POINTS_PER_INCH);
  }

  lemma SameFactor(x: real, y: real, k: real)
    requires k > 0.0 && x * k == y * k
    ensures x == y
  {
    assert (x - y) * k == 0.0;
  }

  /** A size resampled to the target DPI is back within 1 DPI of the target on that
      axis, as long as the axis is drawn at least half an inch (36 points) and the
      target size is a u32 of at least 1. */
  lemma TargetAxisMeetsDpi(points: real, dpi: real)
    requires points >= 36.0
    requires 0.5 <= points / POINTS_PER_INCH * dpi < U32_LIMIT as real - 0.5
    ensures dpi - 1.0 <= EffectiveDpi(TargetAxis(points, dpi), points) <= dpi + 1.0
  {
    var inches := points / POINTS_PER_INCH;
    var n := TargetAxis(points, dpi);
    var r := EffectiveDpi(n, points);
    assert r * inches == n as real;
    CloseQuotient(r, dpi, inches, n as real - inches * dpi);
  }

  /** If r and t scaled by k >= 1/2 differ by at most 1/2, then they differ by at most 1. */
  lemma CloseQuotient(r: real, t: real, k: real, e: real)
    requires k >= 0.5 && r * k - t * k == e && -0.5 <= e <= 0.5
    ensures t - 1.0 <= r <= t + 1.0
  {
    assert (r - t) * k == e;
    AtMostOne(r - t, k, e);
    Swap(r, t, k);
    AtMostOne(t - r, k, -e);
  }

  lemma AtMostOne(a: real, k: real, e: real)
    requires k >= 0.5 && a * k == e && e <= 0.5
    ensures a <= 1.0
  {
    if a > 1.0 {
      SplitOff(a, k);
      MulPos(a - 1.0, k);
    }
  }

  lemma SplitOff(a: real, k: real)
    ensures a * k == k + (a - 1.0) * k
  {
  }

  lemma Swap(a: real, b: real, k: real)
    ensures (a - b) * k == -((b - a) * k)
  {
  }

  /** A size at which an image is drawn. */
  datatype DisplaySize = DisplaySize(width: real, height: real)

  function Area(s: DisplaySize): real {
    s.width * s.height
  }

  /** Iterator::max_by on areas: the largest area, and of several with that area the
      last one (max_by keeps the later of two equal elements). */
  function MaxByArea(s: seq<DisplaySize>): (r: Option<DisplaySize>)
    ensures r.None? <==> |s| == 0
    ensures r.Some? ==> forall i :: 0 <= i < |s| ==> Area(s[i]) <= Area(r.value)
    ensures r.Some? ==> exists k :: 0 <= k < |s| && s[k] == r.value
                          && forall j :: k < j < |s| ==> Area(s[j]) < Area(r.value)
    decreases |s|
  {
    if |s| == 0 then None
    else
      var last := s[|s| - 1];
      var init := s[..|s| - 1];
      assert forall i :: 0 <= i < |init| ==> init[i] == s[i];
      match MaxByArea(init)
      case None => Some(last)
      case Some(m) => if Area(m) > Area(last) then Some(m) else Some(last)
  }

  /** The choice does not depend on the order in which the sizes were recorded
      when no two of them share an area: both orders give the size of largest area. */
  lemma MaxByAreaDistinctIsLargest(s: seq<DisplaySize>, m: DisplaySize)
    requires m in s
    requires forall i :: 0 <= i < |s| ==> s[i] == m || Area(s[i]) < Area(m)
    ensures MaxByArea(s) == Some(m)
  {
    var r := MaxByArea(s);
    var k :| 0 <= k < |s| && s[k] == r.value;
    var i :| 0 <= i < |s| && s[i] == m;
    assert Area(s[i]) <= Area(r.value);
  }

  /** Two draws at areas A1 < A2, in either order, give the A2 size. */
  lemma LargerOfTwoWins(small: DisplaySize, large: DisplaySize)
    requires Area(small) < Area(large)
    ensures MaxByArea([small, large]) == Some(large)
    ensures MaxByArea([large, small]) == Some(large)
  {
    MaxByAreaDistinctIsLargest([small, large], large);
    MaxByAreaDistinctIsLargest([large, small], large);
  }

  /** Equal areas go to the size recorded last. */
  lemma TieGoesToLast(first: DisplaySize, second: DisplaySize)
    requires Area(first) == Area(second)
    ensures MaxByArea([first, second]) == Some(second)
  {
    assert [first, second][..1] == [first];
    assert [first][..0] == [];
  }

  /** The worked example: 3000 x 2000 pixels drawn at 720 x 480 points (10 x 6.667
      inches) is 300 DPI and resamples to 1500 x 1000 at 150 DPI; drawn at half that
      size it is 600 DPI and resamples to 750 x 500. */
  lemma WorkedExample()
    ensures ImageDisplayInfo(3000, 2000, 720.0, 480.0).MaxEffectiveDpi() == 300.0
    ensures ImageDisplayInfo(3000, 2000, 720.0, 480.0).TargetPixelsForDpi(150.0) == Pixels(1500, 1000)
    ensures ImageDisplayInfo(3000, 2000, 360.0, 240.0).MaxEffectiveDpi() == 600.0
    ensures ImageDisplayInfo(3000, 2000, 360.0, 240.0).TargetPixelsForDpi(150.0) == Pixels(750, 500)
  {
    var big := ImageDisplayInfo(3000, 2000, 720.0, 480.0);
    var small := ImageDisplayInfo(3000, 2000, 360.0, 240.0);
    assert big.EffectiveDpiX() == 300.0 && big.EffectiveDpiY() == 300.0;
    assert small.EffectiveDpiX() == 600.0 && small.EffectiveDpiY() == 600.0;
    assert RoundHalfAway(1500.0) == 1500 && RoundHalfAway(1000.0) == 1000;
    assert RoundHalfAway(750.0) == 750 && RoundHalfAway(500.0) == 500;
  }
}
