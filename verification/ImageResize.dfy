/** Sizing an image for the vision tower: rounding both sides to multiples of a factor, then
    shrinking or growing to a pixel range, and the grid and embedding size that follow. */
module ImageResize {
  import opened Arithmetic
  import MropePositions

  // ---------------------------------------------------------------- rounding to a multiple

  function RoundToMultiple(value: nat, factor: nat): nat
    requires factor > 0
  {
    var quotient, remainder := value / factor, value % factor;
    if 2 * remainder < factor then quotient * factor
    else if 2 * remainder > factor then (quotient + 1) * factor
    else (if quotient % 2 == 0 then quotient else quotient + 1) * factor
  }

  /** k times the factor is nearest to the value, and of two nearest ones k is even. */
  predicate NearestEven(value: int, factor: int, k: int) {
    var distance := k * factor - value;
    -factor <= 2 * distance <= factor && (2 * distance == factor || 2 * distance == -factor ==> k % 2 == 0)
  }

  /** The multiple the rounding picks. */
  function Multiple(value: nat, factor: nat): nat
    requires factor > 0
  {
    var q, r := value / factor, value % factor;
    if 2 * r < factor then q else if 2 * r > factor then q + 1 else if q % 2 == 0 then q else q + 1
  }

  lemma MultipleIsNearest(value: nat, factor: nat)
    requires factor > 0
    ensures RoundToMultiple(value, factor) == Multiple(value, factor) * factor
    ensures NearestEven(value, factor, Multiple(value, factor))
  {
    var q, r := value / factor, value % factor;
    assert value == q * factor + r;
    assert (q + 1) * factor == q * factor + factor;
  }

  /** Two nearest multiples are the same or neighbours, and neighbours are not both even. */
  lemma NearestIsUnique(value: int, factor: int, k: int, m: int)
    requires factor > 0 && NearestEven(value, factor, k) && NearestEven(value, factor, m)
    ensures k <= m
  {
    assert k * factor == m * factor + (k - m) * factor;
    assert (m + 1) * factor == m * factor + factor;
    TimesOrdered(2, k - m, factor);
  }

  /** The rounding gives the one multiple that is nearest, ties going to the even one. */
  lemma RoundsToNearestEven(value: nat, factor: nat, k: int)
    requires factor > 0
    ensures RoundToMultiple(value, factor) == k * factor <==> NearestEven(value, factor, k)
  {
    var m := Multiple(value, factor);
    MultipleIsNearest(value, factor);
    hide RoundToMultiple, Multiple;
    if NearestEven(value, factor, k) {
      NearestIsUnique(value, factor, k, m);
      NearestIsUnique(value, factor, m, k);
    }
    if m * factor == k * factor {
      MultipleOf(m, factor);
      MultipleOf(k, factor);
    }
  }

  // ---------------------------------------------------------------- the pixel range

  /** A side divided by the root and floored, or multiplied by it and rounded up, in units
      of the factor. */
  function Shrunk(side: nat, beta: real, factor: nat): int
    requires factor > 0 && beta > 0.0
  {
    (side as real / beta / factor as real).Floor * factor
  }

  function Ceiling(x: real): int {
    -((-x).Floor)
  }

  function Grown(side: nat, beta: real, factor: nat): int
    requires factor > 0
  {
    Ceiling(side as real * beta / factor as real) * factor
  }

  datatype Range = TooLarge | TooSmall | Fine

  function RangeOf(height: nat, width: nat, factor: nat, minPixels: int, maxPixels: int): Range
    requires factor > 0
  {
    var area := Max(factor, RoundToMultiple(height, factor)) * Max(factor, RoundToMultiple(width, factor));
    if area > maxPixels then TooLarge else if area < minPixels then TooSmall else Fine
  }

  /** beta is the square root the code takes on the branch for this image. */
  ghost predicate IsRoot(beta: real, height: nat, width: nat, factor: nat, minPixels: int, maxPixels: int)
    requires factor > 0 && height > 0 && width > 0
  {
    beta > 0.0 &&
    match RangeOf(height, width, factor, minPixels, maxPixels)
    case TooLarge => beta * beta * maxPixels as real == height as real * width as real
    case TooSmall => beta * beta * (height as real * width as real) == minPixels as real
    case Fine => true
  }

  /** Both sides after the resize; beta stands for the root of the branch taken. */
  function Resized(height: nat, width: nat, factor: nat, minPixels: int, maxPixels: int, beta: real): (int, int)
    requires factor > 0 && beta > 0.0
  {
    match RangeOf(height, width, factor, minPixels, maxPixels)
    case TooLarge => (Shrunk(height, beta, factor), Shrunk(width, beta, factor))
    case TooSmall => (Grown(height, beta, factor), Grown(width, beta, factor))
    case Fine => (Max(factor, RoundToMultiple(height, factor)), Max(factor, RoundToMultiple(width, factor)))
  }

  lemma ShrunkBelow(side: nat, beta: real, factor: nat)
    requires factor > 0 && beta > 0.0
    ensures 0 <= Shrunk(side, beta, factor) && Shrunk(side, beta, factor) as real * beta <= side as real
  {
    var x := side as real / beta;
    var f := factor as real;
    var k := (x / f).Floor;
    DivideTimes(side as real, beta);
    DivideTimes(x, f);
    assert x >= 0.0 by { QuotientNotNegative(side as real, beta); }
    assert x / f >= 0.0 by { QuotientNotNegative(x, f); }
    Scale(k as real, x / f, f);
    assert (k * factor) as real == k as real * f;
    Scale(k as real * f, x, beta);
    assert k * factor >= 0 by { TimesOrdered(0, k, factor); }
  }

  lemma GrownAbove(side: nat, beta: real, factor: nat)
    requires factor > 0 && beta > 0.0
    ensures Grown(side, beta, factor) as real >= side as real * beta
  {
    var x := side as real * beta;
    var f := factor as real;
    var k := Ceiling(x / f);
    DivideTimes(x, f);
    Scale(x / f, k as real, f);
    assert (k * factor) as real == k as real * f;
  }

  lemma DivideTimes(x: real, d: real)
    requires d > 0.0
    ensures x / d * d == x
  {
  }

  lemma QuotientNotNegative(x: real, d: real)
    requires d > 0.0 && x >= 0.0
    ensures x / d >= 0.0
  {
  }

  lemma Scale(a: real, b: real, f: real)
    requires a <= b && f >= 0.0
    ensures a * f <= b * f
  {
    assert (b - a) * f >= 0.0;
  }

  lemma ProductsOrdered(a: real, b: real, c: real, d: real)
    requires 0.0 <= a <= c && 0.0 <= b <= d
    ensures a * b <= c * d
  {
    Scale(a, c, b);
    Scale(b, d, c);
  }

  lemma Cancel(a: real, b: real, f: real)
    requires f > 0.0 && a * f <= b * f
    ensures a <= b
  {
    ScaleIff(a, b, f);
  }

  /** Which branch an image takes: its area, both sides rounded to multiples but not to zero, is
      compared with the range. */
  lemma RangeIff(height: nat, width: nat, factor: nat, minPixels: int, maxPixels: int)
    requires factor > 0
    ensures
      var h := if RoundToMultiple(height, factor) == 0 then factor else RoundToMultiple(height, factor);
      var w := if RoundToMultiple(width, factor) == 0 then factor else RoundToMultiple(width, factor);
      && (RangeOf(height, width, factor, minPixels, maxPixels) == TooLarge <==> h * w > maxPixels)
      && (RangeOf(height, width, factor, minPixels, maxPixels) == TooSmall <==> h * w <= maxPixels && h * w < minPixels)
      && forall beta :: beta > 0.0 && RangeOf(height, width, factor, minPixels, maxPixels) == Fine ==>
           Resized(height, width, factor, minPixels, maxPixels, beta) == (h, w)
  {
    AtLeastOne(height, factor);
    AtLeastOne(width, factor);
    hide RoundToMultiple;
  }

  lemma AtLeastOne(value: nat, factor: nat)
    requires factor > 0
    ensures RoundToMultiple(value, factor) == 0 || RoundToMultiple(value, factor) >= factor
  {
    MultipleIsNearest(value, factor);
    if Multiple(value, factor) > 0 { TimesGrows(Multiple(value, factor), factor); }
  }

  /** A shrunk side is the largest multiple of the factor that is within the side divided by the
      root. */
  lemma ShrunkIsLargest(side: nat, beta: real, factor: nat, k: int)
    requires factor > 0 && beta > 0.0
    ensures k * factor <= Shrunk(side, beta, factor) <==> k as real * factor as real * beta <= side as real
  {
    var s, f := side as real, factor as real;
    FactorIff(k, (s / beta / f).Floor, factor);
    FloorIff(k, s / beta / f);
    Unscaled(k as real, s, beta, f);
    hide *;
  }

  /** A grown side is the smallest multiple that is not below the side times the root. */
  lemma GrownIsLeast(side: nat, beta: real, factor: nat, k: int)
    requires factor > 0
    ensures Grown(side, beta, factor) <= k * factor <==> side as real * beta <= k as real * factor as real
  {
    var x, f := side as real * beta, factor as real;
    FactorIff(Ceiling(x / f), k, factor);
    CeilingIff(k, x / f);
    DivideTimes(x, f);
    ScaleIff(x / f, k as real, f);
    hide Ceiling;
  }

  lemma FloorIff(k: int, x: real)
    ensures k <= x.Floor <==> k as real <= x
  {
  }

  lemma CeilingIff(k: int, x: real)
    ensures Ceiling(x) <= k <==> x <= k as real
  {
  }

  lemma Unscaled(k: real, s: real, beta: real, f: real)
    requires f > 0.0 && beta > 0.0
    ensures k <= s / beta / f <==> k * f * beta <= s
  {
    var y := s / beta;
    DivideTimes(s, beta);
    DivideTimes(y, f);
    ScaleIff(k, y / f, f);
    ScaleIff(k * f, y, beta);
  }

  lemma FactorIff(a: int, b: int, factor: nat)
    requires factor > 0
    ensures a * factor <= b * factor <==> a <= b
  {
    TimesOrdered(a, b, factor);
    TimesOrdered(b, a, factor);
  }

  /** Both sides come out as multiples of the factor; the area is at most the maximum after
      shrinking, at least the minimum after growing, and within both otherwise. */
  lemma ResizedInRange(height: nat, width: nat, factor: nat, minPixels: int, maxPixels: int, beta: real)
    requires factor > 0 && height > 0 && width > 0 && maxPixels > 0
    requires IsRoot(beta, height, width, factor, minPixels, maxPixels)
    ensures
      var (h, w) := Resized(height, width, factor, minPixels, maxPixels, beta);
      && h >= 0 && w >= 0 && h % factor == 0 && w % factor == 0
      && match RangeOf(height, width, factor, minPixels, maxPixels)
         case TooLarge => h * w <= maxPixels
         case TooSmall => h * w >= minPixels
         case Fine => minPixels <= h * w <= maxPixels
  {
    Multiples(height, width, factor, minPixels, maxPixels, beta);
    AreaInRange(height, width, factor, minPixels, maxPixels, beta);
    hide *;
  }

  lemma AreaInRange(height: nat, width: nat, factor: nat, minPixels: int, maxPixels: int, beta: real)
    requires factor > 0 && height > 0 && width > 0 && maxPixels > 0
    requires IsRoot(beta, height, width, factor, minPixels, maxPixels)
    ensures
      var (h, w) := Resized(height, width, factor, minPixels, maxPixels, beta);
      && h >= 0 && w >= 0
      && match RangeOf(height, width, factor, minPixels, maxPixels)
         case TooLarge => h * w <= maxPixels
         case TooSmall => h * w >= minPixels
         case Fine => minPixels <= h * w <= maxPixels
  {
    hide RoundToMultiple, Shrunk, Grown, RangeOf, Max;
    match RangeOf(height, width, factor, minPixels, maxPixels)
    case TooLarge =>
      ShrunkBelow(height, beta, factor);
      ShrunkBelow(width, beta, factor);
      AreaBelow(Shrunk(height, beta, factor), Shrunk(width, beta, factor), height, width, maxPixels, beta);
    case TooSmall =>
      GrownAbove(height, beta, factor);
      GrownAbove(width, beta, factor);
      AreaAbove(Grown(height, beta, factor), Grown(width, beta, factor), height, width, minPixels, beta);
    case Fine => FineArea(height, width, factor, minPixels, maxPixels);
  }

  lemma FineArea(height: nat, width: nat, factor: nat, minPixels: int, maxPixels: int)
    requires factor > 0 && RangeOf(height, width, factor, minPixels, maxPixels).Fine?
    ensures Max(factor, RoundToMultiple(height, factor)) > 0 && Max(factor, RoundToMultiple(width, factor)) > 0
    ensures
      var area := Max(factor, RoundToMultiple(height, factor)) * Max(factor, RoundToMultiple(width, factor));
      minPixels <= area <= maxPixels
  {
  }

  lemma AreaBelow(h: int, w: int, height: nat, width: nat, maxPixels: int, beta: real)
    requires beta > 0.0 && h >= 0 && w >= 0
    requires h as real * beta <= height as real && w as real * beta <= width as real
    requires beta * beta * maxPixels as real == height as real * width as real
    ensures h * w <= maxPixels
  {
    RealAreaBelow(h as real, w as real, height as real, width as real, maxPixels as real, beta);
    ProductAsReal(h, w);
  }

  lemma RealAreaBelow(a: real, b: real, height: real, width: real, max: real, beta: real)
    requires beta > 0.0 && a >= 0.0 && b >= 0.0 && a * beta <= height && b * beta <= width
    requires beta * beta * max == height * width
    ensures a * b <= max
  {
    ProductsOrdered(a * beta, b * beta, height, width);
    Squared(a, b, beta);
    var q := beta * beta;
    ProductPositive(beta, beta, q);
    Bounded(a * b, max, q, height * width);
  }

  lemma Bounded(area: real, max: real, q: real, full: real)
    requires q > 0.0 && area * q <= full && q * max == full
    ensures area <= max
  {
    Cancel(area, max, q);
  }

  lemma ProductPositive(a: real, b: real, p: real)
    requires a > 0.0 && b > 0.0 && p == a * b
    ensures p > 0.0
  {
  }

  lemma Squared(a: real, b: real, beta: real)
    ensures (a * beta) * (b * beta) == (a * b) * (beta * beta)
  {
    assert (a * beta) * (b * beta) == a * (beta * (b * beta));
    assert beta * (b * beta) == b * (beta * beta);
  }

  lemma AreaAbove(h: int, w: int, height: nat, width: nat, minPixels: int, beta: real)
    requires beta > 0.0
    requires height as real * beta <= h as real && width as real * beta <= w as real
    requires beta * beta * (height as real * width as real) == minPixels as real
    ensures h >= 0 && w >= 0 && h * w >= minPixels
  {
    ProductsOrdered(height as real * beta, width as real * beta, h as real, w as real);
    Squared(height as real, width as real, beta);
    ProductAsReal(h, w);
  }

  lemma Multiples(height: nat, width: nat, factor: nat, minPixels: int, maxPixels: int, beta: real)
    requires factor > 0 && beta > 0.0
    ensures
      var (h, w) := Resized(height, width, factor, minPixels, maxPixels, beta);
      h % factor == 0 && w % factor == 0
  {
    MultipleOf((height as real / beta / factor as real).Floor, factor);
    MultipleOf((width as real / beta / factor as real).Floor, factor);
    MultipleOf(Ceiling(height as real * beta / factor as real), factor);
    MultipleOf(Ceiling(width as real * beta / factor as real), factor);
    RoundIsMultiple(height, factor);
    RoundIsMultiple(width, factor);
    MultipleOf(1, factor);
  }

  lemma RoundIsMultiple(value: nat, factor: nat)
    requires factor > 0
    ensures RoundToMultiple(value, factor) % factor == 0
  {
    var q := value / factor;
    MultipleOf(q, factor);
    MultipleOf(q + 1, factor);
  }

  lemma MultipleOf(k: int, factor: int)
    requires factor > 0
    ensures (k * factor) % factor == 0 && (k * factor) / factor == k
  {
    QuotientUnique(k * factor, factor, k, 0);
  }

  /** After shrinking, a side is not zero exactly if one factor of that side still fits into
      the pixels left to it. Growing and rounding never give zero. */
  lemma ShrunkPositiveIff(height: nat, width: nat, factor: nat, maxPixels: int, beta: real)
    requires factor > 0 && height > 0 && width > 0 && beta > 0.0
    requires beta * beta * maxPixels as real == height as real * width as real
    ensures Shrunk(height, beta, factor) > 0 <==> factor * factor * width <= height * maxPixels
  {
    var h, f := height as real, factor as real;
    OneFits(height, factor, beta);
    SquaresOrdered(f * beta, h);
    Substitute(h, width as real, f, maxPixels as real, beta);
    ProductsAsReals(height, width, factor, maxPixels);
  }

  lemma ProductsAsReals(height: nat, width: nat, factor: nat, maxPixels: int)
    ensures (factor * factor * width) as real == factor as real * factor as real * width as real
    ensures (height * maxPixels) as real == height as real * maxPixels as real
  {
    ProductAsReal(factor, factor);
    ProductAsReal(factor * factor, width);
    ProductAsReal(height, maxPixels);
  }

  lemma ProductAsReal(a: int, b: int)
    ensures (a * b) as real == a as real * b as real
  {
  }

  lemma OneFits(side: nat, factor: nat, beta: real)
    requires factor > 0 && beta > 0.0 && side > 0
    ensures factor as real * beta > 0.0
    ensures Shrunk(side, beta, factor) > 0 <==> factor as real * beta <= side as real
  {
    assert factor as real * beta > 0.0;
    OneFloor(side as real / beta / factor as real, factor);
    OneQuotient(side as real, beta, factor as real);
  }

  lemma OneFloor(x: real, factor: nat)
    requires factor > 0
    ensures x.Floor * factor > 0 <==> x >= 1.0
  {
    TimesOrdered(1, x.Floor, factor);
    TimesOrdered(x.Floor, 0, factor);
  }

  lemma OneQuotient(side: real, beta: real, f: real)
    requires beta > 0.0 && f > 0.0
    ensures side / beta / f >= 1.0 <==> f * beta <= side
  {
    var y := side / beta;
    DivideTimes(side, beta);
    DivideTimes(y, f);
    ScaleIff(1.0, y / f, f);
    ScaleIff(f, y, beta);
  }

  lemma SquaresOrdered(a: real, b: real)
    requires a > 0.0 && b > 0.0
    ensures a <= b <==> a * a <= b * b
  {
    assert b * b - a * a == (b - a) * (a + b);
    ScaleIff(0.0, b - a, a + b);
  }

  /** (f*beta)^2 <= h^2 with beta^2 * m = h * w is f^2 * w <= h * m. */
  lemma Substitute(h: real, w: real, f: real, m: real, beta: real)
    requires h > 0.0 && w > 0.0 && f > 0.0 && beta > 0.0 && beta * beta * m == h * w
    ensures (f * beta) * (f * beta) <= h * h <==> f * f * w <= h * m
  {
    var q := beta * beta;
    ProductPositive(beta, beta, q);
    ProductPositive(h, w, h * w);
    ScaleIff(m, 0.0, q);
    var left, right := (f * beta) * (f * beta), h * h;
    assert left * m == (f * f) * (beta * beta * m) == (f * f * w) * h;
    assert right * m == (h * m) * h;
    if left <= right { Scale(left, right, m); Cancel(f * f * w, h * m, h); }
    if f * f * w <= h * m { Scale(f * f * w, h * m, h); Cancel(left, right, m); }
  }

  // ---------------------------------------------------------------- the grid

  datatype Sizing = BadShape | BadRatio | Sized(gridT: int, gridH: int, gridW: int, embed: int)

  /** The whole computation for one image. */
  function SizeImage(height: int, width: int, patch: nat, merge: nat, minPixels: int, maxPixels: int,
                     beta: real): Sizing
    requires patch > 0 && merge > 0 && beta > 0.0
  {
    if height <= 0 || width <= 0 then BadShape
    else if Max(height, width) as real / Min(height, width) as real > 200.0 then BadRatio
    else
      Positive(patch, merge);
      var (h, w) := Resized(height, width, patch * merge, minPixels, maxPixels, beta);
      Sized(1, h / patch, w / patch, (h / patch / merge) * (w / patch / merge))
  }

  lemma Positive(a: int, b: int)
    requires a > 0 && b > 0
    ensures a * b > 0
  {
  }

  /** If the image has to shrink, one factor of each side fits into the pixels left to it. */
  predicate SidesFit(height: nat, width: nat, factor: nat, minPixels: int, maxPixels: int)
    requires factor > 0
  {
    RangeOf(height, width, factor, minPixels, maxPixels).TooLarge? ==>
      factor * factor * width <= height * maxPixels && factor * factor * height <= width * maxPixels
  }

  lemma BothPositiveIff(height: nat, width: nat, factor: nat, minPixels: int, maxPixels: int, beta: real)
    requires factor > 0 && height > 0 && width > 0 && maxPixels > 0
    requires IsRoot(beta, height, width, factor, minPixels, maxPixels)
    ensures
      var (h, w) := Resized(height, width, factor, minPixels, maxPixels, beta);
      h >= 0 && w >= 0 && (h > 0 && w > 0 <==> SidesFit(height, width, factor, minPixels, maxPixels))
  {
    match RangeOf(height, width, factor, minPixels, maxPixels)
    case TooLarge =>
      hide Shrunk;
      ShrunkBelow(height, beta, factor);
      ShrunkBelow(width, beta, factor);
      ShrunkPositiveIff(height, width, factor, maxPixels, beta);
      ShrunkPositiveIff(width, height, factor, maxPixels, beta);
    case TooSmall =>
      hide Grown;
      GrownPositive(height, beta, factor);
      GrownPositive(width, beta, factor);
    case Fine =>
  }

  lemma GrownPositive(side: nat, beta: real, factor: nat)
    requires factor > 0 && beta > 0.0 && side > 0
    ensures Grown(side, beta, factor) > 0
  {
    var x := side as real * beta;
    GrownAbove(side, beta, factor);
    ProductPositive(side as real, beta, x);
  }

  /** The ratio of the sides is rejected exactly if it is above 200. */
  lemma RatioIff(high: int, low: int)
    requires low > 0
    ensures high as real / low as real > 200.0 <==> high > 200 * low
  {
    var q := high as real / low as real;
    DivideTimes(high as real, low as real);
    ScaleIff(q, 200.0, low as real);
  }

  /** An image is sized exactly if its sides are positive and no more than 200 to 1. It gets
      a grid exactly if one factor of each side fits, and then the model derives the
      configured merge factor and all its checks on the image pass; otherwise it is empty. */
  lemma MergeIsConfigured(height: int, width: int, patch: nat, merge: nat, minPixels: int, maxPixels: int, beta: real)
    requires patch > 0 && merge > 0 && maxPixels > 0 && patch * merge > 0 && beta > 0.0
    requires height > 0 && width > 0 ==> IsRoot(beta, height, width, patch * merge, minPixels, maxPixels)
    ensures
      var r := SizeImage(height, width, patch, merge, minPixels, maxPixels, beta);
      && (r.Sized? <==> height > 0 && width > 0 && Max(height, width) <= 200 * Min(height, width))
      && (r.Sized? ==>
            var (h, w) := Resized(height, width, patch * merge, minPixels, maxPixels, beta);
            r.gridH * patch == h && r.gridW * patch == w)
      && (r.Sized? ==>
            if SidesFit(height, width, patch * merge, minPixels, maxPixels) then GivesMerge(r, merge)
            else r.embed == 0 && (r.gridH == 0 || r.gridW == 0))
  {
    if height > 0 && width > 0 {
      RatioIff(Max(height, width), Min(height, width));
      BothPositiveIff(height, width, patch * merge, minPixels, maxPixels, beta);
      Multiples(height, width, patch * merge, minPixels, maxPixels, beta);
      hide SidesFit, Resized, IsRoot, GivesMerge;
      var (h, w) := Resized(height, width, patch * merge, minPixels, maxPixels, beta);
      GridOf(h, w, patch, merge);
    }
  }

  /** The image has a full grid, passes the model's checks, and the model derives this factor. */
  predicate GivesMerge(r: Sizing, merge: nat) {
    && r.Sized? && r.gridT == 1 && r.gridH > 0 && r.gridW > 0 && r.embed > 0
    && var d := MropePositions.Image(r.embed, r.gridT, r.gridH, r.gridW);
       MropePositions.Accepted(d) && MropePositions.InferredMerge(d) == merge
  }

  lemma GridOf(h: int, w: int, patch: nat, merge: nat)
    requires patch > 0 && merge > 0 && patch * merge > 0
    requires h >= 0 && w >= 0 && h % (patch * merge) == 0 && w % (patch * merge) == 0
    ensures
      var r := Sized(1, h / patch, w / patch, (h / patch / merge) * (w / patch / merge));
      && (h / patch) * patch == h && (w / patch) * patch == w
      && if h > 0 && w > 0 then GivesMerge(r, merge) else r.embed == 0 && (r.gridH == 0 || r.gridW == 0)
  {
    GridSide(h, patch, merge);
    GridSide(w, patch, merge);
    if h > 0 && w > 0 {
      MergeOfGrid(h / patch, w / patch, merge, (h / patch / merge) * (w / patch / merge));
    }
  }

  /** A pixel range below the square of the factor: the image is shrunk to nothing. */
  lemma SquareVanishes()
    ensures IsRoot(5.0, 100, 100, 32, 1, 400) && !SidesFit(100, 100, 32, 1, 400)
    ensures SizeImage(100, 100, 16, 2, 1, 400, 5.0) == Sized(1, 0, 0, 0)
  {
    assert RoundToMultiple(100, 32) == 96;
    assert (100.0 / 5.0 / 32.0).Floor == 0;
    assert RangeOf(100, 100, 32, 1, 400) == TooLarge;
    assert Shrunk(100, 5.0, 32) == 0;
  }

  /** A side that is a multiple of patch and merge gives a grid side that is a multiple of merge. */
  lemma GridSide(side: int, patch: nat, merge: nat)
    requires patch > 0 && merge > 0 && side >= 0 && patch * merge > 0 && side % (patch * merge) == 0
    ensures side / patch % merge == 0 && (side / patch > 0 <==> side > 0) && (side / patch) * patch == side
  {
    var k := side / (patch * merge);
    assert side == k * (patch * merge) == (k * merge) * patch;
    MultipleOf(k * merge, patch);
    MultipleOf(k, merge);
  }

  lemma MergeOfGrid(gridH: int, gridW: int, merge: nat, embed: int)
    requires gridH > 0 && gridW > 0 && merge > 0 && gridH % merge == 0 && gridW % merge == 0
    requires embed == (gridH / merge) * (gridW / merge)
    ensures embed > 0
    ensures
      var d := MropePositions.Image(embed, 1, gridH, gridW);
      MropePositions.Accepted(d) && MropePositions.InferredMerge(d) == merge
  {
    var a, b := gridH / merge, gridW / merge;
    assert gridH == a * merge && gridW == b * merge;
    MropePositions.PositiveFactor(a, merge);
    MropePositions.PositiveFactor(b, merge);
    Positive(a, b);
    var d := MropePositions.Image(embed, 1, gridH, gridW);
    MropePositions.Regroup(1, a, b, merge);
    MropePositions.InferredExactly(d, merge);
  }
}
