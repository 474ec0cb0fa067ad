/**
 * ColorUtil: the foreground colour (white or dark grey) drawn over a background colour,
 * chosen by the WCAG 2.0 contrast ratio of white against that background. Doubles are exact
 * reals here.
 */
module ColorUtil {
  import opened Rgb

  /** The relative luminance 0.2126 R + 0.7152 G + 0.0722 B on the 0..255 channel scale. */
  function RelativeLuminance(c: Color): (l: real)
    ensures 0.0 <= l <= 255.0
  {
    0.2126 * (c.r as real) + 0.7152 * (c.g as real) + 0.0722 * (c.b as real)
  }

  /** The contrast ratio of white against the background: (L(white) + 0.05) / (L(bg) + 0.05). */
  function WhiteContrastRatio(background: Color): (ratio: real)
    ensures ratio >= 1.0
    ensures ratio * (RelativeLuminance(background) + 0.05) == RelativeLuminance(White) + 0.05
  {
    var numerator := RelativeLuminance(White) + 0.05;
    var denominator := RelativeLuminance(background) + 0.05;
    RatioAtLeastOne(numerator, denominator);
    numerator / denominator
  }

  lemma RatioAtLeastOne(numerator: real, denominator: real)
    requires 0.0 < denominator <= numerator
    ensures numerator / denominator >= 1.0
    ensures (numerator / denominator) * denominator == numerator
  {
  }

  /** getForegroundColor: white when the contrast ratio exceeds 1.5, dark grey otherwise. */
  function ForegroundColor(background: Color): (f: Color)
    ensures f == White || f == DarkGray
  {
    if WhiteContrastRatio(background) > 1.5 then White else DarkGray
  }

  /** The result is white exactly when the ratio exceeds 1.5, dark grey exactly when it does not. */
  lemma ForegroundIff(background: Color)
    ensures ForegroundColor(background) == White <==> WhiteContrastRatio(background) > 1.5
    ensures ForegroundColor(background) == DarkGray <==> WhiteContrastRatio(background) <= 1.5
  {
    assert White != DarkGray;
  }

  /** Luminance of white is 255. */
  lemma LuminanceOfWhite()
    ensures RelativeLuminance(White) == 255.0
  {
  }

  /** In terms of luminance alone: white exactly when 3 L < 509.95 (L below about 169.98). */
  lemma {:induction false} ForegroundByLuminance(background: Color)
    ensures ForegroundColor(background) == White <==> 3.0 * RelativeLuminance(background) < 509.95
  {
    var l := RelativeLuminance(background);
    var ratio := WhiteContrastRatio(background);
    LuminanceOfWhite();
    assert ratio * (l + 0.05) == 255.05;
    RatioAboveThreshold(ratio, l + 0.05, 255.05);
  }

  lemma RatioAboveThreshold(ratio: real, d: real, n: real)
    requires d > 0.0 && ratio * d == n
    ensures ratio > 1.5 <==> n > 1.5 * d
  {
    if ratio > 1.5 {
      assert (ratio - 1.5) * d > 0.0;
    } else {
      assert (1.5 - ratio) * d >= 0.0;
    }
  }

  /** A white background has ratio 1 and gets dark grey; a black one gets white. */
  lemma WhiteAndBlackBackgrounds()
    ensures WhiteContrastRatio(White) == 1.0
    ensures ForegroundColor(White) == DarkGray
    ensures ForegroundColor(Black) == White
  {
    LuminanceOfWhite();
    ForegroundByLuminance(White);
    ForegroundByLuminance(Black);
  }

  /** Raising channels never lowers the luminance. */
  lemma LuminanceMonotone(c: Color, d: Color)
    requires c.r <= d.r && c.g <= d.g && c.b <= d.b
    ensures RelativeLuminance(c) <= RelativeLuminance(d)
  {
  }

  /** Raising any channel never turns a dark-grey foreground into white. */
  lemma ForegroundMonotone(c: Color, d: Color)
    requires c.r <= d.r && c.g <= d.g && c.b <= d.b
    requires ForegroundColor(c) == DarkGray
    ensures ForegroundColor(d) == DarkGray
  {
    ForegroundByLuminance(c);
    ForegroundByLuminance(d);
    LuminanceMonotone(c, d);
    assert White != DarkGray;
  }
}
