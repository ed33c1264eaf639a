/** ensurePaletteTransparent: a palette that is sure to hold color.Transparent. */
module Palettes {
  import opened Geometry
  import opened Images

  /** The largest number of entries a GIF palette index can reach. */
  const MaxEntries := 256

  /**
   * The palette ensurePaletteTransparent returns: the input itself when it already
   * holds color.Transparent, otherwise its first 255 entries (all of them if there
   * are fewer) followed by color.Transparent.
   */
  function WithTransparent(palette: seq<Color>): (r: seq<Color>)
    ensures Transparent in r
    ensures Transparent in palette ==> r == palette
    ensures Transparent !in palette ==> |r| == Min(|palette|, MaxEntries - 1) + 1
    ensures Transparent !in palette ==> r[|r| - 1] == Transparent
    ensures |palette| <= MaxEntries - 1 ==> palette <= r
    ensures var keep := Min(|palette|, MaxEntries - 1); r[..keep] == palette[..keep]
  {
    if Transparent in palette then palette
    else (if |palette| > MaxEntries - 1 then palette[..MaxEntries - 1] else palette) + [Transparent]
  }

  /** ensurePaletteTransparent: scan for color.Transparent, else truncate and append it. */
  method EnsurePaletteTransparent(palette: seq<Color>) returns (r: seq<Color>)
    ensures r == WithTransparent(palette)
  {
    var i := 0;
    while i < |palette|
      invariant 0 <= i <= |palette|
      invariant Transparent !in palette[..i]
    {
      if palette[i] == Transparent {
        return palette;
      }
      i := i + 1;
    }
    assert palette[..i] == palette;
    r := palette;
    if |r| > MaxEntries - 1 {
      r := r[..MaxEntries - 1];
    }
    r := r + [Transparent];
  }

  /** A palette that fits a GIF still fits one afterwards. */
  lemma WithTransparentFits(palette: seq<Color>)
    requires |palette| <= MaxEntries
    ensures |WithTransparent(palette)| <= MaxEntries
  {
  }

  /** Applying the function twice is the same as applying it once. */
  lemma WithTransparentIdempotent(palette: seq<Color>)
    ensures WithTransparent(WithTransparent(palette)) == WithTransparent(palette)
  {
  }
}
