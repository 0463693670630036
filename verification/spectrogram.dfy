/**
 The spectrogram update that runs once per analysed window: the image scrolls one
 column to the left, then rows 1..H-1 of the rightmost column are painted from the
 spectrum through a log-skewed row-to-bin map and a level-to-colour map.
 */
module Spectrogram {
  import opened Layout
  import Search

  /**
   The floating-point collaborators, left uninterpreted. Each field stands for one
   library call or float formula; the model only fixes where its result goes.
   */
  datatype Numerics = Numerics(
    // slot `i` of the buffer after `performFrequencyOnlyForwardTransform`, given the buffer before it
    transform: (seq<real>, nat) -> real,
    // `1 - exp(log(y / height) * 0.2)` for row `y` of an image of the given height
    skewProportion: (int, int) -> real,
    // `Colour::fromHSV(hue, saturation, brightness, alpha)` stored into an RGB pixel
    fromHsv: (real, real, real, real) -> Pixel,
    // `binToFrequency(bin, fftSize, sampleRate)`
    binToFrequency: (nat, nat, real) -> real,
    // `freqToMidi(frequency)`
    freqToMidi: real -> int,
    // the host's `getSampleRate()`
    sampleRate: real)

  /** The in-place frequency-only transform: every slot of the buffer is rewritten. */
  function Transform(nums: Numerics, buf: seq<real>): (out: seq<real>)
    ensures |out| == |buf|
    ensures forall i :: 0 <= i < |buf| ==> out[i] == nums.transform(buf, i)
  {
    seq(|buf|, i requires 0 <= i < |buf| => nums.transform(buf, i))
  }

  /** `jlimit(lo, hi, v)`: `v` forced into `[lo, hi]`. */
  function Clamp(lo: int, hi: int, v: int): (r: int)
    requires lo <= hi
    ensures lo <= r <= hi
    ensures lo <= v <= hi ==> r == v
    ensures v < lo ==> r == lo
    ensures hi < v ==> r == hi
  {
    if v < lo then lo else if hi < v then hi else v
  }

  /** A C++ float-to-int cast: the integer part, rounded toward zero. */
  function TruncateToInt(x: real): (n: int)
    ensures 0.0 <= x ==> n as real <= x < n as real + 1.0
    ensures x < 0.0 ==> n as real - 1.0 < x <= n as real
  {
    if 0.0 <= x then x.Floor else -((-x).Floor)
  }

  /** The spectrum bin painted into row `y`, clamped to `[0, N/2]`. */
  function RowBin(nums: Numerics, y: int): (b: nat)
    ensures b <= HalfSize < WorkSize
  {
    var scaled := nums.skewProportion(y, Height) * (FftSize as real) / 2.0;
    Clamp(0, HalfSize as int, TruncateToInt(scaled))
  }

  /**
   `jmap(v, srcMin, srcMax, tgtMin, tgtMax)`: linear remapping of `v` from the source
   range to the target range (float rounding not modelled).
   */
  function Jmap(v: real, srcMin: real, srcMax: real, tgtMin: real, tgtMax: real): real
    requires srcMax != srcMin
  {
    tgtMin + (tgtMax - tgtMin) * (v - srcMin) / (srcMax - srcMin)
  }

  /** The smallest peak the normalisation divides by (the `1e-5f` floor). */
  const PeakFloor: real := 0.00001

  /**
   The largest magnitude among the first N/2 bins, floored at `PeakFloor`: the upper end
   of the range a bin's magnitude is normalised against.
   */
  function PeakLevel(spectrum: seq<real>): (p: real)
    requires |spectrum| == WorkSize
    ensures p >= PeakFloor > 0.0
    ensures forall i :: 0 <= i < HalfSize ==> spectrum[i] <= p
    ensures p == PeakFloor || exists i :: 0 <= i < HalfSize && spectrum[i] == p
  {
    var m := Search.MaxOf(spectrum[..HalfSize]);
    assert forall i :: 0 <= i < HalfSize ==> spectrum[..HalfSize][i] == spectrum[i];
    if m < PeakFloor then PeakFloor else m
  }

  /** The brightness of a magnitude: its position in `[0, peak]` mapped onto `[0, 1]`. */
  function Level(v: real, peak: real): (level: real)
    requires peak > 0.0
    ensures level == v / peak
    ensures 0.0 <= v <= peak ==> 0.0 <= level <= 1.0
    ensures v == 0.0 ==> level == 0.0
    ensures v == peak ==> level == 1.0
  {
    var level := Jmap(v, 0.0, peak, 0.0, 1.0);
    assert level == v / peak;
    level
  }

  /** The colour of row `y`: hue and brightness both follow the level, saturation is full. */
  function RowColour(nums: Numerics, spectrum: seq<real>, peak: real, y: int): (c: Pixel)
    requires |spectrum| == WorkSize && peak > 0.0
    ensures c == nums.fromHsv(spectrum[RowBin(nums, y)] / peak, 1.0, spectrum[RowBin(nums, y)] / peak, 1.0)
    ensures spectrum[RowBin(nums, y)] == 0.0 ==> c == nums.fromHsv(0.0, 1.0, 0.0, 1.0)
    ensures spectrum[RowBin(nums, y)] == peak ==> c == nums.fromHsv(1.0, 1.0, 1.0, 1.0)
  {
    var level := Level(spectrum[RowBin(nums, y)], peak);
    nums.fromHsv(level, 1.0, level, 1.0)
  }

  /** A row's colour reads only bins 0..N/2 of the buffer, the range its clamped index covers. */
  lemma {:induction false} RowColourReadsLowBins(nums: Numerics, a: seq<real>, b: seq<real>, peak: real, y: int)
    requires |a| == WorkSize && |b| == WorkSize && peak > 0.0
    requires a[..HalfSize + 1] == b[..HalfSize + 1]
    ensures RowColour(nums, a, peak, y) == RowColour(nums, b, peak, y)
  {
    var bin := RowBin(nums, y);
    assert a[bin] == a[..HalfSize + 1][bin] == b[..HalfSize + 1][bin] == b[bin];
  }

  /** The column at the right-hand edge, where each new spectrum is painted. */
  function RightColumn(img: Image): (col: seq<Pixel>)
    requires WellFormed(img)
    ensures |col| == Height
  {
    img[Width - 1]
  }

  /**
   `moveImageSection(0, 0, 1, 0, W - 1, H)`: columns 1..W-1 move one place left, and the
   rightmost column keeps its content until it is painted over.
   */
  function ScrollLeft(img: Image): (out: Image)
    requires WellFormed(img)
    ensures WellFormed(out)
    ensures forall x :: 0 <= x < Width - 1 ==> out[x] == img[x + 1]
    ensures out[Width - 1] == img[Width - 1]
  {
    img[1..] + [img[Width - 1]]
  }

  /** The paint loop from row `y` on: rows `y..H-1` of `column` get their row colour. */
  function PaintRows(nums: Numerics, column: seq<Pixel>, spectrum: seq<real>, peak: real, y: nat): (out: seq<Pixel>)
    requires |column| == Height && |spectrum| == WorkSize && peak > 0.0
    requires y <= Height
    ensures |out| == Height
    ensures forall r :: 0 <= r < y ==> out[r] == column[r]
    ensures forall r :: y <= r < Height ==> out[r] == RowColour(nums, spectrum, peak, r)
    decreases Height - y
  {
    if y == Height then column
    else PaintRows(nums, column[y := RowColour(nums, spectrum, peak, y)], spectrum, peak, y + 1)
  }

  /**
   One spectrogram update for a transformed window: scroll left, then paint rows 1..H-1
   of the rightmost column. Row 0 of that column is never painted.
   */
  function RenderColumn(nums: Numerics, img: Image, spectrum: seq<real>): (out: Image)
    requires WellFormed(img) && |spectrum| == WorkSize
    ensures WellFormed(out)
    ensures forall x :: 0 <= x < Width - 1 ==> out[x] == img[x + 1]
    ensures out[Width - 1][0] == img[Width - 1][0]
    ensures forall y :: 1 <= y < Height ==>
              out[Width - 1][y] == RowColour(nums, spectrum, PeakLevel(spectrum), y)
  {
    var scrolled := ScrollLeft(img);
    var column := PaintRows(nums, scrolled[Width - 1], spectrum, PeakLevel(spectrum), 1);
    scrolled[Width - 1 := column]
  }

  /**
   Magnitudes are non-negative; a row whose bin lies below N/2 then gets a level in
   `[0, 1]`, since the peak is taken over exactly those bins.
   */
  lemma RowLevelInUnitRange(nums: Numerics, spectrum: seq<real>, y: int)
    requires |spectrum| == WorkSize
    requires forall i :: 0 <= i < WorkSize ==> spectrum[i] >= 0.0
    requires RowBin(nums, y) < HalfSize
    ensures 0.0 <= Level(spectrum[RowBin(nums, y)], PeakLevel(spectrum)) <= 1.0
  {
  }

  /**
   A silent spectrum (zero in every bin a row can read) paints a black column, provided
   the colour of level 0 is black; the peak floor keeps the normalisation defined.
   */
  lemma SilenceRendersBlack(nums: Numerics, img: Image, spectrum: seq<real>)
    requires WellFormed(img) && |spectrum| == WorkSize
    requires forall i :: 0 <= i <= HalfSize ==> spectrum[i] == 0.0
    requires nums.fromHsv(0.0, 1.0, 0.0, 1.0) == Black
    ensures forall y :: 1 <= y < Height ==> RightColumn(RenderColumn(nums, img, spectrum))[y] == Black
  {
    var out := RenderColumn(nums, img, spectrum);
    forall y | 1 <= y < Height
      ensures RightColumn(out)[y] == Black
    {
      var b := RowBin(nums, y);
      assert spectrum[b] == 0.0;
    }
  }

  /**
   The new rightmost column depends on the spectrum alone: two images updated with the
   same spectrum agree on rows 1..H-1 of it, whatever they showed before.
   */
  lemma NewColumnIgnoresHistory(nums: Numerics, img1: Image, img2: Image, spectrum: seq<real>)
    requires WellFormed(img1) && WellFormed(img2) && |spectrum| == WorkSize
    ensures forall y :: 1 <= y < Height ==>
              RightColumn(RenderColumn(nums, img1, spectrum))[y] == RightColumn(RenderColumn(nums, img2, spectrum))[y]
  {
  }

  /** Every pixel of row 0 has colour `c`. */
  ghost predicate TopRowIs(img: Image, c: Pixel)
    requires WellFormed(img)
  {
    forall x :: 0 <= x < Width ==> img[x][0] == c
  }

  /** Row 0 is moved by the scroll but never painted, so a uniform top row stays uniform. */
  lemma RenderKeepsTopRow(nums: Numerics, img: Image, spectrum: seq<real>, c: Pixel)
    requires WellFormed(img) && |spectrum| == WorkSize
    requires TopRowIs(img, c)
    ensures TopRowIs(RenderColumn(nums, img, spectrum), c)
  {
  }
}
