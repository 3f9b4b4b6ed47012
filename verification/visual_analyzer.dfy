/**
 * Visual metrics of a video (analyzer/visual_analyzer.py): evenly spaced
 * frame sampling, the product-visibility placeholder, the yellow
 * brand-colour heuristic and the averaging of per-frame values.
 *
 * Decoding is not part of the model. A video is its reported frame count
 * together with a decoder `decode` that, for a seek position, either yields
 * the frame stored there or fails. A frame carries what the analysis reads
 * from it: its grayscale mean and standard deviation, its colorfulness
 * index, and its pixels converted to HSV.
 */
module VisualAnalyzer {
  import opened Results

  /** One pixel in OpenCV's 8-bit HSV representation. */
  datatype Hsv = Hsv(h: int, s: int, v: int)

  datatype Frame = Frame(brightness: real, contrast: real, colorfulness: real, hsv: seq<Hsv>)

  /** A video as the sampler sees it: the frame count the container reports
      and the outcome of reading after a seek to each position. */
  datatype Video = Video(totalFrames: int, decode: int -> Option<Frame>)

  datatype VisualMetrics = VisualMetrics(
    brightness: real,
    contrast: real,
    colorfulness: real,
    productVisible: bool,
    brandColorsPresent: bool)

  /** No frame could be read, so the per-frame means are undefined. */
  datatype VisualError = EmptyFrameSet

  /** Number of frames `analyze` asks the sampler for. */
  const DefaultFrameCount: int := 10

  /** Only this many leading frames are examined for brand colours. */
  const BrandFrameLimit: nat := 5

  /** A frame shows brand colours when its mask sum exceeds this. */
  const MaskThreshold: int := 10000

  /** Mask value of a selected pixel; unselected pixels are 0. */
  const MaskOn: int := 255

  /** Inclusive bounds of the yellow range. */
  const YellowLow: Hsv := Hsv(20, 100, 100)
  const YellowHigh: Hsv := Hsv(30, 255, 255)

  // ---------------------------------------------------------------------
  // Frame sampling

  /** The seek positions `i * (total // n)` for `i` in `range(n)`. Python's
      `//` floors; for the positive divisor used here Dafny's `/` agrees. */
  function SeekPositions(total: int, n: int): (ps: seq<int>)
    ensures |ps| == if n <= 0 then 0 else n
  {
    if n <= 0 then [] else seq(n, i requires 0 <= i < n => i * (total / n))
  }

  lemma StepTimesIndex(i: int, j: int, step: int)
    requires 0 <= i <= j && 0 <= step
    ensures i * step <= j * step
  {
    assert (j - i) * step >= 0;
  }

  /** For a non-negative frame count the positions never go backwards. */
  lemma SeekPositionsNonDecreasing(total: int, n: int)
    requires 0 <= total
    ensures var ps := SeekPositions(total, n);
      forall i, j :: 0 <= i <= j < |ps| ==> ps[i] <= ps[j]
  {
    var ps := SeekPositions(total, n);
    forall i, j | 0 <= i <= j < |ps| ensures ps[i] <= ps[j] {
      StepTimesIndex(i, j, total / n);
    }
  }

  /** A video shorter than the sample count is sampled at position 0 only. */
  lemma ShortVideoSeeksToStart(total: int, n: int)
    requires 0 <= total < n
    ensures var ps := SeekPositions(total, n);
      forall i :: 0 <= i < |ps| ==> ps[i] == 0
  {
  }

  /** A video with at least `n` frames is sampled strictly inside its frame range. */
  lemma LongVideoSeeksInRange(total: int, n: int)
    requires 1 <= n <= total
    ensures var ps := SeekPositions(total, n);
      forall i :: 0 <= i < |ps| ==> 0 <= ps[i] < total
  {
    var ps := SeekPositions(total, n);
    var step := total / n;
    assert 1 <= step;
    assert step * n <= total;
    forall i | 0 <= i < |ps| ensures 0 <= ps[i] < total {
      StepTimesIndex(0, i, step);
      StepTimesIndex(i, n - 1, step);
      assert (n - 1) * step == n * step - step;
    }
  }

  /** The frame list of a read outcome: the frame when the read succeeded. */
  function Outcome(r: Option<Frame>): seq<Frame> {
    match r
    case Some(f) => [f]
    case None => []
  }

  /** The frames of the successful reads at `ps`, in order; failed reads are
      dropped without a retry. */
  function Kept(ps: seq<int>, decode: int -> Option<Frame>): (frames: seq<Frame>)
    ensures |frames| <= |ps|
  {
    if |ps| == 0 then [] else Kept(ps[..|ps| - 1], decode) + Outcome(decode(ps[|ps| - 1]))
  }

  /** The frames `_extract_frames(video, n)` returns. */
  function SampledFrames(video: Video, n: int): seq<Frame> {
    Kept(SeekPositions(video.totalFrames, n), video.decode)
  }

  /** `_extract_frames`: seek to each sampling position in turn, keep the
      frame when the read succeeds and move on when it does not. */
  method ExtractFrames(video: Video, n: int) returns (frames: seq<Frame>)
    ensures frames == SampledFrames(video, n)
    ensures n <= 0 ==> frames == []
    ensures |frames| <= (if n <= 0 then 0 else n)
  {
    ghost var ps := SeekPositions(video.totalFrames, n);
    frames := [];
    var i := 0;
    while i < n
      invariant 0 <= i <= |ps|
      invariant frames == Kept(ps[..i], video.decode)
    {
      var position := i * (video.totalFrames / n);
      assert ps[..i + 1][..i] == ps[..i];
      var read := video.decode(position);
      if read.Some? {
        frames := frames + [read.value];
      }
      i := i + 1;
    }
    assert ps[..i] == ps;
  }

  /** Every kept frame comes from a successful read at one of the positions. */
  lemma {:induction false} KeptAreSuccessfulReads(ps: seq<int>, decode: int -> Option<Frame>)
    ensures forall f :: f in Kept(ps, decode) ==> exists i :: 0 <= i < |ps| && decode(ps[i]) == Some(f)
  {
    if |ps| > 0 {
      var init := ps[..|ps| - 1];
      KeptAreSuccessfulReads(init, decode);
      forall f | f in Kept(ps, decode) ensures exists i :: 0 <= i < |ps| && decode(ps[i]) == Some(f) {
        if f in Kept(init, decode) {
          var i :| 0 <= i < |init| && decode(init[i]) == Some(f);
          assert ps[i] == init[i];
        } else {
          assert decode(ps[|ps| - 1]) == Some(f);
        }
      }
    }
  }

  /** Every successful read at one of the positions is kept. */
  lemma {:induction false} SuccessfulReadsAreKept(ps: seq<int>, decode: int -> Option<Frame>, i: int)
    requires 0 <= i < |ps| && decode(ps[i]).Some?
    ensures decode(ps[i]).value in Kept(ps, decode)
  {
    var init := ps[..|ps| - 1];
    if i < |ps| - 1 {
      assert init[i] == ps[i];
      SuccessfulReadsAreKept(init, decode, i);
    }
  }

  /** When every read succeeds, the result is the frame at every position, in order. */
  lemma {:induction false} KeptAllSucceed(ps: seq<int>, decode: int -> Option<Frame>)
    requires forall i :: 0 <= i < |ps| ==> decode(ps[i]).Some?
    ensures |Kept(ps, decode)| == |ps|
    ensures forall i :: 0 <= i < |ps| ==> Kept(ps, decode)[i] == decode(ps[i]).value
  {
    if |ps| > 0 {
      var init := ps[..|ps| - 1];
      KeptAllSucceed(init, decode);
    }
  }

  /** When every read fails, nothing is returned. */
  lemma {:induction false} KeptAllFail(ps: seq<int>, decode: int -> Option<Frame>)
    requires forall i :: 0 <= i < |ps| ==> decode(ps[i]).None?
    ensures Kept(ps, decode) == []
  {
    if |ps| > 0 {
      KeptAllFail(ps[..|ps| - 1], decode);
    }
  }

  /** Some frame is returned exactly when some read succeeds. */
  lemma {:induction false} KeptNonEmptyIffSomeRead(ps: seq<int>, decode: int -> Option<Frame>)
    ensures |Kept(ps, decode)| > 0 <==> exists i :: 0 <= i < |ps| && decode(ps[i]).Some?
  {
    if |ps| > 0 {
      var init := ps[..|ps| - 1];
      KeptNonEmptyIffSomeRead(init, decode);
      if exists i :: 0 <= i < |init| && decode(init[i]).Some? {
        var i :| 0 <= i < |init| && decode(init[i]).Some?;
        assert ps[i] == init[i];
      }
      if exists i :: 0 <= i < |ps| && decode(ps[i]).Some? {
        var i :| 0 <= i < |ps| && decode(ps[i]).Some?;
        if i < |init| {
          assert init[i] == ps[i];
        }
      }
    }
  }

  /** A video shorter than the sample count yields copies of its first frame only. */
  lemma ShortVideoRepeatsFirstFrame(video: Video, n: int)
    requires 0 <= video.totalFrames < n
    ensures forall f :: f in SampledFrames(video, n) ==> video.decode(0) == Some(f)
  {
    var ps := SeekPositions(video.totalFrames, n);
    KeptAreSuccessfulReads(ps, video.decode);
    ShortVideoSeeksToStart(video.totalFrames, n);
    forall f | f in Kept(ps, video.decode) ensures video.decode(0) == Some(f) {
      var i :| 0 <= i < |ps| && video.decode(ps[i]) == Some(f);
      assert ps[i] == 0;
    }
  }

  // ---------------------------------------------------------------------
  // Product visibility

  /** `_detect_products`: a placeholder that reports a product whenever any
      frame was sampled. */
  function DetectProducts(frames: seq<Frame>): bool {
    |frames| > 0
  }

  /** The placeholder reports a product exactly when a read at some sampling
      position succeeded. */
  lemma ProductVisibleIffSomeRead(video: Video, n: int)
    ensures var ps := SeekPositions(video.totalFrames, n);
      DetectProducts(SampledFrames(video, n)) <==> exists i :: 0 <= i < |ps| && video.decode(ps[i]).Some?
  {
    KeptNonEmptyIffSomeRead(SeekPositions(video.totalFrames, n), video.decode);
  }

  // ---------------------------------------------------------------------
  // Brand colours

  /** `cv2.inRange` for one pixel: every channel within its inclusive bounds. */
  predicate InYellowRange(p: Hsv) {
    && YellowLow.h <= p.h <= YellowHigh.h
    && YellowLow.s <= p.s <= YellowHigh.s
    && YellowLow.v <= p.v <= YellowHigh.v
  }

  /** `cv2.inRange` for a frame: 255 for a selected pixel, 0 otherwise. */
  function Mask(px: seq<Hsv>): (m: seq<int>)
    ensures |m| == |px|
  {
    seq(|px|, i requires 0 <= i < |px| => if InYellowRange(px[i]) then MaskOn else 0)
  }

  /** `np.sum`. */
  function Sum(xs: seq<int>): int {
    if |xs| == 0 then 0 else xs[0] + Sum(xs[1..])
  }

  /** Number of pixels in the yellow range. */
  function MatchCount(px: seq<Hsv>): nat {
    if |px| == 0 then 0 else (if InYellowRange(px[0]) then 1 else 0) + MatchCount(px[1..])
  }

  /** The mask sum is 255 times the number of selected pixels. */
  lemma {:induction false} MaskSumIsScaledCount(px: seq<Hsv>)
    ensures Sum(Mask(px)) == MaskOn * MatchCount(px)
  {
    if |px| > 0 {
      assert Mask(px)[1..] == Mask(px[1..]);
      MaskSumIsScaledCount(px[1..]);
    }
  }

  /** A frame passes the mask-sum threshold exactly when it has at least 40
      yellow pixels. */
  lemma ThresholdIsFortyPixels(px: seq<Hsv>)
    ensures Sum(Mask(px)) > MaskThreshold <==> MatchCount(px) >= 40
  {
    MaskSumIsScaledCount(px);
  }

  /** One frame shows brand colours. */
  predicate BrandFrame(f: Frame) {
    Sum(Mask(f.hsv)) > MaskThreshold
  }

  /** Some frame among the first five shows brand colours. */
  predicate BrandColorsPresent(frames: seq<Frame>) {
    exists i :: 0 <= i < |frames| && i < BrandFrameLimit && BrandFrame(frames[i])
  }

  /** `_detect_brand_colors`: scan `frames[:5]` and stop at the first frame
      whose mask sum exceeds the threshold. */
  method DetectBrandColors(frames: seq<Frame>) returns (present: bool)
    ensures present <==> BrandColorsPresent(frames)
  {
    var examined := if |frames| < BrandFrameLimit then |frames| else BrandFrameLimit;
    var i := 0;
    while i < examined
      invariant 0 <= i <= examined
      invariant forall j :: 0 <= j < i ==> !BrandFrame(frames[j])
    {
      if Sum(Mask(frames[i].hsv)) > MaskThreshold {
        return true;
      }
      i := i + 1;
    }
    return false;
  }

  // ---------------------------------------------------------------------
  // Aggregation

  function RealSum(xs: seq<real>): real {
    if |xs| == 0 then 0.0 else xs[0] + RealSum(xs[1..])
  }

  /** `np.mean` of a non-empty list. */
  function Mean(xs: seq<real>): real
    requires |xs| > 0
  {
    RealSum(xs) / (|xs| as real)
  }

  /** Bounds on every element bound the sum. */
  lemma {:induction false} RealSumBounds(xs: seq<real>, lo: real, hi: real)
    requires forall i :: 0 <= i < |xs| ==> lo <= xs[i] <= hi
    ensures (|xs| as real) * lo <= RealSum(xs) <= (|xs| as real) * hi
  {
    if |xs| > 0 {
      RealSumBounds(xs[1..], lo, hi);
    }
  }

  /** The mean of values that lie in `[lo, hi]` lies in `[lo, hi]`. */
  lemma MeanWithinBounds(xs: seq<real>, lo: real, hi: real)
    requires |xs| > 0
    requires forall i :: 0 <= i < |xs| ==> lo <= xs[i] <= hi
    ensures lo <= Mean(xs) <= hi
  {
    RealSumBounds(xs, lo, hi);
    var n := |xs| as real;
    var m := Mean(xs);
    assert m * n == RealSum(xs);
    assert (m - lo) * n >= 0.0;
    assert (hi - m) * n >= 0.0;
  }

  function Min(xs: seq<real>): (m: real)
    requires |xs| > 0
    ensures m in xs
    ensures forall i :: 0 <= i < |xs| ==> m <= xs[i]
  {
    if |xs| == 1 then xs[0]
    else
      var rest := Min(xs[1..]);
      if xs[0] <= rest then xs[0] else rest
  }

  function Max(xs: seq<real>): (m: real)
    requires |xs| > 0
    ensures m in xs
    ensures forall i :: 0 <= i < |xs| ==> xs[i] <= m
  {
    if |xs| == 1 then xs[0]
    else
      var rest := Max(xs[1..]);
      if rest <= xs[0] then xs[0] else rest
  }

  /** The mean lies between the smallest and the largest value. */
  lemma MeanBetweenExtremes(xs: seq<real>)
    requires |xs| > 0
    ensures Min(xs) <= Mean(xs) <= Max(xs)
  {
    MeanWithinBounds(xs, Min(xs), Max(xs));
  }

  /** The mean of equal values is that value. */
  lemma MeanOfConstant(xs: seq<real>, c: real)
    requires |xs| > 0
    requires forall i :: 0 <= i < |xs| ==> xs[i] == c
    ensures Mean(xs) == c
  {
    MeanWithinBounds(xs, c, c);
  }

  function Brightnesses(frames: seq<Frame>): seq<real> {
    seq(|frames|, i requires 0 <= i < |frames| => frames[i].brightness)
  }

  function Contrasts(frames: seq<Frame>): seq<real> {
    seq(|frames|, i requires 0 <= i < |frames| => frames[i].contrast)
  }

  function Colorfulnesses(frames: seq<Frame>): seq<real> {
    seq(|frames|, i requires 0 <= i < |frames| => frames[i].colorfulness)
  }

  /** The metric record `analyze` builds from a non-empty frame list. */
  function Summarize(frames: seq<Frame>): (m: VisualMetrics)
    requires |frames| > 0
    ensures m.productVisible
    ensures Min(Brightnesses(frames)) <= m.brightness <= Max(Brightnesses(frames))
    ensures Min(Contrasts(frames)) <= m.contrast <= Max(Contrasts(frames))
    ensures Min(Colorfulnesses(frames)) <= m.colorfulness <= Max(Colorfulnesses(frames))
    ensures m.brandColorsPresent <==> BrandColorsPresent(frames)
  {
    MeanBetweenExtremes(Brightnesses(frames));
    MeanBetweenExtremes(Contrasts(frames));
    MeanBetweenExtremes(Colorfulnesses(frames));
    VisualMetrics(
      brightness := Mean(Brightnesses(frames)),
      contrast := Mean(Contrasts(frames)),
      colorfulness := Mean(Colorfulnesses(frames)),
      productVisible := DetectProducts(frames),
      brandColorsPresent := BrandColorsPresent(frames))
  }

  /** Per-frame brightness within the grayscale range keeps the mean within it. */
  lemma SummaryBrightnessInGrayRange(frames: seq<Frame>)
    requires |frames| > 0
    requires forall i :: 0 <= i < |frames| ==> 0.0 <= frames[i].brightness <= 255.0
    ensures 0.0 <= Summarize(frames).brightness <= 255.0
  {
    MeanWithinBounds(Brightnesses(frames), 0.0, 255.0);
  }

  /** `VisualAnalyzer.analyze`: sample the default number of frames and
      summarize them; with no frame sampled the means are undefined and the
      analysis reports `EmptyFrameSet`. */
  method Analyze(video: Video) returns (r: Result<VisualMetrics, VisualError>)
    ensures r.Err? <==> SampledFrames(video, DefaultFrameCount) == []
    ensures r.Ok? ==> r.value == Summarize(SampledFrames(video, DefaultFrameCount))
  {
    var frames := ExtractFrames(video, DefaultFrameCount);
    if |frames| == 0 {
      return Err(EmptyFrameSet);
    }
    var present := DetectBrandColors(frames);
    r := Ok(VisualMetrics(
      brightness := Mean(Brightnesses(frames)),
      contrast := Mean(Contrasts(frames)),
      colorfulness := Mean(Colorfulnesses(frames)),
      productVisible := DetectProducts(frames),
      brandColorsPresent := present));
  }
}
