/**
 * The scorer (analyzer/core.py): compares a subject video's visual metrics
 * with a reference video's, and folds in the subject's audio metrics, to
 * produce a score in [0, 100], feedback and a brand-consistency record.
 */
module Core {
  import opened Results
  import opened Numeric
  import opened VisualAnalyzer
  import opened AudioAnalyzer

  /** How consistently the subject presents the brand. */
  datatype BrandConsistency = BrandConsistency(mentions: seq<string>, colorsPresent: bool)

  /** The outcome of one analysis. */
  datatype AnalysisResult = AnalysisResult(
    score: real,
    visualMetrics: VisualMetrics,
    audioMetrics: AudioMetrics,
    brandConsistency: BrandConsistency,
    feedback: seq<string>)

  const LightingWarning: string := "\U{26A0}\U{FE0F} Lighting differs significantly from reference"
  const ProductWarning: string := "\U{274C} Product not clearly visible"

  /** Score lost per unit of brightness difference. */
  const BrightnessWeight: real := 2.0

  /** Score lost when the product is not visible. */
  const ProductPenalty: real := 30.0

  /** Brightness differences above this draw the lighting warning. */
  const LightingTolerance: real := 30.0

  /** `abs(subject['brightness'] - reference['brightness'])`. */
  function BrightnessDiff(subject: VisualMetrics, reference: VisualMetrics): real {
    Abs(subject.brightness - reference.brightness)
  }

  /** The score of `TikTokAnalyzer.analyze`: a lower clamp of
      `100 - 2 * diff`, then the visibility penalty, then a clamp to [0, 100]. */
  function Score(subject: VisualMetrics, reference: VisualMetrics): (score: real)
    ensures 0.0 <= score <= 100.0
    ensures var d := BrightnessDiff(subject, reference);
      subject.productVisible ==> score == (if d <= 50.0 then 100.0 - 2.0 * d else 0.0)
    ensures var d := BrightnessDiff(subject, reference);
      !subject.productVisible ==> score == (if d <= 35.0 then 70.0 - 2.0 * d else 0.0)
  {
    var diff := BrightnessDiff(subject, reference);
    var raw := MaxReal(0.0, 100.0 - diff * BrightnessWeight);
    var penalized := if !subject.productVisible then raw - ProductPenalty else raw;
    MaxReal(0.0, MinReal(100.0, penalized))
  }

  /** With the product visible and a difference of at most 50, no clamp
      engages: the score is exactly 100 - 2 * diff. */
  lemma ScoreVisibleUnclamped(subject: VisualMetrics, reference: VisualMetrics)
    requires subject.productVisible && BrightnessDiff(subject, reference) <= 50.0
    ensures Score(subject, reference) == 100.0 - 2.0 * BrightnessDiff(subject, reference)
  {
  }

  /** Without the product the penalty is taken from the already clamped
      score and the result clamped again. */
  lemma ScoreHiddenPenalty(subject: VisualMetrics, reference: VisualMetrics)
    requires !subject.productVisible
    ensures var d := BrightnessDiff(subject, reference);
      Score(subject, reference) == MaxReal(0.0, MaxReal(0.0, 100.0 - 2.0 * d) - 30.0)
  {
  }

  /** A difference of 50 or more scores 0 whether or not the product is visible. */
  lemma ScoreFarApartIsZero(subject: VisualMetrics, reference: VisualMetrics)
    requires BrightnessDiff(subject, reference) >= 50.0
    ensures Score(subject, reference) == 0.0
  {
  }

  /** The two lower clamps act as one: the score equals a single clamp of
      `100 - 2 * diff`, less 30 when the product is not visible. */
  lemma DoubleClampIsSingleClamp(subject: VisualMetrics, reference: VisualMetrics)
    ensures var d := BrightnessDiff(subject, reference);
      Score(subject, reference)
      == MaxReal(0.0, MinReal(100.0, 100.0 - 2.0 * d - (if subject.productVisible then 0.0 else 30.0)))
  {
  }

  /** Swapping the subject's and the reference's brightness does not change the score. */
  lemma ScoreSymmetricInBrightness(subject: VisualMetrics, reference: VisualMetrics)
    ensures Score(subject, reference)
      == Score(subject.(brightness := reference.brightness), reference.(brightness := subject.brightness))
  {
  }

  /** The score depends only on the brightness difference and the subject's
      product flag, and never increases as the difference grows. */
  lemma ScoreMonotone(s1: VisualMetrics, r1: VisualMetrics, s2: VisualMetrics, r2: VisualMetrics)
    requires s1.productVisible == s2.productVisible
    requires BrightnessDiff(s1, r1) <= BrightnessDiff(s2, r2)
    ensures Score(s1, r1) >= Score(s2, r2)
  {
  }

  /** Feedback in its fixed order: the lighting warning, then the product warning. */
  function Feedback(subject: VisualMetrics, reference: VisualMetrics): (fb: seq<string>)
    ensures LightingWarning in fb <==> BrightnessDiff(subject, reference) > LightingTolerance
    ensures ProductWarning in fb <==> !subject.productVisible
    ensures forall m :: m in fb ==> m == LightingWarning || m == ProductWarning
    ensures |fb| <= 2
    ensures |fb| == 2 ==> fb == [LightingWarning, ProductWarning]
  {
    var lighting := if BrightnessDiff(subject, reference) > LightingTolerance then [LightingWarning] else [];
    var product := if !subject.productVisible then [ProductWarning] else [];
    lighting + product
  }

  /** `TikTokAnalyzer.analyze` once both videos' visual metrics and the
      subject's audio metrics are known. */
  function Analyze(subject: VisualMetrics, reference: VisualMetrics, audio: AudioMetrics): (r: AnalysisResult)
    ensures 0.0 <= r.score <= 100.0
    ensures r.score == Score(subject, reference)
    ensures r.feedback == Feedback(subject, reference)
    ensures r.visualMetrics == subject
    ensures r.audioMetrics == audio
    ensures r.brandConsistency.mentions == audio.brandMentions
    ensures r.brandConsistency.colorsPresent == subject.brandColorsPresent
  {
    AnalysisResult(
      score := Score(subject, reference),
      visualMetrics := subject,
      audioMetrics := audio,
      brandConsistency := BrandConsistency(audio.brandMentions, subject.brandColorsPresent),
      feedback := Feedback(subject, reference))
  }

  /** Close brightness with the product visible: 120 against 100 scores 60
      with no feedback. */
  lemma CloseMatchScenario(subject: VisualMetrics, reference: VisualMetrics, audio: AudioMetrics)
    requires subject.brightness == 120.0 && reference.brightness == 100.0 && subject.productVisible
    ensures Analyze(subject, reference, audio).score == 60.0
    ensures Analyze(subject, reference, audio).feedback == []
  {
  }

  /** Far-apart brightness without the product: 200 against 100 scores 0
      with both warnings, lighting first. */
  lemma MismatchScenario(subject: VisualMetrics, reference: VisualMetrics, audio: AudioMetrics)
    requires subject.brightness == 200.0 && reference.brightness == 100.0 && !subject.productVisible
    ensures Analyze(subject, reference, audio).score == 0.0
    ensures Analyze(subject, reference, audio).feedback == [LightingWarning, ProductWarning]
  {
  }

  /** The whole analysis of a subject and a reference video: audio of the
      subject, then visual metrics of the subject and of the reference, then
      the score. An empty frame set in either video stops the analysis.
      Once frames were sampled the product placeholder reports a product, so
      a completed analysis never carries the product warning or its penalty. */
  method AnalyzeVideos(subject: Video, reference: Video, transcription: Transcription)
    returns (r: Result<AnalysisResult, VisualError>)
    ensures r.Ok? <==> SampledFrames(subject, DefaultFrameCount) != [] && SampledFrames(reference, DefaultFrameCount) != []
    ensures r.Ok? ==> r.value == Analyze(
      Summarize(SampledFrames(subject, DefaultFrameCount)),
      Summarize(SampledFrames(reference, DefaultFrameCount)),
      AudioAnalyzer.Analyze(transcription))
    ensures r.Ok? ==> r.value.visualMetrics.productVisible && ProductWarning !in r.value.feedback
  {
    var audio := AudioAnalyzer.Analyze(transcription);
    var visual := VisualAnalyzer.Analyze(subject);
    if visual.Err? {
      return Err(visual.error);
    }
    var ref := VisualAnalyzer.Analyze(reference);
    if ref.Err? {
      return Err(ref.error);
    }
    r := Ok(Analyze(visual.value, ref.value, audio));
  }

  // ---------------------------------------------------------------------
  // The scorer as written, when a video yields no frame

  /** A float as the source computes it: a number, or the NaN that `np.mean`
      gives for an empty list. */
  datatype PyFloat = Num(x: real) | NaN

  /** `np.mean` of the per-frame brightness: NaN for no frames, otherwise the
      brightness `analyze` reports. */
  function MeanBrightness(frames: seq<Frame>): (f: PyFloat)
    ensures f.NaN? <==> frames == []
    ensures f.Num? ==> |frames| > 0 && f.x == Summarize(frames).brightness
  {
    if frames == [] then NaN else Num(Mean(Brightnesses(frames)))
  }

  /** `100 - abs(a - b) * 2` in floating point: NaN as soon as either side is NaN. */
  function RawScore(a: PyFloat, b: PyFloat): (r: PyFloat)
    ensures r.NaN? <==> a.NaN? || b.NaN?
    ensures r.Num? ==> r.x == 100.0 - 2.0 * Abs(a.x - b.x)
  {
    if a.NaN? || b.NaN? then NaN else Num(100.0 - Abs(a.x - b.x) * BrightnessWeight)
  }

  /** Python's `max(0, x)`: the first argument is kept unless `x > 0`, and a
      comparison with NaN is false, so NaN gives 0. */
  function MaxZero(x: PyFloat): (m: real)
    ensures 0.0 <= m
    ensures x.NaN? ==> m == 0.0
    ensures x.Num? ==> m == MaxReal(0.0, x.x)
  {
    if x.Num? && x.x > 0.0 then x.x else 0.0
  }

  /** `abs(a - b) > t`: false when either side is NaN. */
  predicate DiffExceeds(a: PyFloat, b: PyFloat, t: real) {
    a.Num? && b.Num? && Abs(a.x - b.x) > t
  }

  /** The score of `TikTokAnalyzer.analyze` as written, from the sampled frame
      lists of the subject and the reference, an empty list included. */
  function ScoreAsWritten(subjectFrames: seq<Frame>, referenceFrames: seq<Frame>): (score: real)
    ensures 0.0 <= score <= 100.0
    ensures subjectFrames != [] && referenceFrames != [] ==>
      score == Score(Summarize(subjectFrames), Summarize(referenceFrames))
    ensures subjectFrames == [] || referenceFrames == [] ==> score == 0.0
  {
    var raw := MaxZero(RawScore(MeanBrightness(subjectFrames), MeanBrightness(referenceFrames)));
    var penalized := if !DetectProducts(subjectFrames) then raw - ProductPenalty else raw;
    MaxReal(0.0, MinReal(100.0, penalized))
  }

  /** The feedback of `TikTokAnalyzer.analyze` as written, from the sampled
      frame lists, an empty list included. */
  function FeedbackAsWritten(subjectFrames: seq<Frame>, referenceFrames: seq<Frame>): (fb: seq<string>)
    ensures subjectFrames != [] && referenceFrames != [] ==>
      fb == Feedback(Summarize(subjectFrames), Summarize(referenceFrames))
    ensures LightingWarning in fb ==> subjectFrames != [] && referenceFrames != []
    ensures ProductWarning in fb <==> subjectFrames == []
  {
    var s := MeanBrightness(subjectFrames);
    var r := MeanBrightness(referenceFrames);
    var lighting := if DiffExceeds(s, r, LightingTolerance) then [LightingWarning] else [];
    var product := if !DetectProducts(subjectFrames) then [ProductWarning] else [];
    lighting + product
  }

  /** A reference video with no readable frame is not reported: the analysis
      scores 0 and gives no feedback at all, which the interface shows as
      every check passing. */
  lemma UnreadableReferencePassesAllChecks(subjectFrames: seq<Frame>)
    requires subjectFrames != []
    ensures ScoreAsWritten(subjectFrames, []) == 0.0
    ensures FeedbackAsWritten(subjectFrames, []) == []
  {
  }

  /** A subject video with no readable frame scores 0 with the product
      warning alone: the lighting comparison against NaN never fires. */
  lemma UnreadableSubjectOnlyMissesProduct(referenceFrames: seq<Frame>)
    ensures ScoreAsWritten([], referenceFrames) == 0.0
    ensures FeedbackAsWritten([], referenceFrames) == [ProductWarning]
  {
  }
}
