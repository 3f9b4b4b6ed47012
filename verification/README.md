# TikTok video quality analyzer — Dafny model

This project models the analysis core of a tool that scores a short-form
video against a reference video. The core has three parts:

- **Visual analysis** (`VisualAnalyzer`, `visual_analyzer.dfy`). It samples frames at
  evenly spaced seek positions and skips failed reads. It averages per-frame
  brightness, contrast and colorfulness. It also runs two placeholder
  detectors: the product-visibility stub and the yellow brand-colour mask
  over at most the first five frames.
- **Audio analysis** (`AudioAnalyzer`, `audio_analyzer.dfy`). It takes the
  transcription (text plus timed segments) and derives duration, speech
  rate, keyword brand mentions and the clarity score.
- **Scoring** (`Core`, `core.dfy`). It turns the brightness difference between
  subject and reference, and the subject's product flag, into a score in
  [0, 100]. It also builds ordered feedback and the brand-consistency record.

`Text` (`text.dfy`) states the Python string operations the audio part uses:
`str.split()`, single-character `str.count`, `str.lower()` and substring `in`.
`Results` (`results.dfy`) holds `Option` and `Result`, and `Numeric`
(`numeric.dfy`) holds Python's `max`, `min` and `abs` on two reals.

Values are immutable datatypes and pure functions over `real`, `string` and
`seq`. The two loops of the source are methods checked against functional
definitions: frame sampling (`ExtractFrames` against `SampledFrames`) and the
short-circuit brand-colour scan (`DetectBrandColors`). A video is its reported
frame count plus a decoder function. That function gives, for each seek
position, either the stored frame or a failed read.

The model reports a video with no readable frame as an error. The source scores such a video instead, on a NaN brightness. `Core.ScoreAsWritten` and `Core.FeedbackAsWritten` model that path, with NaN as an explicit value (see Findings).

## Model

| member | source | states |
|---|---|---|
| `Text.Split` | analyzer/audio_analyzer.py:29 | every word `str.split()` returns is non-empty and contains no whitespace character |
| `Text.WordCountIsRunStarts` | analyzer/audio_analyzer.py:29 | the word count equals the number of positions where a non-whitespace character follows whitespace or the start of the text, i.e. the number of maximal non-whitespace runs |
| `Text.Count` | analyzer/audio_analyzer.py:30 | the count of a character is at most the text length and is zero exactly when the character does not occur |
| `Text.CountAppend` | analyzer/audio_analyzer.py:30 | counting a character is additive over concatenation, so each occurrence is counted on its own |
| `Text.ContainsIffOccurs` | analyzer/audio_analyzer.py:16 | the left-to-right substring scan succeeds exactly when the needle occurs at some index |
| `AudioAnalyzer.SentenceCountIsTerminators` | analyzer/audio_analyzer.py:30 | the sum of the three `count` calls equals the number of `.`, `!`, `?` characters, each counted independently |
| `AudioAnalyzer.EllipsisCountsThree` | analyzer/audio_analyzer.py:30 | `"..."` contributes three sentence boundaries |
| `AudioAnalyzer.WordsPerSentence` | analyzer/audio_analyzer.py:31 | the capped ratio lies in [0, 10]; multiplied by max(1, sentence count) it never exceeds the word count; below 10 it is the exact quotient (ratio × max(1, sentence count) = word count), and it reaches 10 only when the word count is at least 10 × max(1, sentence count); with no sentences it is min(10, word count); with no words it is 0 |
| `AudioAnalyzer.Clarity` | analyzer/audio_analyzer.py:27-31 | clarity of a transcript lies in [0, 10]; below 10, clarity × max(1, terminator count) equals the `split()` word count exactly, and clarity is 10 only when there are at least ten words per raised terminator count; with no terminators it is min(10, word count); with no words it is 0 |
| `AudioAnalyzer.ClarityCapsRunOnSpeech` | analyzer/audio_analyzer.py:29-31 | twelve words and no terminator give clarity exactly 10 |
| `AudioAnalyzer.BlankTranscriptHasNoClarity` | analyzer/audio_analyzer.py:29-31 | an empty or whitespace-only transcript gives clarity 0 |
| `AudioAnalyzer.BrandMentions` | analyzer/audio_analyzer.py:15-17 | mentions are either `[]` or `["brand"]`, and `["brand"]` exactly when "brand" occurs in the lower-cased transcript |
| `AudioAnalyzer.BrandMentionsIgnoreCase` | analyzer/audio_analyzer.py:16 | transcripts that agree after lower-casing get the same mentions, and lower-casing first changes nothing |
| `AudioAnalyzer.UpperCaseMentionFound` | analyzer/audio_analyzer.py:15-17 | `"This is a BRAND."` yields `["brand"]` |
| `AudioAnalyzer.SpeechRate` | analyzer/audio_analyzer.py:22 | without segments the rate is 0; otherwise rate × max(1, last end) equals the word count, so there is no division by zero; the rate is between 0 and the word count |
| `AudioAnalyzer.ShortClipRateIsWordCount` | analyzer/audio_analyzer.py:22 | when the last segment ends within one second the rate equals the word count (5 words, end 0 gives 5) |
| `AudioAnalyzer.Analyze` | analyzer/audio_analyzer.py:12-25 | the transcript is returned unchanged; duration is the last segment's end or 0; mentions are `[]` or `["brand"]` by the case-insensitive test; rate and clarity are those above and within their bounds |
| `VisualAnalyzer.SeekPositionsNonDecreasing` | analyzer/visual_analyzer.py:22-23 | for a non-negative frame count the seek positions i·(T div n) never decrease |
| `VisualAnalyzer.ShortVideoSeeksToStart` | analyzer/visual_analyzer.py:21-23 | when 0 ≤ T < n every seek position is 0 |
| `VisualAnalyzer.LongVideoSeeksInRange` | analyzer/visual_analyzer.py:22-23 | when T ≥ n ≥ 1 every seek position lies in [0, T) |
| `VisualAnalyzer.ExtractFrames` | analyzer/visual_analyzer.py:17-29 | the loop returns exactly the successful reads at i·(T div n), i = 0..n−1, in sampling order, failed reads dropped; at most n frames, none for n ≤ 0 |
| `VisualAnalyzer.KeptAreSuccessfulReads` | analyzer/visual_analyzer.py:24-26 | every returned frame is the result of a successful read at one of the seek positions |
| `VisualAnalyzer.SuccessfulReadsAreKept` | analyzer/visual_analyzer.py:24-26 | every successful read at a seek position contributes its frame to the result |
| `VisualAnalyzer.KeptAllSucceed` | analyzer/visual_analyzer.py:22-26 | when every read succeeds, frame i is the frame read at position i and there are exactly n of them |
| `VisualAnalyzer.KeptAllFail` | analyzer/visual_analyzer.py:22-26 | when every read fails the frame list is empty |
| `VisualAnalyzer.ShortVideoRepeatsFirstFrame` | analyzer/visual_analyzer.py:21-26 | a video with fewer frames than n yields only copies of the frame at position 0 |
| `VisualAnalyzer.ProductVisibleIffSomeRead` | analyzer/visual_analyzer.py:47-49 | the product stub reports a product exactly when a read at some seek position succeeded |
| `VisualAnalyzer.MaskSumIsScaledCount` | analyzer/visual_analyzer.py:55-58 | the mask sum is 255 times the number of pixels with H in [20,30], S and V in [100,255], bounds inclusive |
| `VisualAnalyzer.ThresholdIsFortyPixels` | analyzer/visual_analyzer.py:57-58 | a mask sum above 10000 is the same as at least 40 matching pixels |
| `VisualAnalyzer.DetectBrandColors` | analyzer/visual_analyzer.py:51-60 | the short-circuit scan returns true exactly when one of the first five frames has a mask sum above 10000; false for an empty list |
| `VisualAnalyzer.MeanWithinBounds` | analyzer/visual_analyzer.py:10-12 | the mean of values that all lie in [lo, hi] lies in [lo, hi] |
| `VisualAnalyzer.MeanBetweenExtremes` | analyzer/visual_analyzer.py:10-12 | the mean of a non-empty list lies between its minimum and maximum |
| `VisualAnalyzer.MeanOfConstant` | analyzer/visual_analyzer.py:10-12 | the mean of equal values is that value |
| `VisualAnalyzer.Summarize` | analyzer/visual_analyzer.py:9-15 | for a non-empty frame list: brightness, contrast and colorfulness lie between the per-frame minimum and maximum, the product is visible, and brand colours are present exactly when one of the first five frames passes the mask threshold |
| `VisualAnalyzer.SummaryBrightnessInGrayRange` | analyzer/visual_analyzer.py:10 | per-frame brightness in [0, 255] keeps the aggregated brightness in [0, 255] |
| `VisualAnalyzer.Analyze` | analyzer/visual_analyzer.py:6-15 | the analysis of the default ten samples fails exactly when no frame was read, and otherwise is the summary of the sampled frames |
| `Core.Score` | analyzer/core.py:26-41 | the score lies in [0, 100]; with the product visible it is 100 − 2·diff for diff ≤ 50 and 0 beyond; without it, 70 − 2·diff for diff ≤ 35 and 0 beyond |
| `Core.ScoreVisibleUnclamped` | analyzer/core.py:26-41 | product visible and diff ≤ 50 give exactly 100 − 2·diff |
| `Core.ScoreHiddenPenalty` | analyzer/core.py:29-41 | without the product the score is max(0, max(0, 100 − 2·diff) − 30) |
| `Core.ScoreFarApartIsZero` | analyzer/core.py:29-41 | diff ≥ 50 gives 0 whether or not the product is visible |
| `Core.DoubleClampIsSingleClamp` | analyzer/core.py:29-41 | the two lower clamps give the same score as one clamp of 100 − 2·diff − (30 if hidden) |
| `Core.ScoreSymmetricInBrightness` | analyzer/core.py:26 | swapping the two brightness values leaves the score unchanged |
| `Core.ScoreMonotone` | analyzer/core.py:26-31 | for the same product flag the score never increases as the brightness difference grows |
| `Core.Feedback` | analyzer/core.py:34-38 | the lighting warning is present exactly when diff > 30, the product warning exactly when the product is not visible; nothing else appears, at most two entries, and lighting comes first |
| `Core.Analyze` | analyzer/core.py:40-48 | the score lies in [0, 100]; visual and audio metrics pass through unchanged; mentions equal the audio mentions and colours-present equals the subject's brand-colour flag |
| `Core.CloseMatchScenario` | analyzer/core.py:26-48 | brightness 120 against 100 with the product visible scores 60 with no feedback |
| `Core.MismatchScenario` | analyzer/core.py:26-48 | brightness 200 against 100 without the product scores 0 with both warnings, lighting first |
| `Core.AnalyzeVideos` | analyzer/core.py:19-49 | the two-video analysis succeeds exactly when both videos yield a frame, and then scores the summaries of both sampled frame lists with the subject's audio metrics; a completed analysis always has the product visible and never carries the product warning |
| `Core.MeanBrightness` | analyzer/visual_analyzer.py:10 | the averaged brightness is NaN exactly when no frame was sampled, and otherwise is the brightness of the summary |
| `Core.RawScore` | analyzer/core.py:26-29 | `100 - abs(a - b) * 2` is NaN exactly when either brightness is NaN, and otherwise 100 − 2·abs(a − b) |
| `Core.MaxZero` | analyzer/core.py:29 | Python's `max(0, x)` is never negative, is 0 for NaN, and is max(0, x) for a number |
| `Core.ScoreAsWritten` | analyzer/core.py:22-41 | the score as written lies in [0, 100]; with frames in both videos it is `Core.Score` of the two summaries; with no frame in either video it is 0 |
| `Core.FeedbackAsWritten` | analyzer/core.py:22-38 | the feedback as written equals `Core.Feedback` of the summaries when both videos yield frames; the lighting warning needs frames in both videos; the product warning appears exactly when the subject yields no frame |
| `Core.UnreadableReferencePassesAllChecks` | analyzer/core.py:22-41 | a readable subject against a reference with no readable frame scores 0 with empty feedback |
| `Core.UnreadableSubjectOnlyMissesProduct` | analyzer/core.py:22-41 | a subject with no readable frame scores 0 with the product warning alone |

## Left out

- Speech-to-text (loading the Whisper model and `transcribe`, analyzer/audio_analyzer.py:7 and 11) is a foreign call. Its output, the text and the segments, is an input `Transcription`.
- Video decoding (`VideoCapture`, seeking, `read`, `release`) is left out. Each video is its reported frame count plus a `decode` function from seek position to an optional frame. Releasing the handle has no counterpart.
- The colour conversions to grayscale and HSV are left out, and so are the per-frame numerics: grayscale mean, grayscale standard deviation and colorfulness (analyzer/visual_analyzer.py:31-45). These need `sqrt` and floating-point statistics. Each frame carries these values and its HSV pixels as given data. Only their aggregation is modelled.
- Floating-point rounding is not modelled. Brightness, scores, rates and clarity are exact `real`s.
- Text.LowerChar: lower-cases ASCII letters only, but Python's `str.lower()` covers all of Unicode. No non-ASCII character lower-cases to one of `b`, `r`, `a`, `n`, `d`, so the "brand" test gives the same answer either way.
- VisualAnalyzer.Analyze: on an empty frame list the model returns `EmptyFrameSet`. The source instead averages an empty list and reports NaN means, a product flag of false and no brand colours. `VisualMetrics` holds exact reals, so this NaN record is not produced; what the scorer makes of it is modelled separately, by `Core.ScoreAsWritten` and `Core.FeedbackAsWritten` (see Findings).
- Core.AnalyzeVideos: stops with the visual error when either video yields no frame, which follows from the `VisualAnalyzer.Analyze` policy. In the source the analysis completes in that case. The brightness difference is NaN, so `max(0, nan)` gives a score of 0 and `nan > 30` is false, so the lighting warning never appears. With only the reference unreadable, the feedback is empty. With the subject unreadable, the feedback is the product warning alone. The product warning and the 30-point penalty can appear only in this case.
- The `.get('brand_mentions', [])` default (analyzer/core.py:45) is not modelled. The audio metrics always carry mentions, so the default never applies.
- The frame count is an unbounded integer. The float-to-int truncation of the reported count is taken as already done. Mask sums are unbounded integers; numpy's wider accumulator does not overflow at frame sizes.
- The presentation layer (gradio_app.py) is not part of this model. It formats to one decimal and substitutes "All checks passed" for empty feedback. So is the temporary-file handling (analyzer/utils.py).

## Findings

| source | as written | input that shows it | evidently intended | confidence | as-written member | corrected member |
|---|---|---|---|---|---|---|
| analyzer/core.py:22-38 | a video with no readable frame is averaged to a NaN brightness and scored anyway: `max(0, nan)` is 0 and `nan > 30` is false | a readable subject against a reference whose frames all fail to read: score 0 with no feedback, which the interface shows as "All checks passed" | an unreadable video is reported as an error rather than scored | medium, not executed | `Core.UnreadableReferencePassesAllChecks` (on `Core.ScoreAsWritten`, `Core.FeedbackAsWritten`) | `Core.AnalyzeVideos` (returns an error exactly when either video yields no frame) |
