/**
 * Audio metrics derived from a transcription of a video's soundtrack
 * (analyzer/audio_analyzer.py). The speech-to-text call itself is not part
 * of the model: its output, the transcript text and the timed segments,
 * is the input here.
 */
module AudioAnalyzer {
  import opened Text
  import opened Numeric

  /** One timed stretch of speech, in seconds from the start of the video. */
  datatype Segment = Segment(start: real, end: real)

  /** What the transcription capability returns for one video. */
  datatype Transcription = Transcription(text: string, segments: seq<Segment>)

  /** The audio half of an analysis. */
  datatype AudioMetrics = AudioMetrics(
    transcript: string,
    duration: real,
    speechRate: real,
    brandMentions: seq<string>,
    clarityScore: real)

  /** The single keyword the mention detector looks for. */
  const BrandTerm: string := "brand"

  /** Clarity is capped at this value. */
  const ClarityCap: real := 10.0

  /** Dividing a non-negative count by a divisor of at least 1 gives a
      non-negative quotient no larger than the count, and multiplying back
      recovers the count. */
  lemma DivideByAtLeastOne(w: real, d: real)
    requires 0.0 <= w && 1.0 <= d
    ensures 0.0 <= w / d <= w
    ensures (w / d) * d == w
  {
    var q := w / d;
    assert q * d == w;
    assert 0.0 <= q;
    assert q * (d - 1.0) >= 0.0;
  }

  /** Capping a quotient keeps it below the count once multiplied back, and
      below the cap the quotient is exact. */
  lemma CappedQuotient(w: real, d: real)
    requires 0.0 <= w && 1.0 <= d
    ensures 0.0 <= MinReal(ClarityCap, w / d) <= ClarityCap
    ensures MinReal(ClarityCap, w / d) * d <= w
    ensures MinReal(ClarityCap, w / d) < ClarityCap ==> MinReal(ClarityCap, w / d) * d == w
    ensures MinReal(ClarityCap, w / d) == ClarityCap ==> ClarityCap * d <= w
    ensures d == 1.0 ==> MinReal(ClarityCap, w / d) == MinReal(ClarityCap, w)
    ensures w == 0.0 ==> MinReal(ClarityCap, w / d) == 0.0
  {
    DivideByAtLeastOne(w, d);
    var q := w / d;
    var c := MinReal(ClarityCap, q);
    assert (q - c) * d >= 0.0;
  }

  /** The characters counted as sentence boundaries. */
  predicate IsTerminator(c: char) {
    c == '.' || c == '!' || c == '?'
  }

  /** `text.count('.') + text.count('!') + text.count('?')`. */
  function SentenceCount(text: string): nat {
    Count(text, '.') + Count(text, '!') + Count(text, '?')
  }

  /** Number of terminator characters in `text`, each one counted once. */
  function Terminators(text: string): nat {
    if |text| == 0 then 0 else (if IsTerminator(text[0]) then 1 else 0) + Terminators(text[1..])
  }

  /** The three separate counts add up to one count per terminator character,
      so a run such as "..." contributes one per character. */
  lemma {:induction false} SentenceCountIsTerminators(text: string)
    ensures SentenceCount(text) == Terminators(text)
  {
    if |text| > 0 {
      SentenceCountIsTerminators(text[1..]);
    }
  }

  /** Three full stops in a row count as three sentences. */
  lemma EllipsisCountsThree()
    ensures SentenceCount("...") == 3
  {
    SentenceCountIsTerminators("...");
    assert "..."[1..] == "..";
    assert ".."[1..] == ".";
    assert "."[1..] == "";
  }

  /** Words per sentence boundary, the boundary count raised to at least 1,
      capped at 10. */
  function WordsPerSentence(words: nat, sentences: nat): (c: real)
    ensures 0.0 <= c <= ClarityCap
    ensures c * MaxReal(1.0, sentences as real) <= words as real
    ensures c < ClarityCap ==> c * MaxReal(1.0, sentences as real) == words as real
    ensures c == ClarityCap ==> ClarityCap * MaxReal(1.0, sentences as real) <= words as real
    ensures sentences == 0 ==> c == MinReal(ClarityCap, words as real)
    ensures words == 0 ==> c == 0.0
  {
    var divisor := MaxReal(1.0, sentences as real);
    CappedQuotient(words as real, divisor);
    MinReal(ClarityCap, words as real / divisor)
  }

  /** Below the cap, `c` times the divisor `d` is exactly the count `w`; at
      the cap, `w` reaches ten per unit of `d`. */
  predicate ExactBelowCap(c: real, d: real, w: real) {
    && (c < ClarityCap ==> c * d == w)
    && (c == ClarityCap ==> ClarityCap * d <= w)
  }

  /** The capped ratio of `words` over `sentences` is exact below the cap. */
  lemma WordsPerSentenceExact(words: nat, sentences: nat)
    ensures ExactBelowCap(WordsPerSentence(words, sentences), MaxReal(1.0, sentences as real), words as real)
  {
  }

  /** `_calculate_clarity` of a transcript. */
  function Clarity(text: string): (c: real)
    ensures 0.0 <= c <= ClarityCap
    ensures SentenceCount(text) == 0 ==> c == MinReal(ClarityCap, WordCount(text) as real)
    ensures WordCount(text) == 0 ==> c == 0.0
    ensures ExactBelowCap(c, MaxReal(1.0, SentenceCount(text) as real), WordCount(text) as real)
  {
    WordsPerSentenceExact(WordCount(text), SentenceCount(text));
    WordsPerSentence(WordCount(text), SentenceCount(text))
  }

  /** A transcript with no terminators and twelve words is capped at 10. */
  lemma ClarityCapsRunOnSpeech(text: string)
    requires SentenceCount(text) == 0 && WordCount(text) == 12
    ensures Clarity(text) == 10.0
  {
  }

  /** An empty or whitespace-only transcript has clarity 0. */
  lemma BlankTranscriptHasNoClarity(text: string)
    requires forall i :: 0 <= i < |text| ==> IsSpace(text[i])
    ensures Clarity(text) == 0.0
  {
    BlankHasNoWords(text);
  }

  /** The keyword detector: `["brand"]` when the lower-cased transcript
      contains "brand", otherwise no mention. */
  function BrandMentions(text: string): (mentions: seq<string>)
    ensures mentions == [] || mentions == [BrandTerm]
    ensures mentions == [BrandTerm] <==> exists i :: OccursAt(Lower(text), BrandTerm, i)
  {
    ContainsIffOccurs(Lower(text), BrandTerm);
    if Contains(Lower(text), BrandTerm) then [BrandTerm] else []
  }

  /** Detection ignores letter case: texts that agree after lower-casing get
      the same mentions, and lower-casing first changes nothing. */
  lemma BrandMentionsIgnoreCase(a: string, b: string)
    requires Lower(a) == Lower(b)
    ensures BrandMentions(a) == BrandMentions(b)
    ensures BrandMentions(Lower(a)) == BrandMentions(a)
  {
    LowerIdempotent(a);
  }

  /** An upper-case mention inside a sentence is found. */
  lemma UpperCaseMentionFound()
    ensures BrandMentions("This is a BRAND.") == [BrandTerm]
  {
    var low := Lower("This is a BRAND.");
    assert low[10..15] == BrandTerm;
    assert OccursAt(low, BrandTerm, 10);
  }

  /** End time of the last segment, or 0 without segments. */
  function Duration(segments: seq<Segment>): real {
    if |segments| > 0 then segments[|segments| - 1].end else 0.0
  }

  /** Words per second over the last segment's end, the divisor raised to at
      least 1; 0 without segments. */
  function SpeechRate(text: string, segments: seq<Segment>): (rate: real)
    ensures |segments| == 0 ==> rate == 0.0
    ensures |segments| > 0 ==> rate * MaxReal(1.0, Duration(segments)) == WordCount(text) as real
    ensures 0.0 <= rate <= WordCount(text) as real
  {
    if |segments| > 0 then
      var divisor := MaxReal(1.0, segments[|segments| - 1].end);
      DivideByAtLeastOne(WordCount(text) as real, divisor);
      WordCount(text) as real / divisor
    else 0.0
  }

  /** With the last segment ending within the first second, the rate is the word count. */
  lemma ShortClipRateIsWordCount(text: string, segments: seq<Segment>)
    requires |segments| > 0 && segments[|segments| - 1].end <= 1.0
    ensures SpeechRate(text, segments) == WordCount(text) as real
  {
  }

  /** `AudioAnalyzer.analyze` after transcription. */
  function Analyze(t: Transcription): (m: AudioMetrics)
    ensures m.transcript == t.text
    ensures m.duration == (if |t.segments| > 0 then t.segments[|t.segments| - 1].end else 0.0)
    ensures m.speechRate == SpeechRate(t.text, t.segments)
    ensures 0.0 <= m.speechRate <= WordCount(t.text) as real
    ensures m.brandMentions == [] || m.brandMentions == [BrandTerm]
    ensures m.brandMentions == [BrandTerm] <==> exists i :: OccursAt(Lower(t.text), BrandTerm, i)
    ensures m.clarityScore == Clarity(t.text)
  {
    AudioMetrics(
      transcript := t.text,
      duration := Duration(t.segments),
      speechRate := SpeechRate(t.text, t.segments),
      brandMentions := BrandMentions(t.text),
      clarityScore := Clarity(t.text))
  }
}
