/**
 * The Python string operations the audio analysis relies on, stated over
 * `seq<char>`: `str.split()` with no argument, `str.count` of a single
 * character, `str.lower()` and the `in` substring test.
 */
module Text {

  /** The characters Python's `str.isspace()` accepts, which are exactly the
      separators `str.split()` with no argument splits on. */
  predicate IsSpace(c: char) {
    var n := c as int;
    || 0x09 <= n <= 0x0D
    || 0x1C <= n <= 0x20
    || n == 0x85
    || n == 0xA0
    || n == 0x1680
    || 0x2000 <= n <= 0x200A
    || n == 0x2028
    || n == 0x2029
    || n == 0x202F
    || n == 0x205F
    || n == 0x3000
  }

  /** A word as `str.split()` produces it: non-empty and free of whitespace. */
  predicate IsWord(w: string) {
    |w| > 0 && forall i :: 0 <= i < |w| ==> !IsSpace(w[i])
  }

  /** Length of the leading whitespace run of `s`. */
  function SpaceRun(s: string): (k: nat)
    ensures k <= |s|
    ensures forall i :: 0 <= i < k ==> IsSpace(s[i])
    ensures k == |s| || !IsSpace(s[k])
  {
    if |s| == 0 || !IsSpace(s[0]) then 0 else 1 + SpaceRun(s[1..])
  }

  /** Length of the leading non-whitespace run of `s`. */
  function WordRun(s: string): (k: nat)
    ensures k <= |s|
    ensures forall i :: 0 <= i < k ==> !IsSpace(s[i])
    ensures k == |s| || IsSpace(s[k])
  {
    if |s| == 0 || IsSpace(s[0]) then 0 else 1 + WordRun(s[1..])
  }

  /** Python's `s.split()`: the maximal runs of non-whitespace characters, in order. */
  function Split(s: string): (words: seq<string>)
    ensures forall j :: 0 <= j < |words| ==> IsWord(words[j])
    decreases |s|
  {
    var a := SpaceRun(s);
    if a == |s| then []
    else
      var t := s[a..];
      var b := WordRun(t);
      [t[..b]] + Split(t[b..])
  }

  /** `len(s.split())`. */
  function WordCount(s: string): nat {
    |Split(s)|
  }

  /** Number of positions of `s` that begin a non-whitespace run, where
      `afterSpace` says whether the character before `s[0]` (or the start of
      the text) counts as a separator. This is an independent, position-wise
      definition of the word count. */
  function RunStarts(afterSpace: bool, s: string): nat
    decreases |s|
  {
    if |s| == 0 then 0
    else (if afterSpace && !IsSpace(s[0]) then 1 else 0) + RunStarts(IsSpace(s[0]), s[1..])
  }

  /** Skipping leading whitespace does not change the number of run starts. */
  lemma {:induction false} RunStartsSkipSpaces(s: string, a: nat)
    requires a <= |s|
    requires forall i :: 0 <= i < a ==> IsSpace(s[i])
    ensures RunStarts(true, s) == RunStarts(true, s[a..])
  {
    if a > 0 {
      assert s[1..][a - 1..] == s[a..];
      RunStartsSkipSpaces(s[1..], a - 1);
    }
  }

  /** Inside a word, the rest of the word contributes no run start. */
  lemma {:induction false} RunStartsInsideWord(u: string, m: nat)
    requires m <= |u|
    requires forall i :: 0 <= i < m ==> !IsSpace(u[i])
    requires m == |u| || IsSpace(u[m])
    ensures RunStarts(false, u) == RunStarts(true, u[m..])
  {
    if m > 0 {
      assert u[1..][m - 1..] == u[m..];
      RunStartsInsideWord(u[1..], m - 1);
    }
  }

  /** The word count of `str.split()` is the number of positions where a
      non-whitespace character follows whitespace or the start of the text. */
  lemma {:induction false} WordCountIsRunStarts(s: string)
    ensures WordCount(s) == RunStarts(true, s)
    decreases |s|
  {
    var a := SpaceRun(s);
    RunStartsSkipSpaces(s, a);
    if a < |s| {
      var t := s[a..];
      var b := WordRun(t);
      RunStartsInsideWord(t[1..], b - 1);
      assert t[1..][b - 1..] == t[b..];
      WordCountIsRunStarts(t[b..]);
    }
  }

  /** A text made only of whitespace (including the empty text) has no words. */
  lemma BlankHasNoWords(s: string)
    requires forall i :: 0 <= i < |s| ==> IsSpace(s[i])
    ensures WordCount(s) == 0
  {
    WordCountIsRunStarts(s);
    RunStartsSkipSpaces(s, |s|);
  }

  /** Occurrences of the character `c` in `s`: Python's `s.count(c)` for a one-character needle. */
  function Count(s: string, c: char): (n: nat)
    ensures n <= |s|
    ensures n == 0 <==> c !in s
  {
    if |s| == 0 then 0 else (if s[0] == c then 1 else 0) + Count(s[1..], c)
  }

  /** Counting distributes over concatenation: each occurrence is counted on its own. */
  lemma {:induction false} CountAppend(a: string, b: string, c: char)
    ensures Count(a + b, c) == Count(a, c) + Count(b, c)
  {
    if |a| > 0 {
      assert (a + b)[1..] == a[1..] + b;
      CountAppend(a[1..], b, c);
    } else {
      assert a + b == b;
    }
  }

  /** Python's `str.lower()` on one character, for the ASCII letters. */
  function LowerChar(c: char): char {
    if 'A' <= c <= 'Z' then (c as int + 32) as char else c
  }

  /** Python's `str.lower()`, character by character, for the ASCII letters
      only; other characters are kept. */
  function Lower(s: string): (r: string)
    ensures |r| == |s|
    ensures forall i :: 0 <= i < |s| ==> r[i] == LowerChar(s[i])
  {
    seq(|s|, i requires 0 <= i < |s| => LowerChar(s[i]))
  }

  /** Lower-casing twice is lower-casing once. */
  lemma LowerIdempotent(s: string)
    ensures Lower(Lower(s)) == Lower(s)
  {
  }

  /** `w` occurs in `s` starting at index `i`. */
  predicate OccursAt(s: string, w: string, i: int) {
    0 <= i && i + |w| <= |s| && s[i..i + |w|] == w
  }

  /** Python's `w in s`, scanning `s` from the left. */
  function Contains(s: string, w: string): bool
    decreases |s|
  {
    if |w| <= |s| && s[..|w|] == w then true
    else if |s| == 0 then false
    else Contains(s[1..], w)
  }

  /** The scan finds `w` exactly when `w` occurs somewhere in `s`. */
  lemma {:induction false} ContainsIffOccurs(s: string, w: string)
    ensures Contains(s, w) <==> exists i :: OccursAt(s, w, i)
    decreases |s|
  {
    if |w| <= |s| && s[..|w|] == w {
      assert OccursAt(s, w, 0);
    } else if |s| == 0 {
      forall i | OccursAt(s, w, i) ensures false {
      }
    } else {
      ContainsIffOccurs(s[1..], w);
      if Contains(s[1..], w) {
        var i :| OccursAt(s[1..], w, i);
        assert s[i + 1..i + 1 + |w|] == s[1..][i..i + |w|];
        assert OccursAt(s, w, i + 1);
      } else {
        forall i | OccursAt(s, w, i) ensures false {
          if i > 0 {
            assert s[1..][i - 1..i - 1 + |w|] == s[i..i + |w|];
            assert OccursAt(s[1..], w, i - 1);
          }
        }
      }
    }
  }
}
