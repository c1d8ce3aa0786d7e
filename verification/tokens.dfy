/**
 * The fallback token estimator of the agent routes (`_token_count_fallback`)
 * and the usage computed from the turn's texts when the backend reports none.
 */
module TokenEstimator {
  import opened Common
  import opened PyText
  import opened Normalizer

  /** The class `[一-鿿]` (CJK unified ideographs). */
  predicate IsCjk(c: char)
  {
    '一' <= c <= '鿿'
  }

  /** The class `[A-Za-z0-9_]`. */
  predicate IsWordChar(c: char)
  {
    ('A' <= c <= 'Z') || ('a' <= c <= 'z') || ('0' <= c <= '9') || c == '_'
  }

  /** `len(_CJK_RE.findall(s))`. */
  function CjkCount(s: string): nat
  {
    if s == [] then 0 else (if IsCjk(s[0]) then 1 else 0) + CjkCount(s[1..])
  }

  /**
   * The number of maximal `[A-Za-z0-9_]` runs in `s` (`len(_WORD_RE.findall(s))`)
   * when the character before `s` is a word character exactly if `afterWord`.
   */
  function RunStarts(s: string, afterWord: bool): nat
  {
    if s == [] then 0
    else (if IsWordChar(s[0]) && !afterWord then 1 else 0) + RunStarts(s[1..], IsWordChar(s[0]))
  }

  function WordRuns(s: string): nat
  {
    RunStarts(s, false)
  }

  /** The non-space characters left once every word character is deleted. */
  function RestCount(s: string): nat
  {
    if s == [] then 0
    else (if !IsWordChar(s[0]) && !IsSpace(s[0]) then 1 else 0) + RestCount(s[1..])
  }

  /** The sum the estimator floors at 1: CJK characters, word runs and the rest. */
  function RawCount(s: string): nat
  {
    CjkCount(s) + WordRuns(s) + RestCount(s)
  }

  /** Whether the last character of `s` is a word character (`afterWord` when `s` is empty). */
  function EndsInWord(s: string, afterWord: bool): bool
  {
    if s == [] then afterWord else IsWordChar(s[|s| - 1])
  }

  lemma {:induction false} CjkCountAppend(a: string, b: string)
    ensures CjkCount(a + b) == CjkCount(a) + CjkCount(b)
  {
    if a != [] {
      assert (a + b)[1..] == a[1..] + b;
      CjkCountAppend(a[1..], b);
    } else {
      assert a + b == b;
    }
  }

  lemma {:induction false} RestCountAppend(a: string, b: string)
    ensures RestCount(a + b) == RestCount(a) + RestCount(b)
  {
    if a != [] {
      assert (a + b)[1..] == a[1..] + b;
      RestCountAppend(a[1..], b);
    } else {
      assert a + b == b;
    }
  }

  /** Word runs of a concatenation: those of `a`, then those of `b` started after `a`'s end. */
  lemma {:induction false} RunStartsAppend(a: string, b: string, afterWord: bool)
    ensures RunStarts(a + b, afterWord) == RunStarts(a, afterWord) + RunStarts(b, EndsInWord(a, afterWord))
  {
    if a != [] {
      assert (a + b)[1..] == a[1..] + b;
      RunStartsAppend(a[1..], b, IsWordChar(a[0]));
      assert a[1..] != [] ==> a[1..][|a[1..]| - 1] == a[|a| - 1];
    } else {
      assert a + b == b;
    }
  }

  /** Leading whitespace contributes nothing. */
  lemma {:induction false} LStripKeepsCount(s: string)
    ensures RawCount(LStrip(s)) == RawCount(s)
  {
    if s != [] && IsSpace(s[0]) {
      LStripKeepsCount(s[1..]);
    }
  }

  /** Trailing whitespace contributes nothing. */
  lemma {:induction false} RStripKeepsCount(s: string)
    ensures RawCount(RStrip(s)) == RawCount(s)
  {
    if s != [] && IsSpace(s[|s| - 1]) {
      var init, last := s[..|s| - 1], s[|s| - 1..];
      assert s == init + last;
      RStripKeepsCount(init);
      CjkCountAppend(init, last);
      RestCountAppend(init, last);
      RunStartsAppend(init, last, false);
      assert last[1..] == [];
    }
  }

  /** Stripping does not change the raw count. */
  lemma StripKeepsCount(s: string)
    ensures RawCount(Strip(s)) == RawCount(s)
  {
    LStripKeepsCount(s);
    RStripKeepsCount(LStrip(s));
  }

  /**
   * `_token_count_fallback`: 0 for blank text, otherwise the raw count of the
   * stripped text floored at 1.
   */
  function TokenCountFallback(text: string): (r: nat)
    ensures r == 0 <==> IsBlank(text)
    ensures !IsBlank(text) ==> r >= 1 && r == if RawCount(text) < 1 then 1 else RawCount(text)
  {
    var t := Strip(text);
    StripEmptyIffBlank(text);
    StripKeepsCount(text);
    if t == [] then 0
    else
      var n := RawCount(t);
      if n < 1 then 1 else n
  }

  /** Appending text never lowers the estimate. */
  lemma TokenCountMonotone(a: string, b: string)
    ensures TokenCountFallback(a + b) >= TokenCountFallback(a)
  {
    if !IsBlank(a) {
      var k :| 0 <= k < |a| && !IsSpace(a[k]);
      assert (a + b)[k] == a[k];
      CjkCountAppend(a, b);
      RestCountAppend(a, b);
      RunStartsAppend(a, b, false);
    }
  }

  /** Each CJK character is counted twice: as CJK, and again among the rest. */
  lemma {:induction false} CjkCountedTwice(s: string)
    requires forall i :: 0 <= i < |s| ==> IsCjk(s[i])
    ensures RawCount(s) == 2 * |s|
  {
    if s != [] {
      CjkCountedTwice(s[1..]);
      assert !IsWordChar(s[0]) && !IsSpace(s[0]);
      assert RunStarts(s, false) == RunStarts(s[1..], false);
    }
  }

  /** A one-character ideograph is estimated at two tokens. */
  lemma CjkExample()
    ensures TokenCountFallback("中") == 2
  {
    CjkCountedTwice("中");
  }

  /** `_token_count` without a precise tokenizer: the fallback estimate. */
  function TokenCount(text: string): (r: nat)
    ensures r == TokenCountFallback(text)
  {
    if IsBlank(text) then 0 else TokenCountFallback(text)
  }

  /**
   * `_compute_usage_from_texts`: all three keys, the total being the sum;
   * blank text counts 0 and other text at least 1.
   */
  function ComputeUsageFromTexts(input: string, output: string): (u: Usage)
    ensures u.input.Some? && u.output.Some? && u.total.Some?
    ensures u.total.value == u.input.value + u.output.value
    ensures u.input.value == 0 <==> IsBlank(input)
    ensures u.output.value == 0 <==> IsBlank(output)
    ensures u.input.value >= 0 && u.output.value >= 0
  {
    var i := TokenCount(input);
    var o := TokenCount(output);
    Usage(Some(i), Some(o), Some(i + o))
  }

  /** A run of word characters is one token. */
  lemma {:induction false} WordIsOneRun(s: string, afterWord: bool)
    requires s != [] && forall i :: 0 <= i < |s| ==> IsWordChar(s[i])
    ensures CjkCount(s) == 0 && RestCount(s) == 0
    ensures RunStarts(s, afterWord) == if afterWord then 0 else 1
  {
    assert IsWordChar(s[0]);
    if |s| > 1 {
      WordIsOneRun(s[1..], true);
    }
  }

  /** A single word is estimated at one token. */
  lemma WordIsOneToken(s: string)
    requires s != [] && forall i :: 0 <= i < |s| ==> IsWordChar(s[i])
    ensures TokenCount(s) == 1
  {
    WordIsOneRun(s, false);
    assert !IsSpace(s[0]);
  }
}
