/**
 * The pure helpers of the knowledge store: text cleaning, the overlapping
 * chunker, the embedding-usage reader and the stored-file-name rule.
 */
module Knowledge {
  import opened Common
  import opened PyText
  import opened Values
  import opened Normalizer

  // ---------------------------------------------------------------------------
  // _clean_text

  const Nul: char := '\U{0}'

  /** `s.replace("\x00", " ")`. */
  function ReplaceNul(s: string): (r: string)
    ensures |r| == |s|
    ensures forall i | 0 <= i < |s| :: r[i] == if s[i] == Nul then ' ' else s[i]
    ensures Nul !in r
  {
    if s == [] then [] else ReplaceNul(s[..|s| - 1]) + [if s[|s| - 1] == Nul then ' ' else s[|s| - 1]]
  }

  /** No two adjacent characters of `s` are whitespace. */
  predicate NoDoubleSpace(s: string)
  {
    forall i | 0 <= i < |s| - 1 :: !IsSpace(s[i]) || !IsSpace(s[i + 1])
  }

  /** The characters of `s` that are not whitespace, in order. */
  function NonSpace(s: string): string
  {
    if s == [] then [] else (if IsSpace(s[0]) then [] else [s[0]]) + NonSpace(s[1..])
  }

  /** The number of whitespace characters in `s`. */
  function SpaceCount(s: string): nat
  {
    if s == [] then 0 else (if IsSpace(s[0]) then 1 else 0) + SpaceCount(s[1..])
  }

  /**
   * The number of maximal whitespace runs in `s`, not counting one that
   * continues a run before `s` (`inRun`).
   */
  function SpaceRuns(s: string, inRun: bool): nat
  {
    if s == [] then 0 else (if IsSpace(s[0]) && !inRun then 1 else 0) + SpaceRuns(s[1..], IsSpace(s[0]))
  }

  /**
   * `re.sub(r"\s+", " ", s)` scanning from a position that follows
   * whitespace already replaced (`inRun`) or not: the non-space characters
   * are kept in order, and each maximal whitespace run becomes one space.
   */
  function CollapseFrom(s: string, inRun: bool): (r: string)
    ensures NoDoubleSpace(r)
    ensures inRun && r != [] ==> !IsSpace(r[0])
    ensures forall i | 0 <= i < |r| :: r[i] == ' ' || (r[i] in s && !IsSpace(r[i]))
    ensures NonSpace(r) == NonSpace(s)
    ensures SpaceCount(r) == SpaceRuns(s, inRun)
  {
    if s == [] then []
    else if IsSpace(s[0]) then
      if inRun then CollapseFrom(s[1..], true)
      else
        var r := [' '] + CollapseFrom(s[1..], true);
        assert r[1..] == CollapseFrom(s[1..], true);
        r
    else
      var r := [s[0]] + CollapseFrom(s[1..], false);
      assert r[1..] == CollapseFrom(s[1..], false);
      r
  }

  /** Dropping whitespace distributes over concatenation. */
  lemma {:induction false} NonSpaceAppend(a: string, b: string)
    ensures NonSpace(a + b) == NonSpace(a) + NonSpace(b)
  {
    if a != [] {
      assert (a + b)[1..] == a[1..] + b;
      NonSpaceAppend(a[1..], b);
    } else {
      assert a + b == b;
    }
  }

  /** Whitespace has no non-space characters. */
  lemma {:induction false} NonSpaceOfSpace(a: string)
    requires AllSpace(a)
    ensures NonSpace(a) == []
  {
    if a != [] {
      NonSpaceOfSpace(a[1..]);
    }
  }

  /** Stripping removes whitespace only. */
  lemma StripKeepsNonSpace(c: string)
    ensures NonSpace(Strip(c)) == NonSpace(c)
  {
    StripSlice(c);
    var i, r := |c| - |LStrip(c)|, Strip(c);
    assert c == c[..i] + r + c[i + |r|..];
    NonSpaceAppend(c[..i] + r, c[i + |r|..]);
    NonSpaceAppend(c[..i], r);
    NonSpaceOfSpace(c[..i]);
    NonSpaceOfSpace(c[i + |r|..]);
  }

  /** No NUL, no whitespace but single spaces. */
  predicate Tidy(s: string)
  {
    && Nul !in s
    && (forall i | 0 <= i < |s| :: IsSpace(s[i]) ==> s[i] == ' ')
    && NoDoubleSpace(s)
  }

  /** What `_clean_text` produces: tidy, and no whitespace at either end. */
  predicate IsClean(s: string)
  {
    Tidy(s) && (s == [] || (!IsSpace(s[0]) && !IsSpace(s[|s| - 1])))
  }

  lemma CollapsedIsTidy(text: string)
    ensures Tidy(CollapseFrom(ReplaceNul(text), false))
  {
  }

  lemma TidySlice(s: string, lo: int, hi: int)
    requires Tidy(s) && 0 <= lo <= hi <= |s|
    ensures Tidy(s[lo..hi])
  {
    var w := s[lo..hi];
    assert forall k | 0 <= k < |w| :: w[k] == s[lo + k];
  }

  /**
   * `_clean_text`: NULs become spaces, each whitespace run one space, and the
   * ends are stripped. The result has no NUL, no whitespace other than single
   * spaces between words, and no whitespace at either end.
   */
  function CleanText(text: string): (r: string)
    ensures IsClean(r)
    ensures NonSpace(r) == NonSpace(ReplaceNul(text))
  {
    CollapsedIsTidy(text);
    StripKeepsTidy(CollapseFrom(ReplaceNul(text), false));
    StripKeepsNonSpace(CollapseFrom(ReplaceNul(text), false));
    Strip(CollapseFrom(ReplaceNul(text), false))
  }

  lemma StripKeepsTidy(c: string)
    requires Tidy(c)
    ensures IsClean(Strip(c))
  {
    StripSlice(c);
    var i := |c| - |LStrip(c)|;
    TidySlice(c, i, i + |Strip(c)|);
  }

  /** Scanning text without double or non-` ` whitespace changes nothing. */
  lemma {:induction false} CollapseKeeps(s: string, inRun: bool)
    requires forall i | 0 <= i < |s| :: IsSpace(s[i]) ==> s[i] == ' '
    requires NoDoubleSpace(s)
    requires inRun && s != [] ==> !IsSpace(s[0])
    ensures CollapseFrom(s, inRun) == s
  {
    if s != [] {
      assert forall i | 0 <= i < |s[1..]| :: s[1..][i] == s[i + 1];
      CollapseKeeps(s[1..], IsSpace(s[0]));
    }
  }

  /** Clean text cleans to itself. */
  lemma CleanTextKeepsClean(s: string)
    requires IsClean(s)
    ensures CleanText(s) == s
  {
    assert ReplaceNul(s) == s by {
      forall i | 0 <= i < |s|
        ensures s[i] != Nul
      {
        assert s[i] in s;
      }
    }
    CollapseKeeps(s, false);
    if s != [] {
      assert LStrip(s) == s;
      assert RStrip(s) == s;
    }
  }

  /** Cleaning is idempotent. */
  lemma CleanTextIdempotent(text: string)
    ensures CleanText(CleanText(text)) == CleanText(text)
  {
    CleanTextKeepsClean(CleanText(text));
  }

  /** The length of the run of non-whitespace characters that starts `s`. */
  function WordLen(s: string): (n: nat)
    ensures n <= |s|
    ensures forall k | 0 <= k < n :: !IsSpace(s[k])
    ensures n < |s| ==> IsSpace(s[n])
  {
    if s == [] || IsSpace(s[0]) then 0 else 1 + WordLen(s[1..])
  }

  /** A word of `str.split()`: non-empty, without whitespace. */
  predicate IsWord(w: string)
  {
    w != [] && forall k | 0 <= k < |w| :: !IsSpace(w[k])
  }

  /** `s.split()`: the maximal runs of non-whitespace characters, in order. */
  function Words(s: string): (ws: seq<string>)
    ensures forall k | 0 <= k < |ws| :: IsWord(ws[k])
    decreases |s|
  {
    if s == [] then []
    else if IsSpace(s[0]) then Words(s[1..])
    else
      var n := WordLen(s);
      [s[..n]] + Words(s[n..])
  }

  /** `" ".join(ws)`. */
  function JoinSpace(ws: seq<string>): (r: string)
    ensures |r| >= |ws| - 1
  {
    if ws == [] then []
    else if |ws| == 1 then ws[0]
    else ws[0] + " " + JoinSpace(ws[1..])
  }

  /** Joined words neither start nor end with whitespace. */
  lemma {:induction false} JoinSpaceEnds(ws: seq<string>)
    requires ws != [] && forall k | 0 <= k < |ws| :: IsWord(ws[k])
    ensures var r := JoinSpace(ws); r != [] && !IsSpace(r[0]) && !IsSpace(r[|r| - 1])
  {
    if |ws| > 1 {
      JoinSpaceEnds(ws[1..]);
      var t := JoinSpace(ws[1..]);
      assert IsWord(ws[0]);
      assert JoinSpace(ws)[0] == ws[0][0];
      assert JoinSpace(ws)[|JoinSpace(ws)| - 1] == t[|t| - 1];
    } else {
      assert IsWord(ws[0]);
    }
  }

  /** A character before a word that continues it joins that word. */
  lemma WordsCons(s: string)
    requires |s| >= 2 && !IsSpace(s[0]) && !IsSpace(s[1])
    ensures var w := Words(s[1..]);
      w != [] && Words(s) == [[s[0]] + w[0]] + w[1..]
  {
    var n := WordLen(s);
    assert n == 1 + WordLen(s[1..]);
    assert s[..n] == [s[0]] + s[1..][..n - 1];
    assert s[n..] == s[1..][n - 1..];
  }

  /** A word that ends before whitespace or the end is a word of its own. */
  lemma WordsSingle(s: string)
    requires s != [] && !IsSpace(s[0]) && (|s| == 1 || IsSpace(s[1]))
    ensures Words(s) == [[s[0]]] + Words(s[1..])
  {
    assert WordLen(s) == 1;
    assert s[..1] == [s[0]];
  }

  /** Joining after a longer first word. */
  lemma JoinSpaceCons(c: char, ws: seq<string>)
    requires ws != []
    ensures JoinSpace([[c] + ws[0]] + ws[1..]) == [c] + JoinSpace(ws)
  {
    var v := [[c] + ws[0]] + ws[1..];
    assert v[1..] == ws[1..];
  }

  /** One space when `s` starts with whitespace that does not continue a run. */
  function Lead(s: string, inRun: bool): string
  {
    if s != [] && IsSpace(s[0]) && !inRun then " " else ""
  }

  /** One space when `s` ends with whitespace. */
  function Trail(s: string): string
  {
    if s != [] && IsSpace(s[|s| - 1]) then " " else ""
  }

  /**
   * Collapsing puts exactly one space between consecutive words, and one
   * space for whitespace at either end (at the start only when it does not
   * continue a run); text that is all whitespace collapses to one space at most.
   */
  /** Text whose split is empty is all whitespace. */
  lemma {:induction false} NoWordsAllSpace(s: string)
    requires Words(s) == []
    ensures forall k | 0 <= k < |s| :: IsSpace(s[k])
  {
    if s != [] {
      assert IsSpace(s[0]);
      NoWordsAllSpace(s[1..]);
      assert forall k | 1 <= k < |s| :: s[k] == s[1..][k - 1];
    }
  }

  /** One step of `CollapseFrom` on a leading whitespace character. */
  lemma CollapseSpaceStep(s: string, inRun: bool)
    requires s != [] && IsSpace(s[0])
    ensures CollapseFrom(s, inRun) == Lead(s, inRun) + CollapseFrom(s[1..], true)
  {
  }

  /** One step of `CollapseFrom` on a leading non-whitespace character. */
  lemma CollapseWordStep(s: string, inRun: bool)
    requires s != [] && !IsSpace(s[0])
    ensures CollapseFrom(s, inRun) == [s[0]] + CollapseFrom(s[1..], false)
  {
  }

  lemma {:induction false} CollapseWords(s: string, inRun: bool)
    ensures Words(s) == [] ==> CollapseFrom(s, inRun) == Lead(s, inRun)
    ensures Words(s) != [] ==> CollapseFrom(s, inRun) == Lead(s, inRun) + JoinSpace(Words(s)) + Trail(s)
    decreases |s|, 1
  {
    if s == [] {
    } else if IsSpace(s[0]) {
      CollapseWordsAfterSpace(s, inRun);
    } else {
      CollapseWordsAfterWord(s, inRun);
    }
  }

  /** `CollapseWords` for text that starts with whitespace. */
  lemma {:induction false} CollapseWordsAfterSpace(s: string, inRun: bool)
    requires s != [] && IsSpace(s[0])
    ensures Words(s) == [] ==> CollapseFrom(s, inRun) == Lead(s, inRun)
    ensures Words(s) != [] ==> CollapseFrom(s, inRun) == Lead(s, inRun) + JoinSpace(Words(s)) + Trail(s)
    decreases |s|, 0
  {
    var t := s[1..];
    CollapseWords(t, true);
    CollapseSpaceStep(s, inRun);
    if Words(t) != [] {
      TrailOfTail(s);
      ConcatAssoc(Lead(s, inRun), JoinSpace(Words(t)), Trail(t));
    }
  }

  /** `CollapseWords` for text that starts with a word. */
  lemma {:induction false} CollapseWordsAfterWord(s: string, inRun: bool)
    requires s != [] && !IsSpace(s[0])
    ensures Words(s) != [] && CollapseFrom(s, inRun) == JoinSpace(Words(s)) + Trail(s)
    decreases |s|, 0
  {
    var t := s[1..];
    CollapseWords(t, false);
    CollapseWordStep(s, inRun);
    if |s| == 1 || IsSpace(s[1]) {
      WordsSingle(s);
      if Words(t) == [] {
        CollapseLastWord(s);
      } else {
        CollapseWordEnds(s);
      }
    } else {
      CollapseWordGoesOn(s);
    }
  }

  /** The step of `CollapseWordsAfterWord` for a one-character word and nothing after. */
  lemma CollapseLastWord(s: string)
    requires s != [] && !IsSpace(s[0]) && Words(s[1..]) == [] && Words(s) == [[s[0]]] + Words(s[1..])
    requires CollapseFrom(s[1..], false) == Lead(s[1..], false)
    ensures [s[0]] + CollapseFrom(s[1..], false) == JoinSpace(Words(s)) + Trail(s)
  {
    NoWordsAllSpace(s[1..]);
    assert Trail(s) == Lead(s[1..], false);
    assert Words(s) == [[s[0]]];
  }

  /** The step of `CollapseWordsAfterWord` for a one-character word followed by more words. */
  lemma CollapseWordEnds(s: string)
    requires |s| >= 2 && !IsSpace(s[0]) && IsSpace(s[1])
    requires Words(s) == [[s[0]]] + Words(s[1..]) && Words(s[1..]) != []
    requires CollapseFrom(s[1..], false) == Lead(s[1..], false) + JoinSpace(Words(s[1..])) + Trail(s[1..])
    ensures [s[0]] + CollapseFrom(s[1..], false) == JoinSpace(Words(s)) + Trail(s)
  {
    var t, w := s[1..], Words(s[1..]);
    JoinSpacePrepend([s[0]], w);
    TrailOfTail(s);
    assert Lead(t, false) == " ";
    ConcatAssoc([s[0]], " " + JoinSpace(w), Trail(t));
  }

  /** The step of `CollapseWordsAfterWord` for a word of two characters or more. */
  lemma CollapseWordGoesOn(s: string)
    requires |s| >= 2 && !IsSpace(s[0]) && !IsSpace(s[1])
    requires CollapseFrom(s[1..], false) == Lead(s[1..], false) + JoinSpace(Words(s[1..])) + Trail(s[1..])
    ensures Words(s) != [] && [s[0]] + CollapseFrom(s[1..], false) == JoinSpace(Words(s)) + Trail(s)
  {
    var t := s[1..];
    var j := JoinSpace(Words(t));
    WordsCons(s);
    JoinSpaceCons(s[0], Words(t));
    TrailOfTail(s);
    assert Lead(t, false) + j == j;
    ConcatAssoc([s[0]], j, Trail(t));
  }

  /** Joining one more word in front. */
  lemma JoinSpacePrepend(x: string, ws: seq<string>)
    requires ws != []
    ensures JoinSpace([x] + ws) == x + (" " + JoinSpace(ws))
  {
    assert ([x] + ws)[1..] == ws;
  }

  /** Text of two characters or more ends as its tail does. */
  lemma TrailOfTail(s: string)
    requires |s| >= 2
    ensures Trail(s) == Trail(s[1..])
  {
    assert s[1..][|s| - 2] == s[|s| - 1];
  }

  /** Whitespace only at the ends strips off. */
  lemma StripSpaces(a: string)
    requires a == "" || a == " "
    ensures Strip(a) == []
  {
    StripEmptyIffBlank(a);
  }

  /** `_clean_text` is `" ".join(text.replace("\x00", " ").split())`. */
  lemma CleanTextJoinsWords(text: string)
    ensures CleanText(text) == JoinSpace(Words(ReplaceNul(text)))
  {
    var t := ReplaceNul(text);
    CollapseWords(t, false);
    if Words(t) == [] {
      StripSpaces(Lead(t, false));
    } else {
      JoinSpaceEnds(Words(t));
      StripPadded(Lead(t, false), JoinSpace(Words(t)), Trail(t));
    }
  }

  // ---------------------------------------------------------------------------
  // chunk_text

  /** `t.rfind(" ", lo, hi)`: the last space in `t[lo..hi]`, or -1. */
  function RFindSpace(t: string, lo: int, hi: int): (r: int)
    requires 0 <= lo <= hi <= |t|
    ensures r == -1 || (lo <= r < hi && t[r] == ' ')
    ensures forall k | (if r == -1 then lo else r + 1) <= k < hi :: t[k] != ' '
    decreases hi - lo
  {
    if hi == lo then -1 else if t[hi - 1] == ' ' then hi - 1 else RFindSpace(t, lo, hi - 1)
  }

  /** `c` is a chunk of `t` at `offset`: non-empty, stripped, at most `maxChars` long. */
  predicate ChunkAt(t: string, c: string, offset: int, maxChars: int)
  {
    && 0 < |c| <= maxChars
    && 0 <= offset && offset + |c| <= |t|
    && t[offset..offset + |c|] == c
    && Strip(c) == c
  }

  /** Each of `chunks` is a chunk of `t` at the matching one of `offsets`. */
  predicate ChunksAt(t: string, chunks: seq<string>, offsets: seq<int>, maxChars: int)
  {
    |offsets| == |chunks| && forall k | 0 <= k < |chunks| :: ChunkAt(t, chunks[k], offsets[k], maxChars)
  }

  lemma ChunksAtAppend(t: string, chunks: seq<string>, offsets: seq<int>, c: string, offset: int, maxChars: int)
    requires ChunksAt(t, chunks, offsets, maxChars) && ChunkAt(t, c, offset, maxChars)
    ensures ChunksAt(t, chunks + [c], offsets + [offset], maxChars)
  {
  }

  /** The stripped window `w == t[lo..hi]`, and where it starts in `t`. */
  lemma WindowChunk(t: string, lo: int, hi: int, w: string) returns (offset: int)
    requires 0 <= lo <= hi <= |t| && w == t[lo..hi]
    ensures var c := Strip(w);
      && lo <= offset && offset + |c| <= hi
      && t[offset..offset + |c|] == c
  {
    var i := StripOffset(w);
    var c := Strip(w);
    offset := lo + i;
    var u := t[offset..offset + |c|];
    assert forall k | 0 <= k < |c| :: u[k] == w[i + k];
    assert u == w[i..i + |c|];
  }

  /** The window that reaches the end of clean text strips to a non-empty suffix of it. */
  lemma LastWindowChunk(t: string, lo: int, w: string)
    requires IsClean(t) && 0 <= lo < |t| && w == t[lo..]
    ensures var c := Strip(w);
      c != [] && |c| <= |t| && t[|t| - |c|..] == c
  {
    assert w[|w| - 1] == t[|t| - 1];
    StripKeepsEnd(w);
    var c := Strip(w);
    assert w[|w| - |c|..] == t[|t| - |c|..];
  }

  /** A window at the start of clean text strips to something non-empty. */
  lemma FirstWindowChunk(t: string, hi: int, w: string)
    requires IsClean(t) && 0 < hi <= |t| && w == t[..hi]
    ensures Strip(w) != []
  {
    assert w[0] == t[0];
    StripKeepsStart(w);
  }

  /**
   * Where the window starting at `start` ends: `maxChars` characters on, or
   * the end of the text, or back at the window's last space when that lies
   * more than 200 characters into it.
   */
  function WindowEnd(t: string, start: int, maxChars: int): (end: int)
    requires 0 <= start < |t| && 0 < maxChars
    ensures start < end <= |t| && end - start <= maxChars
    ensures end < |t| ==> end == start + maxChars || (end > start + 200 && t[end] == ' ')
    ensures start + maxChars >= |t| ==> end == |t|
  {
    var end := if |t| < start + maxChars then |t| else start + maxChars;
    if end < |t| then
      var lastSpace := RFindSpace(t, start, end);
      if lastSpace > start + 200 then lastSpace else end
    else end
  }

  /** What one window of clean text contributes. */
  lemma WindowStep(t: string, start: int, end: int, maxChars: int) returns (offset: int)
    requires IsClean(t) && 0 <= start < end <= |t| && end - start <= maxChars
    ensures var c := Strip(t[start..end]);
      && (c != [] ==> ChunkAt(t, c, offset, maxChars))
      && (start == 0 ==> c != [])
      && (end == |t| ==> c != [] && t[|t| - |c|..] == c)
  {
    var w := t[start..end];
    offset := WindowChunk(t, start, end, w);
    if start == 0 {
      FirstWindowChunk(t, end, w);
    }
    if end == |t| {
      LastWindowChunk(t, start, w);
    }
  }

  /** Clean text is its own strip. */
  lemma CleanIsStripped(t: string)
    requires IsClean(t)
    ensures Strip(t) == t
  {
    if t != [] {
      assert LStrip(t) == t;
      assert RStrip(t) == t;
    }
  }

  /**
   * `chunk_text`: windows of at most `maxChars` characters of the cleaned
   * text (see `WindowEnd`), the next window starting `overlap` before the
   * end of the last; each stripped non-empty window is a chunk. The
   * requirements are those under which the loop ends: every window start
   * is later than the one before.
   */
  method ChunkText(text: string, maxChars: int, overlap: int) returns (chunks: seq<string>, ghost offsets: seq<int>)
    requires 0 < maxChars && overlap < maxChars && overlap <= 200
    ensures chunks == [] <==> CleanText(text) == []
    ensures 0 < |CleanText(text)| <= maxChars ==> chunks == [CleanText(text)]
    ensures forall k | 0 <= k < |chunks| :: 0 < |chunks[k]| <= maxChars && Strip(chunks[k]) == chunks[k]
    ensures overlap >= 0 && chunks != [] ==> var t, last := CleanText(text), chunks[|chunks| - 1];
      |last| <= |t| && t[|t| - |last|..] == last
    ensures |offsets| == |chunks|
    ensures forall k | 0 <= k < |chunks| :: ChunkAt(CleanText(text), chunks[k], offsets[k], maxChars)
  {
    var t := CleanText(text);
    if t == [] {
      return [], [];
    }
    if |t| <= maxChars {
      CleanIsStripped(t);
      return [t], [0];
    }
    chunks, offsets := Windows(t, maxChars, overlap);
  }

  /** One window of the loop: where it ends, its stripped text, and where that sits in `t`. */
  method NextWindow(t: string, start: int, maxChars: int) returns (chunk: string, end: int, ghost offset: int)
    requires IsClean(t) && 0 <= start < |t| && 0 < maxChars
    ensures end == WindowEnd(t, start, maxChars) && start < end <= |t|
    ensures chunk == Strip(t[start..end])
    ensures chunk != [] ==> ChunkAt(t, chunk, offset, maxChars)
    ensures start == 0 ==> chunk != []
    ensures end == |t| ==> chunk != [] && t[|t| - |chunk|..] == chunk
  {
    end := WindowEnd(t, start, maxChars);
    chunk := Strip(t[start..end]);
    offset := WindowStep(t, start, end, maxChars);
  }

  /** The window loop of `chunk_text` over clean text longer than one window. */
  method Windows(t: string, maxChars: int, overlap: int) returns (chunks: seq<string>, ghost offsets: seq<int>)
    requires IsClean(t) && 0 < maxChars < |t| && overlap < maxChars && overlap <= 200
    ensures chunks != [] && |offsets| == |chunks|
    ensures forall k | 0 <= k < |chunks| :: ChunkAt(t, chunks[k], offsets[k], maxChars)
    ensures overlap >= 0 ==> |chunks[|chunks| - 1]| <= |t| && t[|t| - |chunks[|chunks| - 1]|..] == chunks[|chunks| - 1]
  {
    chunks, offsets := [], [];
    var start := 0;
    var length := |t|;
    while start < length
      invariant 0 <= start
      invariant ChunksAt(t, chunks, offsets, maxChars)
      invariant chunks == [] ==> start == 0
      invariant overlap >= 0 ==> start < length
      decreases length - start
    {
      var chunk, end, offset := NextWindow(t, start, maxChars);
      if chunk != [] {
        ChunksAtAppend(t, chunks, offsets, chunk, offset, maxChars);
        chunks := chunks + [chunk];
        offsets := offsets + [offset];
      }
      if end >= length {
        return;
      }
      start := if end - overlap < 0 then 0 else end - overlap;
    }
  }

  // ---------------------------------------------------------------------------
  // _usage_from_embedding

  /**
   * A usage value as a dictionary: a dictionary is taken as it is; an object
   * is turned into one by its `model_dump()` when that exists, returns and
   * gives a dictionary; anything else (a raising `model_dump()` included)
   * gives None.
   */
  function UsageAsDict(u: Value): (r: Option<seq<(string, Value)>>)
    ensures u.VDict? ==> r == Some(u.entries)
    ensures u.VObj? && u.modelDump.Returns? && u.modelDump.result.VDict? ==> r == Some(u.modelDump.result.entries)
    ensures r.Some? <==> u.VDict? || (u.VObj? && u.modelDump.Returns? && u.modelDump.result.VDict?)
  {
    var d := if u.VDict? then u else if u.VObj? && u.modelDump.Returns? then u.modelDump.result else VNone;
    if d.VDict? then Some(d.entries) else None
  }

  /**
   * The usage dictionary of an embeddings response: its `usage` attribute,
   * else, for a dictionary response, its `usage` key.
   */
  function EmbeddingUsageDict(response: Value): (r: Option<seq<(string, Value)>>)
    ensures !Attr(response, "usage").VNone? ==> r == UsageAsDict(Attr(response, "usage"))
    ensures Attr(response, "usage").VNone? && response.VDict? ==> r == UsageAsDict(Get(response, "usage"))
    ensures Attr(response, "usage").VNone? && !response.VDict? ==> r.None?
  {
    var attr := Attr(response, "usage");
    var u := if attr.VNone? && response.VDict? then Get(response, "usage") else attr;
    if u.VNone? then None else UsageAsDict(u)
  }

  /** `int(v) if v is not None else None`, with a failing `int()` read as None. */
  function OptionalInt(v: Value): (r: Option<int>)
    ensures r.Some? <==> v.VBool? || v.VInt? || (v.VStr? && ParseInt(v.s).Some?)
    ensures v.VBool? ==> r == Some(if v.b then 1 else 0)
    ensures v.VInt? ==> r == Some(v.i)
    ensures v.VStr? ==> r == ParseInt(v.s)
  {
    if v.VNone? then None else PyInt(v)
  }

  /** A count sent as text, `str(n)` padded with whitespace, reads back as `n`. */
  lemma OptionalIntReadsDecimal(a: string, n: int, b: string)
    requires AllSpace(a) && AllSpace(b)
    ensures OptionalInt(VStr(a + Decimal(n) + b)) == Some(n)
  {
    ParseDecimal(a, n, b);
  }

  /**
   * An SDK response whose `usage` object dumps to `{"prompt_tokens": n,
   * "total_tokens": m}` is charged `n` input tokens and nothing else.
   */
  lemma EmbeddingChargesPrompt(n: int, m: int, rest: seq<(string, Value)>)
    ensures var usage := VObj([], Returns(VDict([("prompt_tokens", VInt(n)), ("total_tokens", VInt(m))])), Missing);
      UsageFromEmbedding(VObj([("usage", usage)] + rest, Missing, Missing)) == Some(Usage(Some(n), Some(0), Some(n)))
  {
  }

  /**
   * A dictionary response whose usage reports the prompt count as None is
   * charged its total, whatever form `int()` reads the total from.
   */
  lemma EmbeddingFallsBackToTotal(total: Value, m: int)
    requires OptionalInt(total) == Some(m)
    ensures UsageFromEmbedding(VDict([("usage", VDict([("prompt_tokens", VNone), ("total_tokens", total)]))]))
      == Some(Usage(Some(m), Some(0), Some(m)))
  {
    var entries := [("prompt_tokens", VNone), ("total_tokens", total)];
    var response := VDict([("usage", VDict(entries))]);
    assert Get(response, "usage") == VDict(entries);
    assert EmbeddingUsageDict(response) == Some(entries);
    assert Lookup(entries, "prompt_tokens") == VNone;
    assert "prompt_tokens"[0] != "total_tokens"[0];
    assert entries[1..] == [("total_tokens", total)];
    assert KeyIndex(entries, "total_tokens") == 1;
  }

  /**
   * `_usage_from_embedding`: the prompt tokens (else the total tokens) of the
   * response's usage, charged as input only.
   */
  function UsageFromEmbedding(response: Value): (r: Option<Usage>)
    ensures r.Some? ==> r.value.input.Some? && r.value.total == r.value.input && r.value.output == Some(0)
    ensures r.Some? <==>
      EmbeddingUsageDict(response).Some? &&
      (OptionalInt(Lookup(EmbeddingUsageDict(response).value, "prompt_tokens")).Some? ||
       OptionalInt(Lookup(EmbeddingUsageDict(response).value, "total_tokens")).Some?)
    ensures r.Some? && OptionalInt(Lookup(EmbeddingUsageDict(response).value, "prompt_tokens")).Some? ==>
      r.value.input == OptionalInt(Lookup(EmbeddingUsageDict(response).value, "prompt_tokens"))
    ensures r.Some? && OptionalInt(Lookup(EmbeddingUsageDict(response).value, "prompt_tokens")).None? ==>
      r.value.input == OptionalInt(Lookup(EmbeddingUsageDict(response).value, "total_tokens"))
  {
    match EmbeddingUsageDict(response)
    case None => None
    case Some(d) =>
      var prompt := OptionalInt(Lookup(d, "prompt_tokens"));
      var total := OptionalInt(Lookup(d, "total_tokens"));
      var tokens := if prompt.Some? then prompt else total;
      if tokens.None? then None else Some(Usage(tokens, Some(0), tokens))
  }

  // ---------------------------------------------------------------------------
  // The stored file name of save_upload

  /** The index of the last `/` in `p`, or -1. */
  function LastSlash(p: string): (i: int)
    ensures -1 <= i < |p|
    ensures i >= 0 ==> p[i] == '/'
    ensures forall k | i < k < |p| :: p[k] != '/'
  {
    if p == [] then -1 else if p[|p| - 1] == '/' then |p| - 1 else LastSlash(p[..|p| - 1])
  }

  /**
   * `Path(p).name` for a POSIX path: the last component that is neither
   * empty nor `.`, or "" when there is none.
   */
  function Basename(p: string): (r: string)
    ensures forall k | 0 <= k < |r| :: r[k] != '/'
    ensures r != "."
    decreases |p|
  {
    var i := LastSlash(p);
    var last := p[i + 1..];
    if last != "" && last != "." then last
    else if i < 0 then ""
    else Basename(p[..i])
  }

  /**
   * Every `/`-separated component of `t` is empty or `.`: what `Path` drops
   * when it looks for the name.
   */
  predicate OnlyDotComponents(t: string)
  {
    forall k | 0 <= k < |t| && t[k] != '/' ::
      t[k] == '.' && (k == 0 || t[k - 1] == '/') && (k == |t| - 1 || t[k + 1] == '/')
  }

  /** Appending a component that is empty or `.` keeps a path without names. */
  lemma DotComponentAppend(a: string, last: string)
    requires OnlyDotComponents(a) && (last == "" || last == ".")
    ensures OnlyDotComponents(a + ("/" + last))
  {
    var t := a + ("/" + last);
    forall k | 0 <= k < |t| && t[k] != '/'
      ensures t[k] == '.' && (k == 0 || t[k - 1] == '/') && (k == |t| - 1 || t[k + 1] == '/')
    {
      if k < |a| {
        assert t[k] == a[k];
        assert k + 1 < |a| ==> t[k + 1] == a[k + 1];
        assert k + 1 == |a| ==> t[k + 1] == '/';
        assert k > 0 ==> t[k - 1] == a[k - 1];
      } else {
        assert k == |a| + 1 && last == ".";
      }
    }
  }

  /**
   * `r` is a whole component of `p` at `i` (it starts the path or follows a
   * `/`, and ends the path or precedes one), and every component after it is
   * empty or `.`.
   */
  predicate NameAt(p: string, i: int, r: string)
  {
    0 <= i && i + |r| <= |p| && p[i..i + |r|] == r
    && (i == 0 || p[i - 1] == '/')
    && (i + |r| == |p| || p[i + |r|] == '/')
    && OnlyDotComponents(p[i + |r|..])
  }

  /** The component after the last `/` is a name with nothing after it. */
  lemma NameAtEnd(p: string, i: int)
    requires 0 <= i <= |p| && (i == 0 || p[i - 1] == '/')
    ensures NameAt(p, i, p[i..])
  {
    assert p[i..i + |p[i..]|] == p[i..];
  }

  /** Appending a component that is empty or `.` keeps the name. */
  lemma NameAtAppend(q: string, last: string, i: int, r: string)
    requires NameAt(q, i, r) && (last == "" || last == ".")
    ensures NameAt(q + ("/" + last), i, r)
  {
    var p := q + ("/" + last);
    var e := i + |r|;
    assert p[i..e] == q[i..e];
    assert p[e..] == q[e..] + ("/" + last);
    DotComponentAppend(q[e..], last);
  }

  /** A string splits around a `/` it holds. */
  lemma SplitAtSlash(p: string, j: int)
    requires 0 <= j < |p| && p[j] == '/'
    ensures p == p[..j] + ("/" + p[j + 1..])
  {
  }

  /**
   * `Path(p).name` is the last component of `p` that is neither empty nor
   * `.`; with no such component it is "" and every component of `p` is
   * empty or `.`.
   */
  lemma {:induction false} BasenameIsLastName(p: string) returns (i: int)
    ensures Basename(p) == [] ==> OnlyDotComponents(p)
    ensures Basename(p) != [] ==> NameAt(p, i, Basename(p))
    decreases |p|
  {
    i := 0;
    var j := LastSlash(p);
    var last := p[j + 1..];
    if last != "" && last != "." {
      i := j + 1;
      NameAtEnd(p, i);
    } else if j < 0 {
      assert p == last;
    } else {
      var q := p[..j];
      SplitAtSlash(p, j);
      i := BasenameIsLastName(q);
      if Basename(q) == [] {
        DotComponentAppend(q, last);
      } else {
        NameAtAppend(q, last, i, Basename(q));
      }
    }
  }

  /** A character `[A-Za-z0-9_.-]` keeps. */
  predicate Allowed(c: char)
  {
    ('A' <= c <= 'Z') || ('a' <= c <= 'z') || ('0' <= c <= '9') || c == '_' || c == '.' || c == '-'
  }

  /**
   * `re.sub(r"[^A-Za-z0-9_.-]+", "_", s)` from a position that follows a
   * replaced run (`inRun`) or not.
   */
  function SanitizeFrom(s: string, inRun: bool): (r: string)
    ensures forall k | 0 <= k < |r| :: Allowed(r[k])
    ensures |r| <= |s|
    ensures r == [] <==> s == [] || (inRun && forall k | 0 <= k < |s| :: !Allowed(s[k]))
  {
    if s == [] then []
    else if Allowed(s[0]) then [s[0]] + SanitizeFrom(s[1..], false)
    else
      var rest := SanitizeFrom(s[1..], true);
      assert forall k | 1 <= k < |s| :: s[k] == s[1..][k - 1];
      if inRun then rest else ['_'] + rest
  }

  /** The file name part of the stored upload's name. */
  function SafeName(filename: string): (r: string)
    ensures r != []
    ensures forall k | 0 <= k < |r| :: Allowed(r[k])
    ensures Basename(filename) == [] ==> r == "upload"
    ensures Basename(filename) != [] && (forall k | 0 <= k < |Basename(filename)| :: Allowed(Basename(filename)[k]))
      ==> r == Basename(filename)
    ensures SanitizeFrom(Basename(filename), false) != [] ==> r == SanitizeFrom(Basename(filename), false)
  {
    var s := SanitizeFrom(Basename(filename), false);
    SanitizeKeepsAllowed(Basename(filename));
    if s == [] then "upload" else s
  }

  /** A name of allowed characters only is kept as it is; any other changes. */
  lemma {:induction false} SanitizeKeepsAllowed(s: string)
    ensures SanitizeFrom(s, false) == s <==> forall k | 0 <= k < |s| :: Allowed(s[k])
  {
    if s != [] {
      SanitizeKeepsAllowed(s[1..]);
      assert forall k | 1 <= k < |s| :: s[k] == s[1..][k - 1];
      if !Allowed(s[0]) {
        assert SanitizeFrom(s, false)[0] == '_';
      }
    }
  }

  /** A run of allowed characters is copied whether or not a replaced run precedes it. */
  lemma {:induction false} SanitizeAllowed(a: string, inRun: bool)
    requires forall k | 0 <= k < |a| :: Allowed(a[k])
    ensures SanitizeFrom(a, inRun) == a
  {
    if a != [] {
      SanitizeAllowed(a[1..], false);
      assert SanitizeFrom(a, inRun) == [a[0]] + a[1..];
    }
  }

  /**
   * A maximal run of disallowed characters becomes one `_`, or nothing when
   * it continues a run already replaced.
   */
  lemma {:induction false} SanitizeRun(b: string)
    requires b != [] && forall k | 0 <= k < |b| :: !Allowed(b[k])
    ensures SanitizeFrom(b, false) == "_"
    ensures SanitizeFrom(b, true) == []
  {
    if |b| > 1 {
      SanitizeRun(b[1..]);
    }
  }

  /**
   * Sanitizing a concatenation sanitizes each part, the second one knowing
   * whether the first ended inside a replaced run.
   */
  lemma {:induction false} SanitizeAppend(a: string, b: string, inRun: bool)
    ensures SanitizeFrom(a + b, inRun)
      == SanitizeFrom(a, inRun) + SanitizeFrom(b, if a == [] then inRun else !Allowed(a[|a| - 1]))
  {
    if a == [] {
      assert a + b == b;
    } else {
      var t, flag := a[1..], !Allowed(a[0]);
      TailOfConcat(a, b);
      SanitizeStep(a + b, inRun);
      SanitizeStep(a, inRun);
      SanitizeAppend(t, b, flag);
      assert t != [] ==> t[|t| - 1] == a[|a| - 1];
      ConcatAssoc(SanitizeHead(a[0], inRun), SanitizeFrom(t, flag), SanitizeFrom(b, !Allowed(a[|a| - 1])));
    }
  }

  /** Dropping the head of a concatenation drops it from the first part. */
  lemma TailOfConcat<T>(a: seq<T>, b: seq<T>)
    requires a != []
    ensures (a + b)[0] == a[0] && (a + b)[1..] == a[1..] + b
  {
  }

  /** Concatenation is associative. */
  lemma ConcatAssoc<T>(a: seq<T>, b: seq<T>, c: seq<T>)
    ensures a + (b + c) == a + b + c
  {
  }

  /** What the first character of a string becomes. */
  function SanitizeHead(c: char, inRun: bool): string
  {
    if Allowed(c) then [c] else if inRun then [] else "_"
  }

  /** One step of `SanitizeFrom`. */
  lemma SanitizeStep(s: string, inRun: bool)
    requires s != []
    ensures SanitizeFrom(s, inRun) == SanitizeHead(s[0], inRun) + SanitizeFrom(s[1..], !Allowed(s[0]))
  {
  }

  /** A stored name is its own stored name. */
  lemma SafeNameIdempotent(filename: string)
    ensures SafeName(SafeName(filename)) == SafeName(filename)
  {
    var r := SafeName(filename);
    assert Basename(r) == r by {
      assert LastSlash(r) == -1;
      assert r[0..] == r;
    }
    SanitizeKeepsAllowed(r);
  }
}
