/**
 * Word counter (Word-counter/word-counter.js): the counting functions behind
 * the statistics panel, the reading-time rule and its display, and the
 * Tab key, which replaces the selection with two spaces.
 */
module WordCounter {
  import opened Common
  import opened JsString
  import Lists

  /** `WORDS_PER_MINUTE`, the assumed reading speed. */
  const WordsPerMinute: nat := 200

  // ---------------------------------------------------------------------------
  // Reference counter

  /** One left-to-right pass over the text that counts the separator-free
      stretches holding at least one non-whitespace character. `seen` says
      whether the current stretch has already been counted. */
  function TextRunsFrom(s: string, sep: Separator, seen: bool): nat
    decreases |s|
  {
    if s == [] then 0
    else if IsSeparator(sep, s[0]) then TextRunsFrom(s[1..], sep, false)
    else if !IsSpace(s[0]) && !seen then 1 + TextRunsFrom(s[1..], sep, true)
    else TextRunsFrom(s[1..], sep, seen || !IsSpace(s[0]))
  }

  function TextRuns(s: string, sep: Separator): nat {
    TextRunsFrom(s, sep, false)
  }

  // ---------------------------------------------------------------------------
  // The counting functions

  /** `.filter(p => p.trim().length > 0)` */
  function NonBlank(pieces: seq<string>): seq<string> {
    Lists.Filter(pieces, (p: string) => !IsBlank(p))
  }

  /** `countWords`, and the word count of the text case converter. */
  function CountWords(text: string): nat {
    if IsBlank(text) then 0 else |Split(Trim(text), Spaces)|
  }

  /** `countCharacters` */
  function CountCharacters(text: string): nat {
    |text|
  }

  /** `text.replace(/\s+/g, '')` */
  function RemoveSpaces(s: string): (r: string)
    ensures forall k :: 0 <= k < |r| ==> !IsSpace(r[k])
    decreases |s|
  {
    if s == [] then []
    else RemoveSpaces(s[..|s| - 1]) + (if IsSpace(s[|s| - 1]) then [] else [s[|s| - 1]])
  }

  /** `countCharactersNoSpace` */
  function CountCharactersNoSpace(text: string): nat {
    |RemoveSpaces(text)|
  }

  /** `countSentences` */
  function CountSentences(text: string): nat {
    if IsBlank(text) then 0 else |NonBlank(Split(text, SentenceEnds))|
  }

  /** `countParagraphs` */
  function CountParagraphs(text: string): nat {
    if IsBlank(text) then 0 else |NonBlank(Split(text, Newlines))|
  }

  /** `Math.ceil(words / WORDS_PER_MINUTE)` */
  function MinutesFor(words: nat): (m: nat)
    ensures words <= m * WordsPerMinute < words + WordsPerMinute
    ensures m == 0 <==> words == 0
  {
    (words + WordsPerMinute - 1) / WordsPerMinute
  }

  /** `calculateReadingTime` */
  function ReadingMinutes(text: string): nat {
    MinutesFor(CountWords(text))
  }

  /** The reading-time text of `updateStatistics`. */
  function FormatReadingTime(minutes: nat): string {
    if minutes == 0 then "0m"
    else if minutes < 60 then DecimalString(minutes) + "m"
    else DecimalString(minutes / 60) + "h " + DecimalString(minutes % 60) + "m"
  }

  // ---------------------------------------------------------------------------
  // Tab key

  datatype Edit = Edit(text: string, cursor: nat)

  /** The Tab handler: the selection [start, end) becomes two spaces and the
      cursor lands after them. */
  function InsertIndent(text: string, start: nat, end: nat): (r: Edit)
    requires start <= end <= |text|
    ensures |r.text| == |text| - (end - start) + 2
    ensures forall k :: 0 <= k < start ==> r.text[k] == text[k]
    ensures r.text[start] == ' ' && r.text[start + 1] == ' '
    ensures forall k :: end <= k < |text| ==> r.text[k - end + start + 2] == text[k]
    ensures r.cursor == start + 2
  {
    Edit(text[..start] + "  " + text[end..], start + 2)
  }

  // ---------------------------------------------------------------------------
  // Properties of the reference counter

  predicate HasNonSpace(p: string) {
    !AllSpace(p)
  }

  lemma {:induction false} AllSpaceNoRuns(s: string, sep: Separator, seen: bool)
    requires AllSpace(s)
    ensures TextRunsFrom(s, sep, seen) == 0
    decreases |s|
  {
    if s != [] {
      AllSpaceNoRuns(s[1..], sep, if IsSeparator(sep, s[0]) then false else seen);
    }
  }

  /** A separator-free stretch adds one run when it holds text and the
      current stretch has not been counted yet. */
  lemma {:induction false} RunsOverStretch(p: string, r: string, sep: Separator, seen: bool)
    requires SeparatorFree(p, sep)
    ensures TextRunsFrom(p + r, sep, seen)
         == (if !seen && HasNonSpace(p) then 1 else 0) + TextRunsFrom(r, sep, seen || HasNonSpace(p))
    decreases |p|
  {
    if p == [] {
      assert p + r == r;
    } else {
      assert (p + r)[0] == p[0];
      assert (p + r)[1..] == p[1..] + r;
      assert HasNonSpace(p) <==> !IsSpace(p[0]) || HasNonSpace(p[1..]) by {
        assert forall k :: 1 <= k < |p| ==> p[k] == p[1..][k - 1];
      }
      RunsOverStretch(p[1..], r, sep, seen || !IsSpace(p[0]));
    }
  }

  /** A non-empty run of separators ends the current stretch. */
  lemma {:induction false} RunsOverSeparators(q: string, r: string, sep: Separator, seen: bool)
    requires q != []
    requires forall k :: 0 <= k < |q| ==> IsSeparator(sep, q[k])
    ensures TextRunsFrom(q + r, sep, seen) == TextRunsFrom(r, sep, false)
    decreases |q|
  {
    assert (q + r)[1..] == q[1..] + r;
    if |q| > 1 {
      RunsOverSeparators(q[1..], r, sep, false);
    } else {
      assert q[1..] + r == r;
    }
  }

  /** Trailing whitespace adds no run. */
  lemma {:induction false} RunsIgnoreTrailingSpace(x: string, y: string, sep: Separator, seen: bool)
    requires AllSpace(y)
    ensures TextRunsFrom(x + y, sep, seen) == TextRunsFrom(x, sep, seen)
    decreases |x|
  {
    if x == [] {
      assert x + y == y;
      AllSpaceNoRuns(y, sep, seen);
    } else {
      assert (x + y)[1..] == x[1..] + y;
      var next := if IsSeparator(sep, x[0]) then false else seen || !IsSpace(x[0]);
      RunsIgnoreTrailingSpace(x[1..], y, sep, next);
    }
  }

  // ---------------------------------------------------------------------------
  // The counting functions agree with the reference counter

  lemma NonBlankCons(p: string, ps: seq<string>)
    ensures |NonBlank([p] + ps)| == (if IsBlank(p) then 0 else 1) + |NonBlank(ps)|
  {
    assert ([p] + ps)[1..] == ps;
  }

  lemma SplitAt(s: string, i: nat, j: nat)
    requires i <= j <= |s|
    ensures s == s[..i] + (s[i..j] + s[j..])
  {
  }

  /** The first piece of a split counts once when it holds text ... */
  lemma FirstPieceStep(s: string, sep: Separator, i: nat, j: nat)
    requires i == FirstSeparator(s, sep) < |s|
    requires j == SeparatorRunEnd(s, sep, i)
    ensures |NonBlank(Split(s, sep))| == (if IsBlank(s[..i]) then 0 else 1) + |NonBlank(Split(s[j..], sep))|
  {
    assert Split(s, sep) == [s[..i]] + Split(s[j..], sep);
    NonBlankCons(s[..i], Split(s[j..], sep));
  }

  /** The run of separators after the first piece is a non-empty slice of
      separators. */
  lemma SeparatorRunSlice(s: string, sep: Separator, i: nat, j: nat)
    requires i == FirstSeparator(s, sep) < |s|
    requires j == SeparatorRunEnd(s, sep, i)
    ensures s[i..j] != [] && forall k :: 0 <= k < |s[i..j]| ==> IsSeparator(sep, s[i..j][k])
  {
    assert j > i;
    forall k | 0 <= k < j - i ensures IsSeparator(sep, s[i..j][k]) {
      assert s[i..j][k] == s[i + k];
    }
  }

  /** ... and so does the first stretch of the reference counter. */
  lemma FirstStretchStep(s: string, sep: Separator, i: nat, j: nat)
    requires i == FirstSeparator(s, sep) < |s|
    requires j == SeparatorRunEnd(s, sep, i)
    ensures TextRuns(s, sep) == (if IsBlank(s[..i]) then 0 else 1) + TextRuns(s[j..], sep)
  {
    var p, q, r := s[..i], s[i..j], s[j..];
    SeparatorRunSlice(s, sep, i, j);
    BlankIffAllSpace(p);
    SplitAt(s, i, j);
    RunsOverStretch(p, q + r, sep, false);
    RunsOverSeparators(q, r, sep, HasNonSpace(p));
  }

  /** A text without separators is one piece, counted when it holds text. */
  lemma LastPieceStep(s: string, sep: Separator)
    requires FirstSeparator(s, sep) == |s|
    ensures |NonBlank(Split(s, sep))| == (if IsBlank(s) then 0 else 1)
    ensures TextRuns(s, sep) == (if IsBlank(s) then 0 else 1)
  {
    LastPiece(s, sep);
    LastStretch(s, sep);
    BlankIffAllSpace(s);
  }

  lemma LastPiece(s: string, sep: Separator)
    requires FirstSeparator(s, sep) == |s|
    ensures |NonBlank(Split(s, sep))| == (if IsBlank(s) then 0 else 1)
  {
    assert s[..|s|] == s;
    assert Split(s, sep) == [s] + [];
    NonBlankCons(s, []);
  }

  lemma LastStretch(s: string, sep: Separator)
    requires FirstSeparator(s, sep) == |s|
    ensures TextRuns(s, sep) == (if AllSpace(s) then 0 else 1)
  {
    assert s[..|s|] == s && s + [] == s;
    RunsOverStretch(s, [], sep, false);
  }

  /** Splitting on separator runs and dropping blank pieces leaves as many
      pieces as the reference counter counts. */
  lemma {:induction false} NonBlankSplitCount(s: string, sep: Separator)
    ensures |NonBlank(Split(s, sep))| == TextRuns(s, sep)
    decreases |s|
  {
    var i := FirstSeparator(s, sep);
    if i == |s| {
      LastPieceStep(s, sep);
    } else {
      var j := SplitCountStep(s, sep);
      NonBlankSplitCount(s[j..], sep);
    }
  }

  /** Both counts grow by the same amount over the first piece and the
      separators after it. */
  lemma SplitCountStep(s: string, sep: Separator) returns (j: nat)
    requires FirstSeparator(s, sep) < |s|
    ensures 0 < j <= |s|
    ensures |NonBlank(Split(s, sep))| + TextRuns(s[j..], sep) == TextRuns(s, sep) + |NonBlank(Split(s[j..], sep))|
  {
    var i := FirstSeparator(s, sep);
    j := SeparatorRunEnd(s, sep, i);
    FirstPieceStep(s, sep, i, j);
    FirstStretchStep(s, sep, i, j);
  }

  /** Pieces of a text that neither starts nor ends with a separator are all
      non-empty. */
  lemma {:induction false} SplitPiecesNonEmpty(t: string, sep: Separator)
    requires t != [] && !IsSeparator(sep, t[0]) && !IsSeparator(sep, t[|t| - 1])
    ensures forall k :: 0 <= k < |Split(t, sep)| ==> Split(t, sep)[k] != []
    decreases |t|
  {
    var i := FirstSeparator(t, sep);
    if i < |t| {
      var j := SeparatorRunEnd(t, sep, i);
      assert j < |t|;
      SplitPiecesNonEmpty(t[j..], sep);
      assert Split(t, sep) == [t[..i]] + Split(t[j..], sep);
    }
  }

  /** Leading whitespace adds no run. */
  lemma RunsIgnoreLeadingSpace(pre: string, rest: string)
    requires AllSpace(pre)
    ensures TextRuns(pre + rest, Spaces) == TextRuns(rest, Spaces)
  {
    if pre == [] {
      assert pre + rest == rest;
    } else {
      RunsOverSeparators(pre, rest, Spaces, false);
    }
  }

  /** Leading and trailing whitespace change no count of words. */
  lemma TrimKeepsWordRuns(text: string)
    ensures TextRuns(text, Spaces) == TextRuns(Trim(text), Spaces)
  {
    TrimIsInfix(text);
    var t := Trim(text);
    var a := |text| - |TrimStart(text)|;
    var b := a + |t|;
    SplitAt(text, a, b);
    assert AllSpace(text[..a]);
    assert AllSpace(text[b..]);
    RunsIgnoreLeadingSpace(text[..a], t + text[b..]);
    RunsIgnoreTrailingSpace(t, text[b..], Spaces, false);
  }

  /** Text that neither starts nor ends with whitespace splits into
      non-blank words only. */
  lemma WordsNonBlank(t: string)
    requires t != [] && !IsSpace(t[0]) && !IsSpace(t[|t| - 1])
    ensures |NonBlank(Split(t, Spaces))| == |Split(t, Spaces)|
  {
    var pieces := Split(t, Spaces);
    SplitPiecesNonEmpty(t, Spaces);
    forall k | 0 <= k < |pieces| ensures !IsBlank(pieces[k]) {
      BlankIffAllSpace(pieces[k]);
      assert !IsSpace(pieces[k][0]);
    }
    Lists.FilterAllKept(pieces, (p: string) => !IsBlank(p));
  }

  lemma TrimmedWordsNonBlank(text: string)
    requires !IsBlank(text)
    ensures |NonBlank(Split(Trim(text), Spaces))| == |Split(Trim(text), Spaces)|
  {
    TrimIsInfix(text);
    WordsNonBlank(Trim(text));
  }

  /** `countWords` is the number of maximal runs of non-whitespace
      characters, so it is 0 exactly for blank text. */
  lemma CountWordsIsRuns(text: string)
    ensures CountWords(text) == TextRuns(text, Spaces)
    ensures CountWords(text) == 0 <==> IsBlank(text)
  {
    if IsBlank(text) {
      BlankIffAllSpace(text);
      AllSpaceNoRuns(text, Spaces, false);
    } else {
      TrimKeepsWordRuns(text);
      TrimmedWordsNonBlank(text);
      NonBlankSplitCount(Trim(text), Spaces);
    }
  }

  /** `countSentences` is the number of stretches between runs of `.`, `!`
      and `?` that hold text; the blank-text guard agrees with that count. */
  lemma CountSentencesIsRuns(text: string)
    ensures CountSentences(text) == TextRuns(text, SentenceEnds)
  {
    BlankIffAllSpace(text);
    if IsBlank(text) {
      AllSpaceNoRuns(text, SentenceEnds, false);
    } else {
      NonBlankSplitCount(text, SentenceEnds);
    }
  }

  /** `countParagraphs` is the number of stretches between runs of newlines
      that hold text; the blank-text guard agrees with that count. */
  lemma CountParagraphsIsRuns(text: string)
    ensures CountParagraphs(text) == TextRuns(text, Newlines)
  {
    BlankIffAllSpace(text);
    if IsBlank(text) {
      AllSpaceNoRuns(text, Newlines, false);
    } else {
      NonBlankSplitCount(text, Newlines);
    }
  }

  /** Blank text has no sentences and no paragraphs. */
  lemma BlankCountsZero(text: string)
    requires IsBlank(text)
    ensures CountWords(text) == 0 && CountSentences(text) == 0 && CountParagraphs(text) == 0
    ensures ReadingMinutes(text) == 0
  {
  }

  // ---------------------------------------------------------------------------
  // Characters without whitespace

  function SpacePositions(s: string): set<int> {
    set i | 0 <= i < |s| && IsSpace(s[i])
  }

  /** Removing whitespace leaves the length minus the number of whitespace
      characters, so never more than `countCharacters`. */
  lemma {:induction false} CountNoSpace(text: string)
    ensures CountCharactersNoSpace(text) == CountCharacters(text) - |SpacePositions(text)|
    ensures CountCharactersNoSpace(text) <= CountCharacters(text)
    decreases |text|
  {
    if text == [] {
      assert SpacePositions(text) == {};
    } else {
      var n := |text| - 1;
      var init := text[..n];
      CountNoSpace(init);
      var before := SpacePositions(init);
      assert n !in before;
      if IsSpace(text[n]) {
        assert SpacePositions(text) == before + {n};
      } else {
        assert SpacePositions(text) == before;
      }
    }
  }

  // ---------------------------------------------------------------------------
  // Reading time

  /** The reading time is 0 exactly when there are no words. */
  lemma ReadingMinutesZero(text: string)
    ensures ReadingMinutes(text) == 0 <==> IsBlank(text)
  {
    CountWordsIsRuns(text);
  }

  function IndexOfChar(s: string, c: char): (i: nat)
    ensures i <= |s|
    ensures forall k :: 0 <= k < i ==> s[k] != c
    ensures i < |s| ==> s[i] == c
    decreases |s|
  {
    if s == [] || s[0] == c then 0 else 1 + IndexOfChar(s[1..], c)
  }

  predicate AllDigits(s: string) {
    forall k :: 0 <= k < |s| ==> IsDigit(s[k])
  }

  /** Reads a reading-time display back into minutes. */
  function ParseReadingTime(s: string): Option<nat> {
    if |s| == 0 || s[|s| - 1] != 'm' then None
    else
      var body := s[..|s| - 1];
      var h := IndexOfChar(body, 'h');
      if h == |body| then
        if body != [] && AllDigits(body) then Some(ParseDecimal(body)) else None
      else if h + 2 <= |body| && body[h + 1] == ' '
              && body[..h] != [] && AllDigits(body[..h])
              && body[h + 2..] != [] && AllDigits(body[h + 2..]) then
        Some(ParseDecimal(body[..h]) * 60 + ParseDecimal(body[h + 2..]))
      else None
  }

  /** The display names the minutes unambiguously: `Nm` below an hour and
      `Hh Mm` with H * 60 + M = N from an hour on. */
  lemma FormatReadingTimeReadsBack(minutes: nat)
    ensures ParseReadingTime(FormatReadingTime(minutes)) == Some(minutes)
  {
    if minutes < 60 {
      MinutesReadBack(minutes);
    } else {
      HoursReadBack(minutes);
    }
  }

  lemma MinutesReadBack(minutes: nat)
    requires minutes < 60
    ensures ParseReadingTime(FormatReadingTime(minutes)) == Some(minutes)
  {
    var s := FormatReadingTime(minutes);
    var d := DecimalString(minutes);
    assert minutes == 0 ==> d == "0";
    assert s == d + "m";
    assert s[..|s| - 1] == d;
    ParseDecimalString(minutes);
  }

  lemma DigitsBeforeH(hs: string, rest: string)
    requires AllDigits(hs) && rest != [] && rest[0] == 'h'
    ensures IndexOfChar(hs + rest, 'h') == |hs|
  {
    var h := IndexOfChar(hs + rest, 'h');
    assert (hs + rest)[|hs|] == 'h';
    assert h <= |hs|;
  }

  lemma HoursReadBack(minutes: nat)
    requires minutes >= 60
    ensures ParseReadingTime(FormatReadingTime(minutes)) == Some(minutes)
  {
    var hs, ms := HoursDisplayDigits(minutes);
    ParseHoursDisplay(hs, ms);
  }

  /** From an hour on, the display is the hours' digits, `h `, the
      remaining minutes' digits and `m`. */
  lemma HoursDisplayDigits(minutes: nat) returns (hs: string, ms: string)
    requires minutes >= 60
    ensures FormatReadingTime(minutes) == hs + ("h " + ms) + "m"
    ensures hs != [] && AllDigits(hs) && ms != [] && AllDigits(ms)
    ensures ParseDecimal(hs) * 60 + ParseDecimal(ms) == minutes
  {
    hs := DecimalString(minutes / 60);
    ms := DecimalString(minutes % 60);
    ParseDecimalString(minutes / 60);
    ParseDecimalString(minutes % 60);
  }

  /** `Hh Mm` reads back as H * 60 + M. */
  lemma ParseHoursDisplay(hs: string, ms: string)
    requires hs != [] && AllDigits(hs) && ms != [] && AllDigits(ms)
    ensures ParseReadingTime(hs + ("h " + ms) + "m") == Some(ParseDecimal(hs) * 60 + ParseDecimal(ms))
  {
    HoursDisplayParts(hs, ms);
    ParseHoursShape(hs + ("h " + ms) + "m", |hs|, hs, ms);
  }

  /** Where the parts of an `Hh Mm` display sit. */
  lemma HoursDisplayParts(hs: string, ms: string)
    requires AllDigits(hs) && ms != []
    ensures var s := hs + ("h " + ms) + "m";
            && |s| > 0 && s[|s| - 1] == 'm'
            && |hs| == IndexOfChar(s[..|s| - 1], 'h') && |hs| + 2 <= |s| - 1 && s[|hs| + 1] == ' '
            && s[..|s| - 1][..|hs|] == hs && s[..|s| - 1][|hs| + 2..] == ms
  {
    var body := hs + ("h " + ms);
    var s := body + "m";
    assert s[..|s| - 1] == body;
    DigitsBeforeH(hs, "h " + ms);
    assert body[|hs| + 1] == ' ';
    assert body[..|hs|] == hs;
    assert body[|hs| + 2..] == ms;
  }

  /** The hours branch of the reader, on a display whose `h` sits at `h`
      between the digits `hs` and `ms`. */
  lemma ParseHoursShape(s: string, h: nat, hs: string, ms: string)
    requires |s| > 0 && s[|s| - 1] == 'm'
    requires h == IndexOfChar(s[..|s| - 1], 'h') && h + 2 <= |s| - 1 && s[h + 1] == ' '
    requires hs == s[..|s| - 1][..h] && ms == s[..|s| - 1][h + 2..]
    requires hs != [] && AllDigits(hs) && ms != [] && AllDigits(ms)
    ensures ParseReadingTime(s) == Some(ParseDecimal(hs) * 60 + ParseDecimal(ms))
  {
  }
}
