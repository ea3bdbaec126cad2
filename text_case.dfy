/**
 * Text case converter (Text-Case-Converter/text-case.js): the four case
 * conversions, the statistics and preview shown beside the text box, and the
 * page state — the text, the case it is shown in, and the history of earlier
 * texts that the Undo button pops.
 */
module TextCase {
  import opened Common
  import opened JsString
  import Lists
  import WordCounter

  // ---------------------------------------------------------------------------
  // Title case: `toLowerCase().replace(/\b\w/g, toUpperCase)`

  /** A word character at a word boundary: first in the text or after a
      non-word character. */
  predicate WordStart(t: string, i: nat)
    requires i < |t|
  {
    IsWordChar(t[i]) && (i == 0 || !IsWordChar(t[i - 1]))
  }

  /** The replacement scan; `prevWord` says whether the character before `t`
      is a word character. */
  function TitleFrom(t: string, prevWord: bool): (r: string)
    ensures |r| == |t|
    decreases |t|
  {
    if t == [] then []
    else
      var c := if IsWordChar(t[0]) && !prevWord then UpperChar(t[0]) else t[0];
      [c] + TitleFrom(t[1..], IsWordChar(t[0]))
  }

  /** `caseConverters.titlecase` */
  function TitleCase(s: string): string {
    TitleFrom(ToLower(s), false)
  }

  lemma {:induction false} TitleFromPointwise(t: string, prevWord: bool)
    ensures var r := TitleFrom(t, prevWord);
            forall i :: 0 <= i < |t| ==>
              r[i] == (if IsWordChar(t[i]) && (if i == 0 then !prevWord else !IsWordChar(t[i - 1]))
                       then UpperChar(t[i]) else t[i])
    decreases |t|
  {
    if t != [] {
      TitleFromPointwise(t[1..], IsWordChar(t[0]));
      var r := TitleFrom(t, prevWord);
      assert r[0] == (if IsWordChar(t[0]) && !prevWord then UpperChar(t[0]) else t[0]);
      forall i | 0 <= i < |t|
        ensures r[i] == (if IsWordChar(t[i]) && (if i == 0 then !prevWord else !IsWordChar(t[i - 1]))
                         then UpperChar(t[i]) else t[i])
      {
        if i > 0 {
          assert r[i] == TitleFrom(t[1..], IsWordChar(t[0]))[i - 1];
          assert t[1..][i - 1] == t[i];
          if i > 1 {
            assert t[1..][i - 2] == t[i - 1];
          }
        }
      }
    }
  }

  /** Title case is the lowercased text with every word character at a word
      boundary uppercased. */
  lemma TitleCaseSpec(s: string)
    ensures var t := ToLower(s);
            && |TitleCase(s)| == |s|
            && forall i :: 0 <= i < |s| ==>
                 TitleCase(s)[i] == (if WordStart(t, i) then UpperChar(t[i]) else t[i])
  {
    TitleFromPointwise(ToLower(s), false);
  }

  /** The title-case scan only changes letter case. */
  lemma {:induction false} TitleFromSameLower(t: string, prevWord: bool)
    ensures ToLower(TitleFrom(t, prevWord)) == ToLower(t)
    decreases |t|
  {
    if t != [] {
      TitleFromSameLower(t[1..], IsWordChar(t[0]));
      CaseKeepsClasses(t[0]);
      var r := TitleFrom(t, prevWord);
      assert ToLower(r)[0] == ToLower(t)[0];
      assert ToLower(r)[1..] == ToLower(r[1..]);
      assert ToLower(t)[1..] == ToLower(t[1..]);
    }
  }

  /** Title-casing twice is title-casing once. */
  lemma TitleCaseIdempotent(s: string)
    ensures TitleCase(TitleCase(s)) == TitleCase(s)
  {
    TitleFromSameLower(ToLower(s), false);
    LowerIdempotent(s);
  }

  // ---------------------------------------------------------------------------
  // Sentence case:
  // `toLowerCase().replace(/(^\s*\w|[.!?]\s+\w)/g, toUpperCase)`

  /** Where the replacement scan stands: only whitespace so far (`^\s*`),
      just after `.`, `!` or `?`, after such a mark and whitespace, or
      elsewhere. */
  datatype ScanState = Start | AfterEnd | AfterEndSpace | Other

  function Step(st: ScanState, c: char): ScanState {
    if IsSentenceEnd(c) then AfterEnd
    else if IsSpace(c) then
      match st
      case Start => Start
      case AfterEnd | AfterEndSpace => AfterEndSpace
      case Other => Other
    else Other
  }

  /** A character is uppercased when it is a word character that completes a
      match of the pattern. */
  function Mark(st: ScanState, c: char): char {
    if (st == Start || st == AfterEndSpace) && IsWordChar(c) then UpperChar(c) else c
  }

  /** The state after scanning `p` from state `st`. */
  function Run(st: ScanState, p: string): ScanState
    decreases |p|
  {
    if p == [] then st else Run(Step(st, p[0]), p[1..])
  }

  /** The state after scanning a prefix of the text. */
  function StateAfter(p: string): ScanState {
    Run(Start, p)
  }

  lemma {:induction false} RunSnoc(st: ScanState, q: string, c: char)
    ensures Run(st, q + [c]) == Step(Run(st, q), c)
    decreases |q|
  {
    if q == [] {
      assert (q + [c])[1..] == [];
    } else {
      assert (q + [c])[1..] == q[1..] + [c];
      RunSnoc(Step(st, q[0]), q[1..], c);
    }
  }

  function SentenceFrom(t: string, st: ScanState): (r: string)
    ensures |r| == |t|
    decreases |t|
  {
    if t == [] then [] else [Mark(st, t[0])] + SentenceFrom(t[1..], Step(st, t[0]))
  }

  /** `caseConverters.sentencecase` */
  function SentenceCase(s: string): string {
    SentenceFrom(ToLower(s), Start)
  }

  /** The text before `j` ends with `.`, `!` or `?` followed by at least one
      whitespace character. */
  predicate EndThenSpaces(p: string) {
    exists k :: 0 <= k && k + 1 < |p| && IsSentenceEnd(p[k]) && AllSpace(p[k + 1..])
  }

  /** Position `j` holds a word character that the pattern uppercases: the
      first non-whitespace character of the text, or the first one after a
      sentence mark and whitespace. */
  predicate SentenceStart(t: string, j: nat)
    requires j < |t|
  {
    IsWordChar(t[j]) && (AllSpace(t[..j]) || EndThenSpaces(t[..j]))
  }

  lemma EndThenSpacesStep(q: string, c: char)
    ensures EndThenSpaces(q + [c]) <==>
              IsSpace(c) && ((q != [] && IsSentenceEnd(q[|q| - 1])) || EndThenSpaces(q))
  {
    if EndThenSpaces(q + [c]) {
      EndThenSpacesShorter(q, c);
    }
    if IsSpace(c) && q != [] && IsSentenceEnd(q[|q| - 1]) {
      var p := q + [c];
      assert p[|q|..] == [c];
      assert IsSentenceEnd(p[|q| - 1]) && AllSpace(p[|q|..]);
    }
    if IsSpace(c) && EndThenSpaces(q) {
      EndThenSpacesLonger(q, c);
    }
  }

  /** A match ending in the new character started at the last character of
      `q` or already matched `q`. */
  lemma EndThenSpacesShorter(q: string, c: char)
    requires EndThenSpaces(q + [c])
    ensures IsSpace(c) && ((q != [] && IsSentenceEnd(q[|q| - 1])) || EndThenSpaces(q))
  {
    var p := q + [c];
    var k :| 0 <= k && k + 1 < |p| && IsSentenceEnd(p[k]) && AllSpace(p[k + 1..]);
    assert p[|p| - 1] == c && p[k] == q[k];
    assert p[k + 1..][|p| - k - 2] == c;
    if k + 1 < |q| {
      forall i | k + 1 <= i < |q| ensures IsSpace(q[i]) {
        assert q[i] == p[k + 1..][i - (k + 1)];
      }
      assert AllSpace(q[k + 1..]);
    }
  }

  /** More whitespace extends a match. */
  lemma EndThenSpacesLonger(q: string, c: char)
    requires IsSpace(c) && EndThenSpaces(q)
    ensures EndThenSpaces(q + [c])
  {
    var p := q + [c];
    var k :| 0 <= k && k + 1 < |q| && IsSentenceEnd(q[k]) && AllSpace(q[k + 1..]);
    assert p[k + 1..] == q[k + 1..] + [c];
    assert p[k] == q[k];
  }

  /** What the scan state records about the prefix scanned so far. */
  lemma {:induction false} StateAfterMeaning(p: string)
    ensures StateAfter(p) == Start <==> AllSpace(p)
    ensures StateAfter(p) == AfterEnd <==> p != [] && IsSentenceEnd(p[|p| - 1])
    ensures StateAfter(p) == AfterEndSpace <==> EndThenSpaces(p)
    decreases |p|
  {
    if p != [] {
      var q := p[..|p| - 1];
      var c := p[|p| - 1];
      assert p == q + [c];
      RunSnoc(Start, q, c);
      StateAfterMeaning(q);
      EndThenSpacesStep(q, c);
      assert AllSpace(p) <==> AllSpace(q) && IsSpace(c);
    }
  }

  /** Scanning a non-empty prefix scans its first character, then the rest. */
  lemma RunPrefixCons(st: ScanState, t: string, i: nat)
    requires 0 < i <= |t|
    ensures Run(st, t[..i]) == Run(Step(st, t[0]), t[1..][..i - 1])
  {
    var p := t[..i];
    assert p != [] && p[0] == t[0];
    assert p[1..] == t[1..][..i - 1];
  }

  lemma {:induction false} SentenceFromPointwise(t: string, st: ScanState)
    ensures var r := SentenceFrom(t, st);
            forall i :: 0 <= i < |t| ==> r[i] == Mark(Run(st, t[..i]), t[i])
    decreases |t|
  {
    if t != [] {
      var st1 := Step(st, t[0]);
      SentenceFromPointwise(t[1..], st1);
      var r := SentenceFrom(t, st);
      var rest := SentenceFrom(t[1..], st1);
      assert r == [Mark(st, t[0])] + rest;
      forall i | 0 <= i < |t| ensures r[i] == Mark(Run(st, t[..i]), t[i]) {
        if i > 0 {
          assert r[i] == rest[i - 1];
          RunPrefixCons(st, t, i);
          assert t[1..][i - 1] == t[i];
        } else {
          assert t[..i] == [];
        }
      }
    }
  }

  /** Sentence case is the lowercased text with exactly the word characters
      at sentence starts uppercased. */
  lemma SentenceCaseSpec(s: string)
    ensures var t := ToLower(s);
            && |SentenceCase(s)| == |s|
            && forall j :: 0 <= j < |s| ==>
                 SentenceCase(s)[j] == (if SentenceStart(t, j) then UpperChar(t[j]) else t[j])
  {
    var t := ToLower(s);
    SentenceFromPointwise(t, Start);
    forall j | 0 <= j < |t|
      ensures SentenceCase(s)[j] == (if SentenceStart(t, j) then UpperChar(t[j]) else t[j])
    {
      StateAfterMeaning(t[..j]);
    }
  }

  /** The sentence-case scan only changes letter case. */
  lemma {:induction false} SentenceFromSameLower(t: string, st: ScanState)
    ensures ToLower(SentenceFrom(t, st)) == ToLower(t)
    decreases |t|
  {
    if t != [] {
      SentenceFromSameLower(t[1..], Step(st, t[0]));
      CaseKeepsClasses(t[0]);
      var r := SentenceFrom(t, st);
      assert ToLower(r)[0] == ToLower(t)[0];
      assert ToLower(r)[1..] == ToLower(r[1..]);
      assert ToLower(t)[1..] == ToLower(t[1..]);
    }
  }

  /** Sentence-casing twice is sentence-casing once. */
  lemma SentenceCaseIdempotent(s: string)
    ensures SentenceCase(SentenceCase(s)) == SentenceCase(s)
  {
    SentenceFromSameLower(ToLower(s), Start);
    LowerIdempotent(s);
  }

  // ---------------------------------------------------------------------------
  // The converter table

  /** `caseConverters[caseType]` applied to the text, or `None` for a case
      type without a converter. */
  function Convert(caseType: string, text: string): Option<string> {
    if caseType == "uppercase" then Some(ToUpper(text))
    else if caseType == "lowercase" then Some(ToLower(text))
    else if caseType == "titlecase" then Some(TitleCase(text))
    else if caseType == "sentencecase" then Some(SentenceCase(text))
    else None
  }

  /** Every converter only changes letter case: the lowercased result is the
      lowercased input. */
  lemma ConvertOnlyChangesCase(caseType: string, text: string)
    requires Convert(caseType, text).Some?
    ensures ToLower(Convert(caseType, text).value) == ToLower(text)
    ensures |Convert(caseType, text).value| == |text|
  {
    if caseType == "uppercase" {
      LowerOfUpper(text);
    } else if caseType == "lowercase" {
      LowerIdempotent(text);
    } else if caseType == "titlecase" {
      TitleFromSameLower(ToLower(text), false);
      LowerIdempotent(text);
    } else {
      SentenceFromSameLower(ToLower(text), Start);
      LowerIdempotent(text);
    }
  }

  /** Texts that agree up to letter case are blank together. */
  lemma SameLowerSameBlank(r: string, s: string)
    requires ToLower(r) == ToLower(s)
    ensures IsBlank(r) <==> IsBlank(s)
  {
    BlankIffAllSpace(r);
    BlankIffAllSpace(s);
    assert |r| == |s|;
    forall i | 0 <= i < |s| ensures IsSpace(r[i]) <==> IsSpace(s[i]) {
      CaseKeepsClasses(r[i]);
      CaseKeepsClasses(s[i]);
      assert LowerChar(r[i]) == LowerChar(s[i]);
    }
  }

  /** Converting never turns text into whitespace or back, so a conversion
      of non-blank text always updates the preview. */
  lemma ConvertKeepsBlank(caseType: string, text: string)
    requires Convert(caseType, text).Some?
    ensures IsBlank(Convert(caseType, text).value) <==> IsBlank(text)
  {
    ConvertOnlyChangesCase(caseType, text);
    SameLowerSameBlank(Convert(caseType, text).value, text);
  }

  // ---------------------------------------------------------------------------
  // Statistics and preview

  datatype Stats = Stats(chars: nat, words: nat)

  /** `updateStatistics`: the length and the number of maximal runs of
      non-whitespace characters, 0 for blank text. */
  function Statistics(text: string): (r: Stats)
    ensures r.chars == |text|
    ensures r.words == WordCounter.TextRuns(text, Spaces)
    ensures r.words == 0 <==> IsBlank(text)
  {
    WordCounter.CountWordsIsRuns(text);
    Stats(|text|, WordCounter.CountWords(text))
  }

  const PreviewLimit: nat := 150
  const Placeholder: string := "Text preview will appear here..."

  /** The preview text of `updatePreview`. */
  function Preview(text: string): (r: string)
    ensures IsBlank(text) ==> r == Placeholder
    ensures !IsBlank(text) && |text| <= PreviewLimit ==> r == text
    ensures !IsBlank(text) && |text| > PreviewLimit ==>
              |r| == PreviewLimit + 3 && r[..PreviewLimit] == text[..PreviewLimit] && r[PreviewLimit..] == "..."
  {
    if IsBlank(text) then Placeholder else Ellipsize(text, PreviewLimit)
  }

  // ---------------------------------------------------------------------------
  // Page state

  const MaxHistory: nat := 50
  const Original: string := "original"

  const WelcomeText: string :=
    "Welcome to Text Case Converter! \U{2728}\n\n"
    + "Type or paste your text above, then click any conversion button.\n\n"
    + "Try this example:\n\"hello world text converter\"\n\n"
    + "Features:\n"
    + "\U{2022} Multiple case conversions\n"
    + "\U{2022} Real-time preview\n"
    + "\U{2022} Copy/paste functionality\n"
    + "\U{2022} Dark/light mode\n"
    + "\U{2022} Mobile responsive\n\n"
    + "Start converting now! \U{1F680}"

  /** One history entry; the time of day it carries is not modelled. */
  datatype Entry = Entry(text: string, caseType: string)

  /** The text box, the case it is shown in, and the undo history. */
  class CaseConverter {
    var text: string
    var currentCaseType: string
    var history: seq<Entry>

    ghost predicate Valid()
      reads this
    {
      |history| <= MaxHistory
    }

    /** The page after `initializeApp`. */
    constructor ()
      ensures Valid()
      ensures text == WelcomeText && currentCaseType == Original && history == []
    {
      text := WelcomeText;
      currentCaseType := Original;
      history := [];
    }

    /** `updatePreview(t, caseType)`: blank text leaves the case alone. */
    method ShowPreview(t: string, caseType: string)
      modifies this
      ensures currentCaseType == (if IsBlank(t) then old(currentCaseType) else caseType)
      ensures text == old(text) && history == old(history)
    {
      if !IsBlank(t) {
        currentCaseType := caseType;
      }
    }

    /** `saveToHistory`: append, then drop the oldest entry past 50. */
    method SaveToHistory(t: string, caseType: string)
      requires Valid()
      modifies this
      ensures Valid()
      ensures history == Lists.PushBackCapped(old(history), Entry(t, caseType), MaxHistory)
      ensures text == old(text) && currentCaseType == old(currentCaseType)
    {
      history := history + [Entry(t, caseType)];
      if |history| > MaxHistory {
        history := history[1..];
      }
    }

    /** `convertText`: blank text is left alone; otherwise the current text
        is saved first, and replaced only when the case type has a
        converter. */
    method ConvertText(caseType: string)
      requires Valid()
      modifies this
      ensures Valid()
      ensures IsBlank(old(text)) ==>
                text == old(text) && currentCaseType == old(currentCaseType) && history == old(history)
      ensures !IsBlank(old(text)) ==>
                && history == Lists.PushBackCapped(old(history), Entry(old(text), old(currentCaseType)), MaxHistory)
                && match Convert(caseType, old(text))
                   case Some(r) => text == r && currentCaseType == caseType
                   case None => text == old(text) && currentCaseType == old(currentCaseType)
    {
      if IsBlank(text) {
        return;
      }
      SaveToHistory(text, currentCaseType);
      var converted := Convert(caseType, text);
      if converted.Some? {
        ConvertKeepsBlank(caseType, text);
        text := converted.value;
        ShowPreview(text, caseType);
      }
    }

    /** `undoAction`: pop the newest entry and restore its text, and its case
        when that text is not blank. */
    method UndoAction()
      requires Valid()
      modifies this
      ensures Valid()
      ensures old(history) == [] ==>
                text == old(text) && currentCaseType == old(currentCaseType) && history == []
      ensures old(history) != [] ==>
                var last := old(history)[|old(history)| - 1];
                && history == old(history)[..|old(history)| - 1]
                && text == last.text
                && currentCaseType == (if IsBlank(last.text) then old(currentCaseType) else last.caseType)
    {
      if |history| > 0 {
        var last := history[|history| - 1];
        history := history[..|history| - 1];
        text := last.text;
        ShowPreview(last.text, last.caseType);
      }
    }

    /** Undo right after a conversion brings back the text and case shown
        before it, and the history it had (less its oldest entry when it
        was full). */
    method ConvertThenUndo(caseType: string)
      requires Valid()
      modifies this
      ensures Valid()
      ensures text == old(text) && currentCaseType == old(currentCaseType)
      ensures IsBlank(old(text)) ==> history == old(history)
      ensures !IsBlank(old(text)) ==>
                history == (if |old(history)| < MaxHistory then old(history) else old(history)[1..])
    {
      ghost var h0 := history;
      ghost var c0 := currentCaseType;
      var t0 := text;
      ConvertText(caseType);
      if !IsBlank(t0) {
        Lists.PushBackCappedSpec(h0, Entry(t0, c0), MaxHistory);
        ghost var h1 := history;
        assert h1 == Lists.PushBackCapped(h0, Entry(t0, c0), MaxHistory);
        assert h1 != [] && h1[|h1| - 1] == Entry(t0, c0);
        UndoAction();
        assert text == t0 && currentCaseType == c0;
      }
    }

    /** `resetActiveButtons` */
    method ResetActiveButtons()
      modifies this
      ensures currentCaseType == Original
      ensures text == old(text) && history == old(history)
    {
      currentCaseType := Original;
    }

    /** `clearText`: non-blank text is saved first; the box empties and the
        case returns to the original. */
    method ClearText()
      requires Valid()
      modifies this
      ensures Valid()
      ensures text == "" && currentCaseType == Original
      ensures history == (if IsBlank(old(text)) then old(history)
                          else Lists.PushBackCapped(old(history), Entry(old(text), old(currentCaseType)), MaxHistory))
    {
      if !IsBlank(text) {
        SaveToHistory(text, currentCaseType);
      }
      text := "";
      ShowPreview("", Original);
      ResetActiveButtons();
    }

    /** `goHome`: non-blank text is saved first, then the welcome text is
        shown and saved as well. */
    method GoHome()
      requires Valid()
      modifies this
      ensures Valid()
      ensures text == WelcomeText && currentCaseType == Original
      ensures var saved := if IsBlank(old(text)) then old(history)
                           else Lists.PushBackCapped(old(history), Entry(old(text), old(currentCaseType)), MaxHistory);
              history == Lists.PushBackCapped(saved, Entry(WelcomeText, Original), MaxHistory)
    {
      if !IsBlank(text) {
        SaveToHistory(text, currentCaseType);
      }
      text := WelcomeText;
      ShowPreview(text, Original);
      ResetActiveButtons();
      SaveToHistory(WelcomeText, Original);
    }

    /** `pasteFromClipboard`: the clipboard text (`None` when it cannot be
        read) is inserted at the cursor, and the new text is saved. */
    method Paste(clipboard: Option<string>, cursor: nat) returns (newCursor: nat)
      requires Valid()
      requires cursor <= |text|
      modifies this
      ensures Valid()
      ensures clipboard.None? ==>
                text == old(text) && currentCaseType == old(currentCaseType)
                && history == old(history) && newCursor == cursor
      ensures clipboard.Some? ==>
                var clip := clipboard.value;
                && text == old(text)[..cursor] + clip + old(text)[cursor..]
                && newCursor == cursor + |clip|
                && text[cursor..newCursor] == clip
                && currentCaseType == Original
                && history == Lists.PushBackCapped(old(history), Entry(text, Original), MaxHistory)
    {
      if clipboard.None? {
        return cursor;
      }
      var clip := clipboard.value;
      var newText := text[..cursor] + clip + text[cursor..];
      text := newText;
      newCursor := cursor + |clip|;
      ShowPreview(newText, Original);
      ResetActiveButtons();
      SaveToHistory(newText, Original);
    }

    /** Typing into the box: the text changes, the case stays. */
    method Input(newText: string)
      modifies this
      ensures text == newText
      ensures currentCaseType == old(currentCaseType) && history == old(history)
    {
      text := newText;
      ShowPreview(newText, currentCaseType);
    }
  }
}
