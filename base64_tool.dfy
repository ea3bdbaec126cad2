/**
 * The Base64 page (Base64-Encode-Decode/base64.js): one text area that the
 * encode and decode buttons rewrite in place, and a newest-first history of
 * at most 20 conversions with 50-character previews.
 */
module Base64Tool {
  import opened Common
  import opened JsString
  import Utf8
  import opened Base64Codec
  import Lists

  const MaxHistory: nat := 20
  const PreviewLength: nat := 50

  /** Why a conversion was refused: the warning for empty input, or the
      error shown for anything the decoder rejects. */
  datatype Failure = EmptyInput | InvalidBase64

  datatype Action = Encode | Decode

  /** A history entry; its timestamp is not modelled. */
  datatype HistoryItem = HistoryItem(id: int, action: Action, input: string, output: string,
                                     fullInput: string, fullOutput: string)

  // ---------------------------------------------------------------------------
  // The two transforms

  /** `/^[A-Za-z0-9+/]*={0,2}$/`: alphabet characters followed by at most two
      `=`. */
  predicate MatchesPattern(s: string) {
    exists k :: 0 <= k <= |s| && |s| - k <= 2 && AllBase64(s[..k])
                && forall i :: k <= i < |s| ==> s[i] == '='
  }

  /** `btoa(unescape(encodeURIComponent(text)))`, refused on empty text. */
  function Utf8ToBase64(text: string): (r: Result<string, Failure>)
    ensures r.Err? <==> text == ""
    ensures r.Err? ==> r.error == EmptyInput
  {
    if text == "" then Err(EmptyInput) else Ok(Btoa(Utf8.Encode(text)))
  }

  /** The decode button's transform of the text area's value: trimmed, then
      checked against the pattern, then `decodeURIComponent(escape(atob(text)))`,
      where both calls may throw. */
  function Base64ToUtf8(value: string): (r: Result<string, Failure>)
    ensures r == Err(EmptyInput) <==> IsBlank(value)
    ensures r.Ok? ==> MatchesPattern(Trim(value))
  {
    var text := Trim(value);
    if text == "" then Err(EmptyInput)
    else if !MatchesPattern(text) then Err(InvalidBase64)
    else match Atob(text)
      case None => Err(InvalidBase64)
      case Some(bytes) =>
        match Utf8.Decode(bytes)
        case None => Err(InvalidBase64)
        case Some(decoded) => Ok(decoded)
  }

  // ---------------------------------------------------------------------------
  // Properties of the transforms

  /** Every encoder output passes the decoder's pattern. */
  lemma BtoaMatchesPattern(bs: seq<Utf8.byte>)
    ensures MatchesPattern(Btoa(bs))
  {
    var t := Btoa(bs);
    var k := |EncodeUnpadded(bs)|;
    assert t[..k] == EncodeUnpadded(bs);
    assert |t| - k <= 2 && AllBase64(t[..k]) && forall i :: k <= i < |t| ==> t[i] == '=';
  }

  /** Encoder output is never whitespace at either end, so the decoder's
      `trim` leaves it alone. */
  lemma TrimKeepsBtoa(bs: seq<Utf8.byte>)
    ensures Trim(Btoa(bs)) == Btoa(bs)
  {
    var t := Btoa(bs);
    var u := EncodeUnpadded(bs);
    if bs != [] {
      assert |u| >= 2 && t[0] == u[0];
      assert t[|t| - 1] == '=' || t[|t| - 1] == u[|u| - 1];
    }
    TrimLeavesTrimmed(t);
  }

  /** Decoding what the encoder wrote gives back the original text, and the
      encoder's output passes the validation pattern. */
  lemma EncodeThenDecode(text: string)
    requires text != ""
    ensures Utf8ToBase64(text).Ok?
    ensures MatchesPattern(Utf8ToBase64(text).value)
    ensures Base64ToUtf8(Utf8ToBase64(text).value) == Ok(text)
  {
    var bytes := Utf8.Encode(text);
    var encoded := Btoa(bytes);
    assert encoded != "" by {
      BtoaLength(bytes);
    }
    TrimKeepsBtoa(bytes);
    BtoaMatchesPattern(bytes);
    AtobBtoa(bytes);
    Utf8.DecodeEncode(text);
  }

  /** A successful decode read bytes that are exactly the UTF-8 of the text
      it produced. */
  lemma DecodedReencodes(value: string)
    ensures Base64ToUtf8(value).Ok? ==> Atob(Trim(value)) == Some(Utf8.Encode(Base64ToUtf8(value).value))
  {
    if Base64ToUtf8(value).Ok? {
      var bytes := Atob(Trim(value)).value;
      Utf8.EncodeDecode(bytes, Base64ToUtf8(value).value);
    }
  }

  /** An `=` followed by anything else fails the pattern. */
  lemma DecodeRefusesInnerPadding(value: string, i: nat, j: nat)
    requires i < j < |Trim(value)|
    requires Trim(value)[i] == '=' && Trim(value)[j] != '='
    ensures Base64ToUtf8(value) == Err(InvalidBase64)
  {
    InnerPaddingFailsPattern(Trim(value), i, j);
  }

  lemma InnerPaddingFailsPattern(s: string, i: nat, j: nat)
    requires i < j < |s| && s[i] == '=' && s[j] != '='
    ensures !MatchesPattern(s)
  {
    forall k | 0 <= k <= |s| && |s| - k <= 2 && AllBase64(s[..k])
      ensures k <= j < |s| && s[j] != '='
    {
    }
  }

  /** Alphabet characters of length 4k + 1 pass the pattern, but `atob`
      throws. */
  lemma DecodeRefusesDangling(value: string)
    requires AllBase64(Trim(value)) && |Trim(value)| % 4 == 1
    ensures MatchesPattern(Trim(value))
    ensures Base64ToUtf8(value) == Err(InvalidBase64)
  {
    var s := Trim(value);
    assert s != "";
    DanglingPassesPattern(s);
    DanglingFailsAtob(s);
  }

  lemma DanglingPassesPattern(s: string)
    requires AllBase64(s)
    ensures MatchesPattern(s)
  {
    assert s[..|s|] == s;
  }

  lemma DanglingFailsAtob(s: string)
    requires AllBase64(s) && |s| % 4 == 1
    ensures Atob(s) == None
  {
    forall k | 0 <= k < |s| ensures !IsAsciiWhitespace(s[k]) {
      assert IsBase64Char(s[k]);
    }
    Lists.FilterAllKept(s, (c: char) => !IsAsciiWhitespace(c));
    assert StripPadding(s) == s;
  }

  // ---------------------------------------------------------------------------
  // History

  /** `addToHistory`'s entry: previews cut at 50 characters with `...`, and
      the full strings kept alongside. */
  function MakeItem(id: int, action: Action, input: string, output: string): (item: HistoryItem)
    ensures item.id == id && item.action == action
    ensures item.fullInput == input && item.fullOutput == output
    ensures item.input == Ellipsize(input, PreviewLength) && item.output == Ellipsize(output, PreviewLength)
    ensures |item.input| <= PreviewLength + 3 && |item.output| <= PreviewLength + 3
  {
    HistoryItem(id, action, Ellipsize(input, PreviewLength), Ellipsize(output, PreviewLength),
                input, output)
  }

  /** The position of the first entry with the id, or the length of the
      history when there is none. */
  function FirstIndexOf(history: seq<HistoryItem>, id: int): (k: nat)
    ensures k <= |history|
    ensures forall j :: 0 <= j < k ==> history[j].id != id
    ensures k < |history| ==> history[k].id == id
    decreases |history|
  {
    if history == [] then 0
    else if history[0].id == id then 0
    else 1 + FirstIndexOf(history[1..], id)
  }

  /** `history.find(h => h.id === id)` */
  function FindItem(history: seq<HistoryItem>, id: int): (r: Option<HistoryItem>)
    ensures r.None? <==> forall k :: 0 <= k < |history| ==> history[k].id != id
    ensures r.Some? ==> r.value in history && r.value.id == id
    ensures r.Some? ==> r.value == history[FirstIndexOf(history, id)]
  {
    var k := FirstIndexOf(history, id);
    if k < |history| then Some(history[k]) else None
  }

  // ---------------------------------------------------------------------------
  // The page

  class Base64Page {
    /** The text area's value. */
    var text: string
    var history: seq<HistoryItem>

    ghost predicate Valid()
      reads this
    {
      |history| <= MaxHistory
    }

    constructor ()
      ensures Valid()
      ensures text == "" && history == []
    {
      text := "";
      history := [];
    }

    /** `addToHistory`: the new entry goes first; the 21st is dropped. */
    method AddToHistory(action: Action, input: string, output: string, id: int)
      requires Valid()
      modifies this
      ensures Valid()
      ensures history == Lists.PushFrontCapped(old(history), MakeItem(id, action, input, output), MaxHistory)
      ensures text == old(text)
    {
      var item := MakeItem(id, action, input, output);
      history := [item] + history;
      if |history| > MaxHistory {
        history := history[..|history| - 1];
      }
    }

    /** `encodeText`: the text area is replaced by its encoding and the
        conversion recorded; empty text changes nothing. */
    method EncodeText(id: int) returns (outcome: Result<string, Failure>)
      requires Valid()
      modifies this
      ensures Valid()
      ensures outcome == Utf8ToBase64(old(text))
      ensures outcome.Ok? ==>
                && text == outcome.value
                && history == Lists.PushFrontCapped(old(history),
                                 MakeItem(id, Encode, old(text), outcome.value), MaxHistory)
      ensures outcome.Err? ==> text == old(text) && history == old(history)
    {
      outcome := Utf8ToBase64(text);
      if outcome.Err? {
        return;
      }
      var input := text;
      text := outcome.value;
      AddToHistory(Encode, input, outcome.value, id);
    }

    /** `decodeText`: the trimmed text area is decoded in place and the
        conversion recorded with the trimmed input; a refusal changes
        nothing. */
    method DecodeText(id: int) returns (outcome: Result<string, Failure>)
      requires Valid()
      modifies this
      ensures Valid()
      ensures outcome == Base64ToUtf8(old(text))
      ensures outcome.Ok? ==>
                && text == outcome.value
                && history == Lists.PushFrontCapped(old(history),
                                 MakeItem(id, Decode, Trim(old(text)), outcome.value), MaxHistory)
      ensures outcome.Err? ==> text == old(text) && history == old(history)
    {
      var input := Trim(text);
      outcome := Base64ToUtf8(text);
      if outcome.Err? {
        return;
      }
      text := outcome.value;
      AddToHistory(Decode, input, outcome.value, id);
    }

    /** `loadHistoryItem`: the first entry with the id puts its full output
        in the text area; an unknown id changes nothing. */
    method LoadHistoryItem(id: int)
      modifies this
      ensures FindItem(old(history), id).Some? ==> text == FindItem(old(history), id).value.fullOutput
      ensures FindItem(old(history), id).None? ==> text == old(text)
      ensures history == old(history)
    {
      var item := FindItem(history, id);
      if item.Some? {
        text := item.value.fullOutput;
      }
    }

    /** `clearText` */
    method ClearText()
      modifies this
      ensures text == ""
      ensures history == old(history)
    {
      if text != "" {
        text := "";
      }
    }

    /** `clearHistoryConfirm`: `confirmed` is the answer to the dialog. */
    method ClearHistoryConfirm(confirmed: bool)
      requires Valid()
      modifies this
      ensures Valid()
      ensures history == if old(history) != [] && confirmed then [] else old(history)
      ensures text == old(text)
    {
      if |history| == 0 {
        return;
      }
      if confirmed {
        history := [];
      }
    }
  }

  /** Encoding then decoding on the page leaves the original text in the
      text area and both conversions in the history, newest first. */
  method EncodeDecodeOnPage(page: Base64Page, id1: int, id2: int)
    requires page.Valid() && page.text != ""
    modifies page
    ensures page.Valid()
    ensures page.text == old(page.text)
    ensures |page.history| >= 2 && page.history[0].action == Decode && page.history[1].action == Encode
    ensures page.history[0].fullOutput == old(page.text) && page.history[1].fullInput == old(page.text)
  {
    var original := page.text;
    EncodeThenDecode(original);
    var encoded := page.EncodeText(id1);
    Lists.PushFrontCappedSpec(old(page.history), MakeItem(id1, Encode, original, encoded.value), MaxHistory);
    var h1 := page.history;
    var decoded := page.DecodeText(id2);
    TrimKeepsBtoa(Utf8.Encode(original));
    Lists.PushFrontCappedSpec(h1, MakeItem(id2, Decode, encoded.value, original), MaxHistory);
  }
}
