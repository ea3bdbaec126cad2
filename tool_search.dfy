/**
 * The landing page's search box (script.js): on every input, each tool card
 * is shown exactly when its title, description or tag contains the search
 * term, ignoring case. The elements are looked up by the page; a card
 * without one of them is modelled with `None` there.
 */
module ToolSearch {
  import opened Common
  import opened JsString

  /** The text of a card's heading, paragraph and tag element. */
  datatype Card = Card(title: Option<string>, description: Option<string>, tag: Option<string>)

  /** `el?.textContent.toLowerCase() || ''` */
  function LoweredText(el: Option<string>): string {
    match el
    case None => ""
    case Some(text) => ToLower(text)
  }

  /** The `matches` test of the input handler. */
  function Matches(card: Card, term: string): bool {
    var searchTerm := ToLower(term);
    || Includes(LoweredText(card.title), searchTerm)
    || Includes(LoweredText(card.description), searchTerm)
    || Includes(LoweredText(card.tag), searchTerm)
  }

  /** Whether each card is displayed after the handler has run. */
  function Visibility(cards: seq<Card>, term: string): (shown: seq<bool>)
    ensures |shown| == |cards|
    ensures forall i :: 0 <= i < |cards| ==> shown[i] == Matches(cards[i], term)
    decreases |cards|
  {
    if cards == [] then [] else [Matches(cards[0], term)] + Visibility(cards[1..], term)
  }

  /** The term occurs somewhere in the element's lower-cased text. */
  ghost predicate Contains(el: Option<string>, searchTerm: string) {
    exists i :: OccursAt(LoweredText(el), searchTerm, i)
  }

  /** A card is shown exactly when the lower-cased term occurs in its
      lower-cased title, description or tag. */
  lemma MatchesSpec(card: Card, term: string)
    ensures Matches(card, term) <==>
              Contains(card.title, ToLower(term)) || Contains(card.description, ToLower(term))
              || Contains(card.tag, ToLower(term))
  {
    IncludesIffOccurs(LoweredText(card.title), ToLower(term));
    IncludesIffOccurs(LoweredText(card.description), ToLower(term));
    IncludesIffOccurs(LoweredText(card.tag), ToLower(term));
  }

  /** Clearing the search box shows every card. */
  lemma EmptyTermShowsAll(cards: seq<Card>)
    ensures forall i :: 0 <= i < |cards| ==> Visibility(cards, "")[i]
  {
    forall i | 0 <= i < |cards| ensures Matches(cards[i], "") {
      IncludesEmpty(LoweredText(cards[i].title));
    }
  }

  /** A missing element contributes the empty text, which contains only the
      empty term: a card missing all three is shown only for an empty
      search. */
  lemma MissingElementMatchesOnlyEmpty(card: Card, term: string)
    requires card.title.None? && card.description.None? && card.tag.None?
    ensures Matches(card, term) <==> term == ""
  {
    EmptyIncludesOnlyEmpty(ToLower(term));
  }

  /** A card's visibility depends on its own text and the term only: the
      same card is shown or hidden alike wherever it sits, whatever the
      other cards are. */
  lemma VisibilityPointwise(cards: seq<Card>, others: seq<Card>, i: nat, j: nat, term: string)
    requires i < |cards| && j < |others| && cards[i] == others[j]
    ensures Visibility(cards, term)[i] == Visibility(others, term)[j]
  {
  }

  /** The whole card's text in upper case. */
  function UpperCard(card: Card): Card {
    Card(UpperOption(card.title), UpperOption(card.description), UpperOption(card.tag))
  }

  function UpperOption(el: Option<string>): Option<string> {
    match el
    case None => None
    case Some(text) => Some(ToUpper(text))
  }

  lemma LoweredUpper(el: Option<string>)
    ensures LoweredText(UpperOption(el)) == LoweredText(el)
  {
    if el.Some? {
      LowerOfUpper(el.value);
    }
  }

  /** Matching ignores ASCII case, in the term and in the card's text. */
  lemma CaseInsensitive(card: Card, term: string)
    ensures Matches(card, ToUpper(term)) == Matches(card, term)
    ensures Matches(card, ToLower(term)) == Matches(card, term)
    ensures Matches(UpperCard(card), term) == Matches(card, term)
  {
    LowerOfUpper(term);
    LoweredUpper(card.title);
    LoweredUpper(card.description);
    LoweredUpper(card.tag);
  }
}
