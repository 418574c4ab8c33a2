/** The entities of the trainer: words, the cards that drill them, and the
    forms both take in the saved deck. */
module Deck {
  import opened Common

  /** A card once the deck is loaded. `kind` is the key the card had among its
      word's cards (its subcategory tag, `type` in the source) and `parent` the
      position of its word in the deck. Within one word the keys are distinct,
      so (parent, kind) identifies a card. */
  datatype Card = Card(question: string, answer: string, kind: string, parent: nat)

  /** A word: its category, its cards, whether it was ever reviewed, its
      current review delay in days and the day it is next due. */
  datatype Word = Word(category: string, cards: seq<Card>, seen: bool,
                       delay: Option<real>, duedate: Option<int>)

  /** A card as saved: only its question and answer. */
  datatype StoredCard = StoredCard(question: string, answer: string)

  /** A word as saved: its cards are a list of (key, card) entries, the form of
      an insertion-ordered hash. */
  datatype StoredWord = StoredWord(category: string, cards: seq<(string, StoredCard)>, seen: bool,
                                   delay: Option<real>, duedate: Option<int>)

  /** The keys of a (key, value) list. */
  function Keys<K, V>(entries: seq<(K, V)>): (r: seq<K>)
    ensures |r| == |entries|
    ensures forall k :: 0 <= k < |entries| ==> r[k] == entries[k].0
  {
    if entries == [] then [] else Keys(entries[..|entries| - 1]) + [entries[|entries| - 1].0]
  }
}
