/** The word database: loading the saved deck (unpack), saving it back (pack),
    and the per-session bookkeeping of seen words and review outcomes. */
module WordDb {
  import opened Common
  import opened Deck

  // ---------------------------------------------------------------------
  // Loading: the values unpack builds

  /** The cards word `w` has once loaded: every stored (key, card) entry
      becomes a card whose kind is the key and whose parent is `w`. */
  function UnpackCards(w: nat, entries: seq<(string, StoredCard)>): seq<Card>
  {
    seq(|entries|, k requires 0 <= k < |entries| =>
      Card(entries[k].1.question, entries[k].1.answer, entries[k].0, w))
  }

  /** The loaded form of the word at position `w`. */
  function UnpackWord(w: nat, sw: StoredWord): Word
  {
    Word(sw.category, UnpackCards(w, sw.cards), sw.seen, sw.delay, sw.duedate)
  }

  function UnpackWords(stored: seq<StoredWord>): seq<Word>
  {
    seq(|stored|, i requires 0 <= i < |stored| => UnpackWord(i, stored[i]))
  }

  /** The category of every word, in deck order, repetitions included. */
  function CategoryList(stored: seq<StoredWord>): seq<string>
  {
    seq(|stored|, i requires 0 <= i < |stored| => stored[i].category)
  }

  /** Every card key of every word, in deck order, repetitions included. */
  function KindList(stored: seq<StoredWord>): seq<string>
  {
    if stored == [] then [] else KindList(stored[..|stored| - 1]) + Keys(stored[|stored| - 1].cards)
  }

  /** Every stored card of every word, in deck order. */
  function AllCards(stored: seq<StoredWord>): seq<StoredCard>
  {
    if stored == [] then [] else AllCards(stored[..|stored| - 1]) + Values(stored[|stored| - 1].cards)
  }

  function Values<K, V>(entries: seq<(K, V)>): (r: seq<V>)
    ensures |r| == |entries|
    ensures forall k :: 0 <= k < |entries| ==> r[k] == entries[k].1
  {
    if entries == [] then [] else Values(entries[..|entries| - 1]) + [entries[|entries| - 1].1]
  }

  function Get<K, V>(m: map<K, seq<V>>, key: K): seq<V>
  {
    if key in m then m[key] else []
  }

  /** The question bank: for every question, the answers of the cards asking
      it, in card order (`@qabank[q] ||= []; @qabank[q] << a`). */
  function Bank(cards: seq<StoredCard>): map<string, seq<string>>
  {
    if cards == [] then map[]
    else
      var bank := Bank(cards[..|cards| - 1]);
      var c := cards[|cards| - 1];
      bank[c.question := Get(bank, c.question) + [c.answer]]
  }

  /** A question is in the bank iff some card asks it, and an answer is
      listed for it iff some card pairs the two. */
  lemma {:induction false} BankSpec(cards: seq<StoredCard>, q: string, a: string)
    ensures q in Bank(cards) <==> exists k :: 0 <= k < |cards| && cards[k].question == q
    ensures a in Get(Bank(cards), q) <==> StoredCard(q, a) in cards
  {
    if cards != [] {
      var init := cards[..|cards| - 1];
      BankSpec(init, q, a);
      assert cards == init + [cards[|cards| - 1]];
      if q in Bank(cards) && q !in Bank(init) {
        assert cards[|cards| - 1].question == q;
      }
      if exists k :: 0 <= k < |cards| && cards[k].question == q {
        var k :| 0 <= k < |cards| && cards[k].question == q;
        if k < |init| {
          assert init[k].question == q;
        }
      }
    }
  }

  /** A stored card belongs to the deck iff some word lists it. */
  lemma {:induction false} AllCardsSpec(stored: seq<StoredWord>, c: StoredCard)
    ensures c in AllCards(stored) <==>
              exists i, k :: 0 <= i < |stored| && 0 <= k < |stored[i].cards| && stored[i].cards[k].1 == c
  {
    if stored != [] {
      var init := stored[..|stored| - 1];
      var last := stored[|stored| - 1];
      AllCardsSpec(init, c);
      if c in Values(last.cards) {
        var k :| 0 <= k < |last.cards| && Values(last.cards)[k] == c;
        assert stored[|stored| - 1].cards[k].1 == c;
      }
      if exists i, k :: 0 <= i < |stored| && 0 <= k < |stored[i].cards| && stored[i].cards[k].1 == c {
        var i, k :| 0 <= i < |stored| && 0 <= k < |stored[i].cards| && stored[i].cards[k].1 == c;
        if i < |init| {
          assert init[i].cards[k].1 == c;
        } else {
          assert Values(last.cards)[k] == c;
        }
      }
    }
  }

  function QaBank(stored: seq<StoredWord>): map<string, seq<string>>
  {
    Bank(AllCards(stored))
  }

  /** The confusion pairs relate `a` and `b`, in either order. */
  ghost predicate Linked(pairs: seq<(nat, nat)>, a: nat, b: nat)
  {
    exists k :: 0 <= k < |pairs| && (pairs[k] == (a, b) || pairs[k] == (b, a))
  }

  /** The confusion map unpack builds: each pair (a, b) appends b to a's list
      and a to b's list. */
  function Adjacency(pairs: seq<(nat, nat)>): map<nat, seq<nat>>
  {
    if pairs == [] then map[]
    else
      var m := Adjacency(pairs[..|pairs| - 1]);
      var (a, b) := pairs[|pairs| - 1];
      var m1 := m[a := Get(m, a) + [b]];
      m1[b := Get(m1, b) + [a]]
  }

  /** `b` is listed among the rivals of `a` iff a pair links them; `a` has a
      list iff it occurs in some pair. Hence the map is symmetric. */
  lemma {:induction false} AdjacencySpec(pairs: seq<(nat, nat)>, a: nat, b: nat)
    ensures b in Get(Adjacency(pairs), a) <==> Linked(pairs, a, b)
    ensures a in Adjacency(pairs) <==> exists k :: 0 <= k < |pairs| && (pairs[k].0 == a || pairs[k].1 == a)
  {
    if pairs != [] {
      var init := pairs[..|pairs| - 1];
      AdjacencySpec(init, a, b);
      var last := pairs[|pairs| - 1];
      if Linked(pairs, a, b) && !Linked(init, a, b) {
        assert last == (a, b) || last == (b, a);
      }
      if Linked(init, a, b) {
        var k :| 0 <= k < |init| && (init[k] == (a, b) || init[k] == (b, a));
        assert pairs[k] == init[k];
      }
      if exists k :: 0 <= k < |pairs| && (pairs[k].0 == a || pairs[k].1 == a) {
        var k :| 0 <= k < |pairs| && (pairs[k].0 == a || pairs[k].1 == a);
        if k < |init| {
          assert init[k] == pairs[k];
        }
      }
      if exists k :: 0 <= k < |init| && (init[k].0 == a || init[k].1 == a) {
        var k :| 0 <= k < |init| && (init[k].0 == a || init[k].1 == a);
        assert pairs[k] == init[k];
      }
    }
  }

  /** Confusion is symmetric. */
  lemma AdjacencySymmetric(pairs: seq<(nat, nat)>, a: nat, b: nat)
    ensures b in Get(Adjacency(pairs), a) <==> a in Get(Adjacency(pairs), b)
  {
    AdjacencySpec(pairs, a, b);
    AdjacencySpec(pairs, b, a);
  }

  // ---------------------------------------------------------------------
  // Saving: the values pack builds

  /** Ruby's `hash[key] = value` on an insertion-ordered hash: an existing key
      keeps its place and takes the new value, a new key goes at the end. */
  function Put<K(==), V>(entries: seq<(K, V)>, key: K, value: V): seq<(K, V)>
  {
    if entries == [] then [(key, value)]
    else if entries[0].0 == key then [(key, value)] + entries[1..]
    else [entries[0]] + Put(entries[1..], key, value)
  }

  lemma {:induction false} PutNew<K, V>(entries: seq<(K, V)>, key: K, value: V)
    requires key !in Keys(entries)
    ensures Put(entries, key, value) == entries + [(key, value)]
  {
    if entries != [] {
      assert Keys(entries[1..]) == Keys(entries)[1..];
      PutNew(entries[1..], key, value);
      assert [entries[0]] + (entries[1..] + [(key, value)]) == entries + [(key, value)];
    }
  }

  /** The stored cards pack makes from a word's cards: each card, keyed by its
      kind, with only its question and answer. */
  function PackCards(cards: seq<Card>): seq<(string, StoredCard)>
  {
    if cards == [] then []
    else
      var c := cards[|cards| - 1];
      Put(PackCards(cards[..|cards| - 1]), c.kind, StoredCard(c.question, c.answer))
  }

  function PackWord(word: Word): StoredWord
  {
    StoredWord(word.category, PackCards(word.cards), word.seen, word.delay, word.duedate)
  }

  /** Saving the cards a word was loaded with gives back its stored cards,
      because the keys of a stored word are distinct (they are hash keys). */
  lemma {:induction false} PackUnpackCards(w: nat, entries: seq<(string, StoredCard)>)
    requires Distinct(Keys(entries))
    ensures PackCards(UnpackCards(w, entries)) == entries
  {
    if entries != [] {
      var init := entries[..|entries| - 1];
      var last := entries[|entries| - 1];
      assert Keys(init) == Keys(entries)[..|init|];
      assert UnpackCards(w, entries)[..|init|] == UnpackCards(w, init);
      PackUnpackCards(w, init);
      assert last.0 !in Keys(init) by {
        assert Keys(entries)[|init|] == last.0;
      }
      PutNew(init, last.0, last.1);
      assert init + [last] == entries;
    }
  }

  /** Loading and then saving a word changes nothing. */
  lemma PackUnpackWord(w: nat, sw: StoredWord)
    requires Distinct(Keys(sw.cards))
    ensures PackWord(UnpackWord(w, sw)) == sw
  {
    PackUnpackCards(w, sw.cards);
  }

  /** The pairs (i, j) with i < j < hi that pack emits for word i. */
  function Row(adj: map<nat, seq<nat>>, i: nat, hi: nat): seq<(nat, nat)>
    decreases hi
  {
    if hi <= i + 1 then []
    else Row(adj, i, hi - 1) + (if i in adj && hi - 1 in adj[i] then [(i, hi - 1)] else [])
  }

  /** The confusion list pack emits for the first `upto` words of `n`: every
      pair (i, j) with i < j < n and j among the rivals of i, in order. */
  function PackPairs(adj: map<nat, seq<nat>>, n: nat, upto: nat): seq<(nat, nat)>
  {
    if upto == 0 then [] else PackPairs(adj, n, upto - 1) + Row(adj, upto - 1, n)
  }

  /** (i, j) precedes (i', j') in lexicographic order. */
  predicate PairBefore(p: (nat, nat), q: (nat, nat))
  {
    p.0 < q.0 || (p.0 == q.0 && p.1 < q.1)
  }

  lemma {:induction false} RowSpec(adj: map<nat, seq<nat>>, i: nat, hi: nat)
    ensures forall p :: p in Row(adj, i, hi) <==> p.0 == i && i < p.1 < hi && i in adj && p.1 in adj[i]
    ensures forall x, y :: 0 <= x < y < |Row(adj, i, hi)| ==> PairBefore(Row(adj, i, hi)[x], Row(adj, i, hi)[y])
    decreases hi
  {
    if hi > i + 1 {
      RowSpec(adj, i, hi - 1);
    }
  }

  /** pack emits exactly the rival pairs (i, j) with i < j < n, each once, in
      lexicographic order. */
  lemma {:induction false} PackPairsSpec(adj: map<nat, seq<nat>>, n: nat, upto: nat)
    ensures forall p :: p in PackPairs(adj, n, upto) <==>
                          p.0 < upto && p.0 < p.1 < n && p.0 in adj && p.1 in adj[p.0]
    ensures forall x, y :: 0 <= x < y < |PackPairs(adj, n, upto)| ==>
                             PairBefore(PackPairs(adj, n, upto)[x], PackPairs(adj, n, upto)[y])
  {
    if upto > 0 {
      PackPairsSpec(adj, n, upto - 1);
      RowSpec(adj, upto - 1, n);
      var front, row := PackPairs(adj, n, upto - 1), Row(adj, upto - 1, n);
      assert forall p :: p in front ==> p.0 < upto - 1;
      forall x, y | 0 <= x < y < |front + row| ensures PairBefore((front + row)[x], (front + row)[y]) {
        if y < |front| {
          assert (front + row)[x] == front[x] && (front + row)[y] == front[y];
        } else if x < |front| {
          assert (front + row)[x] == front[x] && front[x] in front;
          assert (front + row)[y] == row[y - |front|] && row[y - |front|] in row;
        } else {
          assert (front + row)[x] == row[x - |front|] && (front + row)[y] == row[y - |front|];
        }
      }
    }
  }

  /** Saving the confusion map and loading it again links the same two words,
      except that a word paired with itself is dropped. */
  lemma PackPairsRoundTrip(pairs: seq<(nat, nat)>, n: nat, a: nat, b: nat)
    requires a < n && b < n
    ensures Linked(PackPairs(Adjacency(pairs), n, n), a, b) <==> a != b && Linked(pairs, a, b)
  {
    var adj := Adjacency(pairs);
    var packed := PackPairs(adj, n, n);
    PackPairsSpec(adj, n, n);
    AdjacencySpec(pairs, a, b);
    AdjacencySpec(pairs, b, a);
    if Linked(packed, a, b) {
      var k :| 0 <= k < |packed| && (packed[k] == (a, b) || packed[k] == (b, a));
      assert packed[k] in packed;
    }
    if a != b && Linked(pairs, a, b) {
      if a < b {
        assert (a, b) in packed;
        var k :| 0 <= k < |packed| && packed[k] == (a, b);
      } else {
        assert (b, a) in packed;
        var k :| 0 <= k < |packed| && packed[k] == (b, a);
      }
    }
  }

  function PackWords(words: seq<Word>): seq<StoredWord>
  {
    seq(|words|, i requires 0 <= i < |words| => PackWord(words[i]))
  }

  // ---------------------------------------------------------------------
  // The loops of unpack and pack

  /** unpack: builds the loaded words, the category and subcategory lists,
      the question bank and the confusion map from the saved deck. */
  method Unpack(stored: seq<StoredWord>, pairs: seq<(nat, nat)>)
    returns (words: seq<Word>, categories: seq<string>, subcategories: seq<string>,
             qabank: map<string, seq<string>>, confusion: map<nat, seq<nat>>)
    ensures words == UnpackWords(stored)
    ensures categories == Uniq(CategoryList(stored))
    ensures subcategories == Uniq(KindList(stored))
    ensures qabank == QaBank(stored)
    ensures confusion == Adjacency(pairs)
  {
    words := [];
    var categoryList, kindList := [], [];
    qabank := map[];
    var i := 0;
    while i < |stored|
      invariant 0 <= i <= |stored|
      invariant words == UnpackWords(stored[..i])
      invariant categoryList == CategoryList(stored[..i])
      invariant kindList == KindList(stored[..i])
      invariant qabank == Bank(AllCards(stored[..i]))
    {
      var word := stored[i];
      StoredSnoc(stored, i);
      categoryList := categoryList + [word.category];
      var altCards, kinds;
      altCards, kinds, qabank := UnpackEntries(i, word.cards, qabank, AllCards(stored[..i]));
      kindList := kindList + kinds;
      words := words + [Word(word.category, altCards, word.seen, word.delay, word.duedate)];
      i := i + 1;
    }
    assert stored[..i] == stored;
    categories := Uniq(categoryList);
    subcategories := Uniq(kindList);
    confusion := UnpackConfusion(pairs);
  }

  /** The loop of unpack over the saved confusion list: each pair is linked
      in both directions. */
  method UnpackConfusion(pairs: seq<(nat, nat)>) returns (confusion: map<nat, seq<nat>>)
    ensures confusion == Adjacency(pairs)
  {
    confusion := map[];
    var j := 0;
    while j < |pairs|
      invariant 0 <= j <= |pairs|
      invariant confusion == Adjacency(pairs[..j])
    {
      var (first, second) := pairs[j];
      assert pairs[..j + 1][..j] == pairs[..j];
      confusion := confusion[first := Get(confusion, first) + [second]];
      confusion := confusion[second := Get(confusion, second) + [first]];
      j := j + 1;
    }
    assert pairs[..j] == pairs;
  }

  lemma BankSnoc(cards: seq<StoredCard>, c: StoredCard)
    ensures Bank(cards + [c]) == Bank(cards)[c.question := Get(Bank(cards), c.question) + [c.answer]]
  {
    assert (cards + [c])[..|cards|] == cards;
  }

  lemma EntriesSnoc(w: nat, entries: seq<(string, StoredCard)>, k: nat)
    requires k < |entries|
    ensures UnpackCards(w, entries[..k + 1])
            == UnpackCards(w, entries[..k]) + [Card(entries[k].1.question, entries[k].1.answer, entries[k].0, w)]
    ensures Keys(entries[..k + 1]) == Keys(entries[..k]) + [entries[k].0]
    ensures Values(entries[..k + 1]) == Values(entries[..k]) + [entries[k].1]
  {
    assert entries[..k + 1][..k] == entries[..k];
  }

  lemma StoredSnoc(stored: seq<StoredWord>, i: nat)
    requires i < |stored|
    ensures UnpackWords(stored[..i + 1]) == UnpackWords(stored[..i]) + [UnpackWord(i, stored[i])]
    ensures CategoryList(stored[..i + 1]) == CategoryList(stored[..i]) + [stored[i].category]
    ensures KindList(stored[..i + 1]) == KindList(stored[..i]) + Keys(stored[i].cards)
    ensures AllCards(stored[..i + 1]) == AllCards(stored[..i]) + Values(stored[i].cards)
  {
    assert stored[..i + 1][..i] == stored[..i];
  }

  /** The inner loop of unpack over the cards of the word at position `w`:
      the loaded cards, their keys, and the question bank extended by them. */
  method UnpackEntries(w: nat, entries: seq<(string, StoredCard)>,
                       bank: map<string, seq<string>>, ghost earlier: seq<StoredCard>)
    returns (cards: seq<Card>, kinds: seq<string>, qabank: map<string, seq<string>>)
    requires bank == Bank(earlier)
    ensures cards == UnpackCards(w, entries)
    ensures kinds == Keys(entries)
    ensures qabank == Bank(earlier + Values(entries))
  {
    cards, kinds, qabank := [], [], bank;
    var k := 0;
    assert earlier + Values(entries[..0]) == earlier;
    while k < |entries|
      invariant 0 <= k <= |entries|
      invariant cards == UnpackCards(w, entries[..k])
      invariant kinds == Keys(entries[..k])
      invariant qabank == Bank(earlier + Values(entries[..k]))
    {
      var (kind, card) := entries[k];
      ghost var prefix := earlier + Values(entries[..k]);
      EntriesSnoc(w, entries, k);
      assert prefix + [card] == earlier + Values(entries[..k + 1]);
      BankSnoc(prefix, card);
      qabank := qabank[card.question := Get(qabank, card.question) + [card.answer]];
      cards := cards + [Card(card.question, card.answer, kind, w)];
      kinds := kinds + [kind];
      k := k + 1;
    }
    assert entries[..k] == entries;
  }

  /** The first loop of pack: every word's cards back into a (key, card)
      list. */
  method PackWordList(words: seq<Word>) returns (stored: seq<StoredWord>)
    ensures stored == PackWords(words)
  {
    stored := [];
    var i := 0;
    while i < |words|
      invariant 0 <= i <= |words|
      invariant stored == PackWords(words[..i])
    {
      var word := words[i];
      var altCards := [];
      var k := 0;
      while k < |word.cards|
        invariant 0 <= k <= |word.cards|
        invariant altCards == PackCards(word.cards[..k])
      {
        var card := word.cards[k];
        assert word.cards[..k + 1][..k] == word.cards[..k];
        altCards := Put(altCards, card.kind, StoredCard(card.question, card.answer));
        k := k + 1;
      }
      assert word.cards[..k] == word.cards;
      stored := stored + [StoredWord(word.category, altCards, word.seen, word.delay, word.duedate)];
      i := i + 1;
    }
    assert words[..i] == words;
  }

  /** A word without rivals contributes no pair. */
  lemma {:induction false} RowOfUnlinked(adj: map<nat, seq<nat>>, i: nat, hi: nat)
    requires i !in adj
    ensures Row(adj, i, hi) == []
    decreases hi
  {
    if hi > i + 1 {
      RowOfUnlinked(adj, i, hi - 1);
    }
  }

  /** The inner loop of pack's second loop: the rivals j of word i with
      i < j < n, in order. */
  method PackRow(confusion: map<nat, seq<nat>>, i: nat, n: nat) returns (row: seq<(nat, nat)>)
    requires i in confusion && i < n
    ensures row == Row(confusion, i, n)
  {
    row := [];
    var j := i + 1;
    while j < n
      invariant i + 1 <= j <= n
      invariant row == Row(confusion, i, j)
    {
      if j in confusion[i] {
        row := row + [(i, j)];
      }
      j := j + 1;
    }
  }

  /** The second loop of pack: the rival pairs (i, j), i < j < n. */
  method PackConfusion(confusion: map<nat, seq<nat>>, n: nat) returns (pairs: seq<(nat, nat)>)
    ensures pairs == PackPairs(confusion, n, n)
  {
    pairs := [];
    var i := 0;
    while i < n
      invariant 0 <= i <= n
      invariant pairs == PackPairs(confusion, n, i)
    {
      if i !in confusion {
        RowOfUnlinked(confusion, i, n);
        i := i + 1;
        continue;
      }
      var row := PackRow(confusion, i, n);
      pairs := pairs + row;
      i := i + 1;
    }
  }

  // ---------------------------------------------------------------------
  // Review bookkeeping

  /** handleWord's three ways out: a card of the word was never answered
      (the word is postponed to tomorrow), the delay was recomputed, or the
      word has no cards: the Float sum divided by 0 is NaN, the delay becomes
      NaN and `Integer` of the due day raises FloatDomainError. */
  datatype Review = Postponed | Rescheduled | NoCards

  /** Every card has a recorded outcome. */
  predicate Recorded(cards: seq<Card>, success: map<Card, real>)
  {
    forall k :: 0 <= k < |cards| ==> cards[k] in success
  }

  /** The sum of the recorded outcomes of the cards. */
  function Total(cards: seq<Card>, success: map<Card, real>): real
    requires Recorded(cards, success)
  {
    if cards == [] then 0.0
    else Total(cards[..|cards| - 1], success) + success[cards[|cards| - 1]]
  }

  /** With outcomes between 0 and 1, the fraction of successes over a word's
      cards is between 0 and 1. */
  lemma {:induction false} TotalBounds(cards: seq<Card>, success: map<Card, real>)
    requires Recorded(cards, success)
    requires forall c :: c in success ==> 0.0 <= success[c] <= 1.0
    ensures 0.0 <= Total(cards, success) <= |cards| as real
  {
    if cards != [] {
      assert Recorded(cards[..|cards| - 1], success);
      TotalBounds(cards[..|cards| - 1], success);
    }
  }

  /** The loop of handleWord over the cards: it stops at the first card
      without an outcome, and otherwise sums the outcomes. */
  method Tally(cards: seq<Card>, success: map<Card, real>) returns (complete: bool, total: real)
    ensures complete <==> Recorded(cards, success)
    ensures complete ==> total == Total(cards, success)
  {
    total := 0.0;
    var k := 0;
    while k < |cards|
      invariant 0 <= k <= |cards|
      invariant Recorded(cards[..k], success)
      invariant total == Total(cards[..k], success)
    {
      assert cards[..k + 1][..k] == cards[..k];
      if cards[k] !in success {
        return false, total;
      }
      total := total + success[cards[k]];
      k := k + 1;
    }
    assert cards[..k] == cards;
    return true, total;
  }

  /** Which way handleWord leaves for a word with these cards. */
  function ReviewOf(cards: seq<Card>, success: map<Card, real>): (r: Review)
    ensures r == Postponed <==> exists k :: 0 <= k < |cards| && cards[k] !in success
    ensures r == NoCards <==> cards == []
  {
    if !Recorded(cards, success) then Postponed
    else if cards == [] then NoCards
    else Rescheduled
  }

  /** The delay a word has before its review: its own, or the default one. */
  function Fallback(delay: Option<real>, defaultDelay: real): real
  {
    if delay.Some? then delay.value else defaultDelay
  }

  /** The due day of a word reviewed `today` with this delay: the source
      rounds `0.5 + today + delay * jitter` with `Integer`, `jitter` being
      its random factor exp((rand - 0.5) * $Noise). */
  function DueDay(today: int, delay: real, jitter: real): (r: int)
    ensures 0.0 <= 0.5 + today as real + delay * jitter ==>
              r as real <= 0.5 + today as real + delay * jitter < r as real + 1.0
  {
    Truncate(0.5 + today as real + delay * jitter)
  }

  /** What handleWord does to a word, given the recorded outcomes: the word
      is seen; with an unanswered card it is due tomorrow at the default
      delay; with no cards the review stops where the source raises
      FloatDomainError (`Integer` of a NaN due day), the delay holding the
      value it had before the NaN is stored and the due day untouched;
      otherwise the delay is recomputed from the
      fraction of successes and the word is due that many days (times the
      random `jitter`) from today, rounded as `Integer(0.5 + x)` does. */
  ghost predicate ReviewedBy(before: Word, after: Word, jitter: real, success: map<Card, real>,
                             today: int, defaultDelay: real, reviewDelay: (real, real) -> real)
  {
    && after.category == before.category && after.cards == before.cards && after.seen
    && if !Recorded(before.cards, success) then
         after.delay == Some(defaultDelay) && after.duedate == Some(today + 1)
       else if before.cards == [] then
         after.delay == Some(Fallback(before.delay, defaultDelay)) && after.duedate == before.duedate
       else
         var fraction := Total(before.cards, success) / |before.cards| as real;
         var delay := reviewDelay(fraction, Fallback(before.delay, defaultDelay));
         after.delay == Some(delay) && after.duedate == Some(DueDay(today, delay, jitter))
  }

  /** The body of handleWord on one word. */
  method ReviewWord(word: Word, success: map<Card, real>, today: int, defaultDelay: real,
                    reviewDelay: (real, real) -> real, jitter: real)
    returns (updated: Word, outcome: Review)
    ensures outcome == ReviewOf(word.cards, success)
    ensures ReviewedBy(word, updated, jitter, success, today, defaultDelay, reviewDelay)
  {
    updated := word.(seen := true);
    var complete, runningTotal := Tally(word.cards, success);
    if !complete {
      updated := updated.(delay := Some(defaultDelay), duedate := Some(1 + today));
      return updated, Postponed;
    }
    if updated.delay.None? {
      updated := updated.(delay := Some(defaultDelay));
    }
    if |word.cards| == 0 {
      return updated, NoCards;
    }
    runningTotal := runningTotal / |word.cards| as real;
    var delay := reviewDelay(runningTotal, updated.delay.value);
    updated := updated.(delay := Some(delay), duedate := Some(DueDay(today, delay, jitter)));
    outcome := Rescheduled;
  }

  /** The words keep the categories and the cards they were loaded with. */
  ghost predicate Matches(words: seq<Word>, loaded: seq<StoredWord>)
  {
    && |words| == |loaded|
    && forall i :: 0 <= i < |words| ==>
         words[i].category == loaded[i].category && words[i].cards == UnpackCards(i, loaded[i].cards)
  }

  /** Replacing a word by one with the same category and cards keeps the
      match. */
  lemma ReplaceMatches(words: seq<Word>, loaded: seq<StoredWord>, w: nat, updated: Word)
    requires Matches(words, loaded) && w < |words|
    requires updated.category == words[w].category && updated.cards == words[w].cards
    ensures Matches(words[w := updated], loaded)
  {
  }

  /** Every category of a word is among the categories of the loaded
      deck. */
  lemma CategoriesListed(words: seq<Word>, loaded: seq<StoredWord>, categories: seq<string>)
    requires Matches(words, loaded) && categories == Uniq(CategoryList(loaded))
    ensures forall i :: 0 <= i < |words| ==> words[i].category in categories
  {
    forall i | 0 <= i < |words|
      ensures words[i].category in categories
    {
      assert CategoryList(loaded)[i] == words[i].category;
    }
  }

  /** Every rival listed in the adjacency of pairs of words below `n` is
      below `n`. */
  lemma RivalsWithin(pairs: seq<(nat, nat)>, n: nat)
    requires forall k :: 0 <= k < |pairs| ==> pairs[k].0 < n && pairs[k].1 < n
    ensures forall a, k :: a in Adjacency(pairs) && 0 <= k < |Adjacency(pairs)[a]| ==> Adjacency(pairs)[a][k] < n
  {
    forall a, k | a in Adjacency(pairs) && 0 <= k < |Adjacency(pairs)[a]|
      ensures Adjacency(pairs)[a][k] < n
    {
      var b := Adjacency(pairs)[a][k];
      AdjacencySpec(pairs, a, b);
      var j :| 0 <= j < |pairs| && (pairs[j] == (a, b) || pairs[j] == (b, a));
    }
  }

  /** A card of the loaded deck has the question and answer exactly when a
      card of the unpacked words does. */
  lemma StoredCardsMatch(words: seq<Word>, loaded: seq<StoredWord>, question: string, answer: string)
    requires Matches(words, loaded)
    ensures (exists i, k :: 0 <= i < |loaded| && 0 <= k < |loaded[i].cards| &&
                           loaded[i].cards[k].1 == StoredCard(question, answer))
            <==> (exists i, k :: 0 <= i < |words| && 0 <= k < |words[i].cards| &&
                                 words[i].cards[k].question == question && words[i].cards[k].answer == answer)
  {
    if exists i, k :: 0 <= i < |words| && 0 <= k < |words[i].cards| &&
                      words[i].cards[k].question == question && words[i].cards[k].answer == answer {
      var i, k :| 0 <= i < |words| && 0 <= k < |words[i].cards| &&
                  words[i].cards[k].question == question && words[i].cards[k].answer == answer;
      assert loaded[i].cards[k].1 == StoredCard(question, answer);
    }
    if exists i, k :: 0 <= i < |loaded| && 0 <= k < |loaded[i].cards| &&
                      loaded[i].cards[k].1 == StoredCard(question, answer) {
      var i, k :| 0 <= i < |loaded| && 0 <= k < |loaded[i].cards| &&
                  loaded[i].cards[k].1 == StoredCard(question, answer);
      assert words[i].cards[k].question == question && words[i].cards[k].answer == answer;
    }
  }

  /** The database of words: the loaded deck, the confusion map, the
      question bank and the outcomes recorded in this session. */
  class WordDatabase {
    /** The deck and the confusion list as read from the file. */
    ghost const loaded: seq<StoredWord>
    ghost const loadedPairs: seq<(nat, nat)>
    const confusion: map<nat, seq<nat>>
    const categories: seq<string>
    const subcategories: seq<string>
    const qabank: map<string, seq<string>>
    /** The current day number. */
    const today: int
    /** `$defaultDelay`, in days. */
    const defaultDelay: real
    /** The new delay after a review, from the fraction of cards answered
        correctly and the previous delay: in the source
        exp(f * log(2 * d) + (1 - f) * log(defaultDelay)). */
    const reviewDelay: (real, real) -> real
    var words: seq<Word>
    var seenToday: set<nat>
    var success: map<Card, real>

    ghost predicate Valid()
      reads this
    {
      && Matches(words, loaded)
      && (forall i :: 0 <= i < |loaded| ==> Distinct(Keys(loaded[i].cards)))
      && (forall k :: 0 <= k < |loadedPairs| ==> loadedPairs[k].0 < |loaded| && loadedPairs[k].1 < |loaded|)
      && Linkage()
      && categories == Uniq(CategoryList(loaded))
      && subcategories == Uniq(KindList(loaded))
      && qabank == QaBank(loaded)
      && (forall w :: w in seenToday ==> w < |words|)
    }

    /** Loads the deck: `stored` and `pairs` are the file's words and
        confusion list, `now` the clock in seconds and `gmtOffset` the local
        offset from UTC. */
    constructor (stored: seq<StoredWord>, pairs: seq<(nat, nat)>, now: int, gmtOffset: int,
                 defaultDelay: real, reviewDelay: (real, real) -> real)
      requires forall i :: 0 <= i < |stored| ==> Distinct(Keys(stored[i].cards))
      requires forall k :: 0 <= k < |pairs| ==> pairs[k].0 < |stored| && pairs[k].1 < |stored|
      ensures Valid()
      ensures loaded == stored && loadedPairs == pairs
      ensures words == UnpackWords(stored) && seenToday == {} && success == map[]
      ensures today * 86400 <= now + gmtOffset < (today + 1) * 86400
      ensures this.defaultDelay == defaultDelay && this.reviewDelay == reviewDelay
    {
      var w, c, sc, b, conf := Unpack(stored, pairs);
      loaded, loadedPairs := stored, pairs;
      words, categories, subcategories, qabank, confusion := w, c, sc, b, conf;
      seenToday, success := {}, map[];
      today := (now + gmtOffset) / (24 * 3600);
      this.defaultDelay, this.reviewDelay := defaultDelay, reviewDelay;
    }

    /** Every word's category is listed, and every rival is a word of the
        deck. */
    ghost predicate Covers()
      reads this
    {
      && (forall i :: 0 <= i < |words| ==> words[i].category in categories)
      && (forall a, k :: a in confusion && 0 <= k < |confusion[a]| ==> confusion[a][k] < |words|)
    }

    /** A valid database covers its words. */
    lemma Covered()
      requires Valid()
      ensures Covers()
    {
      CategoriesListed(words, loaded, categories);
      RivalsWithin(loadedPairs, |words|);
    }

    /** The confusion map is the adjacency of the confusion list as
        loaded. */
    ghost predicate Linkage()
    {
      confusion == Adjacency(loadedPairs)
    }

    /** Two cards are confused when their words are linked in the confusion
        list, in either order. */
    function Confused(card1: Card, card2: Card): (r: bool)
      requires Linkage()
      ensures r <==> Linked(loadedPairs, card1.parent, card2.parent)
    {
      AdjacencySpec(loadedPairs, card1.parent, card2.parent);
      card1.parent in confusion && card2.parent in confusion[card1.parent]
    }

    /** `confused` as first written: `include?[p2]` calls `include?` without
        an argument, which raises (None) whenever the first word has rivals;
        otherwise the answer is false. */
    function ConfusedFirstVersion(card1: Card, card2: Card): (r: Option<bool>)
      requires Linkage()
      ensures r == None <==>
                exists k :: 0 <= k < |loadedPairs| && (loadedPairs[k].0 == card1.parent || loadedPairs[k].1 == card1.parent)
      ensures r != None ==> r == Some(false)
    {
      AdjacencySpec(loadedPairs, card1.parent, card2.parent);
      if card1.parent in confusion then None else Some(false)
    }

    /** Records the outcome of a card; the first outcome of the session
        stays. */
    method FlagSuccess(card: Card, outcome: real)
      requires Valid()
      modifies this`success
      ensures Valid()
      ensures success == if card in old(success) then old(success) else old(success)[card := outcome]
    {
      if card !in success {
        success := success[card := outcome];
      }
    }

    /** Marks the word of a card as seen, today and for good. */
    method FlagSeen(card: Card)
      requires Valid() && card.parent < |words|
      modifies this`seenToday, this`words
      ensures Valid()
      ensures seenToday == old(seenToday) + {card.parent}
      ensures words == old(words)[card.parent := old(words[card.parent]).(seen := true)]
    {
      var w := card.parent;
      var updated := words[w].(seen := true);
      ReplaceMatches(words, loaded, w, updated);
      seenToday, words := seenToday + {w}, words[w := updated];
    }

    /** Some card of the deck has this question and this answer. */
    function LegitimateAnswer(question: string, answer: string): (r: bool)
      reads this
      requires Valid()
      ensures r <==> exists i, k :: 0 <= i < |words| && 0 <= k < |words[i].cards| &&
                                   words[i].cards[k].question == question && words[i].cards[k].answer == answer
    {
      BankSpec(AllCards(loaded), question, answer);
      AllCardsSpec(loaded, StoredCard(question, answer));
      StoredCardsMatch(words, loaded, question, answer);
      question in qabank && answer in qabank[question]
    }

    /** What handleWord does to a word, given the outcomes recorded in
        this session. */
    ghost predicate Reviewed(before: Word, after: Word, jitter: real)
      reads this`success
    {
      ReviewedBy(before, after, jitter, success, today, defaultDelay, reviewDelay)
    }

    /** handleWord on the word at position `w`; no other word changes. */
    method HandleWord(w: nat, jitter: real) returns (outcome: Review)
      requires Valid() && w < |words|
      modifies this`words
      ensures Valid()
      ensures |words| == |old(words)|
      ensures outcome == ReviewOf(old(words[w]).cards, success)
      ensures Reviewed(old(words[w]), words[w], jitter)
      ensures forall i :: 0 <= i < |words| && i != w ==> words[i] == old(words[i])
    {
      var updated;
      updated, outcome := ReviewWord(words[w], success, today, defaultDelay, reviewDelay, jitter);
      ReplaceMatches(words, loaded, w, updated);
      words := words[w := updated];
    }

    /** wrapUpCalculations: handleWord on every word seen today, in deck
        order. It fails (ok is false) exactly when a word seen today has no
        cards; otherwise the seen words are reviewed and the others kept. */
    method WrapUpCalculations(jitter: nat -> real) returns (ok: bool)
      requires Valid()
      modifies this`words
      ensures Valid()
      ensures |words| == |old(words)|
      ensures ok <==> forall j :: 0 <= j < |words| && j in seenToday ==> old(words)[j].cards != []
      ensures ok ==> forall j :: 0 <= j < |words| ==>
                       if j in seenToday then Reviewed(old(words)[j], words[j], jitter(j))
                       else words[j] == old(words)[j]
    {
      var i := 0;
      while i < |words|
        invariant Valid() && |words| == |old(words)| && 0 <= i <= |words|
        invariant forall j :: 0 <= j < i && j in seenToday ==> old(words)[j].cards != []
        invariant forall j :: 0 <= j < |words| ==>
                    if j < i && j in seenToday then Reviewed(old(words)[j], words[j], jitter(j))
                    else words[j] == old(words)[j]
      {
        if i in seenToday {
          var outcome := HandleWord(i, jitter(i));
          if outcome == NoCards {
            return false;
          }
        }
        i := i + 1;
      }
      return true;
    }

    /** pack: the deck and the confusion list in their saved form. Saving
        returns what was loaded: the same categories and (key, card) lists,
        and exactly the loaded links between distinct words. */
    method Pack() returns (stored: seq<StoredWord>, pairs: seq<(nat, nat)>)
      requires Valid()
      ensures stored == PackWords(words)
      ensures pairs == PackPairs(confusion, |words|, |words|)
      ensures |stored| == |loaded|
      ensures forall i :: 0 <= i < |stored| ==>
                stored[i].category == loaded[i].category && stored[i].cards == loaded[i].cards
      ensures forall a: nat, b: nat :: a < |words| && b < |words| ==>
                (Linked(pairs, a, b) <==> a != b && Linked(loadedPairs, a, b))
    {
      stored := PackWordList(words);
      pairs := PackConfusion(confusion, |words|);
      forall i | 0 <= i < |stored|
        ensures stored[i].cards == loaded[i].cards
      {
        PackUnpackCards(i, loaded[i].cards);
      }
      forall a: nat, b: nat | a < |words| && b < |words|
        ensures Linked(pairs, a, b) <==> a != b && Linked(loadedPairs, a, b)
      {
        PackPairsRoundTrip(loadedPairs, |words|, a, b);
      }
    }
  }
}
