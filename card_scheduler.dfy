/** The card scheduler: it runs the session in rounds, keeps the cards
    waiting to be asked, puts answered cards off to a later round in the
    timing queue and chooses the next card to ask. */
module Scheduler {
  import opened Common
  import opened Deck
  import SkewHeap
  import WordDb
  import Supplier

  /** The answer of chooseCard: `No` when a card is already being asked (the
      source returns the string "no"), otherwise the card chosen, if any. */
  datatype Choice = No | Chosen(card: Option<Card>)

  // ---------------------------------------------------------------------
  // The history

  /** Ruby's `history[-i]`: the entry `i` places from the end, the last one
      being 1; nothing before the start. */
  function Back(history: seq<Option<Card>>, i: nat): (r: Option<Card>)
    ensures 1 <= i <= |history| ==> r == history[|history| - i]
    ensures i == 0 || |history| < i ==> r == None
  {
    if 1 <= i <= |history| then history[|history| - i] else None
  }

  /** Some card among the last `n` entries of the history is of the same
      word as `card`. */
  function RelatedWithin(history: seq<Option<Card>>, card: Card, n: nat): (r: bool)
    ensures r <==> exists i :: 1 <= i <= n && Back(history, i).Some? && Back(history, i).value.parent == card.parent
  {
    if n == 0 then false
    else RelatedWithin(history, card, n - 1) || (Back(history, n).Some? && Back(history, n).value.parent == card.parent)
  }

  // ---------------------------------------------------------------------
  // Scores of chooseCard

  /** The score chooseCard gives to the card `i` places from the end of a
      queue of `ql` cards: `i`, plus 4 ql when the card is of a word in the
      recent history, plus 2 ql when its kind goes against the streak. */
  function Score(i: nat, ql: nat, related: bool, mismatch: bool): nat
  {
    i + (if related then 4 * ql else 0) + (if mismatch then 2 * ql else 0)
  }

  /** Every score is below the scan's starting bound. */
  lemma ScoreBelowStart(i: nat, ql: nat, related: bool, mismatch: bool)
    requires 1 <= i <= ql
    ensures Score(i, ql, related, mismatch) < 8 * ql + 1
  {
  }

  /** The scores order the cards lexicographically: first the cards of
      words not in the recent history, among those the cards whose kind
      suits the streak, and among those the nearest to the end. */
  lemma ScoreOrder(i: nat, j: nat, ql: nat, r1: bool, m1: bool, r2: bool, m2: bool)
    requires 1 <= i <= ql && 1 <= j <= ql
    ensures Score(i, ql, r1, m1) < Score(j, ql, r2, m2) <==>
              || (!r1 && r2)
              || (r1 == r2 && !m1 && m2)
              || (r1 == r2 && m1 == m2 && i < j)
  {
  }

  // ---------------------------------------------------------------------
  // Helpers on sequences

  /** The items a shuffle reorders: a shuffle keeps every list's multiset. */
  ghost predicate Permutes(shuffle: seq<Card> -> seq<Card>)
  {
    forall s :: multiset(shuffle(s)) == multiset(s)
  }

  /** The cards of several lists, one list after the other. */
  function Concat(lists: seq<seq<Card>>): (r: seq<Card>)
    ensures |lists| == 0 ==> r == []
  {
    if lists == [] then [] else Concat(lists[..|lists| - 1]) + lists[|lists| - 1]
  }

  lemma ConcatSnoc(lists: seq<seq<Card>>, l: seq<Card>)
    ensures Concat(lists + [l]) == Concat(lists) + l
  {
    assert (lists + [l])[..|lists|] == lists;
  }

  /** A longer prefix of the lists holds at least as many cards. */
  lemma {:induction false} ConcatPrefixGrows(lists: seq<seq<Card>>, j: nat, k: nat)
    requires j <= k <= |lists|
    ensures |Concat(lists[..j])| <= |Concat(lists[..k])|
    decreases k
  {
    if j < k {
      assert lists[..k][..k - 1] == lists[..k - 1];
      ConcatPrefixGrows(lists, j, k - 1);
    }
  }

  /** When the last list was added to fewer than `goal` cards, so was every
      list. */
  lemma ShortPrefixes(lists: seq<seq<Card>>, goal: int)
    requires lists != [] ==> |Concat(lists[..|lists| - 1])| < goal
    ensures forall j :: 0 <= j < |lists| ==> |Concat(lists[..j])| < goal
  {
    forall j | 0 <= j < |lists|
      ensures |Concat(lists[..j])| < goal
    {
      ConcatPrefixGrows(lists, j, |lists| - 1);
    }
  }

  /** The items of entries whose items all satisfy `keys` satisfy it. */
  lemma {:induction false} ValuesWithin(due: seq<(int, Card)>, keys: set<Card>)
    requires forall k :: 0 <= k < |due| ==> due[k].1 in keys
    ensures forall c :: c in SkewHeap.Values(due) ==> c in keys
  {
    if due != [] {
      ValuesWithin(due[..|due| - 1], keys);
    }
  }

  /** When the entries of `orig` are split into the popped `due` and the
      remaining `rest`, the items of both are among the items of `orig`. */
  lemma SplitWithin(orig: multiset<(int, Card)>, rest: multiset<(int, Card)>, due: seq<(int, Card)>, keys: set<Card>)
    requires forall e :: e in orig ==> e.1 in keys
    requires rest + multiset(due) == orig
    ensures forall e :: e in rest ==> e.1 in keys
    ensures forall c :: c in SkewHeap.Values(due) ==> c in keys
  {
    forall k | 0 <= k < |due|
      ensures due[k].1 in keys
    {
      assert due[k] in multiset(due);
    }
    ValuesWithin(due, keys);
  }

  /** A shuffle of cards among `keys` stays among `keys`. */
  lemma ShuffleWithin(shuffle: seq<Card> -> seq<Card>, s: seq<Card>, keys: set<Card>)
    requires Permutes(shuffle)
    requires forall c :: c in s ==> c in keys
    ensures forall c :: c in shuffle(s) ==> c in keys
  {
    assert multiset(shuffle(s)) == multiset(s);
    forall c | c in shuffle(s)
      ensures c in keys
    {
      assert c in multiset(shuffle(s));
    }
  }

  /** A shuffle of cards of words below `n` holds only such cards. */
  lemma ShuffleBelow(shuffle: seq<Card> -> seq<Card>, s: seq<Card>, n: nat)
    requires Permutes(shuffle)
    requires forall c :: c in s ==> c.parent < n
    ensures forall k :: 0 <= k < |shuffle(s)| ==> shuffle(s)[k].parent < n
  {
    assert multiset(shuffle(s)) == multiset(s);
    forall k | 0 <= k < |shuffle(s)|
      ensures shuffle(s)[k].parent < n
    {
      assert shuffle(s)[k] in multiset(shuffle(s));
    }
  }

  /** A set of numbers below `n` has at most `n` members. */
  lemma {:induction false} BoundedSize(s: set<nat>, n: nat)
    requires forall x :: x in s ==> x < n
    ensures |s| <= n
  {
    if n > 0 {
      BoundedSize(s - {n - 1}, n - 1);
    } else {
      assert s == {};
    }
  }

  /** The cards of the word at position `w` are that word's: their parent
      is `w`. */
  lemma CardsOfWord(deck: seq<Word>, loaded: seq<StoredWord>, w: nat)
    requires WordDb.Matches(deck, loaded) && w < |deck|
    ensures forall c :: c in deck[w].cards ==> c.parent == w
  {
    forall c | c in deck[w].cards
      ensures c.parent == w
    {
      var k :| 0 <= k < |deck[w].cards| && deck[w].cards[k] == c;
      assert c == WordDb.UnpackCards(w, loaded[w].cards)[k];
    }
  }

  /** The record of the requests of loadMore: `words[j]` is the word the
      `j`-th request handed out, if any. A request that handed out no word
      brought no card; one that did brought the cards of that word, a word
      handed out by now (`after`) and not before the requests (`before`). */
  ghost predicate Drawn(deck: seq<Word>, calls: seq<seq<Card>>, words: seq<Option<nat>>,
                        before: set<nat>, after: set<nat>)
  {
    && |words| == |calls|
    && (forall j :: 0 <= j < |calls| && words[j].None? ==> |calls[j]| == 0)
    && (forall j :: 0 <= j < |calls| && words[j].Some? ==>
          && words[j].value < |deck| && calls[j] == deck[words[j].value].cards
          && words[j].value in after && words[j].value !in before)
  }

  /** One more request keeps the record. */
  lemma DrawnSnoc(deck: seq<Word>, calls: seq<seq<Card>>, words: seq<Option<nat>>, before: set<nat>,
                  mid: set<nat>, after: set<nat>, t: seq<Card>, chosen: Option<nat>)
    requires Drawn(deck, calls, words, before, mid) && before <= mid <= after
    requires chosen.None? ==> t == []
    requires chosen.Some? ==>
               chosen.value < |deck| && t == deck[chosen.value].cards && chosen.value in after && chosen.value !in mid
    ensures Drawn(deck, calls + [t], words + [chosen], before, after)
  {
  }

  /** The requests of loadMore as the loop runs: the cards held are those
      the requests brought, every request brought some, and the last was
      made while short of `goal`. */
  ghost predicate Short(calls: seq<seq<Card>>, holding: seq<Card>, goal: int)
  {
    && holding == Concat(calls)
    && (forall j :: 0 <= j < |calls| ==> |calls[j]| > 0)
    && (calls != [] ==> |Concat(calls[..|calls| - 1])| < goal)
  }

  /** The requests of loadMore once it stops: the cards held are those the
      requests brought, every request was made while short of `goal`, only
      the last can have brought nothing, and either the goal is reached or
      the last request brought nothing. */
  ghost predicate Complete(calls: seq<seq<Card>>, holding: seq<Card>, goal: int)
  {
    && holding == Concat(calls)
    && (forall j :: 0 <= j < |calls| ==> |Concat(calls[..j])| < goal)
    && (forall j :: 0 <= j < |calls| - 1 ==> |calls[j]| > 0)
    && (goal <= |holding| || (calls != [] && calls[|calls| - 1] == []))
  }

  /** A request that brings cards while short of the goal keeps the loop's
      record. */
  lemma ShortSnoc(calls: seq<seq<Card>>, holding: seq<Card>, goal: int, t: seq<Card>)
    requires Short(calls, holding, goal) && |holding| < goal && t != []
    ensures Short(calls + [t], holding + t, goal)
  {
    ConcatSnoc(calls, t);
    assert (calls + [t])[..|calls|] == calls;
  }

  /** The loop stops at the goal. */
  lemma ShortDone(calls: seq<seq<Card>>, holding: seq<Card>, goal: int)
    requires Short(calls, holding, goal) && goal <= |holding|
    ensures Complete(calls, holding, goal)
  {
    ShortPrefixes(calls, goal);
  }

  /** The loop stops at a request that brought nothing while short of the
      goal. */
  lemma ShortBreak(calls: seq<seq<Card>>, holding: seq<Card>, goal: int, t: seq<Card>)
    requires Short(calls, holding, goal) && |holding| < goal && t == []
    ensures Complete(calls + [t], holding, goal)
  {
    ConcatSnoc(calls, t);
    assert (calls + [t])[..|calls|] == calls;
    ShortPrefixes(calls + [t], goal);
  }

  /** Handing out one more word below `n` grows the set of words handed
      out, which stays within `n`. */
  lemma OneMore(before: set<nat>, after: set<nat>, w: nat, n: nat)
    requires w !in before && after == before + {w}
    requires forall x :: x in after ==> x < n
    ensures |before| < |after| <= n
  {
    BoundedSize(after, n);
  }

  /** Every card fetched is a card of a word handed out by the request that
      brought it. */
  lemma {:induction false} FetchedCards(deck: seq<Word>, loaded: seq<StoredWord>, calls: seq<seq<Card>>,
                                        words: seq<Option<nat>>, before: set<nat>, after: set<nat>)
    requires WordDb.Matches(deck, loaded) && Drawn(deck, calls, words, before, after)
    ensures forall c :: c in Concat(calls) ==> c.parent < |deck| && c.parent in after && c.parent !in before
  {
    if calls != [] {
      var n := |calls| - 1;
      FetchedCards(deck, loaded, calls[..n], words[..n], before, after);
      if words[n].Some? {
        CardsOfWord(deck, loaded, words[n].value);
      }
    }
  }

  /** One request of loadMore to the supplier: no card once every pool is
      empty, otherwise the cards of a word not handed out before, which is
      now handed out. */
  method Request(supplier: Supplier.CardSupplier, pick: nat, coin: bool, draw: nat)
      returns (cards: seq<Card>, ghost chosen: Option<nat>)
    requires supplier.Valid()
    modifies supplier`inPlay, supplier`taken, supplier.Repr
    ensures supplier.Valid()
    ensures forall x :: x in supplier.taken ==> x < |supplier.deck|
    ensures chosen.None? ==> cards == [] && supplier.taken == old(supplier.taken)
    ensures chosen.Some? ==>
              && chosen.value < |supplier.deck| && cards == supplier.deck[chosen.value].cards
              && chosen.value !in old(supplier.taken) && supplier.taken == old(supplier.taken) + {chosen.value}
  {
    cards, chosen := supplier.CardsPlease(pick, coin, draw);
  }

  /** One turn of the drawing loop of loadMore, made while short of
      `goal`: a request, and whether the loop stops because it brought
      nothing. Words handed out since `start` are recorded in `words`. */
  method Draw(supplier: Supplier.CardSupplier, goal: int, pick: nat, coin: bool, draw: nat, holding: seq<Card>,
              ghost calls: seq<seq<Card>>, ghost words: seq<Option<nat>>, ghost start: set<nat>)
      returns (held: seq<Card>, ghost calls': seq<seq<Card>>, ghost words': seq<Option<nat>>, stop: bool)
    requires supplier.Valid() && |holding| < goal && start <= supplier.taken
    requires Short(calls, holding, goal) && Drawn(supplier.deck, calls, words, start, supplier.taken)
    modifies supplier`inPlay, supplier`taken, supplier.Repr
    ensures supplier.Valid() && start <= supplier.taken && |supplier.taken| <= |supplier.deck|
    ensures Drawn(supplier.deck, calls', words', start, supplier.taken) && |calls'| == |calls| + 1
    ensures stop || goal <= |held| ==> Complete(calls', held, goal)
    ensures !stop ==> Short(calls', held, goal) && |old(supplier.taken)| < |supplier.taken|
  {
    ghost var before := supplier.taken;
    var t;
    ghost var chosen;
    t, chosen := Request(supplier, pick, coin, draw);
    BoundedSize(supplier.taken, |supplier.deck|);
    DrawnSnoc(supplier.deck, calls, words, start, before, supplier.taken, t, chosen);
    calls', words' := calls + [t], words + [chosen];
    if t == [] {
      ShortBreak(calls, holding, goal, t);
      return holding, calls', words', true;
    }
    ShortSnoc(calls, holding, goal, t);
    OneMore(before, supplier.taken, chosen.value, |supplier.deck|);
    held, stop := holding + t, false;
    if goal <= |held| {
      ShortDone(calls', held, goal);
    }
  }

  /** The drawing loop of loadMore: cards are asked of the supplier, one
      word at a time, while fewer than `goal` are held, and the loop stops
      early when a request brings no card. `roll(n)` stands for the random
      choices of the `n`-th request. `calls` records what each request
      brought and `words` the word it handed out, if any. */
  method Fetch(supplier: Supplier.CardSupplier, goal: int, roll: nat -> (nat, bool, nat))
      returns (holding: seq<Card>, ghost calls: seq<seq<Card>>, ghost words: seq<Option<nat>>)
    requires supplier.Valid()
    modifies supplier`inPlay, supplier`taken, supplier.Repr
    ensures supplier.Valid()
    ensures Complete(calls, holding, goal)
    ensures Drawn(supplier.deck, calls, words, old(supplier.taken), supplier.taken)
    ensures old(supplier.taken) <= supplier.taken
  {
    holding, calls, words := [], [], [];
    var requests := 0;
    BoundedSize(supplier.taken, |supplier.deck|);
    while |holding| < goal
      invariant supplier.Valid() && old(supplier.taken) <= supplier.taken && |supplier.taken| <= |supplier.deck|
      invariant |calls| == requests
      invariant Short(calls, holding, goal) && (goal <= |holding| ==> Complete(calls, holding, goal))
      invariant Drawn(supplier.deck, calls, words, old(supplier.taken), supplier.taken)
      decreases |supplier.deck| - |supplier.taken|
    {
      var (pick, coin, draw) := roll(requests);
      requests := requests + 1;
      var stop;
      holding, calls, words, stop := Draw(supplier, goal, pick, coin, draw, holding, calls, words, old(supplier.taken));
      if stop {
        break;
      }
    }
  }

  // ---------------------------------------------------------------------
  // The scheduler

  class CardScheduler {
    const db: WordDb.WordDatabase
    const supplier: Supplier.CardSupplier
    /** The cards put off, each due at a round. */
    const pqueue: SkewHeap.TimingQueue<Card>
    /** `$History`: how many of the last asked cards are recent. */
    const historyLength: nat
    /** `$Magic`: the waiting cards aimed at per subcategory. */
    const magic: real
    /** `$optimalStreak`: the streak after which the kind should change. */
    const optimalStreak: int
    /** The first short-term delay of a card of a seen word, from the word's
        delay: in the source 10 + 5 log2(delay). */
    const seenDelay: Option<real> -> real
    /** The short-term delay after an answer, from the previous one and the
        outcome: in the source exp(s ln(2 d) + (1 - s) ln 10). */
    const nextDelay: (real, real) -> real

    /** The cards waiting to be asked, the newest last. */
    var queue: seq<Card>
    /** The card being asked. */
    var current: Option<Card>
    /** Every result of chooseCard, the card or nothing. */
    var history: seq<Option<Card>>
    /** The round. */
    var time: int
    /** How many cards of kind `currentCat` were chosen in a row. */
    var streak: nat
    var currentCat: Option<string>
    /** The short-term delay of every card handed out, in rounds. */
    var cardDelays: map<Card, real>

    /** The timing queue is consistent and shares no object with the
        scheduler, the database or the supplier's pools; the supplier's deck
        is the database's; every card in play has a delay. The database and
        the supplier keep their own invariants, stated where an operation
        needs them. */
    ghost predicate Valid()
      reads this, db, pqueue, pqueue.Repr
    {
      && pqueue.Valid()
      && db.Linkage() && WordDb.Matches(supplier.deck, db.loaded) && |db.words| == |db.loaded|
      && this !in pqueue.Repr && db !in pqueue.Repr && supplier !in pqueue.Repr
      && (forall p :: p in supplier.Repr ==> p !in pqueue.Repr)
      && Delayed()
    }

    /** Every card waiting, being asked or put off has a short-term delay,
        so stowCard always finds the delay of the card it stows. */
    ghost predicate Delayed()
      reads this, pqueue
    {
      && (forall c :: c in queue ==> c in cardDelays)
      && (current.Some? ==> current.value in cardDelays)
      && (forall e :: e in pqueue.Elems() ==> e.1 in cardDelays)
    }

    /** An empty scheduler at round 0 over the database and the supplier. */
    constructor (db: WordDb.WordDatabase, supplier: Supplier.CardSupplier, historyLength: nat, magic: real,
                 optimalStreak: int, seenDelay: Option<real> -> real, nextDelay: (real, real) -> real)
      requires db.Valid() && supplier.deck == db.words
      ensures Valid() && fresh(pqueue.Repr)
      ensures this.db == db && this.supplier == supplier && this.historyLength == historyLength
      ensures this.magic == magic && this.optimalStreak == optimalStreak
      ensures this.seenDelay == seenDelay && this.nextDelay == nextDelay
      ensures queue == [] && current == None && history == [] && time == 0
      ensures streak == 0 && currentCat == None && cardDelays == map[]
      ensures pqueue.Elems() == multiset{}
    {
      this.db, this.supplier, this.historyLength, this.magic := db, supplier, historyLength, magic;
      this.optimalStreak, this.seenDelay, this.nextDelay := optimalStreak, seenDelay, nextDelay;
      pqueue := new SkewHeap.TimingQueue<Card>();
      queue, current, history, time := [], None, [], 0;
      streak, currentCat, cardDelays := 0, None, map[];
    }

    // -------------------------------------------------------------------
    // Queries

    /** True when nothing waits, nothing is put off and no card is being
        asked. */
    method IsEmpty() returns (r: bool)
      requires Valid()
      ensures r <==> queue == [] && pqueue.Elems() == multiset{} && current == None
    {
      var none := pqueue.IsEmpty();
      r := queue == [] && none && current == None;
    }

    /** historyRelated: a card among the last `historyLength` asked is of
        the same word. */
    function HistoryRelated(card: Card): bool
      reads this
    {
      RelatedWithin(history, card, historyLength)
    }

    /** Some card among the last `n` asked is confused with `card`. */
    function ConfusedWithin(card: Card, n: nat): (r: bool)
      reads this
      requires db.Linkage()
      ensures r <==> exists i :: 1 <= i <= n && Back(history, i).Some? && db.Confused(card, Back(history, i).value)
    {
      if n == 0 then false
      else ConfusedWithin(card, n - 1) || (Back(history, n).Some? && db.Confused(card, Back(history, n).value))
    }

    /** historyConfusion: a card among the last `historyLength` asked is
        confused with `card`. */
    function HistoryConfusion(card: Card): bool
      reads this
      requires db.Linkage()
    {
      ConfusedWithin(card, historyLength)
    }

    /** A waiting card that counts towards the target: neither confused with
        nor of the same word as a recent card. */
    predicate Eligible(card: Card)
      reads this
      requires db.Linkage()
    {
      !(HistoryConfusion(card) || HistoryRelated(card))
    }

    /** The number of eligible cards in `cards`. */
    function EligibleCount(cards: seq<Card>): (r: nat)
      reads this
      requires db.Linkage()
      ensures r <= |cards|
    {
      if cards == [] then 0
      else EligibleCount(cards[..|cards| - 1]) + (if Eligible(cards[|cards| - 1]) then 1 else 0)
    }

    /** No card is eligible exactly when the count is zero, and every card
        exactly when the count is the number of cards. */
    lemma {:induction false} EligibleCountSpec(cards: seq<Card>)
      requires db.Linkage()
      ensures EligibleCount(cards) == 0 <==> forall k :: 0 <= k < |cards| ==> !Eligible(cards[k])
      ensures EligibleCount(cards) == |cards| <==> forall k :: 0 <= k < |cards| ==> Eligible(cards[k])
    {
      if cards != [] {
        var front := cards[..|cards| - 1];
        EligibleCountSpec(front);
        assert forall k :: 0 <= k < |front| ==> front[k] == cards[k];
      }
    }

    /** The number of eligible waiting cards loadMore aims at: the number of
        subcategories times `magic`, rounded. */
    function Target(): int
      reads this, db
    {
      Truncate(|db.subcategories| as real * magic + 0.5)
    }

    /** The first short-term delay of a card: 5 rounds for a card of a word
        never seen, otherwise as `seenDelay` computes from the word's delay. */
    function InitialDelay(card: Card): real
      reads this, db
      requires card.parent < |db.words|
    {
      var word := db.words[card.parent];
      if !word.seen then 5.0 else seenDelay(word.delay)
    }

    /** The kind of `card` goes against the streak: once the streak is long
        enough the kind of the streak itself, before that any other kind. */
    predicate Mismatch(card: Card)
      reads this
    {
      if streak >= optimalStreak then Some(card.kind) == currentCat else Some(card.kind) != currentCat
    }

    /** The score of the waiting card `i` places from the end. */
    function CardScore(i: nat): nat
      reads this
      requires 1 <= i <= |queue|
    {
      var card := queue[|queue| - i];
      Score(i, |queue|, HistoryRelated(card), Mismatch(card))
    }

    /** The waiting card `i` places from the end scores below every other. */
    ghost predicate Best(i: nat)
      reads this
    {
      && 1 <= i <= |queue|
      && forall j :: 1 <= j <= |queue| && j != i ==> CardScore(i) < CardScore(j)
    }

    // -------------------------------------------------------------------
    // Rounds

    /** advanceTime: the next round; the entries put off until it or earlier
        leave the timing queue (`due`, in the order popped) and their cards,
        shuffled, join the end of the queue. */
    method AdvanceTime(shuffle: seq<Card> -> seq<Card>) returns (ghost due: seq<(int, Card)>)
      requires Valid() && Permutes(shuffle)
      modifies this`time, this`queue, pqueue.Repr
      ensures Valid()
      ensures time == old(time) + 1
      ensures queue == old(queue) + shuffle(SkewHeap.Values(due))
      ensures forall e :: multiset(due)[e] == if e.0 <= time then old(pqueue.Elems())[e] else 0
      ensures pqueue.Elems() + multiset(due) == old(pqueue.Elems())
      ensures forall e | e in pqueue.Elems() :: time < e.0
      ensures SkewHeap.Sorted(due)
    {
      time := time + 1;
      var revealed;
      revealed, due := pqueue.PullFrom(time);
      label pulled:
      SplitWithin(old(pqueue.Elems()), pqueue.Elems(), due, cardDelays.Keys);
      ShuffleWithin(shuffle, revealed, cardDelays.Keys);
      revealed := shuffle(revealed);
      queue := queue + revealed;
      TimingQueueKept@pulled();
    }

    /** stowCard: the card being asked is put down; its outcome goes to the
        database (the first outcome of a card stays), its delay becomes
        `nextDelay` of its old delay and the outcome, and it is put off until
        the round `due`, the current round plus its delay scaled by a factor
        of `jitter + 0.5` (`jitter` is Ruby's `rand`), rounded. */
    method StowCard(outcome: real, jitter: real) returns (due: int)
      requires Valid() && db.Valid() && current.Some?
      modifies this`current, this`cardDelays, db`success, pqueue.Repr
      ensures Valid() && db.Valid()
      ensures current == None
      ensures var card := old(current).value;
                && cardDelays == old(cardDelays)[card := nextDelay(old(cardDelays)[card], outcome)]
                && due == DueDate(time, cardDelays[card], jitter + 0.5)
                && pqueue.Elems() == old(pqueue.Elems()) + multiset{(due, card)}
                && db.success == if card in old(db.success) then old(db.success) else old(db.success)[card := outcome]
    {
      label start:
      var card := current.value;
      current := None;
      var delay := nextDelay(cardDelays[card], outcome);
      cardDelays := cardDelays[card := delay];
      db.FlagSuccess(card, outcome);
      TimingQueueKept@start();
      due := DueDate(time, delay, jitter + 0.5);
      pqueue.Enroll(card, due);
    }

    /** Changing the scheduler's own fields leaves the timing queue as it
        was. */
    twostate lemma TimingQueueKept()
      requires old(pqueue.Valid()) && old(this !in pqueue.Repr)
      requires unchanged(pqueue) && unchanged(old(pqueue.Repr))
      ensures pqueue.Valid() && pqueue.Repr == old(pqueue.Repr) && pqueue.Elems() == old(pqueue.Elems())
    {
    }

    // -------------------------------------------------------------------
    // loadMore

    /** The counting loop of loadMore: how many waiting cards are eligible. */
    method CountEligible() returns (howMany: nat)
      requires db.Linkage()
      ensures howMany == EligibleCount(queue)
    {
      howMany := 0;
      for k := 0 to |queue|
        invariant howMany == EligibleCount(queue[..k])
      {
        assert queue[..k + 1][..k] == queue[..k];
        if Eligible(queue[k]) {
          howMany := howMany + 1;
        }
      }
      assert queue[..|queue|] == queue;
    }

    /** The delays `after` once `cards` have joined the queue, starting
        from the delays `before`: each card of `cards` has its first delay,
        and every other card keeps the delay it had. */
    ghost predicate Introduced(before: map<Card, real>, after: map<Card, real>, cards: seq<Card>)
      reads this, db
      requires forall k :: 0 <= k < |cards| ==> cards[k].parent < |db.words|
    {
      && (forall c :: c in after <==> c in before || c in cards)
      && (forall k :: 0 <= k < |cards| ==> after[cards[k]] == InitialDelay(cards[k]))
      && (forall c :: c in before && c !in cards ==> after[c] == before[c])
    }

    /** The queueing loop of loadMore: each card joins the end of the queue
        with its first short-term delay; the other delays stay. */
    method Enqueue(cards: seq<Card>)
      requires Valid()
      requires forall k :: 0 <= k < |cards| ==> cards[k].parent < |db.words|
      modifies this`queue, this`cardDelays
      ensures Valid()
      ensures queue == old(queue) + cards
      ensures Introduced(old(cardDelays), cardDelays, cards)
    {
      var waiting, delays := queue, cardDelays;
      for k := 0 to |cards|
        invariant waiting == queue + cards[..k]
        invariant Introduced(cardDelays, delays, cards[..k])
      {
        var card := cards[k];
        assert cards[..k + 1] == cards[..k] + [card];
        waiting := waiting + [card];
        var word := db.words[card.parent];
        if !word.seen {
          delays := delays[card := 5.0];
        } else {
          delays := delays[card := seenDelay(word.delay)];
        }
      }
      assert cards[..|cards|] == cards;
      label start:
      queue, cardDelays := waiting, delays;
      TimingQueueKept@start();
    }

    /** The drawing of loadMore, with `goal` cards to draw: the cards drawn
        are those of the requests, each request bringing all the cards of a
        word handed out during the call (`words`) or nothing, and every card
        is of a word known to the word database. */
    method Gather(goal: int, roll: nat -> (nat, bool, nat))
        returns (fetched: seq<Card>, ghost calls: seq<seq<Card>>, ghost words: seq<Option<nat>>)
      requires Valid() && supplier.Valid()
      modifies supplier`inPlay, supplier`taken, supplier.Repr
      ensures Valid() && supplier.Valid()
      ensures Complete(calls, fetched, goal)
      ensures Drawn(supplier.deck, calls, words, old(supplier.taken), supplier.taken)
      ensures forall c :: c in fetched ==> c.parent in supplier.taken && c.parent !in old(supplier.taken)
      ensures forall c :: c in fetched ==> c.parent < |db.words|
    {
      label before:
      fetched, calls, words := Fetch(supplier, goal, roll);
      SchedulerKept@before();
      FetchedCards(supplier.deck, db.loaded, calls, words, old(supplier.taken), supplier.taken);
    }

    /** The drawing and queueing of loadMore, with `goal` cards to draw:
        the cards drawn, all the cards of each word handed out, join the
        queue shuffled, with their first delays. */
    method Replenish(goal: int, shuffle: seq<Card> -> seq<Card>, roll: nat -> (nat, bool, nat))
        returns (ghost fetched: seq<Card>, ghost calls: seq<seq<Card>>, ghost words: seq<Option<nat>>)
      requires Valid() && supplier.Valid() && Permutes(shuffle)
      modifies this`queue, this`cardDelays, supplier`inPlay, supplier`taken, supplier.Repr
      ensures Valid() && supplier.Valid()
      ensures Complete(calls, fetched, goal)
      ensures Drawn(supplier.deck, calls, words, old(supplier.taken), supplier.taken)
      ensures forall c :: c in fetched ==> c.parent in supplier.taken && c.parent !in old(supplier.taken)
      ensures queue == old(queue) + shuffle(fetched)
      ensures forall k :: 0 <= k < |shuffle(fetched)| ==> shuffle(fetched)[k].parent < |db.words|
      ensures Introduced(old(cardDelays), cardDelays, shuffle(fetched))
    {
      var holding;
      holding, calls, words := Gather(goal, roll);
      fetched := holding;
      Settle(holding, shuffle);
    }

    /** The queueing of loadMore: the cards drawn join the queue shuffled,
        with their first delays. */
    method Settle(fetched: seq<Card>, shuffle: seq<Card> -> seq<Card>)
      requires Valid() && supplier.Valid() && Permutes(shuffle)
      requires forall c :: c in fetched ==> c.parent < |db.words|
      modifies this`queue, this`cardDelays
      ensures Valid() && supplier.Valid() && supplier.taken == old(supplier.taken)
      ensures queue == old(queue) + shuffle(fetched)
      ensures forall k :: 0 <= k < |shuffle(fetched)| ==> shuffle(fetched)[k].parent < |db.words|
      ensures Introduced(old(cardDelays), cardDelays, shuffle(fetched))
    {
      ShuffleBelow(shuffle, fetched, |db.words|);
      label start:
      Enqueue(shuffle(fetched));
      SupplierKept@start();
    }

    /** loadMore: when fewer waiting cards are eligible than the target,
        cards are drawn from the supplier, one word at a time, until the
        shortfall is made up or a request brings nothing; the cards drawn,
        shuffled, join the queue with their first delays. Each request brings
        all the cards of a word handed out during the call (`words`), or
        nothing. With enough eligible cards nothing changes. */
    method LoadMore(shuffle: seq<Card> -> seq<Card>, roll: nat -> (nat, bool, nat))
        returns (ghost fetched: seq<Card>, ghost calls: seq<seq<Card>>, ghost words: seq<Option<nat>>)
      requires Valid() && supplier.Valid() && Permutes(shuffle)
      modifies this`queue, this`cardDelays, supplier`inPlay, supplier`taken, supplier.Repr
      ensures Valid() && supplier.Valid()
      ensures old(EligibleCount(queue)) >= old(Target()) ==>
                && calls == [] && words == [] && fetched == [] && queue == old(queue) && cardDelays == old(cardDelays)
                && supplier.taken == old(supplier.taken)
      ensures old(EligibleCount(queue)) < old(Target()) ==>
                && Complete(calls, fetched, old(Target()) - old(EligibleCount(queue)))
                && Drawn(supplier.deck, calls, words, old(supplier.taken), supplier.taken)
                && (forall c :: c in fetched ==> c.parent in supplier.taken && c.parent !in old(supplier.taken))
                && queue == old(queue) + shuffle(fetched)
                && (forall k :: 0 <= k < |shuffle(fetched)| ==> shuffle(fetched)[k].parent < |db.words|)
                && Introduced(old(cardDelays), cardDelays, shuffle(fetched))
    {
      fetched, calls, words := [], [], [];
      var howMany := CountEligible();
      var target := Target();
      if howMany < target {
        fetched, calls, words := Replenish(target - howMany, shuffle, roll);
      }
    }

    /** What a call that changes only the supplier keeps: the scheduler's
        invariant. */
    twostate lemma SchedulerKept()
      requires old(Valid())
      requires unchanged(this) && unchanged(db) && unchanged(pqueue) && unchanged(old(pqueue.Repr))
      ensures Valid()
    {
      TimingQueueKept();
    }

    /** Changing the scheduler's own fields leaves the supplier as it was. */
    twostate lemma SupplierKept()
      requires old(supplier.Valid())
      requires unchanged(supplier) && unchanged(supplier.Repr)
      ensures supplier.Valid() && supplier.taken == old(supplier.taken)
    {
    }

    // -------------------------------------------------------------------
    // chooseCard

    /** chooseCard. With a card already being asked: the answer `No` and no
        change. Otherwise the waiting card `i` places from the end that
        scores below every other is taken out of the queue and becomes the
        card asked; the streak grows when it has the streak's kind and
        otherwise restarts at 1 with its kind. With no card waiting nothing
        is chosen. Either way the result goes onto the history. */
    method ChooseCard() returns (r: Choice, ghost i: nat)
      requires Valid()
      modifies this`queue, this`current, this`history, this`streak, this`currentCat
      ensures Valid()
      ensures old(current).Some? ==> r == No && unchanged(this)
      ensures old(current).None? && old(queue) == [] ==>
                && r == Chosen(None) && current == None && history == old(history) + [None]
                && queue == old(queue) && streak == old(streak) && currentCat == old(currentCat)
      ensures old(current).None? && old(queue) != [] ==>
                var b := |old(queue)| - i;
                && old(Best(i)) && 0 <= b < |old(queue)|
                && r == Chosen(current) && current == Some(old(queue)[b])
                && queue == old(queue)[..b] + old(queue)[b + 1..]
                && history == old(history) + [current]
                && if Some(old(queue)[b].kind) == old(currentCat)
                   then streak == old(streak) + 1 && currentCat == old(currentCat)
                   else streak == 1 && currentCat == Some(old(queue)[b].kind)
    {
      i := 0;
      if current.Some? {
        return No, i;
      }
      var best := Scan();
      if best.Some? {
        var b := best.value;
        i := |queue| - b;
        var card := queue[b];
        current := Some(card);
        queue := queue[..b] + queue[b + 1..];
        if Some(card.kind) == currentCat {
          streak := streak + 1;
        } else {
          currentCat := Some(card.kind);
          streak := 1;
        }
      } else {
        current := None;
      }
      history := history + [current];
      r := Chosen(current);
    }

    /** The scan of chooseCard: the position of the waiting card that scores
        below every other, none when no card waits. */
    method Scan() returns (best: Option<nat>)
      ensures best.None? <==> queue == []
      ensures best.Some? ==> best.value < |queue| && Best(|queue| - best.value)
    {
      var timeForAChange := streak >= optimalStreak;
      var ql := |queue|;
      var bestScore := 8 * ql + 1;
      best := None;
      ghost var d: nat := 0;
      for k := 1 to ql + 1
        invariant k == 1 ==> best == None && bestScore == 8 * ql + 1
        invariant k > 1 ==> 1 <= d < k && best == Some(ql - d) && bestScore == CardScore(d)
        invariant k > 1 ==> forall j :: 1 <= j < k && j != d ==> CardScore(d) < CardScore(j)
      {
        var card := queue[ql - k];
        var score := k;
        var related := HistoryRelated(card);
        if related {
          score := score + 4 * ql;
        }
        if timeForAChange && Some(card.kind) == currentCat {
          score := score + 2 * ql;
        } else if !timeForAChange && Some(card.kind) != currentCat {
          score := score + 2 * ql;
        }
        assert score == CardScore(k);
        if k == 1 {
          ScoreBelowStart(k, ql, related, Mismatch(card));
        } else {
          BestStep(d, k);
        }
        if score < bestScore {
          bestScore := score;
          best := Some(ql - k);
          d := k;
        }
      }
    }

    /** Scanning the card `k` places from the end keeps a unique best: it is
        the new best when it scores below the best so far `d`, and `d` stays
        the best otherwise. */
    lemma BestStep(d: nat, k: nat)
      requires 1 <= d < k <= |queue|
      requires forall j :: 1 <= j < k && j != d ==> CardScore(d) < CardScore(j)
      ensures CardScore(k) < CardScore(d) ==> forall j :: 1 <= j < k + 1 && j != k ==> CardScore(k) < CardScore(j)
      ensures CardScore(d) <= CardScore(k) ==> forall j :: 1 <= j < k + 1 && j != d ==> CardScore(d) < CardScore(j)
    {
      var ql, c, e := |queue|, queue[|queue| - k], queue[|queue| - d];
      ScoreOrder(k, d, ql, HistoryRelated(c), Mismatch(c), HistoryRelated(e), Mismatch(e));
      ScoreOrder(d, k, ql, HistoryRelated(e), Mismatch(e), HistoryRelated(c), Mismatch(c));
    }
  }
}
