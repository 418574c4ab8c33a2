/** The card supplier: per-category pools of words not yet reviewed and of
    words due for review, from which the scheduler draws new cards. */
module Supplier {
  import opened Common
  import opened Deck
  import opened RandomRemoval
  import opened WordDb

  /** A score between 0 and 1. */
  type Fraction = r: real | 0.0 <= r <= 1.0

  // ---------------------------------------------------------------------
  // Routing of the words into pools

  /** The words among the first `n` of category `c` not yet seen, in deck
      order: the unseen pool of `c` as built at construction. */
  function UnseenOf(deck: seq<Word>, c: string, n: nat): seq<nat>
    requires n <= |deck|
  {
    if n == 0 then []
    else UnseenOf(deck, c, n - 1) + (if deck[n - 1].category == c && !deck[n - 1].seen then [n - 1] else [])
  }

  /** A seen word is overdue when its due day is today or earlier. */
  predicate IsOverdue(word: Word, today: int)
  {
    word.seen && word.duedate.Some? && word.duedate.value <= today
  }

  /** The seen words among the first `n` of category `c` that are due by
      `today`, in deck order: the overdue pool of `c` as built. */
  function OverdueOf(deck: seq<Word>, c: string, today: int, n: nat): seq<nat>
    requires n <= |deck|
  {
    if n == 0 then []
    else OverdueOf(deck, c, today, n - 1) + (if deck[n - 1].category == c && IsOverdue(deck[n - 1], today) then [n - 1] else [])
  }

  /** An unseen word goes into the unseen pool of its category and nowhere
      else; a seen word that is due goes into the overdue pool of its
      category; any other word is in neither. */
  lemma {:induction false} RoutedSpec(deck: seq<Word>, c: string, today: int, n: nat)
    requires n <= |deck|
    ensures forall x: nat :: x in UnseenOf(deck, c, n) <==> x < n && deck[x].category == c && !deck[x].seen
    ensures forall x: nat :: x in OverdueOf(deck, c, today, n) <==> x < n && deck[x].category == c && IsOverdue(deck[x], today)
  {
    if n > 0 {
      RoutedSpec(deck, c, today, n - 1);
    }
  }

  /** A word is routed only once: it is in neither list before its turn. */
  lemma NotYetRouted(deck: seq<Word>, c: string, today: int, i: nat)
    requires i <= |deck|
    ensures i !in UnseenOf(deck, c, i) && i !in OverdueOf(deck, c, today, i)
  {
    RoutedSpec(deck, c, today, i);
  }

  /** Routing a word of another category leaves the lists of `c` as they
      are. */
  lemma RoutedElsewhere(deck: seq<Word>, c: string, today: int, i: nat)
    requires i < |deck| && deck[i].category != c
    ensures UnseenOf(deck, c, i + 1) == UnseenOf(deck, c, i)
    ensures OverdueOf(deck, c, today, i + 1) == OverdueOf(deck, c, today, i)
  {
  }

  /** The number of cards of the words of category `c` among the first `n`. */
  function CardCount(deck: seq<Word>, c: string, n: nat): nat
    requires n <= |deck|
  {
    if n == 0 then 0
    else CardCount(deck, c, n - 1) + (if deck[n - 1].category == c then |deck[n - 1].cards| else 0)
  }

  /** The number of cards of the taken words of category `c` among the first
      `n`. */
  function InPlayOf(deck: seq<Word>, taken: set<nat>, c: string, n: nat): nat
    requires n <= |deck|
  {
    if n == 0 then 0
    else InPlayOf(deck, taken, c, n - 1) + (if deck[n - 1].category == c && n - 1 in taken then |deck[n - 1].cards| else 0)
  }

  /** The cards in play never outnumber the cards of a category. */
  lemma {:induction false} InPlayBelowCount(deck: seq<Word>, taken: set<nat>, c: string, n: nat)
    requires n <= |deck|
    ensures InPlayOf(deck, taken, c, n) <= CardCount(deck, c, n)
  {
    if n > 0 {
      InPlayBelowCount(deck, taken, c, n - 1);
    }
  }

  /** Taking one more word adds its cards to the count of its category. */
  lemma {:induction false} InPlayAdd(deck: seq<Word>, taken: set<nat>, w: nat, c: string, n: nat)
    requires n <= |deck| && w !in taken
    ensures InPlayOf(deck, taken + {w}, c, n)
            == InPlayOf(deck, taken, c, n) + (if w < n && deck[w].category == c then |deck[w].cards| else 0)
  {
    if n > 0 {
      InPlayAdd(deck, taken, w, c, n - 1);
    }
  }

  /** Nothing is in play before any word is taken. */
  lemma {:induction false} InPlayOfNone(deck: seq<Word>, c: string, n: nat)
    requires n <= |deck|
    ensures InPlayOf(deck, {}, c, n) == 0
  {
    if n > 0 {
      InPlayOfNone(deck, c, n - 1);
    }
  }

  // ---------------------------------------------------------------------
  // The choice of category in cardsPlease

  /** The state of the scan: the candidate categories and the running
      minimum. */
  datatype Tally = Tally(best: seq<string>, need: real)

  /** The scan of cardsPlease over the categories, given the score of each
      (None for a category whose pools are both empty): the running minimum
      starts at 2, and a category whose score equals the running minimum
      after the update is appended. The list is never cleared, so a category
      that was the best so far stays a candidate after a lower score
      appears. */
  function Scan(scores: seq<Option<real>>, cats: seq<string>): (r: Tally)
    requires |scores| == |cats|
  {
    if scores == [] then Tally([], 2.0)
    else
      var n := |scores| - 1;
      ScanStep(Scan(scores[..n], cats[..n]), scores[n], cats[n])
  }

  /** One step of the scan: a category without a score is skipped; otherwise
      the running minimum is lowered to its score if that is lower, and the
      category is appended when its score equals the running minimum. */
  function ScanStep(acc: Tally, x: Option<real>, c: string): Tally
  {
    match x
    case None => acc
    case Some(s) =>
      var need := if s < acc.need then s else acc.need;
      Tally(if s == need then acc.best + [c] else acc.best, need)
  }

  lemma ScanSnoc(scores: seq<Option<real>>, cats: seq<string>, x: Option<real>, c: string)
    requires |scores| == |cats|
    ensures Scan(scores + [x], cats + [c]) == ScanStep(Scan(scores, cats), x, c)
  {
    assert (scores + [x])[..|scores|] == scores && (cats + [c])[..|cats|] == cats;
  }

  /** The running minimum is the least score seen, or 2 if none is lower;
      every candidate is a category with a score; the candidate list of a
      prefix is a prefix of it. */
  lemma {:induction false} ScanSpec(scores: seq<Option<real>>, cats: seq<string>)
    requires |scores| == |cats|
    ensures Scan(scores, cats).need <= 2.0
    ensures forall k :: 0 <= k < |scores| && scores[k].Some? ==> Scan(scores, cats).need <= scores[k].value
    ensures Scan(scores, cats).need == 2.0 ||
            exists k :: 0 <= k < |scores| && scores[k] == Some(Scan(scores, cats).need)
    ensures forall c :: c in Scan(scores, cats).best ==>
              exists k :: 0 <= k < |scores| && cats[k] == c && scores[k].Some?
  {
    if scores != [] {
      var n := |scores| - 1;
      ScanSpec(scores[..n], cats[..n]);
      var Tally(best, need) := Scan(scores[..n], cats[..n]);
      assert forall k :: 0 <= k < n ==> scores[..n][k] == scores[k] && cats[..n][k] == cats[k];
      if need != 2.0 {
        var k :| 0 <= k < n && scores[..n][k] == Some(need);
        assert scores[k] == Some(need);
      }
      forall c | c in Scan(scores, cats).best
        ensures exists k :: 0 <= k < |scores| && cats[k] == c && scores[k].Some?
      {
        if c in best {
          var k :| 0 <= k < n && cats[..n][k] == c && scores[..n][k].Some?;
          assert cats[k] == c && scores[k].Some?;
        } else {
          assert cats[n] == c && scores[n].Some?;
        }
      }
    }
  }

  /** The candidate list of a prefix of the categories is a prefix of the
      candidate list of the whole: candidates are only ever appended. */
  lemma {:induction false} ScanGrows(scores: seq<Option<real>>, cats: seq<string>, m: nat)
    requires |scores| == |cats| && m <= |scores|
    ensures Scan(scores[..m], cats[..m]).best <= Scan(scores, cats).best
    decreases |scores| - m
  {
    if m < |scores| {
      var n := |scores| - 1;
      assert scores[..n][..m] == scores[..m] && cats[..n][..m] == cats[..m];
      ScanGrows(scores[..n], cats[..n], m);
    } else {
      assert scores[..m] == scores && cats[..m] == cats;
    }
  }

  /** Without any score there is no candidate. */
  lemma {:induction false} ScanNone(scores: seq<Option<real>>, cats: seq<string>)
    requires |scores| == |cats|
    requires forall k :: 0 <= k < |scores| ==> scores[k].None?
    ensures Scan(scores, cats).best == []
  {
    if scores != [] {
      var n := |scores| - 1;
      ScanNone(scores[..n], cats[..n]);
    }
  }

  /** With every score at most 2, a single score makes a candidate. */
  lemma {:induction false} ScanSome(scores: seq<Option<real>>, cats: seq<string>, k: nat)
    requires |scores| == |cats| && k < |scores| && scores[k].Some?
    requires forall j :: 0 <= j < |scores| && scores[j].Some? ==> scores[j].value <= 2.0
    ensures Scan(scores, cats).best != []
  {
    var n := |scores| - 1;
    var prev := Scan(scores[..n], cats[..n]);
    assert forall j :: 0 <= j < n ==> scores[..n][j] == scores[j];
    if k < n {
      ScanSome(scores[..n], cats[..n], k);
    } else {
      ScanSpec(scores[..n], cats[..n]);
      if scores[k].value > prev.need {
        var j :| 0 <= j < n && scores[..n][j] == Some(prev.need);
        ScanSome(scores[..n], cats[..n], j);
      }
    }
  }

  /** The first category that attains the least score is always a
      candidate. */
  lemma {:induction false} ScanKeepsFirstMinimum(scores: seq<Option<real>>, cats: seq<string>, k: nat)
    requires |scores| == |cats| && k < |scores| && scores[k].Some?
    requires forall j :: 0 <= j < |scores| && scores[j].Some? ==> scores[k].value <= scores[j].value
    requires forall j :: 0 <= j < k && scores[j].Some? ==> scores[k].value < scores[j].value
    requires scores[k].value <= 2.0
    ensures cats[k] in Scan(scores, cats).best
  {
    var pre, pcats := scores[..k], cats[..k];
    ScanSpec(pre, pcats);
    var Tally(best, need) := Scan(pre, pcats);
    if need != 2.0 {
      var j :| 0 <= j < k && pre[j] == Some(need);
      assert scores[j] == Some(need);
    }
    assert scores[..k + 1][..k] == pre && cats[..k + 1][..k] == pcats;
    var grown := Scan(scores[..k + 1], cats[..k + 1]).best;
    assert grown == best + [cats[k]];
    ScanGrows(scores, cats, k + 1);
    assert Scan(scores, cats).best[|grown| - 1] == grown[|grown| - 1] == cats[k];
  }

  /** The scan does not forget earlier candidates: with scores 0.5 then 0.2
      both categories are candidates, though only the second is least. */
  lemma ScanKeepsEarlierCandidates()
    ensures Scan([Some(0.5), Some(0.2)], ["a", "b"]).best == ["a", "b"]
  {
    assert [Some(0.5), Some(0.2)][..1] == [Some(0.5)];
    assert ["a", "b"][..1] == ["a"];
  }

  /** The card counts of the first `i` words, for every listed category. */
  ghost predicate CountsAt(deck: seq<Word>, cats: seq<string>, counts: map<string, nat>, i: nat)
  {
    && i <= |deck|
    && forall k :: 0 <= k < |cats| ==> cats[k] in counts && counts[cats[k]] == CardCount(deck, cats[k], i)
  }

  /** Counting the cards of word `i` extends the counts by one word. */
  lemma CountsStep(deck: seq<Word>, cats: seq<string>, counts: map<string, nat>, i: nat)
    requires CountsAt(deck, cats, counts, i) && i < |deck| && deck[i].category in counts
    ensures CountsAt(deck, cats, counts[deck[i].category := counts[deck[i].category] + |deck[i].cards|], i + 1)
  {
  }

  /** The elements of a list, as a set. */
  function Members(s: seq<nat>): set<nat>
  {
    set x | x in s
  }

  lemma MembersSnoc(s: seq<nat>, k: nat)
    requires k < |s|
    ensures Members(s[..k + 1]) == Members(s[..k]) + {s[k]}
  {
    assert forall x :: x in s[..k + 1] <==> x in s[..k] || x == s[k];
  }

  // ---------------------------------------------------------------------
  // The contents of the pools

  /** The members of a category's unseen pool and of its overdue pool. */
  datatype Pools = Pools(unseen: set<nat>, overdue: set<nat>)

  /** Per category, the members of its pools. */
  type Stock = map<string, Pools>

  /** Every pooled word is a word of the deck filed under its own category:
      an unseen word in the unseen pool, an overdue word in the overdue
      pool. */
  ghost predicate Routed(stock: Stock, deck: seq<Word>, today: int)
  {
    && (forall c, x :: c in stock && x in stock[c].unseen ==> UnseenIn(deck, c, x))
    && (forall c, x :: c in stock && x in stock[c].overdue ==> OverdueIn(deck, today, c, x))
  }

  /** Word `x` of the deck is an unseen word of category `c`. */
  predicate UnseenIn(deck: seq<Word>, c: string, x: nat)
  {
    x < |deck| && deck[x].category == c && !deck[x].seen
  }

  /** Word `x` of the deck is an overdue word of category `c`. */
  predicate OverdueIn(deck: seq<Word>, today: int, c: string, x: nat)
  {
    x < |deck| && deck[x].category == c && IsOverdue(deck[x], today)
  }

  /** Word `x` of the deck is in a pool of its category. */
  predicate InPool(stock: Stock, deck: seq<Word>, x: nat)
  {
    x < |deck| && deck[x].category in stock && (x in stock[deck[x].category].unseen || x in stock[deck[x].category].overdue)
  }

  /** No word of `taken` is in a pool. */
  ghost predicate Apart(stock: Stock, taken: set<nat>)
  {
    forall c, x :: c in stock && x in taken ==> x !in stock[c].unseen && x !in stock[c].overdue
  }

  /** The pools with the words of `gone` removed from each. */
  function Without(stock: Stock, gone: set<nat>): (r: Stock)
    ensures r.Keys == stock.Keys
    ensures forall c :: c in r ==> r[c].unseen == stock[c].unseen - gone && r[c].overdue == stock[c].overdue - gone
  {
    map c | c in stock :: Pools(stock[c].unseen - gone, stock[c].overdue - gone)
  }

  /** Removing words keeps the pools routed. */
  lemma RoutedWithout(stock: Stock, deck: seq<Word>, today: int, gone: set<nat>)
    requires Routed(stock, deck, today)
    ensures Routed(Without(stock, gone), deck, today)
  {
    var r := Without(stock, gone);
    forall c, x | c in r && x in r[c].unseen
      ensures UnseenIn(deck, c, x)
    {
      assert c in stock && r[c].unseen == stock[c].unseen - gone;
      assert x in stock[c].unseen;
    }
    forall c, x | c in r && x in r[c].overdue
      ensures OverdueIn(deck, today, c, x)
    {
      assert c in stock && r[c].overdue == stock[c].overdue - gone;
      assert x in stock[c].overdue;
    }
  }

  /** Removing words keeps the pools apart from the words handed out. */
  lemma ApartWithout(stock: Stock, taken: set<nat>, gone: set<nat>)
    requires Apart(stock, taken)
    ensures Apart(Without(stock, gone), taken)
  {
    var r := Without(stock, gone);
    forall c, x | c in r && x in taken
      ensures x !in r[c].unseen && x !in r[c].overdue
    {
      assert c in stock;
    }
  }

  lemma WithoutHome(stock: Stock, deck: seq<Word>, today: int, x: nat)
    requires Routed(stock, deck, today) && x < |deck|
    ensures forall c :: c in stock && c != deck[x].category ==> Without(stock, {x})[c] == stock[c]
  {
    forall c | c in stock && c != deck[x].category
      ensures Without(stock, {x})[c] == stock[c]
    {
      assert !UnseenIn(deck, c, x) && !OverdueIn(deck, today, c, x);
      assert Without(stock, {x})[c].unseen == stock[c].unseen;
      assert Without(stock, {x})[c].overdue == stock[c].overdue;
    }
  }

  /** Pools that differ from `stock` only in the home category of word `x`,
      and there only by `x`, are `stock` without `x`, and still routed. */
  lemma TakeOut(stock: Stock, after: Stock, deck: seq<Word>, today: int, x: nat)
    requires Routed(stock, deck, today) && x < |deck| && deck[x].category in stock
    requires after.Keys == stock.Keys
    requires forall c :: c in stock && c != deck[x].category ==> after[c] == stock[c]
    requires after[deck[x].category].unseen == stock[deck[x].category].unseen - {x}
    requires after[deck[x].category].overdue == stock[deck[x].category].overdue - {x}
    ensures after == Without(stock, {x}) && Routed(after, deck, today)
  {
    WithoutHome(stock, deck, today, x);
    StockEq(after, Without(stock, {x}));
    RoutedWithout(stock, deck, today, {x});
  }

  lemma StockEq(a: Stock, b: Stock)
    requires a.Keys == b.Keys
    requires forall c :: c in a ==> a[c].unseen == b[c].unseen && a[c].overdue == b[c].overdue
    ensures a == b
  {
  }

  /** Removing two batches of words one after the other removes their
      union. */
  lemma WithoutWithout(stock: Stock, a: set<nat>, b: set<nat>)
    ensures Without(Without(stock, a), b) == Without(stock, a + b)
  {
    var l, r := Without(Without(stock, a), b), Without(stock, a + b);
    forall c | c in stock
      ensures l[c] == r[c]
    {
      assert l[c].unseen == r[c].unseen && l[c].overdue == r[c].overdue;
    }
  }

  /** Removing no word changes nothing. */
  lemma WithoutNothing(stock: Stock)
    ensures Without(stock, {}) == stock
  {
    var r := Without(stock, {});
    forall c | c in stock
      ensures r[c] == stock[c]
    {
      assert r[c].unseen == stock[c].unseen && r[c].overdue == stock[c].overdue;
    }
  }

  /** Handing out a word that is in neither pool of its own category keeps
      the pools apart from the words handed out: a routed word cannot be in
      the pools of another category. */
  lemma ApartAdd(stock: Stock, deck: seq<Word>, today: int, taken: set<nat>, w: nat)
    requires Routed(stock, deck, today) && Apart(stock, taken) && w < |deck|
    requires deck[w].category in stock
    requires w !in stock[deck[w].category].unseen && w !in stock[deck[w].category].overdue
    ensures Apart(stock, taken + {w})
  {
    forall c, x | c in stock && x in taken + {w}
      ensures x !in stock[c].unseen && x !in stock[c].overdue
    {
      if x == w && c != deck[w].category {
        assert !UnseenIn(deck, c, w) && !OverdueIn(deck, today, c, w);
      }
    }
  }

  // ---------------------------------------------------------------------
  // The supplier

  class CardSupplier {
    /** The words as loaded; the supplier reads only their categories, cards,
        seen flags and due days as they were at construction. */
    const deck: seq<Word>
    const categories: seq<string>
    const confusion: map<nat, seq<nat>>
    const today: int
    /** The need of a category from its cards in play and its card count; in
        the source log(1 + inPlay) / log(1 + cardCount), a fraction because
        the cards in play never outnumber the cards. */
    const score: (nat, nat) -> Fraction
    const unseens: map<string, RandomRemovalSet<nat>>
    const overdue: map<string, RandomRemovalSet<nat>>
    var cardCounts: map<string, nat>
    var inPlay: map<string, nat>
    /** The words handed out so far. */
    ghost var taken: set<nat>
    /** The pools. */
    ghost const Repr: set<RandomRemovalSet<nat>>

    /** A pool pair per listed category, both pools among `Repr`. */
    ghost predicate Paired()
    {
      && (forall c :: c in unseens <==> c in categories)
      && overdue.Keys == unseens.Keys
      && (forall c :: c in unseens ==> unseens[c] in Repr && overdue[c] in Repr)
    }

    /** Two pools per category, all distinct objects, for every category of
        the deck; the rivals of a word are words of the deck. These facts
        concern constants only. */
    ghost predicate Shape()
    {
      && Paired()
      && (forall i :: 0 <= i < |deck| ==> deck[i].category in unseens)
      && (forall a, k :: a in confusion && 0 <= k < |confusion[a]| ==> confusion[a][k] < |deck|)
      && (forall c, d :: c in unseens && d in unseens && c != d ==> unseens[c] != unseens[d] && overdue[c] != overdue[d])
      && (forall c, d :: c in unseens && d in unseens ==> unseens[c] != overdue[d])
    }

    /** The pool pairs, and a card count and an in-play count per category. */
    ghost predicate Keyed()
      reads this
    {
      Paired() && cardCounts.Keys == unseens.Keys && inPlay.Keys == unseens.Keys
    }

    /** The shape, and a card count and an in-play count per category. */
    ghost predicate Layout()
      reads this
    {
      Shape() && Keyed()
    }

    /** The members of each category's pools: its unseen pool, then its
        overdue pool. */
    ghost function Stock(): (r: Stock)
      reads Repr
      requires Paired()
      ensures r.Keys == unseens.Keys
    {
      map c | c in unseens :: Pools(unseens[c].Elements(), overdue[c].Elements())
    }

    /** Every category's in-play count is the number of cards of its words
        handed out, and its card count the number of cards of its words. */
    ghost predicate Tracked()
      reads this
    {
      && inPlay.Keys == cardCounts.Keys
      && (forall x :: x in taken ==> x < |deck|)
      && (forall c :: c in inPlay ==>
            inPlay[c] == InPlayOf(deck, taken, c, |deck|) && cardCounts[c] == CardCount(deck, c, |deck|))
    }

    ghost predicate Valid()
      reads this, Repr
    {
      && Layout()
      && Tracked()
      && PoolsValid()
      && Routed(Stock(), deck, today)
      && Apart(Stock(), taken)
    }

    /** Every pool is a consistent set. */
    ghost predicate PoolsValid()
      reads Repr
      requires Paired()
    {
      forall c :: c in unseens ==> unseens[c].Valid() && overdue[c].Valid()
    }

    /** The word is still in one of the pools of its category. */
    ghost predicate Pooled(w: nat)
      reads Repr
      requires Shape() && w < |deck|
    {
      var p := Stock()[deck[w].category];
      w in p.unseen || w in p.overdue
    }

    /** Every pool is empty. */
    ghost predicate AllEmpty()
      reads this, Repr
      requires Keyed()
    {
      forall c :: c in unseens ==> unseens[c].Elements() == {} && overdue[c].Elements() == {}
    }

    /** The rivals of a word: its list in the confusion map, if any. */
    function Rivals(w: nat): seq<nat>
    {
      if w in confusion then confusion[w] else []
    }

    /** Builds a pool pair per category, counts the cards of each category and
        routes every word: unseen words to the unseen pool, seen words due by
        today to the overdue pool, the others nowhere. */
    constructor (db: WordDatabase, score: (nat, nat) -> Fraction)
      requires db.Covers()
      requires forall i :: 0 <= i < |db.words| && db.words[i].seen ==> db.words[i].duedate.Some?
      ensures Valid() && fresh(Repr)
      ensures deck == db.words && categories == db.categories && confusion == db.confusion
      ensures today == db.today && this.score == score && taken == {}
      ensures forall c :: c in unseens ==>
                && unseens[c].content == UnseenOf(deck, c, |deck|)
                && overdue[c].content == OverdueOf(deck, c, today, |deck|)
                && inPlay[c] == 0 && cardCounts[c] == CardCount(deck, c, |deck|)
    {
      deck, categories, confusion, today, this.score := db.words, db.categories, db.confusion, db.today, score;
      var u, o, counts, play, pools := Build(db.words, db.today, db.categories);
      unseens, overdue, cardCounts, inPlay, taken, Repr := u, o, counts, play, {}, pools;
      new;
      BuiltIsValid();
    }

    /** Once every word is routed the pools of `c` hold exactly the words
        the routing admits. */
    lemma RoutedPools(c: string)
      requires c in unseens && c in overdue && RoutedUpTo(unseens[c], overdue[c], deck, c, today, |deck|)
      ensures forall x :: x in unseens[c].Elements() ==> x < |deck| && deck[x].category == c && !deck[x].seen
      ensures forall x :: x in overdue[c].Elements() ==> x < |deck| && deck[x].category == c && IsOverdue(deck[x], today)
    {
      IndexedIsDistinct(unseens[c].content, unseens[c].indices);
      IndexedIsDistinct(overdue[c].content, overdue[c].indices);
      RoutedSpec(deck, c, today, |deck|);
    }

    /** Once every word is routed the supplier is valid and its pools hold
        exactly the words the routing admits. */
    lemma BuiltIsValid()
      requires Layout() && taken == {} && CountsAt(deck, categories, cardCounts, |deck|)
      requires forall c :: c in inPlay ==> inPlay[c] == 0
      requires AllRouted(categories, unseens, overdue, Repr, deck, today, |deck|)
      ensures Valid()
      ensures forall c :: c in unseens ==>
                && unseens[c].content == UnseenOf(deck, c, |deck|)
                && overdue[c].content == OverdueOf(deck, c, today, |deck|)
                && inPlay[c] == 0 && cardCounts[c] == CardCount(deck, c, |deck|)
    {
      forall c | c in unseens
        ensures RoutedUpTo(unseens[c], overdue[c], deck, c, today, |deck|)
        ensures cardCounts[c] == CardCount(deck, c, |deck|)
      {
        var k :| 0 <= k < |categories| && categories[k] == c;
      }
      assert Tracked() by {
        forall c | c in inPlay
          ensures InPlayOf(deck, {}, c, |deck|) == 0
        {
          InPlayOfNone(deck, c, |deck|);
        }
      }
      assert Routed(Stock(), deck, today) by {
        forall c | c in unseens
          ensures forall x :: x in unseens[c].Elements() ==> UnseenIn(deck, c, x)
          ensures forall x :: x in overdue[c].Elements() ==> OverdueIn(deck, today, c, x)
        {
          RoutedPools(c);
        }
      }
    }

    // -------------------------------------------------------------------
    // cardsPlease

    /** The score of category `c`, or None when both its pools are empty. */
    ghost function ScoreOf(c: string): (r: Option<real>)
      reads this, Repr
      requires Keyed() && c in unseens
      ensures r.None? <==> unseens[c].Elements() == {} && overdue[c].Elements() == {}
      ensures r.Some? ==> 0.0 <= r.value <= 1.0
    {
      if unseens[c].Elements() == {} && overdue[c].Elements() == {} then None
      else Some(score(inPlay[c], cardCounts[c]))
    }

    /** The scores of the first `n` categories, in order. */
    ghost function ScoresOf(n: nat): (r: seq<Option<real>>)
      reads this, Repr
      requires Keyed() && n <= |categories|
      ensures |r| == n
    {
      if n == 0 then [] else ScoresOf(n - 1) + [ScoreOf(categories[n - 1])]
    }

    lemma {:induction false} ScoresOfSpec(n: nat)
      requires Keyed() && n <= |categories|
      ensures forall k :: 0 <= k < n ==> ScoresOf(n)[k] == ScoreOf(categories[k])
    {
      if n > 0 {
        ScoresOfSpec(n - 1);
      }
    }

    /** The candidate categories of cardsPlease. */
    ghost function Candidates(): seq<string>
      reads this, Repr
      requires Keyed()
    {
      Scan(ScoresOf(|categories|), categories).best
    }

    /** The loop of cardsPlease that collects the candidate categories. */
    method BestCategories() returns (best: seq<string>, need: real)
      requires Keyed() && PoolsValid()
      ensures Tally(best, need) == Scan(ScoresOf(|categories|), categories)
    {
      best, need := [], 2.0;
      var k := 0;
      while k < |categories|
        invariant k <= |categories|
        invariant Tally(best, need) == Scan(ScoresOf(k), categories[..k])
      {
        best, need := ScanCategory(k, best, need);
        k := k + 1;
      }
      assert categories[..k] == categories;
    }

    /** One turn of the loop of cardsPlease, on the category `c` at
        position `k`: `c` is skipped when both its pools are empty; otherwise
        the running minimum is lowered to its score if that is lower, and `c`
        is appended when its score equals the running minimum. */
    method ScanCategory(k: nat, best: seq<string>, need: real) returns (best': seq<string>, need': real)
      requires Keyed() && PoolsValid() && k < |categories|
      requires Tally(best, need) == Scan(ScoresOf(k), categories[..k])
      ensures Tally(best', need') == Scan(ScoresOf(k + 1), categories[..k + 1])
    {
      var c := categories[k];
      ScanSnoc(ScoresOf(k), categories[..k], ScoreOf(c), c);
      assert categories[..k + 1] == categories[..k] + [c];
      best', need' := best, need;
      if unseens[c].Size() + overdue[c].Size() != 0 {
        var s := score(inPlay[c], cardCounts[c]);
        if s < need' {
          need' := s;
        }
        if s == need' {
          best' := best' + [c];
        }
      }
    }

    /** A candidate is a category with a nonempty pool; there is no
        candidate exactly when every pool is empty. */
    lemma CandidatesSpec()
      requires Keyed()
      ensures forall c :: c in Candidates() ==> c in unseens && ScoreOf(c).Some?
      ensures Candidates() == [] <==> AllEmpty()
    {
      CandidatesPooled();
      CandidatesExist();
    }

    /** Every candidate is a category with a nonempty pool. */
    lemma CandidatesPooled()
      requires Keyed()
      ensures forall c :: c in Candidates() ==> c in unseens && ScoreOf(c).Some?
    {
      var scores := ScoresOf(|categories|);
      ScoresOfSpec(|categories|);
      ScanSpec(scores, categories);
      forall c | c in Candidates()
        ensures c in unseens && ScoreOf(c).Some?
      {
        var k :| 0 <= k < |scores| && categories[k] == c && scores[k].Some?;
      }
    }

    /** There is a candidate unless every pool is empty. */
    lemma CandidatesExist()
      requires Keyed()
      ensures Candidates() == [] <==> AllEmpty()
    {
      var scores := ScoresOf(|categories|);
      ScoresOfSpec(|categories|);
      if AllEmpty() {
        forall k | 0 <= k < |scores|
          ensures scores[k].None?
        {
          assert categories[k] in unseens;
        }
        ScanNone(scores, categories);
      } else {
        forall k | 0 <= k < |scores| && scores[k].Some?
          ensures scores[k].value <= 2.0
        {
          assert scores[k] == ScoreOf(categories[k]);
        }
        var c :| c in unseens && (unseens[c].Elements() != {} || overdue[c].Elements() != {});
        var k :| 0 <= k < |categories| && categories[k] == c;
        assert scores[k].Some?;
        ScanSome(scores, categories, k);
      }
    }

    /** The pool cardsPlease draws from in category `c`: the overdue pool
        when the unseen one is empty, the unseen pool when the overdue one is
        empty, and otherwise the one `coin` names (`rand < $Adventure`). */
    ghost function Which(c: string, coin: bool): RandomRemovalSet<nat>
      reads Repr
      requires Paired() && c in unseens
    {
      if unseens[c].Elements() == {} then overdue[c]
      else if overdue[c].Elements() == {} then unseens[c]
      else if coin then unseens[c]
      else overdue[c]
    }

    // -------------------------------------------------------------------
    // steal

    /** Removes `rival` from both pools of its category; a word is pooled
        only in its own category, so it leaves every pool. */
    method Withdraw(rival: nat)
      requires Shape() && PoolsValid() && Routed(Stock(), deck, today) && rival < |deck|
      modifies unseens[deck[rival].category], overdue[deck[rival].category]
      ensures PoolsValid() && Routed(Stock(), deck, today) && unchanged(this)
      ensures Stock() == Without(old(Stock()), {rival})
    {
      var c2 := deck[rival].category;
      ghost var before := Stock();
      RemoveBoth(unseens[c2], overdue[c2], rival);
      forall c | c in unseens && c != c2
        ensures Stock()[c] == before[c]
      {
      }
      TakeOut(before, Stock(), deck, today, rival);
    }

    /** Withdraws every word of `rivals`, in order. */
    method WithdrawAll(rivals: seq<nat>)
      requires Shape() && PoolsValid() && Routed(Stock(), deck, today)
      requires forall k :: 0 <= k < |rivals| ==> rivals[k] < |deck|
      modifies Repr
      ensures PoolsValid() && Routed(Stock(), deck, today) && unchanged(this)
      ensures Stock() == Without(old(Stock()), Members(rivals))
    {
      var k := 0;
      WithoutNothing(Stock());
      assert Members(rivals[..0]) == {};
      while k < |rivals|
        invariant k <= |rivals| && PoolsValid() && Routed(Stock(), deck, today) && unchanged(this)
        invariant Stock() == Without(old(Stock()), Members(rivals[..k]))
      {
        MembersSnoc(rivals, k);
        WithoutWithout(old(Stock()), Members(rivals[..k]), {rivals[k]});
        Withdraw(rivals[k]);
        k := k + 1;
      }
      assert rivals[..k] == rivals;
    }

    /** The in-play update of steal: the cards of `w` are added to the count
        of its category. */
    method Account(w: nat)
      requires Shape() && Keyed() && Tracked() && w < |deck| && w !in taken
      modifies this`inPlay, this`taken
      ensures Keyed() && Tracked() && unchanged(Repr)
      ensures taken == old(taken) + {w}
      ensures inPlay == old(inPlay)[deck[w].category := old(inPlay[deck[w].category]) + |deck[w].cards|]
    {
      var c := deck[w].category;
      inPlay := inPlay[c := inPlay[c] + |deck[w].cards|];
      taken := taken + {w};
      forall d | d in inPlay
        ensures inPlay[d] == InPlayOf(deck, taken, d, |deck|)
      {
        InPlayAdd(deck, old(taken), w, d, |deck|);
      }
    }

    /** Hands out word `w`, which has just left its pool: its cards go into
        play and every rival in its confusion list leaves the pools. The
        result is the word's cards (a fresh copy of the list in the source; a
        value here). */
    method Steal(w: nat) returns (cards: seq<Card>)
      requires Valid() && w < |deck| && w !in taken && !Pooled(w)
      modifies this`inPlay, this`taken, Repr
      ensures Valid()
      ensures cards == deck[w].cards
      ensures taken == old(taken) + {w}
      ensures inPlay == old(inPlay)[deck[w].category := old(inPlay[deck[w].category]) + |deck[w].cards|]
      ensures Stock() == Without(old(Stock()), Members(Rivals(w)))
    {
      Take(w);
      WithdrawRivals(w);
      cards := deck[w].cards;
    }

    /** The first half of steal: word `w`, in no pool, is handed out. */
    method Take(w: nat)
      requires Valid() && w < |deck| && w !in taken && !Pooled(w)
      modifies this`inPlay, this`taken
      ensures Valid() && unchanged(Repr) && Stock() == old(Stock())
      ensures taken == old(taken) + {w}
      ensures inPlay == old(inPlay)[deck[w].category := old(inPlay[deck[w].category]) + |deck[w].cards|]
    {
      Account(w);
      ApartAdd(Stock(), deck, today, old(taken), w);
    }

    /** The second half of steal: the rivals of `w` leave the pools. */
    method WithdrawRivals(w: nat)
      requires Valid()
      modifies Repr
      ensures Valid() && unchanged(this)
      ensures Stock() == Without(old(Stock()), Members(Rivals(w)))
    {
      ghost var before := Stock();
      WithdrawAll(Rivals(w));
      ApartWithout(before, taken, Members(Rivals(w)));
    }

    // -------------------------------------------------------------------
    // cardsPlease

    /** The pool `Which` names, given as a flag: true for the unseen
        pool. */
    function FromUnseen(c: string, coin: bool): (r: bool)
      reads Repr
      requires Paired() && PoolsValid() && c in unseens
      ensures (if r then unseens[c] else overdue[c]) == Which(c, coin)
    {
      if unseens[c].Size() == 0 then false
      else if overdue[c].Size() == 0 then true
      else coin
    }

    /** The random pull of cardsPlease from category `c`, which has a
        nonempty pool: the pool is chosen by the rule of `Which`, and the
        member at position `draw % size` of it leaves the pools. */
    method Draw(c: string, coin: bool, draw: nat) returns (w: nat)
      requires Shape() && PoolsValid() && Routed(Stock(), deck, today) && c in unseens
      requires unseens[c].Elements() != {} || overdue[c].Elements() != {}
      modifies unseens[c], overdue[c]
      ensures PoolsValid() && Routed(Stock(), deck, today) && unchanged(this)
      ensures old(Which(c, coin).content) != []
      ensures old(Which(c, coin).content) != [] ==>
                w == old(Which(c, coin).content[draw % |Which(c, coin).content|])
      ensures w < |deck| && deck[w].category == c && (w in old(Stock())[c].unseen || w in old(Stock())[c].overdue)
      ensures Stock() == Without(old(Stock()), {w})
    {
      if FromUnseen(c, coin) {
        w := PullUnseen(c, draw);
      } else {
        w := PullOverdue(c, draw);
      }
    }

    /** Taking a pooled word `w` out of the pools, and touching nothing
        else, keeps the supplier consistent; `w` is then neither handed out
        nor pooled. */
    twostate lemma PulledIsValid(w: nat)
      requires old(Valid()) && unchanged(this) && w < |deck|
      requires w in old(Stock())[deck[w].category].unseen || w in old(Stock())[deck[w].category].overdue
      requires PoolsValid() && Routed(Stock(), deck, today) && Stock() == Without(old(Stock()), {w})
      ensures Valid() && w !in taken && !Pooled(w)
    {
      ApartWithout(old(Stock()), taken, {w});
    }

    /** Pulls the member at position `draw % size` from the unseen pool of
        `c`. */
    method PullUnseen(c: string, draw: nat) returns (w: nat)
      requires Shape() && PoolsValid() && Routed(Stock(), deck, today) && c in unseens
      requires unseens[c].Elements() != {}
      modifies unseens[c]
      ensures PoolsValid() && Routed(Stock(), deck, today) && unchanged(this)
      ensures old(unseens[c].content) != [] && w == old(unseens[c].content[draw % |unseens[c].content|])
      ensures w < |deck| && deck[w].category == c && w in old(Stock())[c].unseen
      ensures Stock() == Without(old(Stock()), {w})
    {
      ghost var before := Stock();
      w := Pull(unseens[c], draw);
      forall d | d in unseens && d != c
        ensures Stock()[d] == before[d]
      {
      }
      assert UnseenIn(deck, c, w) && !OverdueIn(deck, today, c, w);
      TakeOut(before, Stock(), deck, today, w);
    }

    /** Pulls the member at position `draw % size` from the overdue pool of
        `c`. */
    method PullOverdue(c: string, draw: nat) returns (w: nat)
      requires Shape() && PoolsValid() && Routed(Stock(), deck, today) && c in unseens
      requires overdue[c].Elements() != {}
      modifies overdue[c]
      ensures PoolsValid() && Routed(Stock(), deck, today) && unchanged(this)
      ensures old(overdue[c].content) != [] && w == old(overdue[c].content[draw % |overdue[c].content|])
      ensures w < |deck| && deck[w].category == c && w in old(Stock())[c].overdue
      ensures Stock() == Without(old(Stock()), {w})
    {
      ghost var before := Stock();
      w := Pull(overdue[c], draw);
      forall d | d in unseens && d != c
        ensures Stock()[d] == before[d]
      {
      }
      assert OverdueIn(deck, today, c, w) && !UnseenIn(deck, c, w);
      TakeOut(before, Stock(), deck, today, w);
    }

    /** The nonempty case of cardsPlease once the category is picked: a word
        is drawn from one of its pools and stolen. */
    method Serve(c: string, coin: bool, draw: nat) returns (cards: seq<Card>, w: nat)
      requires Valid() && c in unseens && ScoreOf(c).Some?
      modifies this`inPlay, this`taken, Repr
      ensures Valid()
      ensures old(Which(c, coin).content) != []
      ensures old(Which(c, coin).content) != [] ==>
                w == old(Which(c, coin).content[draw % |Which(c, coin).content|])
      ensures w < |deck| && deck[w].category == c && w !in old(taken)
      ensures cards == deck[w].cards
      ensures taken == old(taken) + {w}
      ensures Stock() == Without(old(Stock()), {w} + Members(Rivals(w)))
    {
      w := Draw(c, coin, draw);
      PulledIsValid(w);
      cards := Steal(w);
      WithoutWithout(old(Stock()), {w}, Members(Rivals(w)));
    }

    /** What cardsPlease consults depends only on the supplier and its
        pools: the candidates, the members of the pools and the pool the coin
        picks in each category. */
    twostate lemma Unmoved()
      requires old(Valid()) && unchanged(this) && unchanged(Repr)
      ensures Valid() && Candidates() == old(Candidates())
      ensures Stock() == old(Stock())
      ensures forall c, coin :: c in unseens ==>
                Which(c, coin) == old(Which(c, coin)) && Which(c, coin).content == old(Which(c, coin).content)
    {
      SameStock();
    }

    /** The members of the pools and the pool the coin picks depend only on
        the supplier and its pools. */
    twostate lemma SameStock()
      requires old(Valid()) && unchanged(this) && unchanged(Repr)
      ensures Valid() && Stock() == old(Stock())
      ensures forall c, coin :: c in unseens ==>
                Which(c, coin) == old(Which(c, coin)) && Which(c, coin).content == old(Which(c, coin).content)
    {
    }

    /** cardsPlease: the candidate categories are collected, one of them is
        picked (`pick` stands for the shuffle: the candidate at position
        `pick % count` comes first), a word is pulled from one of its pools
        and stolen. With every pool empty nothing changes and no card is
        returned. `chosen` names the word handed out. */
    method CardsPlease(pick: nat, coin: bool, draw: nat) returns (cards: seq<Card>, ghost chosen: Option<nat>)
      requires Valid()
      modifies this`inPlay, this`taken, Repr
      ensures Valid()
      ensures chosen.None? <==> old(AllEmpty())
      ensures chosen.None? ==> cards == [] && unchanged(this) && unchanged(Repr)
      ensures chosen.Some? ==>
                var w, best := chosen.value, old(Candidates());
                && best != [] && w < |deck| && deck[w].category == best[pick % |best|]
                && old(Which(deck[w].category, coin).content) != []
                && w == old(Which(deck[w].category, coin).content[draw % |Which(deck[w].category, coin).content|])
                && w !in old(taken) && taken == old(taken) + {w}
                && cards == deck[w].cards
                && Stock() == Without(old(Stock()), {w} + Members(Rivals(w)))
    {
      var best, need := BestCategories();
      CandidatesSpec();
      if |best| == 0 {
        return [], None;
      }
      var category := best[pick % |best|];
      Unmoved();
      ghost var w;
      cards, w := Serve(category, coin, draw);
      chosen := Some(w);
    }

    // -------------------------------------------------------------------
    // steal as first written

    /** `steal`'s removal of one rival when `remove` is the first version:
        it fails (`ok` is false) exactly when the rival is in a pool, and the
        pools keep their members either way. */
    method WithdrawFirstVersion(rival: nat) returns (ok: bool)
      requires Shape() && PoolsValid() && rival < |deck|
      modifies unseens[deck[rival].category], overdue[deck[rival].category]
      ensures PoolsValid() && unchanged(this) && Stock() == old(Stock())
      ensures ok <==> !InPool(old(Stock()), deck, rival)
    {
      var c2 := deck[rival].category;
      ghost var before := Stock();
      ok := RemoveBothFirstVersion(unseens[c2], overdue[c2], rival);
      forall c | c in unseens
        ensures Stock()[c].unseen == before[c].unseen && Stock()[c].overdue == before[c].overdue
      {
      }
      StockEq(Stock(), before);
    }

    /** The rival loop of `steal` with the first version of `remove`: the
        rivals are withdrawn in order until one of them is still in a pool,
        where the source stops with an error (`ok` false). */
    method WithdrawAllFirstVersion(rivals: seq<nat>) returns (ok: bool)
      requires Shape() && PoolsValid()
      requires forall k :: 0 <= k < |rivals| ==> rivals[k] < |deck|
      modifies Repr
      ensures PoolsValid() && unchanged(this) && Stock() == old(Stock())
      ensures ok <==> forall k :: 0 <= k < |rivals| ==> !InPool(old(Stock()), deck, rivals[k])
    {
      ok := true;
      var k := 0;
      while k < |rivals| && ok
        invariant k <= |rivals| && PoolsValid() && unchanged(this) && Stock() == old(Stock())
        invariant ok <==> forall j :: 0 <= j < k ==> !InPool(old(Stock()), deck, rivals[j])
      {
        ok := WithdrawFirstVersion(rivals[k]);
        k := k + 1;
      }
    }

    /** Reordering the pools without changing their members, and touching
        nothing else, keeps the supplier consistent. */
    twostate lemma ReorderedIsValid()
      requires old(Valid()) && unchanged(this) && PoolsValid() && Stock() == old(Stock())
      ensures Valid()
    {
    }

    /** `steal` with the first version of `remove`: the word is handed out,
        then its rivals are withdrawn until the source stops with an error.
        `ok` is false exactly when some rival of `w` was pooled; the pools
        keep their members. */
    method StealFirstVersion(w: nat) returns (cards: seq<Card>, ok: bool)
      requires Valid() && w < |deck| && w !in taken && !Pooled(w)
      modifies this`inPlay, this`taken, Repr
      ensures Valid()
      ensures ok <==> forall k :: 0 <= k < |Rivals(w)| ==> !InPool(old(Stock()), deck, Rivals(w)[k])
      ensures ok ==> cards == deck[w].cards
      ensures taken == old(taken) + {w}
      ensures Stock() == old(Stock())
    {
      ok := WithdrawAllFirstVersion(Rivals(w));
      ReorderedIsValid();
      Take(w);
      if ok {
        cards := deck[w].cards;
      } else {
        cards := [];
      }
    }
  }

  /** Routes word `i` of category `c` into the unseen pool `u` or the
      overdue pool `o` of `c`: an unseen word into `u`, a seen word due by
      `today` into `o`, any other word nowhere. */
  method RouteInto(u: RandomRemovalSet<nat>, o: RandomRemovalSet<nat>, deck: seq<Word>, c: string, today: int, i: nat)
    requires u != o && u.Valid() && o.Valid() && i < |deck| && deck[i].category == c
    requires deck[i].seen ==> deck[i].duedate.Some?
    requires u.content == UnseenOf(deck, c, i) && o.content == OverdueOf(deck, c, today, i)
    modifies u, o
    ensures u.Valid() && o.Valid()
    ensures u.content == UnseenOf(deck, c, i + 1) && o.content == OverdueOf(deck, c, today, i + 1)
  {
    NotYetRouted(deck, c, today, i);
    var w := deck[i];
    if w.seen {
      if w.duedate.value <= today {
        o.Add(i);
      }
    } else {
      u.Add(i);
    }
  }

  method RemoveBoth(u: RandomRemovalSet<nat>, o: RandomRemovalSet<nat>, x: nat)
    requires u != o && u.Valid() && o.Valid()
    modifies u, o
    ensures u.Valid() && o.Valid()
    ensures u.Elements() == old(u.Elements()) - {x} && o.Elements() == old(o.Elements()) - {x}
  {
    u.Remove(x);
    o.Remove(x);
  }

  /** The two removals of a rival with the first version of `remove`: the
      second runs only when the first did not fail. */
  method RemoveBothFirstVersion(u: RandomRemovalSet<nat>, o: RandomRemovalSet<nat>, x: nat) returns (ok: bool)
    requires u != o && u.Valid() && o.Valid()
    modifies u, o
    ensures u.Valid() && o.Valid()
    ensures u.Elements() == old(u.Elements()) && o.Elements() == old(o.Elements())
    ensures ok <==> x !in old(u.Elements()) && x !in old(o.Elements())
  {
    ok := u.RemoveFirstVersion(x);
    if ok {
      ok := o.RemoveFirstVersion(x);
    }
  }

  /** `pullRandom` on a nonempty pool: the member at position
      `draw % size` leaves it. */
  method Pull(p: RandomRemovalSet<nat>, draw: nat) returns (w: nat)
    requires p.Valid() && p.Elements() != {}
    modifies p
    ensures p.Valid() && old(p.content) != []
    ensures w == old(p.content[draw % |p.content|])
    ensures w in old(p.Elements()) && p.Elements() == old(p.Elements()) - {w}
  {
    IndexedCount(p.content, p.indices);
    var r := p.PullRandom(draw);
    w := r.value;
  }

  /** A fresh empty unseen pool and a fresh empty overdue pool. */
  method NewPair() returns (p: RandomRemovalSet<nat>, q: RandomRemovalSet<nat>)
    ensures fresh(p) && fresh(q) && p != q
    ensures p.Valid() && q.Valid() && p.content == [] && q.content == []
  {
    p := new RandomRemovalSet<nat>();
    q := new RandomRemovalSet<nat>();
  }

  /** The first loop of the supplier's constructor: an empty pool pair, a
      zero card count and nothing in play for every category. */
  method MakePools(categories: seq<string>)
    returns (u: map<string, RandomRemovalSet<nat>>, o: map<string, RandomRemovalSet<nat>>,
             counts: map<string, nat>, play: map<string, nat>, ghost pools: set<RandomRemovalSet<nat>>)
    ensures fresh(pools)
    ensures forall c :: c in u <==> c in categories
    ensures o.Keys == u.Keys && counts.Keys == u.Keys && play.Keys == u.Keys
    ensures forall c :: c in u ==> u[c] in pools && o[c] in pools
    ensures forall c :: c in u ==>
              && u[c].Valid() && o[c].Valid()
              && u[c].content == [] && o[c].content == [] && counts[c] == 0 && play[c] == 0
    ensures forall c, d :: c in u && d in u && c != d ==> u[c] != u[d] && o[c] != o[d]
    ensures forall c, d :: c in u && d in u ==> u[c] != o[d]
  {
    u, o, counts, play, pools := map[], map[], map[], map[], {};
    var k := 0;
    while k < |categories|
      invariant 0 <= k <= |categories|
      invariant fresh(pools)
      invariant forall c :: c in u <==> c in categories[..k]
      invariant o.Keys == u.Keys && counts.Keys == u.Keys && play.Keys == u.Keys
      invariant forall c :: c in u ==> u[c] in pools && o[c] in pools
      invariant forall c :: c in u ==>
                  && u[c].Valid() && o[c].Valid()
                  && u[c].content == [] && o[c].content == [] && counts[c] == 0 && play[c] == 0
      invariant forall c, d :: c in u && d in u && c != d ==> u[c] != u[d] && o[c] != o[d]
      invariant forall c, d :: c in u && d in u ==> u[c] != o[d]
    {
      var c := categories[k];
      assert categories[..k + 1] == categories[..k] + [c];
      var p, q := NewPair();
      u, o, counts, play, pools := u[c := p], o[c := q], counts[c := 0], play[c := 0], pools + {p, q};
      k := k + 1;
    }
    assert categories[..k] == categories;
  }

  /** The first loop of the supplier's constructor as deck_manager.rb:28-33
      write it. Its pools are made with `RandomRemoval.new`, a class neither
      deck_manager.rb nor the structs.rb it loads defines (the set is
      `RandomRemovalSet`), so the first turn raises NameError. `ok` is false
      when the loop raises. */
  method MakePoolsAsWritten(categories: seq<string>) returns (ok: bool)
    ensures ok <==> |categories| == 0
  {
    ok := true;
    var k := 0;
    while k < |categories| && ok
      invariant k <= |categories|
      invariant ok <==> k == 0
    {
      // `@unseens[c] = RandomRemoval.new`: the constant is undefined
      ok := false;
      k := k + 1;
    }
  }

  /** The two loops of the supplier's constructor: pools and counts for
      every category, then every word counted and routed. */
  method Build(deck: seq<Word>, today: int, cats: seq<string>)
    returns (u: map<string, RandomRemovalSet<nat>>, o: map<string, RandomRemovalSet<nat>>,
             counts: map<string, nat>, play: map<string, nat>, ghost pools: set<RandomRemovalSet<nat>>)
    requires Routable(deck, cats)
    ensures fresh(pools)
    ensures forall c :: c in u <==> c in cats
    ensures o.Keys == u.Keys && counts.Keys == u.Keys && play.Keys == u.Keys
    ensures forall c :: c in u ==> u[c] in pools && o[c] in pools && play[c] == 0
    ensures forall c, d :: c in u && d in u && c != d ==> u[c] != u[d] && o[c] != o[d]
    ensures forall c, d :: c in u && d in u ==> u[c] != o[d]
    ensures CountsAt(deck, cats, counts, |deck|) && AllRouted(cats, u, o, pools, deck, today, |deck|)
  {
    var blank;
    u, o, blank, play, pools := MakePools(cats);
    BlankRoutable(deck, today, cats, u, o, blank, pools);
    counts := RouteWords(deck, today, cats, u, o, pools, blank, 0);
  }

  /** Fresh empty pools and zero counts are routed for an empty prefix of
      the deck. */
  lemma BlankRoutable(deck: seq<Word>, today: int, cats: seq<string>, u: map<string, RandomRemovalSet<nat>>,
                      o: map<string, RandomRemovalSet<nat>>, counts: map<string, nat>,
                      pools: set<RandomRemovalSet<nat>>)
    requires forall c :: c in u <==> c in cats
    requires o.Keys == u.Keys && counts.Keys == u.Keys
    requires forall c :: c in u ==> u[c] in pools && o[c] in pools
    requires forall c :: c in u ==>
               && u[c].Valid() && o[c].Valid()
               && u[c].content == [] && o[c].content == [] && counts[c] == 0
    requires forall c, d :: c in u && d in u && c != d ==> u[c] != u[d] && o[c] != o[d]
    requires forall c, d :: c in u && d in u ==> u[c] != o[d]
    ensures Disjoint(cats, u, o, pools) && CountsAt(deck, cats, counts, 0)
    ensures AllRouted(cats, u, o, pools, deck, today, 0)
  {
  }

  /** The pools `p` and `q` of category `c` after routing the first `i`
      words. */
  ghost predicate RoutedUpTo(p: RandomRemovalSet<nat>, q: RandomRemovalSet<nat>, deck: seq<Word>, c: string, today: int, i: nat)
    reads p, q
  {
    && i <= |deck| && p.Valid() && q.Valid()
    && p.content == UnseenOf(deck, c, i) && q.content == OverdueOf(deck, c, today, i)
  }

  /** Each listed category has two pools among `pools`, and no pool serves
      two roles. */
  ghost predicate Disjoint(cats: seq<string>, u: map<string, RandomRemovalSet<nat>>, o: map<string, RandomRemovalSet<nat>>,
                           pools: set<RandomRemovalSet<nat>>)
  {
    && (forall k :: 0 <= k < |cats| ==> cats[k] in u && cats[k] in o && u[cats[k]] in pools && o[cats[k]] in pools)
    && forall j, k :: 0 <= j < |cats| && 0 <= k < |cats| && cats[j] in u && cats[k] in u && cats[j] in o && cats[k] in o ==>
         && (cats[j] != cats[k] ==> u[cats[j]] != u[cats[k]] && o[cats[j]] != o[cats[k]])
         && u[cats[j]] != o[cats[k]]
  }

  /** Every word of the deck has a listed category, and every seen word has
      a due day. */
  ghost predicate Routable(deck: seq<Word>, cats: seq<string>)
  {
    && (forall i :: 0 <= i < |deck| ==> deck[i].category in cats)
    && (forall i :: 0 <= i < |deck| && deck[i].seen ==> deck[i].duedate.Some?)
  }

  /** The pools of every listed category after routing the first `i`
      words. */
  ghost predicate AllRouted(cats: seq<string>, u: map<string, RandomRemovalSet<nat>>, o: map<string, RandomRemovalSet<nat>>,
                            pools: set<RandomRemovalSet<nat>>, deck: seq<Word>, today: int, i: nat)
    reads pools
  {
    forall k :: 0 <= k < |cats| && cats[k] in u && cats[k] in o && u[cats[k]] in pools && o[cats[k]] in pools ==>
      RoutedUpTo(u[cats[k]], o[cats[k]], deck, cats[k], today, i)
  }

  /** The second loop of the supplier's constructor, from word `i` on: the
      cards of every word are counted in its category and the word goes into
      a pool of its category or nowhere. Each call is one turn of the loop. */
  method RouteWords(deck: seq<Word>, today: int, cats: seq<string>, u: map<string, RandomRemovalSet<nat>>,
                    o: map<string, RandomRemovalSet<nat>>, ghost pools: set<RandomRemovalSet<nat>>,
                    counts: map<string, nat>, i: nat)
    returns (counted: map<string, nat>)
    requires i <= |deck| && Routable(deck, cats) && Disjoint(cats, u, o, pools)
    requires CountsAt(deck, cats, counts, i) && AllRouted(cats, u, o, pools, deck, today, i)
    modifies pools
    decreases |deck| - i
    ensures counted.Keys == counts.Keys
    ensures CountsAt(deck, cats, counted, |deck|) && AllRouted(cats, u, o, pools, deck, today, |deck|)
  {
    if i == |deck| {
      return counts;
    }
    var next := RouteStep(deck, today, cats, u, o, pools, counts, i);
    counted := RouteWords(deck, today, cats, u, o, pools, next, i + 1);
  }

  /** One turn of the constructor's second loop: word `i` is counted and
      routed; the pools of other categories stay as they are. */
  method RouteStep(deck: seq<Word>, today: int, cats: seq<string>, u: map<string, RandomRemovalSet<nat>>,
                   o: map<string, RandomRemovalSet<nat>>, ghost pools: set<RandomRemovalSet<nat>>,
                   counted: map<string, nat>, i: nat)
    returns (next: map<string, nat>)
    requires i < |deck| && Routable(deck, cats) && Disjoint(cats, u, o, pools)
    requires CountsAt(deck, cats, counted, i) && AllRouted(cats, u, o, pools, deck, today, i)
    modifies pools
    ensures next.Keys == counted.Keys
    ensures CountsAt(deck, cats, next, i + 1) && AllRouted(cats, u, o, pools, deck, today, i + 1)
  {
    var c := deck[i].category;
    var m :| 0 <= m < |cats| && cats[m] == c;
    CountsStep(deck, cats, counted, i);
    next := counted[c := counted[c] + |deck[i].cards|];
    RouteInto(u[c], o[c], deck, c, today, i);
    forall k | 0 <= k < |cats| && cats[k] != c
      ensures RoutedUpTo(u[cats[k]], o[cats[k]], deck, cats[k], today, i + 1)
    {
      RoutedElsewhere(deck, cats[k], today, i);
    }
  }
}
